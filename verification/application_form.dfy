/** The two-step job application form: personal details and a résumé on step 1,
    free-text answers on step 2. Field validation follows the form schema; whether a
    string is an e-mail address is the parameter `isEmail`. Notifications and the
    file input's DOM value are not modelled. */
module ApplicationForm {
  import opened Wrappers

  const MinNameLength := 2
  const MinPhoneLength := 10
  /** 5 MiB. */
  const MaxResumeBytes := 5 * 1024 * 1024

  /** A chosen file: its name and size in bytes. */
  datatype File = File(name: string, size: int)

  /** The form's values; `resume` is the file stored with `setValue`. */
  datatype Values = Values(name: string, email: string, phone: string, resume: Option<File>,
                           education: string, experience: string, hobbies: string)

  datatype State = State(step: int, values: Values, fileName: Option<string>)

  const Defaults := Values("", "", "", None, "", "", "")

  const Initial := State(1, Defaults, None)

  /** The schema's rules for the fields of step 1; the rest are optional. */
  predicate StepOneValid(v: Values, isEmail: string -> bool) {
    |v.name| >= MinNameLength && isEmail(v.email) && |v.phone| >= MinPhoneLength
  }

  /** The whole schema: the optional fields accept any value. */
  predicate SchemaValid(v: Values, isEmail: string -> bool) {
    StepOneValid(v, isEmail)
  }

  /** The answers of step 2 and the résumé never decide validity. */
  lemma OptionalFieldsIgnored(v: Values, isEmail: string -> bool, resume: Option<File>,
                              education: string, experience: string, hobbies: string)
    ensures SchemaValid(v, isEmail) <==>
            SchemaValid(v.(resume := resume, education := education, experience := experience, hobbies := hobbies), isEmail)
  {
  }

  /** Whether a file was turned away as too large (the "file too big" notice). */
  datatype FileOutcome = FileOutcome(state: State, tooBig: bool)

  /** `handleFileChange`: no file changes nothing; a file over 5 MiB is refused and
      changes nothing; any other file becomes the résumé and its name is shown. */
  function ChooseFile(s: State, file: Option<File>): (r: FileOutcome)
    ensures r.tooBig <==> file.Some? && file.value.size > MaxResumeBytes
    ensures file.None? || r.tooBig ==> r.state == s
    ensures file.Some? && !r.tooBig ==>
              r.state == s.(fileName := Some(file.value.name), values := s.values.(resume := file))
  {
    match file
    case None => FileOutcome(s, false)
    case Some(f) =>
      if f.size > MaxResumeBytes then FileOutcome(s, true)
      else FileOutcome(s.(fileName := Some(f.name), values := s.values.(resume := file)), false)
  }

  /** The limit itself is allowed; one byte more is not. */
  lemma ResumeLimitBoundary(s: State, name: string)
    ensures !ChooseFile(s, Some(File(name, 5242880))).tooBig
    ensures ChooseFile(s, Some(File(name, 5242881))).tooBig
  {
  }

  /** `handleNext`: on to step 2 only when name, e-mail and phone are valid. */
  function Next(s: State, isEmail: string -> bool): (t: State)
    ensures t.values == s.values && t.fileName == s.fileName
    ensures t.step == (if StepOneValid(s.values, isEmail) then 2 else s.step)
  {
    if StepOneValid(s.values, isEmail) then s.(step := 2) else s
  }

  /** `handleBack`: always step 1, nothing else changes. */
  function Back(s: State): (t: State)
    ensures t.step == 1 && t.values == s.values && t.fileName == s.fileName
  {
    s.(step := 1)
  }

  /** Going back from step 2 and on again returns to the same state. */
  lemma BackThenNext(s: State, isEmail: string -> bool)
    requires s.step == 2 && StepOneValid(s.values, isEmail)
    ensures Next(Back(s), isEmail) == s
  {
  }

  /** From step 1, going on and back again returns to the same state. */
  lemma NextThenBack(s: State, isEmail: string -> bool)
    requires s.step == 1
    ensures Back(Next(s, isEmail)) == s
  {
  }

  /** What a submit does: the values sent (none when validation fails) and the state
      after. */
  datatype SubmitOutcome = SubmitOutcome(sent: Option<Values>, state: State)

  /** `handleSubmit(onSubmit)`: valid values are sent and the form starts over (values
      reset to their defaults, no file, step 1); invalid values stay as they are. */
  function Submit(s: State, isEmail: string -> bool): (r: SubmitOutcome)
    ensures r.sent.Some? <==> SchemaValid(s.values, isEmail)
    ensures r.sent.Some? ==> r.sent.value == s.values && r.state == Initial
    ensures r.sent.None? ==> r.state == s
  {
    if SchemaValid(s.values, isEmail) then SubmitOutcome(Some(s.values), Initial)
    else SubmitOutcome(None, s)
  }

  /** A fresh form cannot be submitted: its empty name is too short. */
  lemma InitialNotSubmittable(isEmail: string -> bool)
    ensures Submit(Initial, isEmail).sent.None?
    ensures Next(Initial, isEmail) == Initial
  {
  }

  /** After a successful submit, the next submit sends nothing. */
  lemma SubmitOnce(s: State, isEmail: string -> bool)
    requires Submit(s, isEmail).sent.Some?
    ensures Submit(Submit(s, isEmail).state, isEmail).sent.None?
  {
  }
}
