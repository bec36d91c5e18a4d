/** The submissions page: both lists of form submissions the back end returns (the
    user's own and those awaiting the user's approval) are put newest first before they
    are shown. The timestamp of a date string (`new Date(s).getTime()`) is the parameter
    `time`. */
module SubmissionsPage {
  import opened Wrappers
  import opened Seqs
  import opened Sorting

  /** The person who sent a submission. */
  datatype Submitter = Submitter(firstName: string, lastName: string)

  /** A row of either list. */
  datatype Submission = Submission(id: int, formTitle: string, formNumber: string, user: Option<Submitter>,
                                   submittedAt: string, status: string)

  /** The comparator `time(b) - time(a)`, as "may come before": `a` is not older than `b`. */
  function NewestFirst(time: string -> int): (Submission, Submission) -> bool {
    (a: Submission, b: Submission) => time(b.submittedAt) - time(a.submittedAt) <= 0
  }

  lemma NewestFirstTotalPreorder(time: string -> int)
    ensures TotalPreorder(NewestFirst(time))
  {
  }

  /** One list, sorted in place with the stable built-in sort. */
  function Newest(subs: seq<Submission>, time: string -> int): (r: seq<Submission>)
    ensures multiset(r) == multiset(subs)
    ensures |r| == |subs|
  {
    Sort(subs, NewestFirst(time))
  }

  /** The newest submission comes first, and submissions sent at the same time keep the
      order the back end gave them. */
  lemma NewestOrdered(subs: seq<Submission>, time: string -> int, i: int, j: int, k: Submission)
    requires 0 <= i < j < |subs|
    ensures time(Newest(subs, time)[i].submittedAt) >= time(Newest(subs, time)[j].submittedAt)
    ensures Filter(Newest(subs, time), EquivTo(NewestFirst(time), k)) == Filter(subs, EquivTo(NewestFirst(time), k))
  {
    NewestFirstTotalPreorder(time);
    SortSorted(subs, NewestFirst(time));
    SortStable(subs, NewestFirst(time), k);
  }

  /** Down the sorted list the time never increases. */
  lemma NewestDescending(subs: seq<Submission>, time: string -> int)
    ensures forall i, j :: 0 <= i < j < |Newest(subs, time)| ==>
              time(Newest(subs, time)[i].submittedAt) >= time(Newest(subs, time)[j].submittedAt)
  {
    NewestFirstTotalPreorder(time);
    SortSorted(subs, NewestFirst(time));
  }

  /** A list that is already newest first is left as it is. */
  lemma NewestIdempotent(subs: seq<Submission>, time: string -> int)
    ensures Newest(Newest(subs, time), time) == Newest(subs, time)
  {
    var once := Newest(subs, time);
    NewestFirstTotalPreorder(time);
    SortSorted(subs, NewestFirst(time));
    SortSortedIsIdentity(once, NewestFirst(time));
  }

  /** What the page hands to the client: both lists, newest first, nothing dropped. */
  datatype Lists = Lists(mine: seq<Submission>, pending: seq<Submission>)

  function Arrange(mine: seq<Submission>, pending: seq<Submission>, time: string -> int): (r: Lists)
    ensures multiset(r.mine) == multiset(mine) && multiset(r.pending) == multiset(pending)
    ensures forall s :: s in r.mine <==> s in mine
    ensures forall s :: s in r.pending <==> s in pending
    ensures forall i, j :: 0 <= i < j < |r.mine| ==>
              time(r.mine[i].submittedAt) >= time(r.mine[j].submittedAt)
    ensures forall i, j :: 0 <= i < j < |r.pending| ==>
              time(r.pending[i].submittedAt) >= time(r.pending[j].submittedAt)
  {
    var a, b := Newest(mine, time), Newest(pending, time);
    NewestDescending(mine, time);
    NewestDescending(pending, time);
    assert forall s :: s in a <==> s in multiset(a);
    assert forall s :: s in b <==> s in multiset(b);
    Lists(a, b)
  }
}
