# Alter Portal: the pure logic of the dashboard, in Dafny

Alter Portal is a Next.js front end for an engineering company's intranet. It shows
projects, people, correspondence, a calendar, form submissions and an org chart, all
fetched from a back-end API. Most of it is rendering. Under the rendering sit small,
deterministic transformations, and this project models and proves them:

- **Org-unit forest** (`OrgChart`). `buildTree` makes one node per unit id, then hangs
  each unit below the unit its `parent_id` names, or at the top level. The model is a
  method with the two passes as loops. The forest is a node map plus the ordered
  top-level ids and children ids.
- **API mapping** (`DataService`). A project is mapped into view form; reading `user.id`
  of a member whose user is `null` throws, and `fetchData`'s `catch` turns that into an
  empty result. The users of all projects are collected into an insertion-ordered map
  keyed by id, where the first occurrence wins.
- **List transforms**:
  - the correspondence search and its sort-column toggle and comparator
    (`Correspondence`);
  - the team popover's search and its sorted admins/others split (`TeamPopover`);
  - the people directory's grouping by the initial of the last name (`PeopleDirectory`);
  - the location chart's grouping by location (`LocationChart`);
  - the project chart's admins-first member order (`ProjectChart`);
  - the newest-first ordering of submissions (`SubmissionsPage`).
- **Calendars**:
  - the Monday-first month grid, the events of a day, and the month list
    (`CalendarGrid`);
  - the project calendar with its project filter, arrows, colours and day view
    (`CalendarClient`);
  - the older calendar page (`CalendarPage`).
- **String helpers**:
  - the `auth_token` cookie reader (`TokenModal`);
  - the active-link predicate of the sidebar (`Nav`);
  - the avatar initials and fallbacks (`UserMenu`, `PersonDetail`, `ProjectChart`);
  - the status-to-badge mapping and table rules of the submissions screen
    (`SubmissionsClient`).
- **The job-application form** (`ApplicationForm`): its two steps, the field minimums,
  the 5 MiB résumé limit, and the reset after a successful submit.

Library modules:

- `Wrappers`: `Option`.
- `Seqs`: `filter` and `map`, with their lemmas.
- `Sorting`: a stable insertion sort over a total preorder, standing for the stable
  `Array.prototype.sort`.
- `Text`:
  - `toLowerCase` and `toUpperCase`, modelled per character;
  - `startsWith` and `includes`;
  - code-unit string order;
  - `split` and `join`;
  - the "first character of every space-separated word" idiom.
- `Decimal`: `Number.prototype.toString` for integers, with a round trip.
- `Collation`: the requirements on a locale comparison; `localeCompare` itself is a
  parameter.
- `Grouping`: the `reduce`/`forEach` into a record of arrays.
- `CivilDate`: dates as integer records; `getDay`, `getTime`, `startOfMonth`,
  `addMonths`.
- `Api`: the data types.

Things the model takes as parameters:

- "Now" (`new Date()`) is a parameter `today`.
- Date parsing of API strings is a parameter `time: string -> int`.
- The zod e-mail check is a parameter `isEmail`.
- `JSON.parse` of the stored user is a parameter `parse`.
- `localeCompare` is a parameter `compare` that meets `Collation.IsCollation`.

## Model

| member | source | states |
|---|---|---|
| OrgChart.Find | src/components/org-chart-view.tsx:47-50 | the node stored under an id exists exactly when some unit has that id, and it is a unit with that id |
| OrgChart.FindIsLast | src/components/org-chart-view.tsx:48-50 | with repeated ids the later unit overwrites the earlier: the stored unit has no later unit with its id |
| OrgChart.IndexUnits | src/components/org-chart-view.tsx:47-50 | the first pass makes one node per distinct id, holding that id's (last) unit, each with an empty children list |
| OrgChart.Link | src/components/org-chart-view.tsx:52-59 | the second pass puts, in input order, every unit whose parent id names a node under that node, and every other unit at the top level |
| OrgChart.RootsUpToAreRoots | src/components/org-chart-view.tsx:53-58 | after the first i units, the top-level list is exactly those of them with a null or dangling parent id, in input order |
| OrgChart.ChildrenUpToAreChildren | src/components/org-chart-view.tsx:53-55 | after the first i units, the children of p are exactly those of them whose parent id is p, in input order |
| OrgChart.BuildTree | src/components/org-chart-view.tsx:46-61 | nodes are keyed by the unit ids; the roots are the units with a null or dangling parent id, in input order; the children of p are the units with parent id p, in input order |
| OrgChart.Render | src/components/org-chart-view.tsx:71-75 | a missing or empty unit list shows the not-found text and no tree; otherwise the forest of `BuildTree` |
| OrgChart.PlacedExactlyOnce | src/components/org-chart-view.tsx:48-59 | with distinct ids, no id repeats in any list; a unit is a root iff its parent id is null or names no unit; otherwise it is a child of its parent only, and never both |
| OrgChart.PlacedUnderParent | src/components/org-chart-view.tsx:54-55 | a unit whose parent id names a unit is not a root and is a child of no other id |
| OrgChart.CycleUnreachable | src/components/org-chart-view.tsx:54-58 | a unit on a parent cycle, a self-parent included, is never a root and is not reached by any path down from the roots |
| OrgChart.NoPathToCycle | src/components/org-chart-view.tsx:53-58 | no root-to-node path ends at any ancestor of a unit on a cycle |
| DataService.MapMember | src/lib/data-service.ts:81-85 | a member maps iff its user is present; its id and role are copied, and its name is first name, one space, last name |
| DataService.MapMembers | src/lib/data-service.ts:81-85 | all members map, in the same order and number, or the mapping throws when some member has no user |
| DataService.MapProject | src/lib/data-service.ts:80-106 | id is the decimal string of the numeric id, title is the full name, the other fields are copied; absent members or communications become empty lists; a member without a user makes it throw |
| DataService.MapProjects | src/lib/data-service.ts:126 | every project is mapped in order, or the whole mapping throws |
| DataService.PresentUsers | src/lib/data-service.ts:131-132 | the users of a member list are exactly its non-null member users |
| DataService.MemberUsers | src/lib/data-service.ts:130-131 | a user is collected from the projects iff it is a non-null member user of one of them |
| DataService.FirstById | src/lib/data-service.ts:129-144 | the map has no two users with one id, holds only given users, and has an entry for every id that occurs |
| DataService.FirstByIdKeepsFirstOccurrences | src/lib/data-service.ts:129-149 | filling the map gives exactly the users whose id did not occur earlier, in first-occurrence order |
| DataService.FirstOccurrenceKept | src/lib/data-service.ts:132 | a user whose id has not occurred before is kept |
| DataService.OnlyFirstOccurrences | src/lib/data-service.ts:132 | every kept user is the first occurrence of its id |
| DataService.UniqueUsersSound | src/lib/data-service.ts:129-133 | the collected users have distinct ids, and every non-null member user of every project has its id among them |
| DataService.FetchData | src/lib/data-service.ts:111-154 | a failed response, a thrown error, a null body or a missing or non-array `projects` gives empty projects and users; otherwise every project is mapped and the users collected, or empty when the mapping throws |
| DataService.MembersAreUsers | src/lib/data-service.ts:126-149 | every member shown in a fetched project is one of the collected users |
| Decimal.IntRoundTrip | src/lib/data-service.ts:88 | reading back `id.toString()` gives the id, so distinct project ids give distinct strings |
| Decimal.IntToStringInjective | src/lib/data-service.ts:88 | different numeric ids never map to the same project id string |
| Correspondence.HandleSort | src/components/correspondence-view.tsx:42-48 | clicking sets that key; the direction is descending exactly when the same key was ascending |
| Correspondence.SecondClickReverses | src/components/correspondence-view.tsx:42-48 | clicking the same key twice flips the direction |
| Correspondence.Search | src/components/correspondence-view.tsx:57-65 | an empty term keeps every row; otherwise a row is kept iff the lowercased term occurs in the lowercased title, project name, institution or code, in input order |
| Correspondence.CompareRows | src/components/correspondence-view.tsx:68-88 | the comparator is -1, 0 or 1; by date it orders by parsed time, reversed when descending; the six text columns order by the locale comparison's sign, reversed when descending, and are equal exactly when it answers 0; the numeric id key always compares equal |
| Correspondence.RowLeIsTextOrder | src/components/correspondence-view.tsx:82-86 | on a text column, "a may precede b" holds exactly when a's text is not after b's in the locale order, read backwards when descending |
| Correspondence.VisibleInTextOrder | src/components/correspondence-view.tsx:67-89 | sorted by a text column, the shown rows never decrease in the locale order when ascending and never increase when descending |
| Correspondence.DescendingFlipsSign | src/components/correspondence-view.tsx:77-84 | the descending comparator is the negated ascending one |
| Correspondence.RowLeTotalPreorder | src/components/correspondence-view.tsx:68-88 | the comparator is a consistent total preorder, so the stable sort is well defined |
| Correspondence.Visible | src/components/correspondence-view.tsx:54-92 | the shown rows are a permutation of the searched rows, and without a sort setting they are the searched rows in input order |
| Correspondence.VisibleSortedAndStable | src/components/correspondence-view.tsx:67-89 | the shown rows are sorted by the comparator, and rows that compare equal keep their input order |
| Correspondence.SortByIdKeepsOrder | src/components/correspondence-view.tsx:72-87 | sorting by the numeric id leaves the searched rows in input order |
| TeamPopover.Partition | src/components/project-team-popover.tsx:22-33 | `admins` is a permutation of the surviving admins, and `admins` with `otherMembers` is a permutation of the surviving members |
| TeamPopover.PartitionMembers | src/components/project-team-popover.tsx:25-30 | `admins` holds exactly the surviving members with role admin and `otherMembers` exactly the surviving others |
| TeamPopover.EmptyTermKeepsAll | src/components/project-team-popover.tsx:23-27 | an empty search term keeps every member |
| TeamPopover.PartitionSorted | src/components/project-team-popover.tsx:29-30 | both lists are sorted by name under the locale comparison, and equal names keep input order |
| TeamPopover.Show | src/components/project-team-popover.tsx:72-78 | the no-member text shows iff nobody survives the search; the separator shows iff both lists are non-empty |
| TeamPopover.TriggerIgnoresSearch | src/components/project-team-popover.tsx:57 | the trigger shows the total member count whatever the search term |
| Grouping.Add | src/components/people-directory.tsx:27-30 | adding an item under a key appends it to that key's group, or opens a new group at the end; the total size grows by one |
| Grouping.GroupBy | src/components/location-org-chart.tsx:53-61 | each group holds exactly the items with its key, in input order; keys are distinct; the groups come in the order their keys first occur among the items; sizes add up to the item count |
| Grouping.FirstWith | src/components/location-org-chart.tsx:53-61 | the position of the first item with a key: that item has the key and no earlier one does, or the item count when none has it |
| Grouping.AddKeepsOrder | src/components/location-org-chart.tsx:56-59 | adding an item keeps the groups in first-occurrence order, since a new key's group opens at the end |
| Grouping.InExactlyOneGroup | src/components/people-directory.tsx:25-32 | an item is in a group iff the group's key is the item's key |
| Grouping.KeysAreElementKeys | src/components/location-org-chart.tsx:53-61 | the group keys are exactly the keys of the items |
| PeopleDirectory.LetterKey | src/components/people-directory.tsx:26 | the key is the uppercased first character of the last name, or `#` when the last name is empty |
| PeopleDirectory.Alphabet | src/components/people-directory.tsx:34 | the jump bar lists the 26 letters A to Z in order |
| PeopleDirectory.LatinLettersOnJumpBar | src/components/people-directory.tsx:26-34 | a last name starting with a Latin letter is filed under that letter in capitals, which is on the jump bar |
| PeopleDirectory.Sections | src/components/people-directory.tsx:57 | the sections are the group keys, reordered |
| PeopleDirectory.SectionUsers | src/components/people-directory.tsx:25-32 | a section lists exactly the users with its letter, in input order, and is never empty |
| PeopleDirectory.SectionsAscending | src/components/people-directory.tsx:57 | the section letters are distinct and in ascending `sort()` order |
| PeopleDirectory.InExactlyOneSection | src/components/people-directory.tsx:25-57 | every user's letter has a section, and the user is in a section iff it is that letter's |
| PeopleDirectory.JumpTarget | src/components/people-directory.tsx:36-41 | a letter click finds the section of that letter, and does nothing when there is none |
| PeopleDirectory.RenderRow | src/components/people-directory.tsx:73-76 | names, a non-empty e-mail and a non-empty title are shown as given; an empty e-mail or title shows `-` |
| LocationChart.LocationKey | src/components/location-org-chart.tsx:55 | the key is the location, or "Belirtilmemiş" when it is empty |
| LocationChart.Render | src/components/location-org-chart.tsx:52-77 | a location naming a member inherited from `Object.prototype` makes grouping throw, and then nothing is shown; otherwise an empty project list shows the not-found text, and otherwise each group holds exactly its location's projects in input order, the groups come in the order their locations first occur, and the sizes add up to the project count |
| LocationChart.GroupsAreLocations | src/components/location-org-chart.tsx:53-61 | when the tree is shown, the group keys are exactly the distinct effective locations, and a project is in a group iff the key is its location |
| LocationChart.ConstructorLocationThrows | src/components/location-org-chart.tsx:56-59 | a project located in "constructor" makes the chart throw instead of rendering |
| ProjectChart.Initials | src/components/project-org-chart.tsx:84 | the initials are the first character of every space-separated part of the name, concatenated |
| ProjectChart.RenderOrder | src/components/project-org-chart.tsx:99-112 | admins then others is a permutation of the members |
| ProjectChart.AdminsFirst | src/components/project-org-chart.tsx:111-112 | no admin is rendered after a non-admin |
| ProjectChart.RenderOrderKeepsInputOrder | src/components/project-org-chart.tsx:99-100 | the admins, and the other members, keep input order |
| ProjectChart.RenderUser | src/components/project-org-chart.tsx:83-95 | the row shows the member's name, the word-start initials, and the admin badge iff the role is admin |
| ProjectChart.RenderProjectNode | src/components/project-org-chart.tsx:98-120 | the member section shows iff the project has members, with one row per member, admins first |
| ProjectChart.Render | src/components/project-org-chart.tsx:122-134 | an empty project list shows the not-found text; otherwise one node per project, in order |
| CalendarGrid.LeadingBlanks | src/app/dashboard/calendar/calendar-client.tsx:84 | the blank cells before day 1 number 0 to 6: 0 when the month starts on Monday, 6 when it starts on Sunday |
| CalendarGrid.MonthDays | src/app/dashboard/calendar/calendar-client.tsx:81-83 | the days of the month are midnight of day 1 to the last day, in order |
| CalendarGrid.DaysInWeekdayColumns | src/app/dashboard/calendar/calendar-client.tsx:84-96 | after the blanks, every day sits in the column of its weekday, Monday first |
| CalendarGrid.MonthCells | src/app/dashboard/calendar/calendar-client.tsx:96-99 | one cell per day; a cell holds the events on its calendar day and is highlighted iff it is the selected day, or today when nothing is selected |
| CalendarGrid.CellShowsItsDay | src/app/dashboard/calendar/calendar-client.tsx:97 | an event is in a cell iff it falls on that cell's year, month and day |
| CalendarGrid.MonthList | src/app/dashboard/calendar/calendar-client.tsx:190 | the list is a permutation of the events whose month number is the shown one |
| CalendarGrid.MonthListMembers | src/app/dashboard/calendar/calendar-client.tsx:190 | an event is listed iff its month number is the shown one, whatever its year |
| CalendarGrid.MonthListChronological | src/app/dashboard/calendar/calendar-client.tsx:190 | the list runs forward in time, and events at the same moment keep their order |
| CalendarClient.FilteredEvents | src/app/dashboard/calendar/calendar-client.tsx:41-46 | "all" keeps every event; otherwise exactly the events of that project, in order |
| CalendarClient.SelectDate | src/app/dashboard/calendar/calendar-client.tsx:51-56 | a picked date is selected and its month shown from day 1; clearing the selection leaves the shown month alone |
| CalendarClient.GoToPrevious | src/app/dashboard/calendar/calendar-client.tsx:58-62 | one month back in the month, week and day views; nothing else changes; the list view does nothing |
| CalendarClient.GoToNext | src/app/dashboard/calendar/calendar-client.tsx:64-68 | one month on in the month, week and day views; nothing else changes; the list view does nothing |
| CalendarClient.NextThenPrevious | src/app/dashboard/calendar/calendar-client.tsx:58-68 | the arrows undo each other when the shown day exists in every month |
| CalendarClient.EventColor | src/app/dashboard/calendar/calendar-client.tsx:70-77 | deadline is red, meeting blue, presentation purple, anything else gray |
| CalendarClient.SlotLabelAsWritten | src/app/dashboard/calendar/calendar-client.tsx:167 | the slot label as written ends at the time it starts, for every hour |
| CalendarClient.SlotLabel | src/app/dashboard/calendar/calendar-client.tsx:166-167 | the corrected label runs from the slot's hour to the next hour, two digits each, and never ends where it starts |
| CalendarClient.SlotAt | src/app/dashboard/calendar/calendar-client.tsx:162-167 | a slot holds exactly the events on the shown day in its hour, under the as-written caption whose end equals its start |
| CalendarClient.CorrectedSlotAt | src/app/dashboard/calendar/calendar-client.tsx:162-167 | the intended slot: the same events under the corrected caption, whose end differs from its start |
| CalendarClient.CorrectionOnlyChangesCaption | src/app/dashboard/calendar/calendar-client.tsx:167 | the correction changes each slot's caption and nothing else |
| CalendarClient.DaySlots | src/app/dashboard/calendar/calendar-client.tsx:156-167 | the day view has ten slots, 08:00 to 17:00, on the selected day or today, each as rendered |
| CalendarClient.DayViewFirstCaption | src/app/dashboard/calendar/calendar-client.tsx:156-167 | the day view's first slot is captioned "08:00 - 08:00" |
| CalendarClient.EventInItsSlot | src/app/dashboard/calendar/calendar-client.tsx:158-163 | an event of the shown day is in a slot iff the slot is its hour |
| CalendarClient.Render | src/app/dashboard/calendar/calendar-client.tsx:207-215 | the view mode picks the month grid, day slots or month list, each over the project-filtered events |
| CalendarClient.InitialScreen | src/app/dashboard/calendar/calendar-client.tsx:36-99 | the first screen shows November 2025 with five blank cells, and 10 November is highlighted |
| CalendarPage.SelectDate | src/app/dashboard/calendar/page.tsx:44-49 | a picked date is selected and its month shown from day 1; clearing the selection leaves the shown month alone |
| CalendarPage.PreviousMonth | src/app/dashboard/calendar/page.tsx:144 | the left arrow moves exactly one month back, in every view |
| CalendarPage.NextMonth | src/app/dashboard/calendar/page.tsx:150 | the right arrow moves exactly one month on, in every view |
| CalendarPage.ArrowsUndoEachOther | src/app/dashboard/calendar/page.tsx:144-150 | the arrows undo each other when the shown day exists in every month |
| CalendarPage.EventColor | src/app/dashboard/calendar/page.tsx:70-101 | red for deadlines, blue for every other kind |
| CalendarPage.Render | src/app/dashboard/calendar/page.tsx:41-165 | the month view shows the Monday-first grid, the week and day views only their placeholder text, and the list view the month's events by time |
| CivilDate.Weekday | src/app/dashboard/calendar/calendar-client.tsx:84 | `getDay` is 0 to 6, Sunday first |
| CivilDate.NextDayNextWeekday | src/app/dashboard/calendar/calendar-client.tsx:84 | the weekday moves on by one from one day of a month to the next |
| CivilDate.FirstOfNovember2025 | src/app/dashboard/calendar/calendar-client.tsx:37 | 1 November 2025 is a Saturday |
| CivilDate.AddMonths | src/app/dashboard/calendar/calendar-client.tsx:58-68 | `addMonths` moves the month index by n, keeps day and time, and clamps the day to the new month's length |
| CivilDate.AddMonthsRoundTrip | src/app/dashboard/calendar/calendar-client.tsx:58-68 | n months on and n back returns a day from 1 to 28 unchanged |
| CivilDate.StartOfMonth | src/app/dashboard/calendar/calendar-client.tsx:54 | `startOfMonth` is midnight of day 1 of the same month |
| CivilDate.SameDayNumber | src/app/dashboard/calendar/calendar-client.tsx:97 | two valid dates have the same day number iff they are the same calendar day |
| CivilDate.TimeInOrder | src/app/dashboard/calendar/calendar-client.tsx:190 | `getTime` orders valid dates chronologically |
| Nav.ActiveLinks | src/app/dashboard/layout.tsx:32-57 | the active links are exactly the links whose predicate holds |
| Nav.HomeOnlyWhenExact | src/app/dashboard/layout.tsx:57 | the `/dashboard` link is active iff the path is exactly `/dashboard` |
| Nav.PrefixNotSegment | src/app/dashboard/layout.tsx:57 | the test is a plain string prefix: `/dashboard/projectsX` activates the projects link |
| Nav.AtMostOneActive | src/app/dashboard/layout.tsx:32-57 | for the fixed links, at most one link is active for any path |
| Nav.OutsideDashboardNoneActive | src/app/dashboard/layout.tsx:57 | a path not starting with `/dashboard` activates no link |
| TokenModal.ReadCookie | src/components/token-modal.tsx:29-33 | when the cookie is read, the token contains no `;` |
| TokenModal.OnOpenChange | src/components/token-modal.tsx:27-36 | the cookie is read only when the dialog is open; with zero or several markers the previous token stays |
| TokenModal.ReadIffOneOccurrence | src/components/token-modal.tsx:29-31 | a token is read iff `; auth_token=` occurs exactly once in `; ` followed by the cookie |
| TokenModal.ReadTokenFollowsMarker | src/components/token-modal.tsx:29-33 | the token is the text after the one marker, up to the next `;` or the end |
| TokenModal.LeadingTokenValue | src/components/token-modal.tsx:29-30 | a cookie string that starts with `auth_token=` is matched thanks to the `; ` prefix |
| TokenModal.SuffixNameDoesNotMatch | src/components/token-modal.tsx:29-30 | a cookie named `my_auth_token` never matches |
| SubmissionsPage.NewestFirstTotalPreorder | src/app/dashboard/submissions/page.tsx:12-13 | the newest-first comparator is a total preorder |
| SubmissionsPage.Newest | src/app/dashboard/submissions/page.tsx:12-13 | the sort is a permutation and drops nothing |
| SubmissionsPage.NewestOrdered | src/app/dashboard/submissions/page.tsx:12-13 | the submission time never increases down the list, and equal times keep input order |
| SubmissionsPage.NewestIdempotent | src/app/dashboard/submissions/page.tsx:12-13 | sorting a sorted list again changes nothing |
| SubmissionsPage.NewestDescending | src/app/dashboard/submissions/page.tsx:12-13 | down a sorted list the submission time never increases |
| SubmissionsPage.Arrange | src/app/dashboard/submissions/page.tsx:12-24 | both lists handed to the client are permutations of the fetched ones, each with the time never increasing down the list |
| SubmissionsClient.StatusVariant | src/app/dashboard/submissions/submissions-client.tsx:33-47 | after lowercasing, approved/onaylandı give default, rejected/reddedildi destructive, pending/beklemede secondary, anything else outline |
| SubmissionsClient.StatusIgnoresCase | src/app/dashboard/submissions/submissions-client.tsx:34 | statuses with the same lowercase form get the same badge |
| SubmissionsClient.CapitalINeverApproved | src/app/dashboard/submissions/submissions-client.tsx:34-37 | a status ending in capital I never maps to default, so "ONAYLANDI" is not shown as approved |
| SubmissionsClient.SubmitterName | src/app/dashboard/submissions/submissions-client.tsx:78 | the submitter is first and last name, or `-` iff the user is missing |
| SubmissionsClient.Columns | src/app/dashboard/submissions/submissions-client.tsx:64-70 | the submitter column is present iff the table is the pending one |
| SubmissionsClient.RenderRow | src/app/dashboard/submissions/submissions-client.tsx:73-84 | a row copies its submission's fields and badge, and has a submitter cell iff pending |
| SubmissionsClient.RenderTable | src/app/dashboard/submissions/submissions-client.tsx:49-90 | an empty list shows the pending text for the pending table and the own-submissions text otherwise; otherwise one row per submission, in order |
| SubmissionsClient.Render | src/app/dashboard/submissions/submissions-client.tsx:92-105 | the pending badge shows the pending count, and only when it is positive |
| SubmissionsClient.SubmitterOnlyWhenPending | src/app/dashboard/submissions/submissions-client.tsx:67-79 | a non-empty own-submissions table has neither a submitter column nor submitter cells; a non-empty pending table has both |
| ApplicationForm.OptionalFieldsIgnored | src/components/application-form.tsx:41-49 | validity depends only on the name (at least 2), the e-mail and the phone (at least 10) |
| ApplicationForm.ChooseFile | src/components/application-form.tsx:70-84 | a file over 5 MiB is rejected and changes nothing; an accepted file sets the file name and the résumé; no file changes nothing |
| ApplicationForm.ResumeLimitBoundary | src/components/application-form.tsx:73 | exactly 5242880 bytes is accepted, 5242881 is rejected |
| ApplicationForm.Next | src/components/application-form.tsx:86-91 | step 2 iff name, e-mail and phone validate; otherwise the step stays |
| ApplicationForm.Back | src/components/application-form.tsx:93-95 | back always returns to step 1 and changes nothing else |
| ApplicationForm.BackThenNext | src/components/application-form.tsx:86-95 | from a valid step 2, back then next returns to the same state |
| ApplicationForm.NextThenBack | src/components/application-form.tsx:86-95 | from step 1, next then back returns to the same state |
| ApplicationForm.Submit | src/components/application-form.tsx:97-107 | a valid form is sent and reset to empty fields, no file name and step 1; an invalid one is not sent and nothing changes |
| ApplicationForm.InitialNotSubmittable | src/components/application-form.tsx:52-66 | the fresh form, with its empty default fields, cannot be sent, and pressing next leaves it unchanged |
| ApplicationForm.SubmitOnce | src/components/application-form.tsx:103-106 | after a successful submit, submitting again sends nothing |
| UserMenu.Restore | src/components/user-menu.tsx:34-45 | a stored text that does not parse is removed and no user is set; a parsed value becomes the user |
| UserMenu.AvatarInitials | src/components/user-menu.tsx:57 | the initials are never empty: `U` without a user or name, otherwise the uppercased word starts, or `U` when those are empty |
| UserMenu.FallbackForBlankName | src/components/user-menu.tsx:57 | a name of spaces only, the empty name included, gives `U` |
| UserMenu.TwoWordInitials | src/components/user-menu.tsx:57 | "First Last" gives the uppercased first letters of both words |
| UserMenu.DisplayName | src/components/user-menu.tsx:67 | the shown name is the user's name, or "Kullanıcı" when it is missing or empty |
| UserMenu.Render | src/components/user-menu.tsx:53-75 | before mounting only the skeleton shows; after, the photo shows iff one is stored, with the initials, display name, name and e-mail |
| PersonDetail.FirstLetter | src/components/person-detail.tsx:14 | `s[0] \|\| ''`: the first character, or nothing for an empty string |
| PersonDetail.Initials | src/components/person-detail.tsx:14 | the initials are the uppercased first letter of the first name followed by that of the last name |
| PersonDetail.InitialsParts | src/components/person-detail.tsx:14 | an empty first or last name contributes nothing |
| PersonDetail.TitleText | src/components/person-detail.tsx:24 | the title, or "Unvan belirtilmemiş" when it is missing or empty |
| PersonDetail.Contacts | src/components/person-detail.tsx:28-48 | the e-mail, phone and location rows each appear iff that field is non-empty, in that order; the e-mail links to `mailto:` and the address |
| PersonDetail.Render | src/components/person-detail.tsx:13-24 | the card shows the full name, the initials, the title text and the contact rows |
| Text.Split | src/components/token-modal.tsx:30-32 | `split` gives pieces that join back to the string, none containing the separator |
| Text.InitialsAreWordStarts | src/components/project-org-chart.tsx:84 | the first characters of the space-split parts are the characters that follow a space or start the string |
| Text.LowerAppend | src/components/correspondence-view.tsx:58-63 | `toLowerCase` works character by character, so it distributes over concatenation |
| Sorting.SortSorted | src/app/dashboard/submissions/page.tsx:12-13 | the sort's result is sorted under any total preorder |
| Sorting.SortStable | src/app/dashboard/submissions/page.tsx:12-13 | the sort is stable: elements equivalent to any k keep their relative order |
| Collation.CodePointIsCollation | src/components/project-team-popover.tsx:29-30 | the code-point order meets the requirements put on the locale comparison, so they can be met |

## Left out

- `localeCompare(b, 'tr')`: Turkish collation is not modelled. The comparator is a parameter `compare`. It is required to be reflexive, total and transitive in sign, and only those properties are used.
- Date parsing and time zones:
  - `new Date(s).getTime()` on API strings is a parameter `time`, and `NaN` for unparsable strings is not modelled (a NaN comparator is not a preorder).
  - Dates are local civil dates; time zones and daylight saving are left out.
- CalendarClient.InitialScreen: the initial dates come from date-only strings, which JavaScript reads as UTC midnight; the lemma describes time zones at or east of UTC. West of UTC the first screen shows October 2025 with 9 November selected.
- Case mapping: `toLowerCase` and `toUpperCase` are modelled for ASCII, the Latin-1 letters and the Turkish Ğ, Ş, İ, ğ, ş and ı, as the locale-independent mapping does (İ lowercases to i and a combining dot, ı uppercases to I, ß to SS, ÿ to Ÿ and µ to the Greek capital Μ); all other characters map to themselves. Strings are sequences of UTF-16 code units in the source and of characters here.
- The zod `email()` check is a parameter `isEmail`; the error messages are not modelled.
- `JSON.parse` of the stored user is a parameter `parse`. Fields of the wrong type in a parsed object are not modelled.
- I/O and side effects are left out:
  - the `fetch` calls and the HTTP status logging;
  - `localStorage` writes and `document.cookie`, which is a parameter;
  - the clipboard, toasts and router navigation;
  - logout and scrolling;
  - the file input element's reset.
- The week view of the project calendar is not modelled; `CalendarClient.Render` only records that it was chosen.
- Formatting with `format(...)` and `toLocaleDateString` (localised month and day names) is not modelled. The one formatted value that matters is modelled: the two-digit `HH:mm` slot label.
- `CalendarClient.Render`: the client always shows its built-in sample events. Here they are the parameter `events`, with the sample list given as `CalendarClient.SampleEvents`.
- `CalendarPage.Render`: the page always shows its built-in sample events. Here they are the parameter `events`, with the sample list given as `CalendarPage.SampleEvents`.
- `onMonthChange` of the small calendar (it sets the shown month directly) is not modelled.
- Object key order: `Object.entries` and `Object.keys` list integer-like keys first, in numeric order. Group keys are modelled in insertion order, which matches for every key that is not integer-like; a location named like "12" is not modelled. Keys naming members inherited from `Object.prototype` ("constructor", "toString", "__proto__" and the like) do not group at all: `LocationChart.Render` models the TypeError they cause.
- `OrgChart.BuildTree`: the children lists are shared node objects in the source. Here they are lists of ids into the node map, and the nested rendering is not modelled.
- `DataService.MapMember`: a member whose user is `null` makes the whole `fetchData` return empty, because the exception is caught. The `member.user &&` guard of the user collection therefore never sees a `null` user in a successful run. The model keeps both the guard and the throw.
- `DataService.FetchData`: `response.json()` throwing is folded into the failed case.
- The submission list item type is not defined in `src/lib/data-service.ts`. Its fields are taken from their uses in the submissions screens.
- The API proxy routes and the AI résumé parser are outside the modelled core.
- `CivilDate.AddMonths` is `addMonths` on civil dates; `subMonths(d, n)` is `AddMonths(d, -n)`.

## Findings

| source | as written | input that shows it | evidently intended | confidence | as-written member | corrected member |
|---|---|---|---|---|---|---|
| src/app/dashboard/calendar/calendar-client.tsx:167 | the day-view slot ends at `addMonths(hour, 1)`, which keeps the time of day | the 08:00 slot is labelled "08:00 - 08:00" | the slot ends one hour later: "08:00 - 09:00" | not executed | CalendarClient.SlotLabelAsWritten | CalendarClient.SlotLabel |
