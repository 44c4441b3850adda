# Interest groups and meeting dates

A model of `index.js`, a small coursework module for planning meetings.

- `createGroup(interest)` builds an interest group. The group keeps a list of
  people, `friends`, and offers `getAll`, `includePerson` and `excludePerson`.
- `findMeetingMembers(group, date)` counts the members who are free on a date.
- `findMeetingDateWithMaximumMembers(group)` looks for the members' start date
  on which the most members are free.

The model has three modules:

- `Roster` (`roster.dfy`) holds the `Person` record and the counting functions.
  `Person` is a class, so two people are compared by reference, as
  JavaScript's `Array.prototype.includes` compares objects. Its fields are
  constants because a person is never changed. `Roster` also
  holds the specification functions: `Covers`, `Coverage` (how many people are
  free on a day) and `WithoutEmail` (the filter of `excludePerson`). The lemmas
  about them are here too.
- `InterestGroup` (`group.dfy`) holds the class `Group`. Its field
  `friends: seq<Person>` is the closure's array. `IncludePerson` reassigns the
  field. `Valid()` is the invariant that nobody is a member twice.
- `Meetings` (`meetings.dfy`) holds the two queries as loops over the
  members. The ghost function `Scan` gives the state of the best-date loop
  (the bar `maxFriends` and the chosen `date`) after a given number of
  members. The loop is proved against it, and the lemmas about `Scan` state
  what the loop's result means. The contract of
  `FindMeetingDateWithMaximumMembers` determines its result: `None`, or the
  start date of the unique first member whose start date has the highest
  count. The module also holds four client methods that use only the
  contracts. `TwoMemberGroup` builds a group with ranges
  2020-01-01..2020-03-10 and 2020-02-05..2020-02-25, and `TwoMemberScenario`
  replays the queries on it. `ThreeMemberGroup` builds a group of three
  ranges whose common window is days 20..30, and `ThreeMemberScenario`
  checks that the chosen day lies in that window.

Dates are integer day numbers, and a free range `[startDate, endDate]`
includes both ends. An undefined `interests` is `None`.

`excludePerson` is modelled as the code is written. It builds a filtered copy
of the list, compares lengths and throws the copy away. So it reports whether
some member has the email, but removes nobody. The type comment at
index.js:16 describes `excludePerson` as removing a person from the member
list; the model follows the code, not that comment.

## Model

| member | source | states |
|---|---|---|
| `InterestGroup.Group.constructor` | index.js:24-25 | a new group keeps its interest and starts with no members; the no-duplicates invariant holds |
| `InterestGroup.Group.GetAll` | index.js:27-29 | returns the current member list, in insertion order |
| `InterestGroup.Group.IncludePerson` | index.js:30-39 | returns true exactly when the person's interests are defined and contain the group's interest and the person is not already a member; then the person is appended at the end and all earlier members stay as they were; otherwise the list is unchanged; no member ever appears twice |
| `InterestGroup.Group.ExcludePerson` | index.js:40-50 | returns true exactly when some member has the given email; it modifies nothing, so the member list is unchanged |
| `Roster.WithoutEmail` | index.js:41-45 | every person in the filtered copy is a member with another email; every member with another email is in the copy; the copy's length is the list's length minus the number of positions holding the email |
| `Roster.WithoutEmailShorterIff` | index.js:46-49 | the filtered copy is shorter than the list exactly when some member has the email |
| `Meetings.FindMeetingMembers` | index.js:59-67 | the count is the number of members `p` with `p.startDate <= d <= p.endDate`; it is at most the number of members; it is 0 exactly when the date lies outside every member's range |
| `Roster.CoverageCountsCoveringMembers` | index.js:62-66 | the count equals the size of the set of positions whose range covers the date |
| `Roster.CoverageBounds` | index.js:62-66 | the count lies between 0 and the number of members |
| `Roster.CoverageZeroIff` | index.js:62-66 | the count is 0 exactly when no member's range covers the date |
| `Roster.CoverageMonotone` | index.js:62-66 | if everyone free on one day is free on another, the other day's count is at least as large |
| `Roster.LatestCoveringStart` | index.js:69-71 | among the members free on a date, one has the latest start date |
| `Roster.CoverageMaxAtSomeStart` | index.js:69-71 | any date free for someone is free for no more members than some member's start date at or before it, so the maximum over all dates is reached at a start date |
| `Meetings.ScanProperties` | index.js:76-86 | after the first `n` start dates the bar is at least 1 and is no lower than any count tried; a date is chosen exactly when the bar is above 1, and then it is the start date of the first member whose count equals the bar |
| `Meetings.ScanChoosesBestStart` | index.js:76-88 | over the whole list: no date is chosen exactly when every start date's count is at most 1; otherwise the chosen date is the first start date with the highest count among start dates, that count is at least 2, and no date at all has a higher count |
| `Meetings.BestStartBeatsEveryDate` | index.js:69-71 | a start date whose count is highest among start dates has a count no lower than any date at all |
| `Meetings.TwoMemberGroup` | index.js:30-39 | including two matching people yields the list of both, in order; including the first again, or a person with undefined interests, leaves it unchanged |
| `Meetings.ThreeMemberGroup` | index.js:30-39 | including three matching people yields the list of all three, in order |
| `Meetings.FindMeetingDateWithMaximumMembers` | index.js:73-89 | returns null exactly when no member's start date (none, for an empty group) is free for two or more members; otherwise returns the start date of the first member, in list order, whose start date is free for the most members among all start dates, a count of at least 2; no date at all is free for more members than the returned one |

## Left out

- `console.log(currMax)` (index.js:81) only prints and does not affect the result.
- The shape checks `Boolean(group.getAll)` and `meetingDate instanceof Date`
  (index.js:60, index.js:74) are left out. The group is a `Group` object and
  the date is an `int`, so these checks cannot fail.
- JavaScript `Date` objects, time zones and comparison by `valueOf` are left
  out. Dates are integer day numbers.
- `getAll` returns the live array (index.js:28), so a caller could change the
  member list behind the group's back. The model returns the current sequence
  by value, so that aliasing is not modelled.
- `module.exports` (index.js:91) is left out.
- `includePerson` throws a `TypeError` when `interests` is `null`, and uses
  substring search when `interests` is a string. The model types `interests`
  as an optional list of strings, so neither case is modelled.
- The source never checks that `startDate <= endDate`, and neither does the
  model: such a range covers no day, and every lemma holds for it too.
- Roster.WithoutEmail: the contract pins membership and length, not that the
  copy keeps the list's order and repeats; index.js:46 uses only the length.
- `InterestGroup.Group.IncludePerson` requires the no-duplicates invariant
  `Valid()`. Every group satisfies it, because the constructor establishes it
  and `IncludePerson` keeps it.
