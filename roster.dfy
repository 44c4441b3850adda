/** People of the roster, their free ranges, and the counting functions the
    group operations are specified by. Dates are day numbers. */
module Roster {

  datatype Option<+T> = None | Some(value: T)

  /** A person handed to a group. The record is never changed after it is
      built, so its fields are constants; two people are the same person
      exactly when they are the same object. */
  class Person {
    const name: string
    const email: string
    /** `None` stands for a person whose interests are undefined. */
    const interests: Option<seq<string>>
    /** The free range is the closed interval [startDate, endDate]. */
    const startDate: int
    const endDate: int

    constructor (name: string, email: string, interests: Option<seq<string>>, startDate: int, endDate: int)
      ensures this.name == name && this.email == email && this.interests == interests
      ensures this.startDate == startDate && this.endDate == endDate
    {
      this.name := name;
      this.email := email;
      this.interests := interests;
      this.startDate := startDate;
      this.endDate := endDate;
    }
  }

  /** The person lists `interest` among defined interests. */
  predicate SharesInterest(p: Person, interest: string)
  {
    p.interests.Some? && interest in p.interests.value
  }

  /** The person is free on day `d`, both ends of the range included. */
  predicate Covers(p: Person, d: int)
  {
    p.startDate <= d <= p.endDate
  }

  /** No person occurs twice in the list. */
  ghost predicate NoDuplicates(s: seq<Person>)
  {
    forall i, j :: 0 <= i < j < |s| ==> s[i] != s[j]
  }

  /** The number of people in `s` who are free on day `d`, counted in list
      order from the front (the last element is added last). */
  function Coverage(s: seq<Person>, d: int): nat
  {
    if s == [] then 0
    else Coverage(s[..|s| - 1], d) + (if Covers(s[|s| - 1], d) then 1 else 0)
  }

  /** The positions in `s` of the people free on day `d`. */
  ghost function CoveringIndices(s: seq<Person>, d: int): set<int>
  {
    set i | 0 <= i < |s| && Covers(s[i], d)
  }

  /** Coverage counts exactly the positions of the people free on `d`. */
  lemma {:induction false} CoverageCountsCoveringMembers(s: seq<Person>, d: int)
    ensures Coverage(s, d) == |CoveringIndices(s, d)|
  {
    if s != [] {
      var n := |s| - 1;
      CoverageCountsCoveringMembers(s[..n], d);
      assert CoveringIndices(s, d)
          == CoveringIndices(s[..n], d) + (if Covers(s[n], d) then {n} else {});
    }
  }

  /** Coverage never exceeds the number of people. */
  lemma {:induction false} CoverageBounds(s: seq<Person>, d: int)
    ensures 0 <= Coverage(s, d) <= |s|
  {
    if s != [] {
      CoverageBounds(s[..|s| - 1], d);
    }
  }

  /** Nobody is counted on a day outside every free range, and a day inside
      some free range is counted. */
  lemma {:induction false} CoverageZeroIff(s: seq<Person>, d: int)
    ensures Coverage(s, d) == 0 <==> forall i :: 0 <= i < |s| ==> !Covers(s[i], d)
  {
    if s != [] {
      var n := |s| - 1;
      CoverageZeroIff(s[..n], d);
      assert forall i :: 0 <= i < n ==> s[..n][i] == s[i];
    }
  }

  /** If everyone free on `d` is also free on `x`, at least as many people
      are free on `x` as on `d`. */
  lemma {:induction false} CoverageMonotone(s: seq<Person>, d: int, x: int)
    requires forall i :: 0 <= i < |s| && Covers(s[i], d) ==> Covers(s[i], x)
    ensures Coverage(s, d) <= Coverage(s, x)
  {
    if s != [] {
      var n := |s| - 1;
      assert forall i :: 0 <= i < n ==> s[..n][i] == s[i];
      CoverageMonotone(s[..n], d, x);
    }
  }

  /** Among the people free on `d`, one whose range starts last. */
  lemma {:induction false} LatestCoveringStart(s: seq<Person>, d: int) returns (k: nat)
    requires exists i :: 0 <= i < |s| && Covers(s[i], d)
    ensures k < |s| && Covers(s[k], d)
    ensures forall i :: 0 <= i < |s| && Covers(s[i], d) ==> s[i].startDate <= s[k].startDate
  {
    var n := |s| - 1;
    var prefix := s[..n];
    assert forall i :: 0 <= i < n ==> prefix[i] == s[i];
    if exists i :: 0 <= i < n && Covers(prefix[i], d) {
      var j := LatestCoveringStart(prefix, d);
      if Covers(s[n], d) && s[j].startDate < s[n].startDate {
        k := n;
      } else {
        k := j;
      }
    } else {
      k := n;
    }
  }

  /** The largest number of people free on one day is reached on the start
      day of someone's free range: whoever is free on `d` is also free on
      the latest start among them, which lies at or before `d`. */
  lemma CoverageMaxAtSomeStart(s: seq<Person>, d: int) returns (k: nat)
    requires Coverage(s, d) > 0
    ensures k < |s| && s[k].startDate <= d
    ensures Coverage(s, d) <= Coverage(s, s[k].startDate)
  {
    CoverageZeroIff(s, d);
    k := LatestCoveringStart(s, d);
    CoverageMonotone(s, d, s[k].startDate);
  }

  /** The positions in `s` of the people with the given email. */
  ghost function EmailIndices(s: seq<Person>, email: string): set<int>
  {
    set i | 0 <= i < |s| && s[i].email == email
  }

  /** The people of `s` whose email differs from `email`, in order: every
      person kept has another email, every person with another email is
      kept, and exactly the people with that email are dropped. */
  function WithoutEmail(s: seq<Person>, email: string): (r: seq<Person>)
    ensures |r| + |EmailIndices(s, email)| == |s|
    ensures forall i :: 0 <= i < |r| ==> r[i] in s && r[i].email != email
    ensures forall i :: 0 <= i < |s| && s[i].email != email ==> s[i] in r
  {
    if s == [] then []
    else
      var n := |s| - 1;
      assert EmailIndices(s, email)
          == EmailIndices(s[..n], email) + (if s[n].email == email then {n} else {});
      assert forall i :: 0 <= i < n ==> s[..n][i] == s[i];
      WithoutEmail(s[..n], email) + (if s[n].email != email then [s[n]] else [])
  }

  /** Filtering by email drops somebody exactly when somebody has that email. */
  lemma WithoutEmailShorterIff(s: seq<Person>, email: string)
    ensures |WithoutEmail(s, email)| < |s| <==> exists i :: 0 <= i < |s| && s[i].email == email
  {
    if i :| 0 <= i < |s| && s[i].email == email {
      assert i in EmailIndices(s, email);
    } else {
      assert EmailIndices(s, email) == {};
    }
  }
}
