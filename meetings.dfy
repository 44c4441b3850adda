/** The two queries over a group: how many members are free on a day, and
    the members' start day on which the most members are free. */
module Meetings {
  import opened Roster
  import opened InterestGroup

  /** How many people of `s` are free on the start day of the `j`-th one. */
  function StartCoverage(s: seq<Person>, j: int): nat
    requires 0 <= j < |s|
  {
    Coverage(s, s[j].startDate)
  }

  /** The `k`-th person's start day is free for the most people among all
      start days, and no earlier person's start day ties with it. */
  ghost predicate IsFirstBestStart(s: seq<Person>, k: int)
  {
    && 0 <= k < |s|
    && (forall j :: 0 <= j < |s| ==> StartCoverage(s, j) <= StartCoverage(s, k))
    && (forall j :: 0 <= j < k ==> StartCoverage(s, j) < StartCoverage(s, k))
  }

  /** The number of members of `group` free on `meetingDate`, both ends of
      each free range included. */
  method FindMeetingMembers(group: Group, meetingDate: int) returns (freeFriendsCount: nat)
    ensures freeFriendsCount == Coverage(group.friends, meetingDate)
    ensures freeFriendsCount <= |group.friends|
    ensures freeFriendsCount == 0 <==>
              forall i :: 0 <= i < |group.friends| ==> !Covers(group.friends[i], meetingDate)
  {
    var friends := group.GetAll();
    freeFriendsCount := 0;
    for i := 0 to |friends|
      invariant freeFriendsCount == Coverage(friends[..i], meetingDate)
    {
      assert friends[..i + 1][..i] == friends[..i];
      if Covers(friends[i], meetingDate) {
        freeFriendsCount := freeFriendsCount + 1;
      }
    }
    assert friends[..|friends|] == friends;
    CoverageBounds(friends, meetingDate);
    CoverageZeroIff(friends, meetingDate);
  }

  /** The values of the maximum so far and of the chosen day while the
      members' start days are tried in list order. */
  datatype ScanState = ScanState(maxFriends: int, date: Option<int>)

  /** The state after trying the start days of the first `n` members: the
      bar starts at one and moves to a start day's count only when that
      count is strictly higher. */
  ghost function Scan(s: seq<Person>, n: int): ScanState
    requires 0 <= n <= |s|
  {
    if n == 0 then ScanState(1, None)
    else
      var st := Scan(s, n - 1);
      if StartCoverage(s, n - 1) > st.maxFriends
      then ScanState(StartCoverage(s, n - 1), Some(s[n - 1].startDate))
      else st
  }

  /** After `n` start days the bar is at least one and bounds every count
      tried so far; a day is chosen exactly when the bar has moved, and then
      it is the start day of the first member reaching the bar. */
  lemma {:induction false} ScanProperties(s: seq<Person>, n: int) returns (k: int)
    requires 0 <= n <= |s|
    ensures Scan(s, n).maxFriends >= 1
    ensures Scan(s, n).date.None? <==> Scan(s, n).maxFriends == 1
    ensures forall j :: 0 <= j < n ==> StartCoverage(s, j) <= Scan(s, n).maxFriends
    ensures Scan(s, n).date.Some? ==>
              && 0 <= k < n
              && Scan(s, n).date.value == s[k].startDate
              && StartCoverage(s, k) == Scan(s, n).maxFriends
              && forall j :: 0 <= j < k ==> StartCoverage(s, j) < Scan(s, n).maxFriends
  {
    if n == 0 {
      k := 0;
    } else {
      k := ScanProperties(s, n - 1);
      if StartCoverage(s, n - 1) > Scan(s, n - 1).maxFriends {
        k := n - 1;
      }
    }
  }

  /** Tries every member's start day in list order and keeps the first one
      free for strictly more members than any before it, starting from a
      bar of one. Returns `None` when no start day is free for two or more
      members; otherwise the chosen day, which no day at all beats. */
  method FindMeetingDateWithMaximumMembers(group: Group) returns (date: Option<int>)
    ensures date.None? <==> forall j :: 0 <= j < |group.friends| ==> StartCoverage(group.friends, j) <= 1
    ensures date.Some? ==>
              exists k :: IsFirstBestStart(group.friends, k)
                       && date.value == group.friends[k].startDate
                       && StartCoverage(group.friends, k) >= 2
    ensures date.Some? ==>
              forall d :: Coverage(group.friends, d) <= Coverage(group.friends, date.value)
  {
    var friends := group.GetAll();
    var maxFriends := 1;
    var found: Option<int> := None;
    for i := 0 to |friends|
      invariant ScanState(maxFriends, found) == Scan(friends, i)
    {
      var currDate := friends[i].startDate;
      var currMax := FindMeetingMembers(group, currDate);
      if currMax > maxFriends {
        maxFriends := currMax;
        found := Some(currDate);
      }
    }
    ScanChoosesBestStart(friends);
    if maxFriends == 1 {
      return None;
    }
    return found;
  }

  /** The day chosen by the whole scan: none when no start day is free for
      two or more members; otherwise the first start day with the highest
      count among start days, which no day at all beats. */
  lemma ScanChoosesBestStart(s: seq<Person>)
    ensures Scan(s, |s|).date.None? <==> Scan(s, |s|).maxFriends == 1
    ensures Scan(s, |s|).date.None? <==> forall j :: 0 <= j < |s| ==> StartCoverage(s, j) <= 1
    ensures Scan(s, |s|).date.Some? ==>
              exists k :: IsFirstBestStart(s, k)
                       && Scan(s, |s|).date.value == s[k].startDate
                       && StartCoverage(s, k) >= 2
    ensures Scan(s, |s|).date.Some? ==>
              forall d :: Coverage(s, d) <= Coverage(s, Scan(s, |s|).date.value)
  {
    var best := ScanProperties(s, |s|);
    if Scan(s, |s|).date.Some? {
      assert IsFirstBestStart(s, best) && StartCoverage(s, best) >= 2;
      BestStartBeatsEveryDate(s, best);
    }
  }

  /** A start day free for the most members among all start days is free
      for at least as many members as any day at all. */
  lemma BestStartBeatsEveryDate(s: seq<Person>, k: int)
    requires 0 <= k < |s|
    requires forall j :: 0 <= j < |s| ==> StartCoverage(s, j) <= StartCoverage(s, k)
    ensures forall d :: Coverage(s, d) <= StartCoverage(s, k)
  {
    forall d
      ensures Coverage(s, d) <= StartCoverage(s, k)
    {
      if Coverage(s, d) > 0 {
        var j := CoverageMaxAtSomeStart(s, d);
        assert StartCoverage(s, j) <= StartCoverage(s, k);
      }
    }
  }

  /** Builds a group of two members whose free ranges overlap from day 36 to
      day 56 (2020-02-05 to 2020-02-25, counting 2020-01-01 as day 1). A
      repeated person and a person without interests are turned away. */
  method TwoMemberGroup() returns (group: Group, a: Person, b: Person)
    ensures group.friends == [a, b]
    ensures a.email == "a@example.com" && a.startDate == 1 && a.endDate == 70
    ensures b.email == "b@example.com" && b.startDate == 36 && b.endDate == 56
  {
    group := new Group("books");
    a := new Person("A", "a@example.com", Some(["books", "films"]), 1, 70);
    b := new Person("B", "b@example.com", Some(["books"]), 36, 56);
    var c := new Person("C", "c@example.com", None, 1, 366);
    var added := group.IncludePerson(a);
    assert added;
    added := group.IncludePerson(b);
    assert added;
    added := group.IncludePerson(a);
    assert !added;
    added := group.IncludePerson(c);
    assert !added;
  }

  /** The queries on the two-member group: two members are free on day 41,
      nobody on day 360, and the best day is the second member's start. */
  method TwoMemberScenario()
  {
    var group, a, b := TwoMemberGroup();
    ghost var s := group.friends;
    assert s[..1] == [a] && [a][..0] == [];
    assert Coverage([a], 41) == 1 && Coverage([a], 360) == 0;
    assert Coverage(s, 41) == 2 && Coverage(s, 360) == 0;
    assert Coverage([a], 1) == 1 && Coverage([a], 36) == 1;
    assert StartCoverage(s, 0) == 1 && StartCoverage(s, 1) == 2;

    var count := FindMeetingMembers(group, 41);
    assert count == 2;
    count := FindMeetingMembers(group, 360);
    assert count == 0;

    var found := group.ExcludePerson("b@example.com");
    assert s[1].email == "b@example.com";
    assert found;
    found := group.ExcludePerson("z@example.com");
    assert !found;

    var date := FindMeetingDateWithMaximumMembers(group);
    assert date == Some(36);
  }

  /** Builds a group of three members whose free ranges all overlap on
      days 20 to 30; two of the three pairs also overlap outside that
      window. */
  method ThreeMemberGroup() returns (group: Group, a: Person, b: Person, c: Person)
    ensures group.friends == [a, b, c]
    ensures a.startDate == 1 && a.endDate == 30
    ensures b.startDate == 10 && b.endDate == 40
    ensures c.startDate == 20 && c.endDate == 50
  {
    group := new Group("chess");
    a := new Person("A", "a@example.com", Some(["chess"]), 1, 30);
    b := new Person("B", "b@example.com", Some(["chess", "go"]), 10, 40);
    c := new Person("C", "c@example.com", Some(["chess"]), 20, 50);
    var added := group.IncludePerson(a);
    added := group.IncludePerson(b);
    added := group.IncludePerson(c);
  }

  /** On the three-member group the chosen day lies in the window common to
      all three, not merely in an overlap of two. */
  method ThreeMemberScenario()
  {
    var group, a, b, c := ThreeMemberGroup();
    ghost var s := group.friends;
    assert s[..2] == [a, b] && [a, b][..1] == [a] && [a][..0] == [];
    assert Coverage([a], 1) == 1 && Coverage([a], 10) == 1 && Coverage([a], 20) == 1;
    assert Coverage([a, b], 1) == 1 && Coverage([a, b], 10) == 2 && Coverage([a, b], 20) == 2;
    assert StartCoverage(s, 0) == 1 && StartCoverage(s, 1) == 2 && StartCoverage(s, 2) == 3;

    var date := FindMeetingDateWithMaximumMembers(group);
    assert date == Some(20);
    assert 20 <= date.value <= 30;
  }
}
