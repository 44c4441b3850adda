/** The interest group: a list of people sharing one interest, grown one
    person at a time. */
module InterestGroup {
  import opened Roster

  class Group {
    /** The interest the group was created for. */
    const interest: string
    /** The members, in the order they were included. */
    var friends: seq<Person>

    /** The group's invariant: nobody is a member twice. */
    ghost predicate Valid()
      reads this
    {
      NoDuplicates(friends)
    }

    /** A new group for `interest` has no members. */
    constructor (interest: string)
      ensures Valid()
      ensures this.interest == interest && friends == []
    {
      this.interest := interest;
      friends := [];
    }

    /** The current members, in insertion order. */
    method GetAll() returns (all: seq<Person>)
      ensures all == friends
    {
      all := friends;
    }

    /** Appends `friend` when the person has defined interests that include
        the group's interest and is not yet a member; otherwise nothing
        changes. Reports whether the person was appended. */
    method IncludePerson(friend: Person) returns (added: bool)
      requires Valid()
      modifies this
      ensures Valid()
      ensures added <==> SharesInterest(friend, interest) && friend !in old(friends)
      ensures friends == if added then old(friends) + [friend] else old(friends)
    {
      if friend.interests.None? {
        return false;
      }
      if interest in friend.interests.value && friend !in friends {
        friends := friends + [friend];
        return true;
      }
      return false;
    }

    /** Reports whether some member has the given email. The filtered list
        is computed and dropped, so no member is removed. */
    method ExcludePerson(email: string) returns (found: bool)
      ensures found <==> exists i :: 0 <= i < |friends| && friends[i].email == email
    {
      var filteredFriends := WithoutEmail(friends, email);
      WithoutEmailShorterIff(friends, email);
      found := |friends| > |filteredFriends|;
    }
  }
}
