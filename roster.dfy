/**
  The roster store behind the activities endpoints: a table from activity
  name to its record, whose participant lists are changed in place by
  signup and unregister requests.  The store's behaviour is the one its
  test suite pins down: the responses, their messages and error details,
  and what a later list request observes.
*/
module Roster {
  import opened Activities

  /** What a signup or unregister request answers. */
  datatype Response =
    | Ok(message: string)
    | NotFound
    | AlreadyRegistered
    | NotRegistered

  /** The `detail` text the service sends with each failure.  The API
      client throws an error carrying it (`api.js:32,55`), and the client
      shows it as `Controller.ErrorText` of that detail. */
  function Detail(r: Response): (d: string)
    requires !r.Ok?
    ensures d != ""
  {
    match r
    case NotFound => "Activity not found"
    case AlreadyRegistered => "Student already signed up for this activity"
    case NotRegistered => "Student not signed up for this activity"
  }

  function SignedUpMessage(name: string, email: string): string
  {
    "Signed up " + email + " for " + name
  }

  function UnregisteredMessage(name: string, email: string): string
  {
    "Unregistered " + email + " from " + name
  }

  /** Every activity's participant list is free of duplicates. */
  ghost predicate Consistent(m: map<string, Activity>)
  {
    forall n :: n in m ==> Distinct(m[n].participants)
  }

  /** Removal of the first occurrence of `x`, as a list's `remove` does; a
      list without `x` is left as it is. */
  function RemoveFirst(s: seq<string>, x: string): (r: seq<string>)
    ensures x !in s ==> r == s
    ensures x in s ==> |r| == |s| - 1
  {
    if s == [] then []
    else if s[0] == x then s[1..]
    else
      assert x in s[1..] <==> x in s;
      [s[0]] + RemoveFirst(s[1..], x)
  }

  /** The position of the first `x` in `s`. */
  function FirstIndex(s: seq<string>, x: string): (i: nat)
    requires x in s
    ensures i < |s| && s[i] == x && x !in s[..i]
  {
    if s[0] == x then 0
    else
      assert x in s[1..];
      var j := FirstIndex(s[1..], x);
      assert s[..j + 1] == [s[0]] + s[1..][..j];
      j + 1
  }

  /** What is removed is the first occurrence: the result is the list with
      the position of the first `x` cut out. */
  lemma {:induction false} RemoveFirstCutsFirst(s: seq<string>, x: string)
    requires x in s
    ensures var i := FirstIndex(s, x); RemoveFirst(s, x) == s[..i] + s[i + 1..]
  {
    if s[0] != x {
      var t := s[1..];
      assert x in t;
      RemoveFirstCutsFirst(t, x);
      var j := FirstIndex(t, x);
      assert FirstIndex(s, x) == j + 1;
      calc {
        RemoveFirst(s, x);
        [s[0]] + RemoveFirst(t, x);
        [s[0]] + (t[..j] + t[j + 1..]);
        { assert s[..j + 1] == [s[0]] + t[..j]; assert s[j + 2..] == t[j + 1..]; }
        s[..j + 1] + s[j + 2..];
      }
    }
  }

  /** Removal takes away one occurrence of `x` and keeps every other element. */
  lemma {:induction false} RemoveFirstCounts(s: seq<string>, x: string)
    ensures multiset(RemoveFirst(s, x)) == multiset(s) - multiset{x}
  {
    if s != [] {
      assert s == [s[0]] + s[1..];
      if s[0] != x {
        RemoveFirstCounts(s[1..], x);
        assert RemoveFirst(s, x) == [s[0]] + RemoveFirst(s[1..], x);
      }
    }
  }

  /** Dropping position `i` of a duplicate-free list keeps it duplicate-free
      and loses exactly the element that stood there. */
  lemma DropDistinct(s: seq<string>, i: nat)
    requires Distinct(s) && i < |s|
    ensures Distinct(s[..i] + s[i + 1..])
    ensures forall y :: y in s[..i] + s[i + 1..] <==> y in s && y != s[i]
  {
  }

  /** Removing from a duplicate-free list removes `x` altogether, shortens the
      list by one exactly when `x` was there, and keeps it duplicate-free. */
  lemma RemoveFirstDistinct(s: seq<string>, x: string)
    requires Distinct(s)
    ensures Distinct(RemoveFirst(s, x))
    ensures forall y :: y in RemoveFirst(s, x) <==> y in s && y != x
    ensures |RemoveFirst(s, x)| == if x in s then |s| - 1 else |s|
  {
    if x in s {
      RemoveFirstCutsFirst(s, x);
      DropDistinct(s, FirstIndex(s, x));
    }
  }

  /** Removing an email that was just appended to a list that did not hold it
      gives back the list. */
  lemma {:induction false} RemoveFirstAppended(s: seq<string>, x: string)
    requires x !in s
    ensures RemoveFirst(s + [x], x) == s
  {
    if s != [] {
      assert (s + [x])[1..] == s[1..] + [x];
      RemoveFirstAppended(s[1..], x);
      assert s == [s[0]] + s[1..];
    }
  }

  /** The outcome of one request: the response and the table afterwards. */
  datatype Step = Step(response: Response, roster: map<string, Activity>)

  /** Sign `email` up for activity `name` in table `m`. */
  function SignupStep(m: map<string, Activity>, name: string, email: string): (s: Step)
    ensures name !in m ==> s == Step(NotFound, m)
    ensures name in m && email in m[name].participants ==> s == Step(AlreadyRegistered, m)
    ensures name in m && email !in m[name].participants ==>
      && s.response == Ok(SignedUpMessage(name, email))
      && s.roster.Keys == m.Keys
      && var before, after := m[name], s.roster[name];
         && after.participants == before.participants + [email]
         && after == before.(participants := after.participants)
    ensures forall n :: n in m && n != name ==> n in s.roster && s.roster[n] == m[n]
  {
    if name !in m then Step(NotFound, m)
    else if email in m[name].participants then Step(AlreadyRegistered, m)
    else
      var a := m[name];
      Step(Ok(SignedUpMessage(name, email)), m[name := a.(participants := a.participants + [email])])
  }

  /** Remove `email` from activity `name` in table `m`. */
  function UnregisterStep(m: map<string, Activity>, name: string, email: string): (s: Step)
    ensures name !in m ==> s == Step(NotFound, m)
    ensures name in m && email !in m[name].participants ==> s == Step(NotRegistered, m)
    ensures name in m && email in m[name].participants ==>
      && s.response == Ok(UnregisteredMessage(name, email))
      && s.roster.Keys == m.Keys
      && var before, after := m[name], s.roster[name];
         && |after.participants| == |before.participants| - 1
         && after == before.(participants := after.participants)
    ensures forall n :: n in m && n != name ==> n in s.roster && s.roster[n] == m[n]
  {
    if name !in m then Step(NotFound, m)
    else if email !in m[name].participants then Step(NotRegistered, m)
    else
      var a := m[name];
      Step(Ok(UnregisteredMessage(name, email)), m[name := a.(participants := RemoveFirst(a.participants, email))])
  }

  /** A successful unregister takes exactly one occurrence of the email out of
      that activity's list and keeps every other participant. */
  lemma UnregisterRemovesOne(m: map<string, Activity>, name: string, email: string)
    requires name in m && email in m[name].participants
    ensures var after := UnregisterStep(m, name, email).roster[name].participants;
            multiset(after) == multiset(m[name].participants) - multiset{email}
  {
    RemoveFirstCounts(m[name].participants, email);
  }

  /** A signup keeps every participant list free of duplicates. */
  lemma SignupKeepsConsistent(m: map<string, Activity>, name: string, email: string)
    requires Consistent(m)
    ensures Consistent(SignupStep(m, name, email).roster)
  {
  }

  /** An unregister keeps every participant list free of duplicates, and the
      email is no longer a participant of that activity afterwards. */
  lemma UnregisterKeepsConsistent(m: map<string, Activity>, name: string, email: string)
    requires Consistent(m)
    ensures Consistent(UnregisterStep(m, name, email).roster)
    ensures name in m ==> email !in UnregisterStep(m, name, email).roster[name].participants
  {
    if name in m {
      RemoveFirstDistinct(m[name].participants, email);
    }
  }

  /** A signup followed by an unregister of the same email succeeds both
      times and gives back the table as it was. */
  lemma SignupThenUnregister(m: map<string, Activity>, name: string, email: string)
    requires name in m && email !in m[name].participants
    ensures var s1 := SignupStep(m, name, email);
            var s2 := UnregisterStep(s1.roster, name, email);
            && s1.response == Ok(SignedUpMessage(name, email))
            && email in s1.roster[name].participants
            && s2.response == Ok(UnregisteredMessage(name, email))
            && email !in s2.roster[name].participants
            && s2.roster == m
  {
    var a := m[name];
    var added := a.(participants := a.participants + [email]);
    assert SignupStep(m, name, email).roster == m[name := added];
    RemoveFirstAppended(a.participants, email);
    assert UnregisterStep(m[name := added], name, email).roster == m[name := added][name := a];
    assert m[name := added][name := a] == m;
  }

  /** Signing the same email up twice: the second request always fails with
      AlreadyRegistered and changes nothing; the first succeeds exactly when
      the email was not yet a participant. */
  lemma DuplicateSignup(m: map<string, Activity>, name: string, email: string)
    requires name in m
    ensures var s1 := SignupStep(m, name, email);
            var s2 := SignupStep(s1.roster, name, email);
            && (s1.response.Ok? <==> email !in m[name].participants)
            && s2 == Step(AlreadyRegistered, s1.roster)
            && |s2.roster[name].participants| <= |m[name].participants| + 1
  {
  }

  /** Membership is per activity: after signing one email up for two
      different activities it is a participant of both, and each request that
      found it absent succeeded. */
  lemma SignupForTwoActivities(m: map<string, Activity>, a: string, b: string, email: string)
    requires a in m && b in m && a != b
    ensures var s1 := SignupStep(m, a, email);
            var s2 := SignupStep(s1.roster, b, email);
            && email in s2.roster[a].participants
            && email in s2.roster[b].participants
            && (email !in m[a].participants ==> s1.response.Ok?)
            && (email !in m[b].participants ==> s2.response.Ok?)
  {
  }

  /**
    The store itself: one table whose records the requests update in place.
  */
  class Store {
    var activities: map<string, Activity>

    /** The table as provisioned: the store never adds or drops activities. */
    constructor (seed: map<string, Activity>)
      ensures activities == seed
    {
      activities := seed;
    }

    /** Every activity with its current record. */
    method List() returns (r: map<string, Activity>)
      ensures r == activities
    {
      r := activities;
    }

    method Signup(name: string, email: string) returns (r: Response)
      modifies this
      ensures Step(r, activities) == SignupStep(old(activities), name, email)
      ensures Consistent(old(activities)) ==> Consistent(activities)
    {
      if name !in activities {
        return NotFound;
      }
      var a := activities[name];
      if email in a.participants {
        return AlreadyRegistered;
      }
      if Consistent(activities) {
        SignupKeepsConsistent(activities, name, email);
      }
      activities := activities[name := a.(participants := a.participants + [email])];
      r := Ok(SignedUpMessage(name, email));
    }

    method Unregister(name: string, email: string) returns (r: Response)
      modifies this
      ensures Step(r, activities) == UnregisterStep(old(activities), name, email)
      ensures Consistent(old(activities)) ==> Consistent(activities)
    {
      if name !in activities {
        return NotFound;
      }
      var a := activities[name];
      if email !in a.participants {
        return NotRegistered;
      }
      if Consistent(activities) {
        UnregisterKeepsConsistent(activities, name, email);
      }
      activities := activities[name := a.(participants := RemoveFirst(a.participants, email))];
      r := Ok(UnregisteredMessage(name, email));
    }
  }
}
