/** The meeting store: a table of records with an existence query, an
    unchecked insert, an update of one record found by name, a fetch sorted
    by name, a delete by identity and a save that commits staged changes. */
module Store {
  import opened StringOrder
  import opened Meeting

  // ---------------------------------------------------------------------
  // Specification functions over the table

  /** No two records share an identity. */
  predicate DistinctIds(s: seq<Record>) {
    forall i, j :: 0 <= i < j < |s| ==> s[i].id != s[j].id
  }

  /** Some record has identity `id`. */
  predicate HasId(s: seq<Record>, id: nat) {
    exists i :: 0 <= i < |s| && s[i].id == id
  }

  /** What a fetch with the predicate `name == n` returns, in table order.
      A record without a name never matches. */
  function Matching(s: seq<Record>, n: string): (m: seq<Record>)
    ensures forall r :: r in m <==> r in s && r.name == Some(n)
    ensures |m| <= |s|
  {
    if s == [] then []
    else (if s[0].name == Some(n) then [s[0]] else []) + Matching(s[1..], n)
  }

  /** How many records carry the name `n`. */
  function CountNamed(s: seq<Record>, n: string): nat {
    |Matching(s, n)|
  }

  /** An identity larger than every identity in the table. */
  function FreshId(s: seq<Record>): (id: nat)
    ensures forall i :: 0 <= i < |s| ==> s[i].id < id
  {
    if s == [] then 0
    else
      var rest := FreshId(s[1..]);
      if s[0].id < rest then rest else s[0].id + 1
  }

  /** The table after deleting the object with identity `id`. */
  function WithoutId(s: seq<Record>, id: nat): (t: seq<Record>)
    ensures forall r :: r in t <==> r in s && r.id != id
    ensures DistinctIds(s) ==> DistinctIds(t)
  {
    if s == [] then []
    else
      var rest := WithoutId(s[1..], id);
      assert DistinctIds(s) ==> forall r :: r in s[1..] ==> r.id != s[0].id by {
        if DistinctIds(s) {
          forall r | r in s[1..] ensures r.id != s[0].id {
            var j :| 0 <= j < |s[1..]| && s[1..][j] == r;
            assert s[j + 1] == r;
          }
        }
      }
      if s[0].id == id then rest else [s[0]] + rest
  }

  /** A record as the update leaves it: all three fields assigned. */
  function Updated(r: Record, name: string, date: string, purpose: string): Record {
    r.(name := Some(name), date := Some(date), purpose := Some(purpose))
  }

  /** Sorted ascending by `unwrappedName`, in the sense of Swift's `sorted`
      with `<`: no later record's key is strictly smaller than an earlier one's. */
  predicate SortedByName(s: seq<Record>) {
    forall i, j :: 0 <= i < j < |s| ==> LessEq(UnwrappedName(s[i]), UnwrappedName(s[j]))
  }

  /** Reference sort by name (an insertion sort); the store promises only
      what any sort by `<` gives: a sorted permutation. */
  function InsertByName(x: Record, s: seq<Record>): (r: seq<Record>)
    ensures multiset(r) == multiset(s) + multiset{x}
  {
    if s == [] || LessEq(UnwrappedName(x), UnwrappedName(s[0])) then [x] + s
    else
      assert s == [s[0]] + s[1..];
      [s[0]] + InsertByName(x, s[1..])
  }

  function SortByName(s: seq<Record>): (r: seq<Record>)
    ensures multiset(r) == multiset(s)
  {
    if s == [] then []
    else
      assert s == [s[0]] + s[1..];
      InsertByName(s[0], SortByName(s[1..]))
  }

  // ---------------------------------------------------------------------
  // Lemmas about the specification functions

  lemma {:induction false} InsertByNameSorted(x: Record, s: seq<Record>)
    requires SortedByName(s)
    ensures SortedByName(InsertByName(x, s))
  {
    var r := InsertByName(x, s);
    if s == [] {
    } else if LessEq(UnwrappedName(x), UnwrappedName(s[0])) {
      forall i, j | 0 <= i < j < |r|
        ensures LessEq(UnwrappedName(r[i]), UnwrappedName(r[j]))
      {
        if i == 0 && j > 1 {
          LessEqTransitive(UnwrappedName(x), UnwrappedName(s[0]), UnwrappedName(s[j - 1]));
        }
      }
    } else {
      var rest := InsertByName(x, s[1..]);
      LessTrichotomy(UnwrappedName(x), UnwrappedName(s[0]));
      LessImpliesLessEq(UnwrappedName(s[0]), UnwrappedName(x));
      InsertByNameSorted(x, s[1..]);
      forall j | 0 <= j < |rest|
        ensures LessEq(UnwrappedName(s[0]), UnwrappedName(rest[j]))
      {
        assert rest[j] in multiset(rest);
        if rest[j] != x {
          assert rest[j] in multiset(s[1..]);
          var k :| 0 <= k < |s[1..]| && s[1..][k] == rest[j];
          assert s[k + 1] == rest[j];
        }
      }
      assert r == [s[0]] + rest;
    }
  }

  lemma {:induction false} SortByNameSorted(s: seq<Record>)
    ensures SortedByName(SortByName(s))
  {
    if s != [] {
      SortByNameSorted(s[1..]);
      InsertByNameSorted(s[0], SortByName(s[1..]));
    }
  }

  /** Appending a record adds it to the matches for its own name only. */
  lemma {:induction false} MatchingAppend(s: seq<Record>, x: Record, n: string)
    ensures Matching(s + [x], n) == Matching(s, n) + (if x.name == Some(n) then [x] else [])
  {
    if s == [] {
      assert s + [x] == [x];
    } else {
      assert (s + [x])[0] == s[0];
      assert (s + [x])[1..] == s[1..] + [x];
      MatchingAppend(s[1..], x, n);
    }
  }

  /** Rewriting one record named `n` into another record named `n` keeps
      the number of records named `n`. */
  lemma {:induction false} MatchingCountAfterUpdate(s: seq<Record>, k: nat, x: Record, n: string)
    requires k < |s| && s[k].name == Some(n) && x.name == Some(n)
    ensures CountNamed(s[k := x], n) == CountNamed(s, n)
  {
    if k == 0 {
      assert s[k := x][1..] == s[1..];
    } else {
      assert s[k := x][1..] == s[1..][k - 1 := x];
      MatchingCountAfterUpdate(s[1..], k - 1, x, n);
    }
  }

  /** Deleting by identity from a table with distinct ids removes exactly
      one record when that identity is present, and none otherwise. */
  lemma {:induction false} WithoutIdLength(s: seq<Record>, id: nat)
    requires DistinctIds(s)
    ensures |WithoutId(s, id)| == if HasId(s, id) then |s| - 1 else |s|
    ensures !HasId(s, id) ==> WithoutId(s, id) == s
  {
    if s != [] {
      assert DistinctIds(s[1..]) by {
        forall i, j | 0 <= i < j < |s[1..]| ensures s[1..][i].id != s[1..][j].id {
          assert s[1..][i] == s[i + 1] && s[1..][j] == s[j + 1];
        }
      }
      WithoutIdLength(s[1..], id);
      assert HasId(s, id) <==> s[0].id == id || HasId(s[1..], id) by {
        if HasId(s[1..], id) {
          var i :| 0 <= i < |s[1..]| && s[1..][i].id == id;
          assert s[i + 1].id == id;
        }
        if HasId(s, id) && s[0].id != id {
          var i :| 0 <= i < |s| && s[i].id == id;
          assert s[1..][i - 1].id == id;
        }
      }
    }
  }

  // ---------------------------------------------------------------------
  // The store

  class CoreDataManager {
    /** The working set of the database context, staged changes included. */
    var records: seq<Record>
    /** What the last successful save committed. */
    var persisted: seq<Record>
    /** The context's `hasChanges`. */
    var dirty: bool
    /** Next object identity to hand out on insert. */
    var nextId: nat
    /** How many change notifications have been posted. */
    ghost var notifications: nat

    ghost predicate Valid()
      reads this
    {
      && DistinctIds(records)
      && (forall i :: 0 <= i < |records| ==> records[i].id < nextId)
      && (!dirty ==> persisted == records)
    }

    /** Opening the store on previously persisted records. */
    constructor (stored: seq<Record>)
      requires DistinctIds(stored)
      ensures Valid()
      ensures records == stored && persisted == stored && !dirty && notifications == 0
      ensures nextId == FreshId(stored)
    {
      records := stored;
      persisted := stored;
      dirty := false;
      nextId := FreshId(stored);
      notifications := 0;
    }

    /** True iff some record carries exactly the name `name`; records
        without a name never match. */
    function CheckIfMeetingExists(name: string): (found: bool)
      reads this
      ensures found <==> exists i :: 0 <= i < |records| && records[i].name == Some(name)
    {
      var m := Matching(records, name);
      assert m != [] ==> m[0] in m;
      assert forall i :: 0 <= i < |records| && records[i].name == Some(name) ==> records[i] in m;
      m != []
    }

    /** The broadcast telling observers that the meetings changed. */
    ghost method PostNotification()
      modifies this`notifications
      ensures notifications == old(notifications) + 1
    {
      notifications := notifications + 1;
    }

    /** Inserts a new record with the given values; a record with the same
        name may already exist. */
    method AddMeeting(name: string, date: string, purpose: string)
      requires Valid()
      modifies this
      ensures Valid()
      ensures records == old(records) + [Record(old(nextId), Some(name), Some(date), Some(purpose))]
      ensures !HasId(old(records), old(nextId))
      ensures CheckIfMeetingExists(name)
      ensures CountNamed(records, name) == old(CountNamed(records, name)) + 1
      ensures dirty && persisted == old(persisted) && nextId == old(nextId) + 1
      ensures notifications == old(notifications) + 1
    {
      var meeting := Record(nextId, Some(name), Some(date), Some(purpose));
      MatchingAppend(records, meeting, name);
      records := records + [meeting];
      nextId := nextId + 1;
      dirty := true;
      PostNotification();
    }

    /** Rewrites one record named `name` (the first a fetch returns, in an
        unspecified order), or nothing when no record has that name. A
        notification is posted either way. */
    method UpdateMeeting(name: string, date: string, purpose: string)
      requires Valid()
      modifies this
      ensures Valid()
      ensures !old(CheckIfMeetingExists(name)) ==> records == old(records) && dirty == old(dirty)
      ensures old(CheckIfMeetingExists(name)) ==>
        && dirty
        && exists k :: 0 <= k < |old(records)| && old(records)[k].name == Some(name)
             && records == old(records)[k := Updated(old(records)[k], name, date, purpose)]
      ensures CountNamed(records, name) == old(CountNamed(records, name))
      ensures persisted == old(persisted) && nextId == old(nextId)
      ensures notifications == old(notifications) + 1
    {
      if CheckIfMeetingExists(name) {
        var k :| 0 <= k < |records| && records[k].name == Some(name);
        var meeting := Updated(records[k], name, date, purpose);
        MatchingCountAfterUpdate(records, k, meeting, name);
        records := records[k := meeting];
        dirty := true;
      }
      PostNotification();
    }

    /** All records, those with missing fields included, sorted by name. */
    method FetchMeetings() returns (meetings: seq<Record>)
      ensures multiset(meetings) == multiset(records)
      ensures SortedByName(meetings)
    {
      meetings := SortByName(records);
      SortByNameSorted(records);
    }

    /** Deletes the record with the identity of `meeting`; no notification. */
    method RemoveMeeting(meeting: Record)
      requires Valid()
      modifies this
      ensures Valid()
      ensures records == WithoutId(old(records), meeting.id)
      ensures |records| == if HasId(old(records), meeting.id) then |old(records)| - 1 else |old(records)|
      ensures dirty == (old(dirty) || HasId(old(records), meeting.id))
      ensures persisted == old(persisted) && nextId == old(nextId)
      ensures notifications == old(notifications)
    {
      WithoutIdLength(records, meeting.id);
      if HasId(records, meeting.id) {
        dirty := true;
      }
      records := WithoutId(records, meeting.id);
    }

    /** Commits the working set when there are staged changes. */
    method Save()
      requires Valid()
      modifies this
      ensures Valid()
      ensures records == old(records) && persisted == records && !dirty
      ensures !old(dirty) ==> persisted == old(persisted)
      ensures nextId == old(nextId) && notifications == old(notifications)
    {
      if dirty {
        persisted := records;
        dirty := false;
      }
    }
  }

  /** A sorted table holding exactly two records with different keys lists
      them in key order, whatever order they were added in. */
  lemma SortedPair(s: seq<Record>, a: Record, b: Record)
    requires multiset(s) == multiset{a, b} && SortedByName(s)
    requires Less(UnwrappedName(a), UnwrappedName(b))
    ensures s == [a, b]
  {
    assert |s| == |multiset(s)| == 2;
    assert s[0] in multiset(s) && s[1] in multiset(s);
    assert s == [s[0], s[1]];
    LessAsymmetric(UnwrappedName(a), UnwrappedName(b));
    LessIrreflexive(UnwrappedName(a));
  }

  /** The fetch of a table holding "B" and then "A" lists "A" first. */
  lemma FetchOfTwo(stored: seq<Record>, meetings: seq<Record>, a: Record, b: Record)
    requires a.name == Some("A") && b.name == Some("B") && stored == [b, a]
    requires multiset(meetings) == multiset(stored) && SortedByName(meetings)
    ensures meetings == [a, b]
  {
    assert UnwrappedName(a) == "A" && UnwrappedName(b) == "B";
    assert Less("A", "B");
    SortedPair(meetings, a, b);
  }

  /** Two meetings added in reverse name order come back from the fetch in
      name order, each with the values it was added with. */
  method FetchAfterTwoAdds(dateA: string, purposeA: string, dateB: string, purposeB: string)
    returns (meetings: seq<Record>)
    ensures meetings == [Record(1, Some("A"), Some(dateA), Some(purposeA)),
                         Record(0, Some("B"), Some(dateB), Some(purposeB))]
  {
    var store := new CoreDataManager([]);
    store.AddMeeting("B", dateB, purposeB);
    store.AddMeeting("A", dateA, purposeA);
    meetings := store.FetchMeetings();
    FetchOfTwo(store.records, meetings, Record(1, Some("A"), Some(dateA), Some(purposeA)),
               Record(0, Some("B"), Some(dateB), Some(purposeB)));
  }
}
