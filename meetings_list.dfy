/** The meetings-list screen: the rows shown for the fetched records, the
    table/placeholder visibility, and the delete confirmation. */
module MeetingsListScreen {
  import opened StringOrder
  import opened Meeting
  import opened Store

  /** A table row. `meeting` is the fetched record that the row's remove
      action captures. */
  datatype CellModel = CellModel(name: string, date: string, purpose: string, meeting: Record)

  /** The record has all three fields, so it can be shown. */
  predicate IsComplete(r: Record) {
    r.name.Some? && r.date.Some? && r.purpose.Some?
  }

  /** The row a complete record is shown as: its three values, unchanged. */
  predicate ShowsRecord(c: CellModel) {
    c.meeting.name == Some(c.name) && c.meeting.date == Some(c.date) && c.meeting.purpose == Some(c.purpose)
  }

  /** The records behind the rows, in row order. */
  function Meetings(rows: seq<CellModel>): (ms: seq<Record>)
    ensures |ms| == |rows|
  {
    if rows == [] then [] else [rows[0].meeting] + Meetings(rows[1..])
  }

  /** How many records have all three fields. */
  function CountComplete(s: seq<Record>): nat {
    if s == [] then 0 else (if IsComplete(s[0]) then 1 else 0) + CountComplete(s[1..])
  }

  /** `xs` is `ys` with some elements left out, the rest kept in order. */
  predicate Subsequence(xs: seq<Record>, ys: seq<Record>)
    decreases |ys|
  {
    if xs == [] then true
    else if ys == [] then false
    else (xs[0] == ys[0] && Subsequence(xs[1..], ys[1..])) || Subsequence(xs, ys[1..])
  }

  /** The rows for the fetched records: one row per complete fetched
      record, each showing that record's values; records with any field
      missing are dropped. Order and multiplicity: CellModelsInFetchOrder,
      CellModelsMultiplicity. */
  function CellModels(fetched: seq<Record>): (rows: seq<CellModel>)
    ensures |rows| == CountComplete(fetched)
    ensures forall i :: 0 <= i < |rows| ==> ShowsRecord(rows[i]) && rows[i].meeting in fetched
  {
    if fetched == [] then []
    else
      var m := fetched[0];
      var rest := CellModels(fetched[1..]);
      if IsComplete(m) then [CellModel(m.name.value, m.date.value, m.purpose.value, m)] + rest
      else rest
  }

  /** The rows' records are the fetched ones with some left out and the rest
      in fetch order. */
  lemma {:induction false} CellModelsInFetchOrder(fetched: seq<Record>)
    ensures Subsequence(Meetings(CellModels(fetched)), fetched)
  {
    if fetched != [] {
      var m := fetched[0];
      var rest := CellModels(fetched[1..]);
      CellModelsInFetchOrder(fetched[1..]);
      if IsComplete(m) {
        var rows := [CellModel(m.name.value, m.date.value, m.purpose.value, m)] + rest;
        assert rows[1..] == rest;
        assert Meetings(rows) == [m] + Meetings(rest);
      } else if Meetings(rest) != [] {
        assert Subsequence(Meetings(rest), fetched);
      }
    }
  }

  /** A complete record gets as many rows as it has occurrences in the fetch;
      an incomplete one gets none. */
  lemma {:induction false} CellModelsMultiplicity(fetched: seq<Record>, r: Record)
    ensures multiset(Meetings(CellModels(fetched)))[r] == if IsComplete(r) then multiset(fetched)[r] else 0
  {
    if fetched != [] {
      var m := fetched[0];
      var rest := CellModels(fetched[1..]);
      assert fetched == [m] + fetched[1..];
      CellModelsMultiplicity(fetched[1..], r);
      if IsComplete(m) {
        var rows := [CellModel(m.name.value, m.date.value, m.purpose.value, m)] + rest;
        assert rows[1..] == rest;
        assert multiset(Meetings(rows)) == multiset{m} + multiset(Meetings(rest));
      }
    }
  }

  /** With distinct identities a record occurs at most once in a table. */
  lemma {:induction false} DistinctIdsOccurOnce(s: seq<Record>, r: Record)
    requires DistinctIds(s)
    ensures multiset(s)[r] == if r in s then 1 else 0
  {
    if s != [] {
      assert s == [s[0]] + s[1..];
      assert DistinctIds(s[1..]) by {
        forall i, j | 0 <= i < j < |s[1..]| ensures s[1..][i].id != s[1..][j].id {
          assert s[1..][i] == s[i + 1] && s[1..][j] == s[j + 1];
        }
      }
      DistinctIdsOccurOnce(s[1..], r);
    }
  }

  /** What the list shows for a table of stored records: each complete
      record in exactly one row, nothing else, every row with its record's
      own values, sorted by name, one row per complete record. */
  ghost predicate ListsCompleteRecords(rows: seq<CellModel>, records: seq<Record>) {
    && (forall i :: 0 <= i < |rows| ==> ShowsRecord(rows[i]))
    && (forall r :: multiset(Meetings(rows))[r] == if r in records && IsComplete(r) then 1 else 0)
    && (forall i, j :: 0 <= i < j < |rows| ==> LessEq(rows[i].name, rows[j].name))
    && |rows| == CountComplete(records)
  }

  /** The rows built from a sorted fetch of a table with distinct identities
      list that table's complete records. */
  lemma RowsOfFetch(records: seq<Record>, fetched: seq<Record>)
    requires DistinctIds(records)
    requires multiset(fetched) == multiset(records) && SortedByName(fetched)
    ensures ListsCompleteRecords(CellModels(fetched), records)
  {
    var rows := CellModels(fetched);
    CellModelsSorted(fetched);
    var own := CellModels(records);
    forall r ensures multiset(Meetings(rows))[r] == if r in records && IsComplete(r) then 1 else 0
      ensures multiset(Meetings(rows))[r] == multiset(Meetings(own))[r]
    {
      DistinctIdsOccurOnce(records, r);
      CellModelsMultiplicity(fetched, r);
      CellModelsMultiplicity(records, r);
    }
    assert multiset(Meetings(rows)) == multiset(Meetings(own));
    assert |rows| == |Meetings(rows)| == |multiset(Meetings(rows))|;
    assert |own| == |Meetings(own)| == |multiset(Meetings(own))|;
  }

  /** Rows built from records sorted by name are sorted by name. */
  lemma {:induction false} CellModelsSorted(fetched: seq<Record>)
    requires SortedByName(fetched)
    ensures forall i, j :: 0 <= i < j < |CellModels(fetched)| ==>
      LessEq(CellModels(fetched)[i].name, CellModels(fetched)[j].name)
  {
    if fetched != [] {
      var m := fetched[0];
      var rest := CellModels(fetched[1..]);
      assert SortedByName(fetched[1..]) by {
        forall i, j | 0 <= i < j < |fetched[1..]|
          ensures LessEq(UnwrappedName(fetched[1..][i]), UnwrappedName(fetched[1..][j]))
        {
          assert fetched[1..][i] == fetched[i + 1] && fetched[1..][j] == fetched[j + 1];
        }
      }
      CellModelsSorted(fetched[1..]);
      if IsComplete(m) {
        forall j | 0 <= j < |rest| ensures LessEq(m.name.value, rest[j].name) {
          var k :| 0 <= k < |fetched[1..]| && fetched[1..][k] == rest[j].meeting;
          assert fetched[k + 1] == rest[j].meeting;
        }
      }
    }
  }

  /** The two choices of the delete alert. */
  datatype DeleteChoice = Confirm | Dismiss

  class MeetingsList {
    const store: CoreDataManager
    var cellModels: seq<CellModel>
    var tableHidden: bool
    var placeholderHidden: bool

    /** The store is consistent and exactly one of the table and the
        placeholder is visible: the table when there are rows. */
    ghost predicate Valid()
      reads this, store
    {
      && store.Valid()
      && tableHidden == (|cellModels| == 0)
      && placeholderHidden == !tableHidden
    }

    /** The screen loads its rows as soon as it is created; the store is
        only read. */
    constructor (store: CoreDataManager)
      requires store.Valid()
      ensures Valid() && this.store == store && unchanged(store)
      ensures ListsCompleteRecords(cellModels, store.records)
    {
      this.store := store;
      new;
      UpdateData();
    }

    /** The table's row count: the number of row models. It is zero exactly
        when the table is hidden and the placeholder shown, and right after a
        refresh it is the number of complete stored records. */
    function NumberOfRows(): (n: nat)
      reads this, store
      requires Valid()
      ensures n == |cellModels|
      ensures n == 0 <==> tableHidden
      ensures n == 0 <==> !placeholderHidden
      ensures ListsCompleteRecords(cellModels, store.records) ==> n == CountComplete(store.records)
    {
      |cellModels|
    }

    /** Refetches and rebuilds the rows: each complete stored record in
        exactly one row with its own values, nothing else, sorted by name. */
    method UpdateData()
      requires store.Valid()
      modifies this
      ensures Valid()
      ensures ListsCompleteRecords(cellModels, store.records)
      ensures forall i :: 0 <= i < |cellModels| ==> cellModels[i].meeting in store.records
    {
      var fetched := store.FetchMeetings();
      assert forall r :: r in fetched <==> r in store.records by {
        forall r ensures r in fetched <==> r in store.records {
          assert r in fetched <==> r in multiset(fetched);
          assert r in store.records <==> r in multiset(store.records);
        }
      }
      RowsOfFetch(store.records, fetched);
      cellModels := CellModels(fetched);
      tableHidden := |cellModels| == 0;
      placeholderHidden := !tableHidden;
    }

    /** The delete alert's handlers: on confirmation delete the row's record
        and refresh, otherwise do nothing. */
    method DeleteAlert(meeting: Record, choice: DeleteChoice)
      requires Valid()
      modifies this, store
      ensures Valid()
      ensures choice == Dismiss ==> unchanged(this) && unchanged(store)
      ensures choice == Confirm ==>
        && store.records == WithoutId(old(store.records), meeting.id)
        && store.dirty == (old(store.dirty) || HasId(old(store.records), meeting.id))
        && store.persisted == old(store.persisted) && store.nextId == old(store.nextId)
        && store.notifications == old(store.notifications)
        && ListsCompleteRecords(cellModels, store.records)
        && (forall i :: 0 <= i < |cellModels| ==> cellModels[i].meeting.id != meeting.id)
    {
      if choice == Confirm {
        store.RemoveMeeting(meeting);
        UpdateData();
      }
    }
  }
}
