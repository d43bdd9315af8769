/** The month-by-month history of calculation results: the upsert by month,
    the date-descending view the history list shows, deletion through that
    view, and clearing. */
module History {
  import opened Common
  import opened Roster
  import opened Calculator

  /** The four-digit years a `YYYY-MM` key can spell. */
  type Year = y: int | 1000 <= y <= 9999 witness 2024

  type MonthOfYear = m: int | 1 <= m <= 12 witness 1

  /** A `YYYY-MM` key. */
  datatype Month = Month(year: Year, month: MonthOfYear)

  /** Months counted from year 0, the order the script's month comparator
      uses; the index determines year and month. */
  function MonthIndex(m: Month): (r: int)
    ensures r >= 0
    ensures r / 12 == m.year && r % 12 == m.month - 1
  {
    m.year * 12 + (m.month - 1)
  }

  /** The chronological order of months is the lexicographic order of (year, month),
      which is also the order of their `YYYY-MM` spellings. */
  lemma MonthIndexOrder(a: Month, b: Month)
    ensures MonthIndex(a) <= MonthIndex(b) <==> (a.year < b.year || (a.year == b.year && a.month <= b.month))
    ensures MonthIndex(a) == MonthIndex(b) <==> a == b
  {
  }

  datatype HistoryRecord = HistoryRecord(id: nat, month: Month, date: nat, data: FinancialResult)

  /** The number of records kept for month `m`. */
  function CountMonth(h: seq<HistoryRecord>, m: Month): nat {
    if h == [] then 0 else (if h[0].month == m then 1 else 0) + CountMonth(h[1..], m)
  }

  predicate AtMostOnePerMonth(h: seq<HistoryRecord>) {
    forall i, j :: 0 <= i < j < |h| ==> h[i].month != h[j].month
  }

  predicate DistinctIds(h: seq<HistoryRecord>) {
    forall i, j :: 0 <= i < j < |h| ==> h[i].id != h[j].id
  }

  /** The history without its records of month `m`, in storage order. */
  function WithoutMonth(h: seq<HistoryRecord>, m: Month): (r: seq<HistoryRecord>)
    ensures forall x :: x in r <==> x in h && x.month != m
    ensures CountMonth(r, m) == 0
    ensures |r| == |h| - CountMonth(h, m)
  {
    if h == [] then []
    else if h[0].month == m then WithoutMonth(h[1..], m)
    else [h[0]] + WithoutMonth(h[1..], m)
  }

  /** The filter keeps the relative order: it works piecewise on a concatenation. */
  lemma {:induction false} WithoutMonthConcat(a: seq<HistoryRecord>, b: seq<HistoryRecord>, m: Month)
    ensures WithoutMonth(a + b, m) == WithoutMonth(a, m) + WithoutMonth(b, m)
  {
    if a == [] {
      assert a + b == b;
    } else {
      assert (a + b)[1..] == a[1..] + b;
      WithoutMonthConcat(a[1..], b, m);
    }
  }

  /** A history without month `m` passes the filter untouched. */
  lemma {:induction false} WithoutAbsentMonth(h: seq<HistoryRecord>, m: Month)
    requires forall i :: 0 <= i < |h| ==> h[i].month != m
    ensures WithoutMonth(h, m) == h
  {
    if h != [] {
      WithoutAbsentMonth(h[1..], m);
    }
  }

  lemma {:induction false} CountMonthConcat(a: seq<HistoryRecord>, b: seq<HistoryRecord>, m: Month)
    ensures CountMonth(a + b, m) == CountMonth(a, m) + CountMonth(b, m)
  {
    if a == [] {
      assert a + b == b;
    } else {
      assert (a + b)[1..] == a[1..] + b;
      CountMonthConcat(a[1..], b, m);
    }
  }

  /** A subsequence of a history with one record per month has one record per month. */
  lemma {:induction false} WithoutMonthKeepsOnePerMonth(h: seq<HistoryRecord>, m: Month)
    ensures AtMostOnePerMonth(h) ==> AtMostOnePerMonth(WithoutMonth(h, m))
  {
    if h != [] && AtMostOnePerMonth(h) {
      WithoutMonthKeepsOnePerMonth(h[1..], m);
      var rest := WithoutMonth(h[1..], m);
      forall x | x in rest ensures x.month != h[0].month {
        var k :| 0 <= k < |h[1..]| && h[1..][k] == x;
        assert h[k + 1] == x;
      }
    }
  }

  /** The save step of `handleFormSubmit`: drop the month's old record, then append the new one. */
  function Upsert(h: seq<HistoryRecord>, rec: HistoryRecord): (r: seq<HistoryRecord>)
    ensures |r| > 0 && r[|r| - 1] == rec
    ensures CountMonth(r, rec.month) == 1
    ensures forall i :: 0 <= i < |r| && r[i].month == rec.month ==> i == |r| - 1
    ensures r[..|r| - 1] == WithoutMonth(h, rec.month)
    ensures AtMostOnePerMonth(h) ==> AtMostOnePerMonth(r)
  {
    var kept := WithoutMonth(h, rec.month);
    CountMonthConcat(kept, [rec], rec.month);
    assert (kept + [rec])[..|kept|] == kept;
    assert forall i :: 0 <= i < |kept| ==> kept[i] in kept;
    WithoutMonthKeepsOnePerMonth(h, rec.month);
    kept + [rec]
  }

  /** Records of other months survive an upsert, in their original order. */
  lemma UpsertKeepsOtherMonths(h: seq<HistoryRecord>, rec: HistoryRecord, m: Month)
    requires m != rec.month
    ensures WithoutMonth(Upsert(h, rec), rec.month) == WithoutMonth(h, rec.month)
    ensures forall x :: x in h && x.month != rec.month ==> x in Upsert(h, rec)
    ensures |Upsert(h, rec)| == |h| - CountMonth(h, rec.month) + 1
    ensures CountMonth(Upsert(h, rec), m) == CountMonth(h, m)
  {
    var kept := WithoutMonth(h, rec.month);
    WithoutMonthConcat(kept, [rec], rec.month);
    WithoutAbsentMonth(kept, rec.month) by {
      forall i | 0 <= i < |kept| ensures kept[i].month != rec.month {
        assert kept[i] in kept;
      }
    }
    CountMonthConcat(kept, [rec], m);
    CountWithoutOtherMonth(h, rec.month, m);
  }

  lemma {:induction false} CountWithoutOtherMonth(h: seq<HistoryRecord>, dropped: Month, m: Month)
    requires m != dropped
    ensures CountMonth(WithoutMonth(h, dropped), m) == CountMonth(h, m)
  {
    if h != [] {
      CountWithoutOtherMonth(h[1..], dropped, m);
    }
  }

  /** Saving the same month twice leaves only the second result. */
  lemma UpsertTwice(h: seq<HistoryRecord>, r1: HistoryRecord, r2: HistoryRecord)
    requires r1.month == r2.month
    ensures Upsert(Upsert(h, r1), r2) == Upsert(h, r2)
    ensures CountMonth(Upsert(Upsert(h, r1), r2), r2.month) == 1
  {
    var kept := WithoutMonth(h, r1.month);
    WithoutMonthConcat(kept, [r1], r1.month);
    WithoutAbsentMonth(kept, r1.month) by {
      forall i | 0 <= i < |kept| ensures kept[i].month != r1.month {
        assert kept[i] in kept;
      }
    }
    assert WithoutMonth([r1], r1.month) == [];
    assert WithoutMonth(kept + [r1], r1.month) == kept;
  }

  /** A fresh id keeps the ids distinct. */
  lemma UpsertKeepsIdsDistinct(h: seq<HistoryRecord>, rec: HistoryRecord)
    requires DistinctIds(h)
    requires forall i :: 0 <= i < |h| ==> h[i].id != rec.id
    ensures DistinctIds(Upsert(h, rec))
  {
    WithoutMonthKeepsIdsDistinct(h, rec.month);
    var kept := WithoutMonth(h, rec.month);
    forall i | 0 <= i < |kept| ensures kept[i].id != rec.id {
      assert kept[i] in kept;
    }
  }

  lemma {:induction false} WithoutMonthKeepsIdsDistinct(h: seq<HistoryRecord>, m: Month)
    requires DistinctIds(h)
    ensures DistinctIds(WithoutMonth(h, m))
  {
    if h != [] {
      WithoutMonthKeepsIdsDistinct(h[1..], m);
      var rest := WithoutMonth(h[1..], m);
      forall x | x in rest ensures x.id != h[0].id {
        var k :| 0 <= k < |h[1..]| && h[1..][k] == x;
        assert h[k + 1] == x;
      }
    }
  }

  // ----- sorting -----

  /** The two orders the script sorts the history by. */
  datatype Order = ByMonth | ByDateDescending

  /** The key each comparator sorts by: the month index ascending, or the
      creation timestamp descending (as its negation ascending). */
  function SortKey(o: Order, r: HistoryRecord): int {
    match o
    case ByMonth => MonthIndex(r.month)
    case ByDateDescending => -(r.date as int)
  }

  predicate Sorted(o: Order, s: seq<HistoryRecord>) {
    forall i, j :: 0 <= i < j < |s| ==> SortKey(o, s[i]) <= SortKey(o, s[j])
  }

  /** Puts `x` in front of the first element whose key is not smaller, so that
      `x` stays ahead of the elements it preceded with an equal key. */
  function Insert(o: Order, x: HistoryRecord, s: seq<HistoryRecord>): (r: seq<HistoryRecord>)
    ensures multiset(r) == multiset(s) + multiset{x}
  {
    if s == [] || SortKey(o, x) <= SortKey(o, s[0]) then
      [x] + s
    else
      assert s == [s[0]] + s[1..];
      [s[0]] + Insert(o, x, s[1..])
  }

  /** Inserting into a sorted sequence gives a sorted sequence. */
  lemma {:induction false} InsertSorted(o: Order, x: HistoryRecord, s: seq<HistoryRecord>)
    requires Sorted(o, s)
    ensures Sorted(o, Insert(o, x, s))
  {
    if s != [] && SortKey(o, x) > SortKey(o, s[0]) {
      var rest := Insert(o, x, s[1..]);
      InsertSorted(o, x, s[1..]);
      forall k | 0 <= k < |rest| ensures SortKey(o, s[0]) <= SortKey(o, rest[k]) {
        assert rest[k] in multiset(s[1..]) + multiset{x} by {
          assert rest[k] in multiset(rest);
        }
        if rest[k] != x {
          var j :| 0 <= j < |s[1..]| && s[1..][j] == rest[k];
          assert s[j + 1] == rest[k];
        }
      }
      assert Insert(o, x, s) == [s[0]] + rest;
    }
  }

  /** A stable sort by the order's key: the one `Array.prototype.sort` performs. */
  function SortBy(o: Order, s: seq<HistoryRecord>): (r: seq<HistoryRecord>)
    ensures multiset(r) == multiset(s)
    ensures |r| == |s|
    ensures Sorted(o, r)
  {
    if s == [] then []
    else
      assert s == [s[0]] + s[1..];
      var rest := SortBy(o, s[1..]);
      InsertSorted(o, s[0], rest);
      Insert(o, s[0], rest)
  }

  lemma {:induction false} InsertKeepsOnePerMonth(o: Order, x: HistoryRecord, s: seq<HistoryRecord>)
    requires AtMostOnePerMonth(s)
    requires forall i :: 0 <= i < |s| ==> s[i].month != x.month
    ensures AtMostOnePerMonth(Insert(o, x, s))
  {
    if s != [] && SortKey(o, x) > SortKey(o, s[0]) {
      InsertKeepsOnePerMonth(o, x, s[1..]);
      var rest := Insert(o, x, s[1..]);
      forall k | 0 <= k < |rest| ensures rest[k].month != s[0].month {
        assert rest[k] in multiset(s[1..]) + multiset{x} by {
          assert rest[k] in multiset(rest);
        }
        if rest[k] != x {
          var j :| 0 <= j < |s[1..]| && s[1..][j] == rest[k];
          assert s[j + 1] == rest[k];
        }
      }
      assert Insert(o, x, s) == [s[0]] + rest;
    }
  }

  /** Sorting keeps one record per month. */
  lemma {:induction false} SortKeepsOnePerMonth(o: Order, s: seq<HistoryRecord>)
    requires AtMostOnePerMonth(s)
    ensures AtMostOnePerMonth(SortBy(o, s))
  {
    if s != [] {
      SortKeepsOnePerMonth(o, s[1..]);
      var rest := SortBy(o, s[1..]);
      forall i | 0 <= i < |rest| ensures rest[i].month != s[0].month {
        assert rest[i] in multiset(s[1..]) by {
          assert rest[i] in multiset(rest);
        }
        var j :| 0 <= j < |s[1..]| && s[1..][j] == rest[i];
        assert s[j + 1] == rest[i];
      }
      InsertKeepsOnePerMonth(o, s[0], rest);
    }
  }

  /** The records whose key under `o` is `k`, in their order in `s`. */
  function WithKey(o: Order, s: seq<HistoryRecord>, k: int): seq<HistoryRecord> {
    if s == [] then []
    else (if SortKey(o, s[0]) == k then [s[0]] else []) + WithKey(o, s[1..], k)
  }

  lemma {:induction false} InsertWithKey(o: Order, x: HistoryRecord, s: seq<HistoryRecord>, k: int)
    ensures WithKey(o, Insert(o, x, s), k)
         == (if SortKey(o, x) == k then [x] else []) + WithKey(o, s, k)
  {
    if s == [] || SortKey(o, x) <= SortKey(o, s[0]) {
      assert ([x] + s)[1..] == s;
    } else {
      InsertWithKey(o, x, s[1..], k);
      assert ([s[0]] + Insert(o, x, s[1..]))[1..] == Insert(o, x, s[1..]);
    }
  }

  /** The sort is stable: records with equal keys keep their relative order. */
  lemma {:induction false} SortByStable(o: Order, s: seq<HistoryRecord>, k: int)
    ensures WithKey(o, SortBy(o, s), k) == WithKey(o, s, k)
  {
    if s != [] {
      SortByStable(o, s[1..], k);
      InsertWithKey(o, s[0], SortBy(o, s[1..]), k);
    }
  }

  /** The history as the history list shows it: newest `date` first. */
  function View(h: seq<HistoryRecord>): (v: seq<HistoryRecord>)
    ensures multiset(v) == multiset(h) && |v| == |h|
    ensures forall i, j :: 0 <= i < j < |v| ==> v[i].date >= v[j].date
  {
    SortBy(ByDateDescending, h)
  }

  // ----- deleting through the view -----

  /** The first position holding `id`, or -1 when no record has it. */
  function FirstIndexOfId(h: seq<HistoryRecord>, id: nat): (k: int)
    ensures -1 <= k < |h|
    ensures k == -1 <==> forall j :: 0 <= j < |h| ==> h[j].id != id
    ensures k >= 0 ==> h[k].id == id && forall j :: 0 <= j < k ==> h[j].id != id
  {
    if h == [] then -1
    else if h[0].id == id then 0
    else
      var k := FirstIndexOfId(h[1..], id);
      if k == -1 then -1 else k + 1
  }

  /** The search of `removeHistoryRecord`, as a loop. */
  method FindIndexById(h: seq<HistoryRecord>, id: nat) returns (k: int)
    ensures k == FirstIndexOfId(h, id)
  {
    k := 0;
    while k < |h|
      invariant 0 <= k <= |h|
      invariant forall j :: 0 <= j < k ==> h[j].id != id
    {
      if h[k].id == id {
        return;
      }
      k := k + 1;
    }
    k := -1;
  }

  /** Where the record shown at `index` of the view sits in storage order:
      the first position that holds its id. */
  function StorageIndex(h: seq<HistoryRecord>, index: nat): (k: nat)
    requires index < |h|
    ensures k < |h| && h[k].id == View(h)[index].id
    ensures forall j :: 0 <= j < k ==> h[j].id != View(h)[index].id
  {
    var shown := View(h)[index];
    assert shown in multiset(h);
    assert FirstIndexOfId(h, shown.id) >= 0 by {
      var j :| 0 <= j < |h| && h[j] == shown;
    }
    FirstIndexOfId(h, shown.id)
  }

  /** With distinct ids, the stored record found is the very record shown. */
  lemma StorageIndexFindsShown(h: seq<HistoryRecord>, index: nat)
    requires DistinctIds(h) && index < |h|
    ensures h[StorageIndex(h, index)] == View(h)[index]
  {
    var shown := View(h)[index];
    assert shown in multiset(h);
    var j :| 0 <= j < |h| && h[j] == shown;
    var k := StorageIndex(h, index);
    assert h[k].id == h[j].id;
  }

  /** `removeHistoryRecord(index)`: the record shown at `index` of the view is
      looked up by id in storage order and spliced out there. Past the end
      of the view nothing is removed. */
  function DeleteFromView(h: seq<HistoryRecord>, index: nat): (r: seq<HistoryRecord>)
    ensures index >= |h| ==> r == h
    ensures index < |h| ==> |r| == |h| - 1
  {
    if index >= |h| then h else RemoveAt(h, StorageIndex(h, index))
  }

  /** With distinct ids, the record that goes is exactly the one shown at
      `index`; every other record stays, in its storage order. */
  lemma DeleteRemovesShownRecord(h: seq<HistoryRecord>, index: nat)
    requires DistinctIds(h) && index < |h|
    ensures multiset(DeleteFromView(h, index)) == multiset(h) - multiset{View(h)[index]}
    ensures forall x :: x in DeleteFromView(h, index) ==> x.id != View(h)[index].id
  {
    var k := StorageIndex(h, index);
    StorageIndexFindsShown(h, index);
    RemoveAtMultiset(h, k);
    var r := RemoveAt(h, k);
    forall i | 0 <= i < |r| ensures r[i].id != h[k].id {
      if i < k {
        assert r[i] == h[i];
      } else {
        assert r[i] == h[i + 1];
      }
    }
  }

  /** Deleting keeps one record per month and distinct ids. */
  lemma DeleteKeepsInvariants(h: seq<HistoryRecord>, index: nat)
    ensures AtMostOnePerMonth(h) ==> AtMostOnePerMonth(DeleteFromView(h, index))
    ensures DistinctIds(h) ==> DistinctIds(DeleteFromView(h, index))
  {
  }

  /** The in-memory `financialHistory`. */
  class HistoryStore {
    var records: seq<HistoryRecord>

    /** What the operations below keep once it holds (storage may load anything);
        a submission keeps the ids distinct when its id is fresh. */
    ghost predicate Valid()
      reads this
    {
      AtMostOnePerMonth(records) && DistinctIds(records)
    }

    constructor ()
      ensures records == []
      ensures Valid()
    {
      records := [];
    }

    /** The calculation and save step of `handleFormSubmit`; nothing happens
        without a selected month. The fresh id and timestamp are passed in. */
    method Submit(selected: Option<Month>, input: MonthlyInput, roster: RosterStore, id: nat, date: nat)
      returns (result: Option<FinancialResult>)
      modifies this
      ensures selected.None? ==> result == None && records == old(records)
      ensures selected.Some? ==>
        && result == Some(CalculateFinancials(input, roster.employees, roster.partners))
        && records == Upsert(old(records), HistoryRecord(id, selected.value, date, result.value))
      ensures old(AtMostOnePerMonth(records)) ==> AtMostOnePerMonth(records)
      ensures old(Valid()) && (forall i :: 0 <= i < |old(records)| ==> old(records)[i].id != id) ==> Valid()
    {
      if selected.None? {
        return None;
      }
      var data := CalculateFinancials(input, roster.employees, roster.partners);
      var historyRecord := HistoryRecord(id, selected.value, date, data);
      if Valid() && forall i :: 0 <= i < |records| ==> records[i].id != id {
        UpsertKeepsIdsDistinct(records, historyRecord);
      }
      records := WithoutMonth(records, selected.value);
      records := records + [historyRecord];
      result := Some(data);
    }

    /** `removeHistoryRecord`; `removed` is false when `index` is past the end. */
    method RemoveRecord(index: nat) returns (removed: bool)
      modifies this
      ensures removed == (index < |old(records)|)
      ensures records == DeleteFromView(old(records), index)
      ensures old(Valid()) ==> Valid()
      ensures old(Valid()) && removed ==>
        multiset(records) == multiset(old(records)) - multiset{View(old(records))[index]}
    {
      if index >= |records| {
        return false;
      }
      var sortedHistory := View(records);
      var recordToRemove := sortedHistory[index];
      var originalIndex := FindIndexById(records, recordToRemove.id);
      assert originalIndex >= 0 by {
        assert recordToRemove in multiset(records);
        var j :| 0 <= j < |records| && records[j] == recordToRemove;
      }
      DeleteKeepsInvariants(records, index);
      if Valid() {
        DeleteRemovesShownRecord(records, index);
      }
      records := RemoveAt(records, originalIndex);
      removed := true;
    }

    /** `clearHistory` */
    method Clear()
      modifies this
      ensures records == []
      ensures Valid()
    {
      records := [];
    }
  }
}
