/**
 * The option lists the front end fills its drop-downs from: months in
 * calendar order through the `monthOrder` table, the months used by forms
 * with duplicates removed through a `Map`, the active months of one fiscal
 * year, and the fiscal years in the order of their starting year.
 */
module Ordering {
  import opened Wrappers
  import opened Strings
  import opened Records
  import opened Lists

  // ---------------------------------------------------------------------
  // Calendar order of month names
  // ---------------------------------------------------------------------

  const MonthOrder: seq<string> :=
    ["January", "February", "March", "April", "May", "June",
     "July", "August", "September", "October", "November", "December"]

  /** `monthOrder.indexOf(name)`: the month's place in the year, or -1 for a name not in the table. */
  function MonthIndex(name: string): (k: int)
    ensures -1 <= k < 12
    ensures k >= 0 ==> MonthOrder[k] == name
    ensures k == -1 <==> name !in MonthOrder
  {
    IndexOf(MonthOrder, name)
  }

  lemma MonthNamesDistinct()
    ensures forall i, j :: 0 <= i < j < 12 ==> MonthOrder[i] != MonthOrder[j]
  {
  }

  /** The twelve names are told apart: each one's index is its place in the table. */
  lemma MonthIndexOfEachMonth(i: int)
    requires 0 <= i < 12
    ensures MonthIndex(MonthOrder[i]) == i
  {
    MonthNamesDistinct();
    var k := MonthIndex(MonthOrder[i]);
    assert MonthOrder[i] in MonthOrder;
    assert MonthOrder[k] == MonthOrder[i];
  }

  function MonthRefKey(m: MonthRef): int { MonthIndex(m.monthName) }

  function EntryKey(e: MonthEntry): int { MonthIndex(e.monthName) }

  function MonthKey(m: Month): int { MonthIndex(m.monthName) }

  // ---------------------------------------------------------------------
  // GET /getmonth
  // ---------------------------------------------------------------------

  /** `/getmonth`: the month collection sorted by calendar order, unknown names first. */
  function SortedMonths(months: seq<Month>): (r: seq<Month>)
    ensures SortedBy(r, MonthKey)
    ensures multiset(r) == multiset(months) && |r| == |months|
    ensures forall k :: WithKey(r, MonthKey, k) == WithKey(months, MonthKey, k)
  {
    SortBySpec(months, MonthKey);
    SortBy(months, MonthKey)
  }

  // ---------------------------------------------------------------------
  // GET /getmonthoption: Map-based deduplication
  // ---------------------------------------------------------------------

  /** Position of the first entry named `name`, or -1. */
  function FirstNamed(refs: seq<MonthRef>, name: string): (k: int)
    ensures -1 <= k < |refs|
    ensures k >= 0 ==> refs[k].monthName == name && forall j :: 0 <= j < k ==> refs[j].monthName != name
    ensures k == -1 <==> forall j :: 0 <= j < |refs| ==> refs[j].monthName != name
    decreases |refs|
  {
    if refs == [] then -1
    else
      var n := |refs| - 1;
      var k := FirstNamed(refs[..n], name);
      if k >= 0 then k else if refs[n].monthName == name then n else -1
  }

  /** Position of the last entry named `name`, or -1. */
  function LastNamed(refs: seq<MonthRef>, name: string): (k: int)
    ensures -1 <= k < |refs|
    ensures k >= 0 ==> refs[k].monthName == name && forall j :: k < j < |refs| ==> refs[j].monthName != name
    ensures k == -1 <==> forall j :: 0 <= j < |refs| ==> refs[j].monthName != name
    decreases |refs|
  {
    if refs == [] then -1
    else
      var n := |refs| - 1;
      if refs[n].monthName == name then n else LastNamed(refs[..n], name)
  }

  /** `map.set(v.month_name, v)` on a `Map` kept as its values in insertion order. */
  function Put(entries: seq<MonthRef>, v: MonthRef): seq<MonthRef>
  {
    var k := FirstNamed(entries, v.monthName);
    if k == -1 then entries + [v] else entries[k := v]
  }

  /** `Array.from(new Map(refs.map(m => [m.month_name, m])).values())`. */
  function UniqueMonths(refs: seq<MonthRef>): seq<MonthRef>
    decreases |refs|
  {
    if refs == [] then []
    else Put(UniqueMonths(refs[..|refs| - 1]), refs[|refs| - 1])
  }

  predicate DistinctNames(entries: seq<MonthRef>)
  {
    forall i, j :: 0 <= i < j < |entries| ==> entries[i].monthName != entries[j].monthName
  }

  /** `Put` overwrites the entry with the name in place, or appends a new one; every position keeps its name. */
  lemma PutFacts(entries: seq<MonthRef>, v: MonthRef)
    ensures var p, k := Put(entries, v), FirstNamed(entries, v.monthName);
      && |p| == (if k == -1 then |entries| + 1 else |entries|)
      && (forall i :: 0 <= i < |entries| ==> p[i].monthName == entries[i].monthName)
      && (forall i :: 0 <= i < |entries| && i != k ==> p[i] == entries[i])
      && (k == -1 ==> p[|entries|] == v)
      && (k >= 0 ==> p[k] == v)
  {
  }

  /** `Put` keeps the names distinct and adds the new name to those present. */
  lemma PutNames(entries: seq<MonthRef>, v: MonthRef)
    requires DistinctNames(entries)
    ensures DistinctNames(Put(entries, v))
    ensures forall name :: FirstNamed(Put(entries, v), name) >= 0 <==> FirstNamed(entries, name) >= 0 || name == v.monthName
  {
    PutFacts(entries, v);
    var p := Put(entries, v);
    forall name ensures FirstNamed(p, name) >= 0 <==> FirstNamed(entries, name) >= 0 || name == v.monthName {
      if FirstNamed(entries, name) >= 0 {
        assert p[FirstNamed(entries, name)].monthName == name;
      } else if name == v.monthName {
        assert p[|entries|].monthName == name;
      }
    }
  }

  /** A key is stored once, and the names present are exactly the names of the input. */
  lemma {:induction false} UniqueMonthsNames(refs: seq<MonthRef>)
    ensures DistinctNames(UniqueMonths(refs))
    ensures forall name :: FirstNamed(UniqueMonths(refs), name) >= 0 <==> FirstNamed(refs, name) >= 0
    decreases |refs|
  {
    if refs != [] {
      var n := |refs| - 1;
      UniqueMonthsNames(refs[..n]);
      PutNames(UniqueMonths(refs[..n]), refs[n]);
    }
  }

  /** The value kept under a name is the last entry with that name. */
  lemma {:induction false} UniqueMonthsKeepsLast(refs: seq<MonthRef>)
    ensures forall i :: 0 <= i < |UniqueMonths(refs)| ==>
      var m := UniqueMonths(refs)[i];
      LastNamed(refs, m.monthName) >= 0 && refs[LastNamed(refs, m.monthName)] == m
    decreases |refs|
  {
    if refs != [] {
      var n := |refs| - 1;
      var r := UniqueMonths(refs[..n]);
      var u := UniqueMonths(refs);
      UniqueMonthsKeepsLast(refs[..n]);
      UniqueMonthsNames(refs[..n]);
      forall i | 0 <= i < |u| ensures LastNamed(refs, u[i].monthName) >= 0 && refs[LastNamed(refs, u[i].monthName)] == u[i] {
        if u[i].monthName != refs[n].monthName {
          assert u[i] == r[i];
        }
      }
    }
  }

  /** Entries stay in the order their names first appear. */
  lemma {:induction false} UniqueMonthsFirstSeenOrder(refs: seq<MonthRef>)
    ensures forall i, j :: 0 <= i < j < |UniqueMonths(refs)| ==>
      FirstNamed(refs, UniqueMonths(refs)[i].monthName) < FirstNamed(refs, UniqueMonths(refs)[j].monthName)
    decreases |refs|
  {
    if refs != [] {
      var n := |refs| - 1;
      var r := UniqueMonths(refs[..n]);
      var u := UniqueMonths(refs);
      UniqueMonthsFirstSeenOrder(refs[..n]);
      UniqueMonthsNames(refs[..n]);
      PutFacts(r, refs[n]);
      forall i | 0 <= i < |u|
        ensures FirstNamed(refs, u[i].monthName) == if i < |r| then FirstNamed(refs[..n], r[i].monthName) else n
      {
        if i < |r| {
          assert FirstNamed(r, r[i].monthName) >= 0;
        } else {
          assert FirstNamed(r, refs[n].monthName) == -1;
        }
      }
    }
  }

  /** The month objects of the form documents, once none is missing. */
  function MonthsOf(docs: seq<Option<MonthRef>>): (refs: seq<MonthRef>)
    requires forall i :: 0 <= i < |docs| ==> docs[i].Some?
    ensures |refs| == |docs| && forall i :: 0 <= i < |docs| ==> refs[i] == docs[i].value
  {
    seq(|docs|, i requires 0 <= i < |docs| => docs[i].value)
  }

  /**
   * `/getmonthoption`: a form whose `month` is `null` makes the mapping
   * throw (500); otherwise the deduplicated months sorted by calendar order.
   */
  function MonthOptions(docs: seq<Option<MonthRef>>): (r: Reply<seq<MonthRef>>)
    ensures r.Failure? <==> exists i :: 0 <= i < |docs| && docs[i].None?
    ensures r.Failure? ==> r.status == ServerError500
    ensures r.Success? ==>
      var unique := UniqueMonths(MonthsOf(docs));
      && SortedBy(r.value, MonthRefKey)
      && multiset(r.value) == multiset(unique)
      && forall k :: WithKey(r.value, MonthRefKey, k) == WithKey(unique, MonthRefKey, k)
  {
    if exists i :: 0 <= i < |docs| && docs[i].None? then Failure(ServerError500)
    else
      var unique := UniqueMonths(MonthsOf(docs));
      SortBySpec(unique, MonthRefKey);
      Success(SortBy(unique, MonthRefKey))
  }

  // ---------------------------------------------------------------------
  // GET /getMonthsFromFyYear/:fy_name
  // ---------------------------------------------------------------------

  function IsActive(e: MonthEntry): bool { e.monthId }

  /**
   * `/getMonthsFromFyYear/:fy_name`: 404 when no fiscal year has the name;
   * otherwise that year's name and its active months in calendar order,
   * entries with the same calendar place in stored order.
   */
  function ActiveMonths(years: seq<FyYear>, fyName: string): (r: Reply<(string, seq<MonthEntry>)>)
    ensures r.Failure? <==> forall j :: 0 <= j < |years| ==> years[j].fyName != fyName
    ensures r.Failure? ==> r.status == NotFound404
    ensures r.Success? ==>
      var y := years[FyIndex(years, fyName)];
      && r.value.0 == fyName
      && SortedBy(r.value.1, EntryKey)
      && multiset(r.value.1) == multiset(Filter(y.months, IsActive))
      && forall k :: WithKey(r.value.1, EntryKey, k) == WithKey(Filter(y.months, IsActive), EntryKey, k)
  {
    var k := FyIndex(years, fyName);
    if k == -1 then Failure(NotFound404)
    else
      var active := Filter(years[k].months, IsActive);
      SortBySpec(active, EntryKey);
      Success((years[k].fyName, SortBy(active, EntryKey)))
  }

  /** The months returned are exactly the active entries of the year found. */
  lemma ActiveMonthsAreTheActiveEntries(years: seq<FyYear>, fyName: string)
    requires ActiveMonths(years, fyName).Success?
    ensures var y := years[FyIndex(years, fyName)];
      var months := ActiveMonths(years, fyName).value.1;
      && (forall i :: 0 <= i < |months| ==> months[i].monthId && months[i] in y.months)
      && (forall i :: 0 <= i < |y.months| && y.months[i].monthId ==> y.months[i] in months)
  {
    var y := years[FyIndex(years, fyName)];
    var active := Filter(y.months, IsActive);
    var months := SortBy(active, EntryKey);
    assert ActiveMonths(years, fyName).value.1 == months;
    SortBySpec(active, EntryKey);
    SameMembers(months, active);
  }

  // ---------------------------------------------------------------------
  // GET /getfyyearoption
  // ---------------------------------------------------------------------

  /**
   * The comparator's key for a fiscal-year name: the part before the first
   * `-`, read as a number the way `Number` reads a string of digits with
   * surrounding whitespace, and 0 when that part is blank.
   */
  function StartYear(fyName: string): nat
  {
    var start := Trim(Split(fyName, '-')[0]);
    if AllDigits(start) then DecimalValue(start) else 0
  }

  function FyKey(y: FyYear): int { StartYear(y.fyName) }

  /** A name `<year>-<anything>` sorts by its year. */
  lemma StartYearOfRange(year: nat, rest: string)
    ensures StartYear(DecimalString(year) + "-" + rest) == year
  {
    var d := DecimalString(year);
    assert '-' !in d by {
      forall i | 0 <= i < |d| ensures d[i] != '-' { assert IsDigit(d[i]); }
    }
    SplitAtSeparator(d, '-', rest);
    assert Split(d + "-" + rest, '-')[0] == d;
    TrimDigits(d);
    DecimalRoundTrip(year);
  }

  lemma TrimDigits(d: string)
    requires AllDigits(d)
    ensures Trim(d) == d
  {
    if d != [] {
      DigitIsNotWhitespace(d[0]);
      DigitIsNotWhitespace(d[|d| - 1]);
    }
    TrimKeeps(d);
  }

  /** `/getfyyearoption`: the fiscal years sorted by starting year, equal years in stored order. */
  function FyYearOptions(years: seq<FyYear>): (r: seq<FyYear>)
    ensures SortedBy(r, FyKey)
    ensures multiset(r) == multiset(years) && |r| == |years|
    ensures forall k :: WithKey(r, FyKey, k) == WithKey(years, FyKey, k)
  {
    SortBySpec(years, FyKey);
    SortBy(years, FyKey)
  }
}
