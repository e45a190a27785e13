/**
 * The six administrative toggles. Each is a `findOneAndUpdate` with
 * `upsert`: it updates the first matching document in natural order, or
 * creates one when nothing matches, and replies with the document as it is
 * afterwards. Fiscal years carry an active flag and an embedded list of
 * months, each active or locked; the standalone month collection carries a
 * flag per month.
 */
module Admin {
  import opened Wrappers
  import opened Strings
  import opened Records
  import opened Lists
  import opened Ordering

  // ---------------------------------------------------------------------
  // Locating documents and embedded entries
  // ---------------------------------------------------------------------

  /** The first entry of a month list named `name`: the element the positional operator `months.$` picks. */
  function EntryIndex(months: seq<MonthEntry>, name: string): (k: int)
    ensures -1 <= k < |months|
    ensures k >= 0 ==> months[k].monthName == name && forall j :: 0 <= j < k ==> months[j].monthName != name
    ensures k == -1 <==> forall j :: 0 <= j < |months| ==> months[j].monthName != name
  {
    FindFirst(months, (e: MonthEntry) => e.monthName == name)
  }

  /** The query `{fy_name, "months.month_name": month_name}`. */
  predicate HasMonth(y: FyYear, fyName: string, monthName: string)
  {
    y.fyName == fyName && EntryIndex(y.months, monthName) >= 0
  }

  /** The first fiscal year with the name whose month list names the month, or -1. */
  function FyWithMonth(years: seq<FyYear>, fyName: string, monthName: string): (k: int)
    ensures -1 <= k < |years|
    ensures k >= 0 ==> HasMonth(years[k], fyName, monthName) && forall j :: 0 <= j < k ==> !HasMonth(years[j], fyName, monthName)
    ensures k == -1 <==> forall j :: 0 <= j < |years| ==> !HasMonth(years[j], fyName, monthName)
  {
    FindFirst(years, (y: FyYear) => HasMonth(y, fyName, monthName))
  }

  /** The first standalone month document with the name, or -1. */
  function MonthDocIndex(months: seq<Month>, name: string): (k: int)
    ensures -1 <= k < |months|
    ensures k >= 0 ==> months[k].monthName == name && forall j :: 0 <= j < k ==> months[j].monthName != name
    ensures k == -1 <==> forall j :: 0 <= j < |months| ==> months[j].monthName != name
  {
    FindFirst(months, (m: Month) => m.monthName == name)
  }

  /** No two fiscal years share a name: what the upserts keep once it holds. */
  predicate DistinctFyNames(years: seq<FyYear>)
  {
    forall i, j :: 0 <= i < j < |years| ==> years[i].fyName != years[j].fyName
  }

  // ---------------------------------------------------------------------
  // POST /settruefyyear and /setfalsefyyear
  // ---------------------------------------------------------------------

  /** `findOneAndUpdate({fy_name: name}, {fy_id: flag}, {upsert: true})`. */
  function SetFyFlag(years: seq<FyYear>, name: string, flag: bool): seq<FyYear>
  {
    var k := FyIndex(years, name);
    if k == -1 then years + [FyYear(name, Some(flag), [])]
    else years[k := years[k].(fyId := Some(flag))]
  }

  /** Where the fiscal year named `name` is after an upsert on it. */
  function FyTarget(years: seq<FyYear>, name: string): nat
  {
    var k := FyIndex(years, name);
    if k == -1 then |years| else k
  }

  /**
   * After the toggle the first year with the name carries the flag and
   * keeps its months; a year is created only when none had the name; no
   * other year changes.
   */
  lemma SetFyFlagFacts(years: seq<FyYear>, name: string, flag: bool)
    ensures var after, t := SetFyFlag(years, name, flag), FyTarget(years, name);
      && |after| == |years| + (if FyIndex(years, name) == -1 then 1 else 0)
      && t < |after| && FyIndex(after, name) == t
      && after[t].fyId == Some(flag)
      && after[t].months == (if t < |years| then years[t].months else [])
      && forall j :: 0 <= j < |years| && j != t ==> after[j] == years[j]
  {
    var after, t := SetFyFlag(years, name, flag), FyTarget(years, name);
    assert after[t].fyName == name;
    assert forall j :: 0 <= j < t ==> after[j] == years[j];
  }

  /** Toggling twice leaves what the second toggle sets; toggling the same way twice is one toggle. */
  lemma SetFyFlagLastWins(years: seq<FyYear>, name: string, first: bool, second: bool)
    ensures SetFyFlag(SetFyFlag(years, name, first), name, second) == SetFyFlag(years, name, second)
  {
    var mid := SetFyFlag(years, name, first);
    SetFyFlagFacts(years, name, first);
    if FyIndex(years, name) == -1 {
      assert FyIndex(mid, name) == |years|;
    }
  }

  /** The names of the fiscal years stay distinct under the toggle. */
  lemma SetFyFlagKeepsNamesDistinct(years: seq<FyYear>, name: string, flag: bool)
    requires DistinctFyNames(years)
    ensures DistinctFyNames(SetFyFlag(years, name, flag))
  {
  }

  /**
   * The reply of `/settruefyyear` (`flag` true) and `/setfalsefyyear`
   * (`flag` false): 400 unless `fy_name` is a string that is not blank;
   * otherwise the toggle on the trimmed name, replying with the year.
   */
  function FyFlagRequest(years: seq<FyYear>, fyName: Option<string>, flag: bool): (r: (Reply<FyYear>, seq<FyYear>))
    ensures r.0.Failure? <==> fyName.None? || AllWhitespace(fyName.value)
    ensures r.0.Failure? ==> r.0.status == BadRequest400 && r.1 == years
    ensures r.0.Success? ==>
      && r.0.value.fyName == Trim(fyName.value) && r.0.value.fyId == Some(flag)
      && r.1 == SetFyFlag(years, Trim(fyName.value), flag)
      && FyTarget(years, Trim(fyName.value)) < |r.1|
      && r.0.value == r.1[FyTarget(years, Trim(fyName.value))]
  {
    if fyName.None? then (Failure(BadRequest400), years)
    else
      TrimEmptyIffBlank(fyName.value);
      var name := Trim(fyName.value);
      if name == "" then (Failure(BadRequest400), years)
      else
        SetFyFlagFacts(years, name, flag);
        var after := SetFyFlag(years, name, flag);
        (Success(after[FyTarget(years, name)]), after)
  }

  // ---------------------------------------------------------------------
  // POST /setmonthtrue and /setmonthfalse
  // ---------------------------------------------------------------------

  /** `findOneAndUpdate({month_name: name}, {month_id: flag}, {upsert: true})` on the month collection. */
  function SetMonthFlag(months: seq<Month>, name: string, flag: bool): seq<Month>
  {
    var k := MonthDocIndex(months, name);
    if k == -1 then months + [Month(name, flag)]
    else months[k := months[k].(monthId := flag)]
  }

  function MonthTarget(months: seq<Month>, name: string): nat
  {
    var k := MonthDocIndex(months, name);
    if k == -1 then |months| else k
  }

  /** The first month with the name carries the flag afterwards, created only when none had it; nothing else changes. */
  lemma SetMonthFlagFacts(months: seq<Month>, name: string, flag: bool)
    ensures var after, t := SetMonthFlag(months, name, flag), MonthTarget(months, name);
      && |after| == |months| + (if MonthDocIndex(months, name) == -1 then 1 else 0)
      && t < |after| && MonthDocIndex(after, name) == t
      && after[t] == Month(name, flag)
      && forall j :: 0 <= j < |months| && j != t ==> after[j] == months[j]
  {
    var after, t := SetMonthFlag(months, name, flag), MonthTarget(months, name);
    assert after[t].monthName == name;
    assert forall j :: 0 <= j < t ==> after[j] == months[j];
  }

  lemma SetMonthFlagLastWins(months: seq<Month>, name: string, first: bool, second: bool)
    ensures SetMonthFlag(SetMonthFlag(months, name, first), name, second) == SetMonthFlag(months, name, second)
  {
    SetMonthFlagFacts(months, name, first);
    if MonthDocIndex(months, name) == -1 {
      assert MonthDocIndex(SetMonthFlag(months, name, first), name) == |months|;
    }
  }

  /** `/setmonthtrue` and `/setmonthfalse`: 400 unless `month_name` is a string, which is used as given. */
  function MonthFlagRequest(months: seq<Month>, monthName: Option<string>, flag: bool): (r: (Reply<Month>, seq<Month>))
    ensures r.0.Failure? <==> monthName.None?
    ensures r.0.Failure? ==> r.0.status == BadRequest400 && r.1 == months
    ensures r.0.Success? ==> r.0.value == Month(monthName.value, flag) && r.1 == SetMonthFlag(months, monthName.value, flag)
  {
    if monthName.None? then (Failure(BadRequest400), months)
    else
      SetMonthFlagFacts(months, monthName.value, flag);
      var after := SetMonthFlag(months, monthName.value, flag);
      (Success(after[MonthTarget(months, monthName.value)]), after)
  }

  // ---------------------------------------------------------------------
  // POST /activateMonth and /lockMonth
  // ---------------------------------------------------------------------

  /**
   * `$set: {"months.$.month_id": flag}` on the first year with the name
   * listing the month; failing that, `$push` of a new entry onto the first
   * year with the name, or a new year holding only that entry.
   */
  function SetMonthInFy(years: seq<FyYear>, fyName: string, monthName: string, flag: bool): seq<FyYear>
  {
    var k := FyWithMonth(years, fyName, monthName);
    if k >= 0 then
      var e := EntryIndex(years[k].months, monthName);
      years[k := years[k].(months := years[k].months[e := years[k].months[e].(monthId := flag)])]
    else
      var f := FyIndex(years, fyName);
      if f >= 0 then years[f := years[f].(months := years[f].months + [MonthEntry(monthName, flag)])]
      else years + [FyYear(fyName, None, [MonthEntry(monthName, flag)])]
  }

  /** The year the toggle changes. */
  function MonthInFyTarget(years: seq<FyYear>, fyName: string, monthName: string): nat
  {
    var k := FyWithMonth(years, fyName, monthName);
    if k >= 0 then k
    else
      var f := FyIndex(years, fyName);
      if f >= 0 then f else |years|
  }

  /** The toggle changes the year `MonthInFyTarget` names, as `ToggleFacts` says, and nothing else. */
  lemma SetMonthInFyFacts(years: seq<FyYear>, fyName: string, monthName: string, flag: bool)
    ensures ToggleFacts(years, SetMonthInFy(years, fyName, monthName, flag), MonthInFyTarget(years, fyName, monthName), fyName, monthName, flag)
  {
    var k := FyWithMonth(years, fyName, monthName);
    if k >= 0 {
      FactsWhenListed(years, fyName, monthName, flag, k);
    } else if FyIndex(years, fyName) >= 0 {
      FactsWhenPushed(years, fyName, monthName, flag, FyIndex(years, fyName));
    } else {
      var after := SetMonthInFy(years, fyName, monthName, flag);
      assert after[|years|].months == [MonthEntry(monthName, flag)];
    }
  }

  /**
   * What the toggle leaves: `after` has the year `t` named `fyName` whose
   * first entry for the month carries the flag; its other entries, its own
   * flag and every other year are as in `years`, and an entry or a year is
   * added only when missing. Its month list is exactly the old one with the
   * first entry for the month set (positional `$`), or with the new entry
   * pushed at the end, or, for a year the upsert creates, that entry alone.
   */
  predicate ToggleFacts(years: seq<FyYear>, after: seq<FyYear>, t: int, fyName: string, monthName: string, flag: bool)
  {
    && |after| == |years| + (if FyIndex(years, fyName) == -1 then 1 else 0)
    && 0 <= t < |after| && after[t].fyName == fyName
    && EntryIndex(after[t].months, monthName) >= 0
    && after[t].months[EntryIndex(after[t].months, monthName)] == MonthEntry(monthName, flag)
    && after[t].fyId == (if t < |years| then years[t].fyId else None)
    && after[t].months ==
         (if t == |years| then [MonthEntry(monthName, flag)]
          else if EntryIndex(years[t].months, monthName) >= 0
          then years[t].months[EntryIndex(years[t].months, monthName) := MonthEntry(monthName, flag)]
          else years[t].months + [MonthEntry(monthName, flag)])
    && (t < |years| ==>
          |after[t].months| == |years[t].months| + (if EntryIndex(years[t].months, monthName) == -1 then 1 else 0)
          && forall i :: 0 <= i < |years[t].months| && i != EntryIndex(after[t].months, monthName) ==>
               after[t].months[i] == years[t].months[i])
    && forall j :: 0 <= j < |years| && j != t ==> after[j] == years[j]
  }

  lemma FactsWhenListed(years: seq<FyYear>, fyName: string, monthName: string, flag: bool, k: int)
    requires k == FyWithMonth(years, fyName, monthName) && k >= 0
    ensures ToggleFacts(years, SetMonthInFy(years, fyName, monthName, flag), k, fyName, monthName, flag)
  {
    var ms := years[k].months;
    var e := EntryIndex(ms, monthName);
    SetWhenListed(years, fyName, monthName, flag, k, e);
    EntryAt(ms[e := MonthEntry(monthName, flag)], monthName, e);
  }

  lemma FactsWhenPushed(years: seq<FyYear>, fyName: string, monthName: string, flag: bool, f: int)
    requires FyWithMonth(years, fyName, monthName) == -1 && f == FyIndex(years, fyName) && f >= 0
    ensures ToggleFacts(years, SetMonthInFy(years, fyName, monthName, flag), f, fyName, monthName, flag)
  {
    assert !HasMonth(years[f], fyName, monthName);
    var ms := years[f].months;
    EntryAt(ms + [MonthEntry(monthName, flag)], monthName, |ms|);
  }

  /** Two toggles of one month leave what the second sets; the same toggle twice is one toggle. */
  lemma SetMonthInFyLastWins(years: seq<FyYear>, fyName: string, monthName: string, first: bool, second: bool)
    ensures SetMonthInFy(SetMonthInFy(years, fyName, monthName, first), fyName, monthName, second)
         == SetMonthInFy(years, fyName, monthName, second)
  {
    if FyWithMonth(years, fyName, monthName) >= 0 {
      LastWinsWhenListed(years, fyName, monthName, first, second);
    } else if FyIndex(years, fyName) >= 0 {
      LastWinsWhenPushed(years, fyName, monthName, first, second);
    } else {
      LastWinsWhenCreated(years, fyName, monthName, first, second);
    }
  }

  lemma LastWinsWhenListed(years: seq<FyYear>, fyName: string, monthName: string, first: bool, second: bool)
    requires FyWithMonth(years, fyName, monthName) >= 0
    ensures SetMonthInFy(SetMonthInFy(years, fyName, monthName, first), fyName, monthName, second)
         == SetMonthInFy(years, fyName, monthName, second)
  {
    var k := FyWithMonth(years, fyName, monthName);
    var ms := years[k].months;
    var e := EntryIndex(ms, monthName);
    SetWhenListed(years, fyName, monthName, first, k, e);
    SetWhenListed(years, fyName, monthName, second, k, e);
    var m1 := ms[e := MonthEntry(monthName, first)];
    var m2 := ms[e := MonthEntry(monthName, second)];
    var mid := years[k := years[k].(months := m1)];
    EntryAt(m1, monthName, e);
    YearWithMonthAt(mid, fyName, monthName, k);
    SetWhenListed(mid, fyName, monthName, second, k, e);
    UpdateTwice(ms, e, MonthEntry(monthName, first), MonthEntry(monthName, second));
    UpdateTwice(years, k, years[k].(months := m1), years[k].(months := m2));
  }

  lemma LastWinsWhenPushed(years: seq<FyYear>, fyName: string, monthName: string, first: bool, second: bool)
    requires FyWithMonth(years, fyName, monthName) == -1 && FyIndex(years, fyName) >= 0
    ensures SetMonthInFy(SetMonthInFy(years, fyName, monthName, first), fyName, monthName, second)
         == SetMonthInFy(years, fyName, monthName, second)
  {
    var f := FyIndex(years, fyName);
    var ms := years[f].months;
    assert !HasMonth(years[f], fyName, monthName);
    var m1 := ms + [MonthEntry(monthName, first)];
    var m2 := ms + [MonthEntry(monthName, second)];
    var mid := years[f := years[f].(months := m1)];
    EntryAt(m1, monthName, |ms|);
    YearWithMonthAt(mid, fyName, monthName, f);
    SetWhenListed(mid, fyName, monthName, second, f, |ms|);
    UpdateLast(ms, MonthEntry(monthName, first), MonthEntry(monthName, second));
    UpdateTwice(years, f, years[f].(months := m1), years[f].(months := m2));
  }

  /** The positional `$set` when the month is listed: the entry at `e` of the year at `k` gets the flag. */
  lemma SetWhenListed(years: seq<FyYear>, fyName: string, monthName: string, flag: bool, k: int, e: int)
    requires k == FyWithMonth(years, fyName, monthName) && k >= 0
    requires e == EntryIndex(years[k].months, monthName)
    ensures SetMonthInFy(years, fyName, monthName, flag)
         == years[k := years[k].(months := years[k].months[e := MonthEntry(monthName, flag)])]
  {
    assert years[k].months[e].(monthId := flag) == MonthEntry(monthName, flag);
  }

  lemma UpdateTwice<T>(s: seq<T>, i: int, a: T, b: T)
    requires 0 <= i < |s|
    ensures s[i := a][i := b] == s[i := b]
  {
  }

  lemma UpdateLast<T>(s: seq<T>, a: T, b: T)
    ensures (s + [a])[|s| := b] == s + [b]
  {
  }

  lemma LastWinsWhenCreated(years: seq<FyYear>, fyName: string, monthName: string, first: bool, second: bool)
    requires FyIndex(years, fyName) == -1
    ensures SetMonthInFy(SetMonthInFy(years, fyName, monthName, first), fyName, monthName, second)
         == SetMonthInFy(years, fyName, monthName, second)
  {
    var mid := SetMonthInFy(years, fyName, monthName, first);
    assert FyWithMonth(years, fyName, monthName) == -1;
    EntryAt([MonthEntry(monthName, first)], monthName, 0);
    YearWithMonthAt(mid, fyName, monthName, |years|);
    var m1 := [MonthEntry(monthName, first)];
    assert m1[0 := m1[0].(monthId := second)] == [MonthEntry(monthName, second)];
    var y := FyYear(fyName, None, [MonthEntry(monthName, second)]);
    assert mid[|years| := y] == years + [y];
  }

  lemma EntryAt(months: seq<MonthEntry>, name: string, e: int)
    requires 0 <= e < |months| && months[e].monthName == name
    requires forall i :: 0 <= i < e ==> months[i].monthName != name
    ensures EntryIndex(months, name) == e
  {
  }

  lemma YearWithMonthAt(years: seq<FyYear>, fyName: string, monthName: string, k: int)
    requires 0 <= k < |years| && HasMonth(years[k], fyName, monthName)
    requires forall j :: 0 <= j < k ==> !HasMonth(years[j], fyName, monthName)
    ensures FyWithMonth(years, fyName, monthName) == k
  {
  }

  lemma SetMonthInFyKeepsNamesDistinct(years: seq<FyYear>, fyName: string, monthName: string, flag: bool)
    requires DistinctFyNames(years)
    ensures DistinctFyNames(SetMonthInFy(years, fyName, monthName, flag))
  {
    SetMonthInFyFacts(years, fyName, monthName, flag);
    var after := SetMonthInFy(years, fyName, monthName, flag);
    var t := MonthInFyTarget(years, fyName, monthName);
    if t < |years| {
      assert years[t].fyName == fyName;
      assert forall j :: 0 <= j < |after| ==> after[j].fyName == years[j].fyName;
    }
  }

  /**
   * With distinct year names, a month just activated is listed by
   * `/getMonthsFromFyYear` for that year.
   */
  lemma ActivatedMonthIsListed(years: seq<FyYear>, fyName: string, monthName: string)
    requires DistinctFyNames(years)
    ensures var after := SetMonthInFy(years, fyName, monthName, true);
      && ActiveMonths(after, fyName).Success?
      && MonthEntry(monthName, true) in ActiveMonths(after, fyName).value.1
  {
    var after := SetMonthInFy(years, fyName, monthName, true);
    var t := MonthInFyTarget(years, fyName, monthName);
    SetMonthInFyFacts(years, fyName, monthName, true);
    SetMonthInFyKeepsNamesDistinct(years, fyName, monthName, true);
    assert FyIndex(after, fyName) == t;
    var e := EntryIndex(after[t].months, monthName);
    assert after[t].months[e].monthId;
    ActiveMonthsAreTheActiveEntries(after, fyName);
  }

  /**
   * `/activateMonth` (`flag` true) and `/lockMonth` (`flag` false): 400
   * unless both names are strings, used as given; otherwise the toggle,
   * replying with the changed year.
   */
  function MonthInFyRequest(years: seq<FyYear>, fyName: Option<string>, monthName: Option<string>, flag: bool): (r: (Reply<FyYear>, seq<FyYear>))
    ensures r.0.Failure? <==> fyName.None? || monthName.None?
    ensures r.0.Failure? ==> r.0.status == BadRequest400 && r.1 == years
    ensures r.0.Success? ==>
      && r.1 == SetMonthInFy(years, fyName.value, monthName.value, flag)
      && r.0.value.fyName == fyName.value
      && MonthEntry(monthName.value, flag) in r.0.value.months
      && MonthInFyTarget(years, fyName.value, monthName.value) < |r.1|
      && r.0.value == r.1[MonthInFyTarget(years, fyName.value, monthName.value)]
  {
    if fyName.None? || monthName.None? then (Failure(BadRequest400), years)
    else
      SetMonthInFyFacts(years, fyName.value, monthName.value, flag);
      var after := SetMonthInFy(years, fyName.value, monthName.value, flag);
      (Success(after[MonthInFyTarget(years, fyName.value, monthName.value)]), after)
  }

  // ---------------------------------------------------------------------
  // The collections
  // ---------------------------------------------------------------------

  /** The `fy_year` collection, in natural order. */
  class FyYearCollection {
    var years: seq<FyYear>

    constructor (years: seq<FyYear>)
      ensures this.years == years
    {
      this.years := years;
    }

    /** The scan of `findOne({fy_name})`. */
    method FindByName(name: string) returns (k: int)
      ensures k == FyIndex(years, name)
    {
      k := 0;
      while k < |years|
        invariant 0 <= k <= |years|
        invariant forall j :: 0 <= j < k ==> years[j].fyName != name
      {
        if years[k].fyName == name {
          return;
        }
        k := k + 1;
      }
      k := -1;
    }

    /** The scan of `findOne({fy_name, "months.month_name": month_name})`. */
    method FindWithMonth(fyName: string, monthName: string) returns (k: int, e: int)
      ensures k == FyWithMonth(years, fyName, monthName)
      ensures k >= 0 ==> e == EntryIndex(years[k].months, monthName)
    {
      k := 0;
      while k < |years|
        invariant 0 <= k <= |years|
        invariant forall j :: 0 <= j < k ==> !HasMonth(years[j], fyName, monthName)
      {
        if years[k].fyName == fyName {
          e := FindEntry(years[k].months, monthName);
          if e >= 0 {
            return;
          }
        }
        k := k + 1;
      }
      k, e := -1, -1;
    }

    /** `/settruefyyear` and `/setfalsefyyear`. */
    method ToggleYear(fyName: Option<string>, flag: bool) returns (reply: Reply<FyYear>)
      modifies this
      ensures (reply, years) == FyFlagRequest(old(years), fyName, flag)
    {
      if fyName.None? {
        return Failure(BadRequest400);
      }
      var name := Trim(fyName.value);
      TrimEmptyIffBlank(fyName.value);
      if name == "" {
        return Failure(BadRequest400);
      }
      var k := FindByName(name);
      if k == -1 {
        years := years + [FyYear(name, Some(flag), [])];
        reply := Success(years[|years| - 1]);
      } else {
        years := years[k := years[k].(fyId := Some(flag))];
        reply := Success(years[k]);
      }
    }

    /** `/activateMonth` and `/lockMonth`. */
    method ToggleMonth(fyName: Option<string>, monthName: Option<string>, flag: bool) returns (reply: Reply<FyYear>)
      modifies this
      ensures (reply, years) == MonthInFyRequest(old(years), fyName, monthName, flag)
    {
      if fyName.None? || monthName.None? {
        return Failure(BadRequest400);
      }
      var k, e := FindWithMonth(fyName.value, monthName.value);
      if k >= 0 {
        var y := years[k];
        years := years[k := y.(months := y.months[e := y.months[e].(monthId := flag)])];
        reply := Success(years[k]);
        return;
      }
      var f := FindByName(fyName.value);
      if f >= 0 {
        years := years[f := years[f].(months := years[f].months + [MonthEntry(monthName.value, flag)])];
        reply := Success(years[f]);
      } else {
        years := years + [FyYear(fyName.value, None, [MonthEntry(monthName.value, flag)])];
        reply := Success(years[|years| - 1]);
      }
    }
  }

  /** The positional operator's scan of one month list. */
  method FindEntry(months: seq<MonthEntry>, name: string) returns (e: int)
    ensures e == EntryIndex(months, name)
  {
    e := 0;
    while e < |months|
      invariant 0 <= e <= |months|
      invariant forall j :: 0 <= j < e ==> months[j].monthName != name
    {
      if months[e].monthName == name {
        return;
      }
      e := e + 1;
    }
    e := -1;
  }

  /** The standalone `month` collection, in natural order. */
  class MonthCollection {
    var months: seq<Month>

    constructor (months: seq<Month>)
      ensures this.months == months
    {
      this.months := months;
    }

    /** `/setmonthtrue` and `/setmonthfalse`. */
    method Toggle(monthName: Option<string>, flag: bool) returns (reply: Reply<Month>)
      modifies this
      ensures (reply, months) == MonthFlagRequest(old(months), monthName, flag)
    {
      if monthName.None? {
        return Failure(BadRequest400);
      }
      var name := monthName.value;
      var k := 0;
      while k < |months|
        invariant 0 <= k <= |months|
        invariant forall j :: 0 <= j < k ==> months[j].monthName != name
      {
        if months[k].monthName == name {
          months := months[k := months[k].(monthId := flag)];
          return Success(months[k]);
        }
        k := k + 1;
      }
      months := months + [Month(name, flag)];
      reply := Success(months[|months| - 1]);
    }
  }
}
