/**
 * The read routes that do more than one equality query: the date-range
 * filter with its format check, the bill-number and employee-id filters
 * over comma-separated query strings, and the sign-in lookup. The
 * collection is a sequence in natural order and each route returns the
 * documents its query selects, in that order.
 */
module Queries {
  import opened Wrappers
  import opened Strings
  import opened Records
  import opened Lists

  // ---------------------------------------------------------------------
  // String order
  // ---------------------------------------------------------------------

  /**
   * MongoDB's order on strings: byte-wise on UTF-8, which is the order of
   * code points, character by character, a proper prefix first.
   */
  predicate LexLe(a: string, b: string)
    decreases |a|
  {
    a == [] || (b != [] && (a[0] < b[0] || (a[0] == b[0] && LexLe(a[1..], b[1..]))))
  }

  lemma {:induction false} LexLeReflexive(a: string)
    ensures LexLe(a, a)
    decreases |a|
  {
    if a != [] {
      LexLeReflexive(a[1..]);
    }
  }

  lemma {:induction false} LexLeTotal(a: string, b: string)
    ensures LexLe(a, b) || LexLe(b, a)
    decreases |a|
  {
    if a != [] && b != [] && a[0] == b[0] {
      LexLeTotal(a[1..], b[1..]);
    }
  }

  lemma {:induction false} LexLeAntisymmetric(a: string, b: string)
    requires LexLe(a, b) && LexLe(b, a)
    ensures a == b
    decreases |a|
  {
    if a != [] {
      LexLeAntisymmetric(a[1..], b[1..]);
      assert a == [a[0]] + a[1..] && b == [b[0]] + b[1..];
    }
  }

  lemma {:induction false} LexLeTransitive(a: string, b: string, c: string)
    requires LexLe(a, b) && LexLe(b, c)
    ensures LexLe(a, c)
    decreases |a|
  {
    if a != [] && a[0] == b[0] && b[0] == c[0] {
      LexLeTransitive(a[1..], b[1..], c[1..]);
    }
  }

  // ---------------------------------------------------------------------
  // GET /date_filter/:from/:to
  // ---------------------------------------------------------------------

  /** `/^\d{2}-\d{2}-\d{4}$/.test(s)`: two digits, a dash, two digits, a dash, four digits, nothing else. */
  predicate DateShaped(s: string)
  {
    && |s| == 10 && s[2] == '-' && s[5] == '-'
    && AllDigits(s[..2]) && AllDigits(s[3..5]) && AllDigits(s[6..])
  }

  /** The `dd-MM-yyyy` text of a day, month and year. */
  function DayText(day: nat, month: nat, year: nat): string
  {
    PaddedDecimal(day, 2) + "-" + PaddedDecimal(month, 2) + "-" + PaddedDecimal(year, 4)
  }

  /** Every day with a two-digit day and month and a four-digit year prints in the shape the route accepts, and reads back. */
  lemma DayTextShaped(day: nat, month: nat, year: nat)
    requires day < 100 && month < 100 && year < 10000
    ensures var s := DayText(day, month, year);
      && DateShaped(s)
      && DecimalValue(s[..2]) == day && DecimalValue(s[3..5]) == month && DecimalValue(s[6..]) == year
  {
    DecimalWidth(day, 2);
    DecimalWidth(month, 2);
    DecimalWidth(year, 4);
    PaddedDecimalRoundTrip(day, 2);
    PaddedDecimalRoundTrip(month, 2);
    PaddedDecimalRoundTrip(year, 4);
    var d, m, y := PaddedDecimal(day, 2), PaddedDecimal(month, 2), PaddedDecimal(year, 4);
    var s := d + "-" + m + "-" + y;
    assert s[..2] == d && s[3..5] == m && s[6..] == y;
  }

  /** The query `{date: {$gte: from, $lte: to}}`: a stored date string between the two, in string order. */
  predicate InDateRange(r: FormRecord, from: string, to: string)
  {
    r.date.Some? && DateInRange(r.date.value, from, to)
  }

  predicate DateInRange(d: string, from: string, to: string)
  {
    LexLe(from, d) && LexLe(d, to)
  }

  function DateRangeTest(from: string, to: string): FormRecord -> bool
  {
    x => InDateRange(x, from, to)
  }

  /**
   * The reply of `/date_filter/:from/:to`: 400 unless both bounds are well
   * formed, else the forms in range, in natural order.
   */
  function DateFilter(records: seq<FormRecord>, from: string, to: string): (r: Reply<seq<FormRecord>>)
    ensures r.Failure? <==> !DateShaped(from) || !DateShaped(to)
    ensures r.Failure? ==> r.status == BadRequest400
    ensures r.Success? ==>
      && IsSelection(r.value, records, DateRangeTest(from, to))
      && (forall i :: 0 <= i < |r.value| ==> r.value[i] in records && InDateRange(r.value[i], from, to))
      && (forall i :: 0 <= i < |records| && InDateRange(records[i], from, to) ==> records[i] in r.value)
  {
    if !DateShaped(from) || !DateShaped(to) then Failure(BadRequest400)
    else Success(Filter(records, DateRangeTest(from, to)))
  }

  /** String order is decided at the first position where two strings differ. */
  lemma {:induction false} FirstDifference(a: string, b: string, k: nat)
    requires k < |a| && k < |b| && a[..k] == b[..k] && a[k] < b[k]
    ensures LexLe(a, b) && !LexLe(b, a)
    decreases k
  {
    if k > 0 {
      assert a[0] == a[..k][0] && b[0] == b[..k][0];
      assert a[1..][..k - 1] == b[1..][..k - 1] by {
        assert a[1..][..k - 1] == a[..k][1..] && b[1..][..k - 1] == b[..k][1..];
      }
      FirstDifference(a[1..], b[1..], k - 1);
    }
  }

  /**
   * String order on `dd-MM-yyyy` is not calendar order: a form dated
   * 15 January 2023 is returned for the range 1 January to 31 December 2024,
   * and one dated 1 February 2024 is not returned for 15 January to
   * 20 February 2024.
   */
  lemma DateRangeIsNotCalendarRange()
    ensures DateInRange("15-01-2023", "01-01-2024", "31-12-2024")
    ensures !DateInRange("01-02-2024", "15-01-2024", "20-02-2024")
  {
    FirstDifference("01-01-2024", "15-01-2023", 0);
    FirstDifference("15-01-2023", "31-12-2024", 0);
    FirstDifference("01-02-2024", "15-01-2024", 0);
  }

  /** A `dd-MM-yyyy` date rewritten as `yyyyMMdd`, whose string order is calendar order. */
  function CalendarKey(s: string): string
    requires |s| == 10
  {
    s[6..] + s[3..5] + s[..2]
  }

  /** The range test as evidently intended: by calendar day, for stored dates in the route's format. */
  predicate InCalendarRange(r: FormRecord, from: string, to: string)
    requires |from| == 10 && |to| == 10
  {
    r.date.Some? && DayInCalendarRange(r.date.value, from, to)
  }

  predicate DayInCalendarRange(d: string, from: string, to: string)
    requires |from| == 10 && |to| == 10
  {
    DateShaped(d) && LexLe(CalendarKey(from), CalendarKey(d)) && LexLe(CalendarKey(d), CalendarKey(to))
  }

  function CalendarRangeTest(from: string, to: string): FormRecord -> bool
    requires |from| == 10 && |to| == 10
  {
    x => InCalendarRange(x, from, to)
  }

  /** The date filter by calendar day, with the same format check, in natural order. */
  function DateFilterByCalendar(records: seq<FormRecord>, from: string, to: string): (r: Reply<seq<FormRecord>>)
    ensures r.Failure? <==> !DateShaped(from) || !DateShaped(to)
    ensures r.Failure? ==> r.status == BadRequest400
    ensures r.Success? ==>
      && IsSelection(r.value, records, CalendarRangeTest(from, to))
      && (forall i :: 0 <= i < |r.value| ==> r.value[i] in records && InCalendarRange(r.value[i], from, to))
      && (forall i :: 0 <= i < |records| && InCalendarRange(records[i], from, to) ==> records[i] in r.value)
  {
    if !DateShaped(from) || !DateShaped(to) then Failure(BadRequest400)
    else Success(Filter(records, CalendarRangeTest(from, to)))
  }

  /** Calendar order on well-formed dates: by year, then month, then day. */
  predicate CalendarLe(a: string, b: string)
    requires DateShaped(a) && DateShaped(b)
  {
    var ya, yb := DecimalValue(a[6..]), DecimalValue(b[6..]);
    var ma, mb := DecimalValue(a[3..5]), DecimalValue(b[3..5]);
    ya < yb || (ya == yb && (ma < mb || (ma == mb && DecimalValue(a[..2]) <= DecimalValue(b[..2]))))
  }

  /** The corrected comparison is calendar order. */
  lemma CalendarKeyOrdersByCalendar(a: string, b: string)
    requires DateShaped(a) && DateShaped(b)
    ensures LexLe(CalendarKey(a), CalendarKey(b)) <==> CalendarLe(a, b)
  {
    var ya, ma, da := a[6..], a[3..5], a[..2];
    var yb, mb, db := b[6..], b[3..5], b[..2];
    LexLeConcat(ya, ma + da, yb, mb + db);
    LexLeConcat(ma, da, mb, db);
    assert CalendarKey(a) == ya + (ma + da) && CalendarKey(b) == yb + (mb + db);
    DigitsOrder(ya, yb);
    DigitsOrder(ma, mb);
    DigitsOrder(da, db);
  }

  /** The corrected range test selects exactly the well-formed dates between the bounds in calendar order. */
  lemma InCalendarRangeIsCalendarOrder(r: FormRecord, from: string, to: string)
    requires DateShaped(from) && DateShaped(to)
    ensures InCalendarRange(r, from, to) <==>
      r.date.Some? && DateShaped(r.date.value) && CalendarLe(from, r.date.value) && CalendarLe(r.date.value, to)
  {
    if r.date.Some? && DateShaped(r.date.value) {
      CalendarKeyOrdersByCalendar(from, r.date.value);
      CalendarKeyOrdersByCalendar(r.date.value, to);
    }
  }

  /** Comparing two equal-length strings joined to others: the first parts decide unless they are equal. */
  lemma {:induction false} LexLeConcat(a1: string, a2: string, b1: string, b2: string)
    requires |a1| == |b1|
    ensures LexLe(a1 + a2, b1 + b2) <==> (LexLe(a1, b1) && a1 != b1) || (a1 == b1 && LexLe(a2, b2))
    decreases |a1|
  {
    if a1 != [] {
      assert (a1 + a2)[1..] == a1[1..] + a2 && (b1 + b2)[1..] == b1[1..] + b2;
      LexLeConcat(a1[1..], a2, b1[1..], b2);
      if a1[0] == b1[0] && a1[1..] == b1[1..] {
        assert a1 == [a1[0]] + a1[1..] && b1 == [b1[0]] + b1[1..];
      }
      if a1[0] == b1[0] && a1 == b1 {
        assert a1[1..] == b1[1..];
      }
    } else {
      assert a1 + a2 == a2 && b1 + b2 == b2;
    }
  }

  /** The value of a digit string, its first digit taken off. */
  lemma {:induction false} DecimalValueFirstDigit(s: string)
    requires AllDigits(s) && |s| >= 1
    ensures AllDigits(s[1..])
    ensures DecimalValue(s) == (s[0] as int - '0' as int) * Pow10(|s| - 1) + DecimalValue(s[1..])
    decreases |s|
  {
    var n := |s| - 1;
    if n > 0 {
      DecimalValueFirstDigit(s[..n]);
      assert s[..n][1..] == s[1..][..n - 1];
      ShiftDigit(s[0] as int - '0' as int, Pow10(n - 1), DecimalValue(s[1..][..n - 1]), s[n] as int - '0' as int);
    }
  }

  /** Appending a digit to a number that starts with `d`: the arithmetic step of the lemma above. */
  lemma ShiftDigit(d: int, p: int, tail: int, last: int)
    ensures 10 * (d * p + tail) + last == d * (10 * p) + (10 * tail + last)
  {
    assert 10 * (d * p) == d * (10 * p);
  }

  lemma {:induction false} DecimalValueBelow(s: string)
    requires AllDigits(s)
    ensures DecimalValue(s) < Pow10(|s|)
    decreases |s|
  {
    if s != [] {
      DecimalValueBelow(s[..|s| - 1]);
    }
  }

  /** A smaller leading digit makes a smaller number, whatever the digits after it. */
  lemma LeadingDigitDecides(da: int, db: int, ta: int, tb: int, p: int)
    requires 0 <= da < db && 0 <= ta < p && 0 <= tb
    ensures da * p + ta < db * p + tb
  {
    var k := db - da;
    assert db * p == da * p + k * p;
    assert k * p == p + (k - 1) * p;
    assert (k - 1) * p >= 0;
  }

  /** Two strings that start alike compare, and are equal, as their tails do. */
  lemma SameFirst(a: string, b: string)
    requires a != [] && b != [] && a[0] == b[0]
    ensures LexLe(a, b) <==> LexLe(a[1..], b[1..])
    ensures a == b <==> a[1..] == b[1..]
  {
    assert a == [a[0]] + a[1..] && b == [b[0]] + b[1..];
  }

  /** On digit strings of one length, string order is numeric order. */
  lemma {:induction false} DigitsOrder(a: string, b: string)
    requires |a| == |b| && AllDigits(a) && AllDigits(b)
    ensures LexLe(a, b) <==> DecimalValue(a) <= DecimalValue(b)
    ensures a == b <==> DecimalValue(a) == DecimalValue(b)
    decreases |a|
  {
    if a != [] {
      var n := |a| - 1;
      DecimalValueFirstDigit(a);
      DecimalValueFirstDigit(b);
      DecimalValueBelow(a[1..]);
      DecimalValueBelow(b[1..]);
      var p := Pow10(n);
      var da, db := a[0] as int - '0' as int, b[0] as int - '0' as int;
      var ta, tb := DecimalValue(a[1..]), DecimalValue(b[1..]);
      assert DecimalValue(a) == da * p + ta && DecimalValue(b) == db * p + tb;
      if da < db {
        LeadingDigitDecides(da, db, ta, tb, p);
      } else if db < da {
        LeadingDigitDecides(db, da, tb, ta, p);
      } else {
        DigitsOrder(a[1..], b[1..]);
        SameFirst(a, b);
      }
    }
  }

  // ---------------------------------------------------------------------
  // GET /getFormsByBillNos and /getFormsByEmployeeIDs
  // ---------------------------------------------------------------------

  /**
   * The list of bill numbers from `?bill_nos=`: absent or empty gives 400;
   * otherwise the comma-free pieces that join back, with commas, into the
   * query text.
   */
  function BillNumberList(q: Option<string>): (r: Reply<seq<string>>)
    ensures r.Failure? <==> q.None? || q.value == ""
    ensures r.Failure? ==> r.status == BadRequest400
    ensures r.Success? ==>
      && |r.value| >= 1 && Join(r.value, ",") == q.value
      && forall i :: 0 <= i < |r.value| ==> ',' !in r.value[i]
  {
    if q.None? || q.value == "" then Failure(BadRequest400)
    else
      JoinSplit(q.value, ',');
      Success(Split(q.value, ','))
  }

  /** `{'bills.bill_no': {$in: nos}}`: some bill of the form has one of the numbers. */
  predicate HasBillIn(r: FormRecord, nos: seq<string>)
  {
    exists b :: b in r.bills && b.billNo in nos
  }

  function BillTest(nos: seq<string>): FormRecord -> bool
  {
    x => HasBillIn(x, nos)
  }

  /** `/getFormsByBillNos`: 400 without numbers, else the forms with one of the numbers, in natural order. */
  function FormsByBillNos(records: seq<FormRecord>, q: Option<string>): (r: Reply<seq<FormRecord>>)
    ensures r.Failure? <==> q.None? || q.value == ""
    ensures r.Failure? ==> r.status == BadRequest400
    ensures r.Success? ==>
      && IsSelection(r.value, records, BillTest(Split(q.value, ',')))
      && (forall i :: 0 <= i < |r.value| ==> r.value[i] in records && HasBillIn(r.value[i], Split(q.value, ',')))
      && (forall i :: 0 <= i < |records| && HasBillIn(records[i], Split(q.value, ',')) ==> records[i] in r.value)
  {
    match BillNumberList(q)
    case Failure(status) => Failure(status)
    case Success(nos) => Success(Filter(records, BillTest(nos)))
  }

  /** How many times `c` occurs in `s`. */
  function CountOf(s: string, c: char): nat
    decreases |s|
  {
    if s == [] then 0 else (if s[0] == c then 1 else 0) + CountOf(s[1..], c)
  }

  /** Splitting on a character gives one piece more than it has occurrences. */
  lemma {:induction false} SplitCount(s: string, c: char)
    ensures |Split(s, c)| == CountOf(s, c) + 1
    decreases |s|
  {
    if s != [] {
      SplitCount(s[1..], c);
    }
  }

  function TrimAll(parts: seq<string>): (r: seq<string>)
    ensures |r| == |parts|
    ensures forall i :: 0 <= i < |parts| ==> r[i] == Trim(parts[i])
  {
    seq(|parts|, i requires 0 <= i < |parts| => Trim(parts[i]))
  }

  /** A trimmed piece holds only characters of the piece. */
  lemma TrimKeepsOut(s: string, c: char)
    requires c !in s
    ensures c !in Trim(s)
  {
    var r := Trim(s);
    var i := LeadingSpace(s);
    forall k | 0 <= k < |r| ensures r[k] != c {
      assert r[k] == s[i + k];
    }
  }

  /**
   * The employee ids from `?emp_ids=`: absent or empty gives 400; otherwise
   * one id per comma-separated piece, each with its surrounding whitespace
   * trimmed.
   */
  function EmployeeIdList(q: Option<string>): (r: Reply<seq<string>>)
    ensures r.Failure? <==> q.None? || q.value == ""
    ensures r.Failure? ==> r.status == BadRequest400
    ensures r.Success? ==>
      && |r.value| == CountOf(q.value, ',') + 1 == |Split(q.value, ',')|
      && (forall i :: 0 <= i < |r.value| ==> r.value[i] == Trim(Split(q.value, ',')[i]))
      && forall i :: 0 <= i < |r.value| ==>
           && ',' !in r.value[i]
           && (r.value[i] == [] || (!IsWhitespace(r.value[i][0]) && !IsWhitespace(r.value[i][|r.value[i]| - 1])))
  {
    if q.None? || q.value == "" then Failure(BadRequest400)
    else
      var parts := Split(q.value, ',');
      SplitCount(q.value, ',');
      var ids := TrimAll(parts);
      assert forall i :: 0 <= i < |ids| ==> ',' !in ids[i] by {
        forall i | 0 <= i < |ids| ensures ',' !in ids[i] {
          TrimKeepsOut(parts[i], ',');
        }
      }
      Success(ids)
  }

  /**
   * The id list reads back the ids it was written from: comma-free ids with
   * no whitespace at either end, joined with commas into a non-empty query,
   * come back unchanged and in order.
   */
  lemma EmployeeIdListRoundTrip(ids: seq<string>)
    requires |ids| >= 1 && Join(ids, ",") != ""
    requires forall i :: 0 <= i < |ids| ==> ',' !in ids[i]
    requires forall i :: 0 <= i < |ids| ==> ids[i] == [] || (!IsWhitespace(ids[i][0]) && !IsWhitespace(ids[i][|ids[i]| - 1]))
    ensures EmployeeIdList(Some(Join(ids, ","))) == Success(ids)
  {
    assert "," == [','];
    SplitJoin(ids, ',');
    forall i | 0 <= i < |ids| ensures Trim(ids[i]) == ids[i] {
      TrimKeeps(ids[i]);
    }
    assert TrimAll(ids) == ids;
  }

  /** `{received_by: {$elemMatch: {emp_id: {$in: ids}}}}`: some recipient of the form has one of the ids. */
  predicate ReceivedByAny(r: FormRecord, ids: seq<string>)
  {
    r.receivedBy.Some? && exists e :: e in r.receivedBy.value && e.empId in ids
  }

  function RecipientTest(ids: seq<string>): FormRecord -> bool
  {
    x => ReceivedByAny(x, ids)
  }

  /** `/getFormsByEmployeeIDs`: 400 without ids, else the forms with a recipient among the ids, in natural order. */
  function FormsByEmployeeIds(records: seq<FormRecord>, q: Option<string>): (r: Reply<seq<FormRecord>>)
    ensures r.Failure? <==> q.None? || q.value == ""
    ensures r.Failure? ==> r.status == BadRequest400
    ensures r.Success? ==>
      var ids := TrimAll(Split(q.value, ','));
      && IsSelection(r.value, records, RecipientTest(ids))
      && (forall i :: 0 <= i < |r.value| ==> r.value[i] in records && ReceivedByAny(r.value[i], ids))
      && (forall i :: 0 <= i < |records| && ReceivedByAny(records[i], ids) ==> records[i] in r.value)
  {
    match EmployeeIdList(q)
    case Failure(status) => Failure(status)
    case Success(ids) => Success(Filter(records, RecipientTest(ids)))
  }

  // ---------------------------------------------------------------------
  // POST /signin
  // ---------------------------------------------------------------------

  /** What `/signin` answers: the credentials with the stored admin flag, or `{message: "error"}`. */
  datatype SigninReply = Granted(username: string, password: string, admin: bool) | Denied

  /**
   * `/signin`: the first stored credential equal to both the username and
   * the password. A wrong password and an unknown user get the same reply.
   */
  function Signin(creds: seq<Credential>, user: string, pass: string): (r: SigninReply)
    ensures r.Denied? <==> forall j :: 0 <= j < |creds| ==> !(creds[j].username == user && creds[j].password == pass)
    ensures r.Granted? ==> r.username == user && r.password == pass && Credential(user, pass, r.admin) in creds
    ensures r.Granted? ==>
      exists k :: 0 <= k < |creds| && creds[k] == Credential(user, pass, r.admin)
        && forall j :: 0 <= j < k ==> !(creds[j].username == user && creds[j].password == pass)
  {
    var k := FindFirst(creds, (c: Credential) => c.username == user && c.password == pass);
    if k == -1 then Denied else Granted(user, pass, creds[k].admin)
  }
}
