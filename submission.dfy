/**
 * The values a submission derives from its payload, on creation and on
 * modification alike: the total of the bills, the names multer gives the
 * uploaded files, and the name of the merged PDF.
 */
module Submission {
  import opened Wrappers
  import opened Strings
  import opened Records

  // ---------------------------------------------------------------------
  // TotalAmount
  // ---------------------------------------------------------------------

  /** The sum of the bills' amounts, as arithmetic defines it. */
  function SumOfAmounts(bills: seq<Bill>): int
    decreases |bills|
  {
    if bills == [] then 0 else bills[0].amount + SumOfAmounts(bills[1..])
  }

  /**
   * `bills.reduce((sum, bill) => sum + bill.amount, acc)`: a left fold,
   * which adds the bills' sum to the starting value.
   */
  function FoldAmounts(bills: seq<Bill>, acc: int): (total: int)
    ensures total == acc + SumOfAmounts(bills)
    decreases |bills|
  {
    if bills == [] then acc else FoldAmounts(bills[1..], acc + bills[0].amount)
  }

  /** The `TotalAmount` stored with a form: the fold started from 0, used on creation and on modification. */
  function TotalAmount(bills: seq<Bill>): (total: int)
    ensures total == SumOfAmounts(bills)
    ensures bills == [] ==> total == 0
  {
    FoldAmounts(bills, 0)
  }

  /** The total of a list of bills is the total of its parts. */
  lemma {:induction false} TotalAmountAppend(a: seq<Bill>, b: seq<Bill>)
    ensures TotalAmount(a + b) == TotalAmount(a) + TotalAmount(b)
    decreases |a|
  {
    if a != [] {
      assert (a + b)[1..] == a[1..] + b;
      TotalAmountAppend(a[1..], b);
    } else {
      assert a + b == b;
    }
  }

  // ---------------------------------------------------------------------
  // File names
  // ---------------------------------------------------------------------

  /** The name multer stores an upload under: `${Date.now()}-${originalname}`. */
  function UploadName(stamp: nat, originalName: string): string
  {
    DecimalString(stamp) + "-" + originalName
  }

  /** An upload name gives back its time stamp and the client's file name. */
  lemma UploadNameRoundTrip(stamp: nat, originalName: string)
    ensures var parts := Split(UploadName(stamp, originalName), '-');
      && parts[0] == DecimalString(stamp)
      && Join(parts[1..], "-") == originalName
      && DecimalValue(parts[0]) == stamp
  {
    DecimalRoundTrip(stamp);
    var d := DecimalString(stamp);
    forall i | 0 <= i < |d| ensures d[i] != '-' { assert IsDigit(d[i]); }
    SplitAtSeparator(d, '-', originalName);
    JoinSplit(originalName, '-');
  }

  /** `Math.floor(u * 10000)` for the value `u` that `Math.random()` gave. */
  function RandomSuffix(u: real): (r: nat)
    requires 0.0 <= u < 1.0
    ensures r <= 9999
    ensures r as real <= u * 10000.0 < r as real + 1.0
  {
    (u * 10000.0).Floor
  }

  /** The bill numbers in bill order (`bills.map(bill => bill.bill_no)`). */
  function BillNumbers(bills: seq<Bill>): (nos: seq<string>)
    ensures |nos| == |bills|
    ensures forall i :: 0 <= i < |bills| ==> nos[i] == bills[i].billNo
  {
    seq(|bills|, i requires 0 <= i < |bills| => bills[i].billNo)
  }

  /** The stem and extension of a merged-PDF name: `${billNo}_${date}_${randomNumber}` then `.pdf`. */
  function MergedName(bills: seq<Bill>, dateText: string, r: nat): string
  {
    Join(BillNumbers(bills), "_") + "_" + dateText + "_" + DecimalString(r) + ".pdf"
  }

  /** How the create route prints an absent `date` in a template string. */
  function DateText(date: Option<string>): string
  {
    if date.Some? then date.value else "undefined"
  }

  /** The fields a merged-PDF name is made of, in order. */
  function NameFields(bills: seq<Bill>, dateText: string, r: nat): seq<string>
  {
    (if bills == [] then [""] else BillNumbers(bills)) + [dateText, DecimalString(r)]
  }

  lemma {:induction false} JoinSnoc(xs: seq<string>, y: string, sep: string)
    requires |xs| >= 1
    ensures Join(xs + [y], sep) == Join(xs, sep) + sep + y
    decreases |xs|
  {
    if |xs| > 1 {
      assert (xs + [y])[1..] == xs[1..] + [y];
      JoinSnoc(xs[1..], y, sep);
    }
  }

  /**
   * A merged-PDF name splits back on `_` into the bill numbers, the date and
   * the random number, provided neither a bill number nor the date holds an
   * underscore; the random number reads back from its digits.
   */
  lemma MergedNameFields(bills: seq<Bill>, dateText: string, r: nat)
    requires forall i :: 0 <= i < |bills| ==> '_' !in bills[i].billNo
    requires '_' !in dateText
    ensures var name := MergedName(bills, dateText, r);
      && |name| >= 4 && name[|name| - 4..] == ".pdf"
      && var fields := Split(name[..|name| - 4], '_');
      && fields == NameFields(bills, dateText, r)
      && AllDigits(fields[|fields| - 1]) && DecimalValue(fields[|fields| - 1]) == r
  {
    var nos := BillNumbers(bills);
    var stem := Join(nos, "_") + "_" + dateText + "_" + DecimalString(r);
    var name := MergedName(bills, dateText, r);
    assert name == stem + ".pdf";
    assert name[..|name| - 4] == stem;
    var head := if bills == [] then [""] else nos;
    assert Join(head, "_") == Join(nos, "_");
    JoinSnoc(head, dateText, "_");
    JoinSnoc(head + [dateText], DecimalString(r), "_");
    var fields := NameFields(bills, dateText, r);
    assert fields == head + [dateText] + [DecimalString(r)];
    assert Join(fields, "_") == stem;
    DecimalRoundTrip(r);
    var d := DecimalString(r);
    forall i | 0 <= i < |d| ensures d[i] != '_' { assert IsDigit(d[i]); }
    forall i | 0 <= i < |fields| ensures '_' !in fields[i] {
      if i < |head| {
        if bills != [] { assert fields[i] == bills[i].billNo; }
      }
    }
    SplitJoin(fields, '_');
  }

  /**
   * The merged name is a plain file name of `public/merged_pdf` exactly when
   * no bill number and not the date holds a `/`.
   */
  lemma MergedNamePlain(bills: seq<Bill>, dateText: string, r: nat)
    ensures PlainName(MergedName(bills, dateText, r)) <==>
      (forall i :: 0 <= i < |bills| ==> '/' !in bills[i].billNo) && '/' !in dateText
  {
    var nos := BillNumbers(bills);
    var d := DecimalString(r);
    DecimalRoundTrip(r);
    assert '/' !in d by {
      forall i | 0 <= i < |d| ensures d[i] != '/' { assert IsDigit(d[i]); }
    }
    CharInJoin(nos, "_", '/');
    assert MergedName(bills, dateText, r) == Join(nos, "_") + "_" + dateText + "_" + d + ".pdf";
  }

  // ---------------------------------------------------------------------
  // The date part on modification
  // ---------------------------------------------------------------------

  /** `new Date().toISOString().split('T')[0]` for a calendar day with a four-digit year. */
  function IsoDay(year: nat, month: nat, day: nat): (r: string)
    requires year <= 9999 && 1 <= month <= 12 && 1 <= day <= 31
    ensures |r| == 10 && r[4] == '-' && r[7] == '-'
    ensures AllDigits(r[..4]) && AllDigits(r[5..7]) && AllDigits(r[8..])
    ensures DecimalValue(r[..4]) == year && DecimalValue(r[5..7]) == month && DecimalValue(r[8..]) == day
  {
    DecimalWidth(year, 4);
    DecimalWidth(month, 2);
    DecimalWidth(day, 2);
    PaddedDecimalRoundTrip(year, 4);
    PaddedDecimalRoundTrip(month, 2);
    PaddedDecimalRoundTrip(day, 2);
    var y, m, d := PaddedDecimal(year, 4), PaddedDecimal(month, 2), PaddedDecimal(day, 2);
    var r := y + "-" + m + "-" + d;
    assert r[..4] == y && r[5..7] == m && r[8..] == d;
    r
  }

  /** The date part of a merged name on modification: the request's date, or today when it is absent or empty. */
  function ModifyDateText(date: Option<string>, year: nat, month: nat, day: nat): string
    requires year <= 9999 && 1 <= month <= 12 && 1 <= day <= 31
  {
    if date.Some? && date.value != "" then date.value else IsoDay(year, month, day)
  }
}
