/**
 * The JavaScript string operations the handlers rely on: `split` on one
 * character, `join`, `trim`, `toLowerCase` on file extensions, decimal
 * rendering of numbers inside template strings, and Node's `path.extname`.
 */
module Strings {
  import opened Lists

  // ---------------------------------------------------------------------
  // split / join
  // ---------------------------------------------------------------------

  /** `s.split(sep)` for a one-character separator: the empty string gives `[""]`. */
  function Split(s: string, sep: char): (parts: seq<string>)
    ensures |parts| >= 1
    ensures forall i :: 0 <= i < |parts| ==> sep !in parts[i]
    decreases |s|
  {
    if s == [] then [""]
    else
      var rest := Split(s[1..], sep);
      if s[0] == sep then [""] + rest
      else [[s[0]] + rest[0]] + rest[1..]
  }

  /** `parts.join(sep)`. */
  function Join(parts: seq<string>, sep: string): string
    decreases |parts|
  {
    if |parts| == 0 then ""
    else if |parts| == 1 then parts[0]
    else parts[0] + sep + Join(parts[1..], sep)
  }

  /** A character that the separator does not hold is in a join exactly when it is in one of the parts. */
  lemma {:induction false} CharInJoin(parts: seq<string>, sep: string, c: char)
    requires c !in sep
    ensures c in Join(parts, sep) <==> exists i :: 0 <= i < |parts| && c in parts[i]
    decreases |parts|
  {
    if |parts| > 1 {
      CharInJoin(parts[1..], sep, c);
      if c in parts[0] + sep + Join(parts[1..], sep) && c !in parts[0] {
        var i :| 0 <= i < |parts[1..]| && c in parts[1..][i];
        assert c in parts[i + 1];
      }
      if exists i :: 0 <= i < |parts| && c in parts[i] {
        var i :| 0 <= i < |parts| && c in parts[i];
        if i > 0 { assert c in parts[1..][i - 1]; }
      }
    }
  }

  /** Joining the pieces of a split gives the original string back. */
  lemma {:induction false} JoinSplit(s: string, sep: char)
    ensures Join(Split(s, sep), [sep]) == s
    decreases |s|
  {
    if s != [] {
      var rest := Split(s[1..], sep);
      JoinSplit(s[1..], sep);
      assert s == [s[0]] + s[1..];
      if s[0] != sep {
        var parts := Split(s, sep);
        assert parts == [[s[0]] + rest[0]] + rest[1..];
        if |rest| == 1 {
          assert Join(parts, [sep]) == [s[0]] + rest[0];
        } else {
          assert parts[1..] == rest[1..];
          assert Join(rest, [sep]) == rest[0] + [sep] + Join(rest[1..], [sep]);
          assert Join(parts, [sep]) == [s[0]] + rest[0] + [sep] + Join(rest[1..], [sep]);
        }
      }
    }
  }

  /** A string without the separator splits into itself alone. */
  lemma {:induction false} SplitNoSeparator(a: string, sep: char)
    requires sep !in a
    ensures Split(a, sep) == [a]
    decreases |a|
  {
    if a != [] {
      SplitNoSeparator(a[1..], sep);
      assert [a[0]] + a[1..] == a;
    }
  }

  /** Splitting stops at the first separator. */
  lemma {:induction false} SplitAtSeparator(a: string, sep: char, b: string)
    requires sep !in a
    ensures Split(a + [sep] + b, sep) == [a] + Split(b, sep)
    decreases |a|
  {
    if a == [] {
      assert a + [sep] + b == [sep] + b;
      assert ([sep] + b)[1..] == b;
    } else {
      var s := a + [sep] + b;
      assert s[1..] == a[1..] + [sep] + b;
      SplitAtSeparator(a[1..], sep, b);
      assert [a[0]] + a[1..] == a;
    }
  }

  /**
   * Splitting a join gives the pieces back, provided none of them contains
   * the separator (a bill number with an underscore cannot be recovered from
   * a merged-PDF name).
   */
  lemma {:induction false} SplitJoin(parts: seq<string>, sep: char)
    requires |parts| >= 1
    requires forall i :: 0 <= i < |parts| ==> sep !in parts[i]
    ensures Split(Join(parts, [sep]), sep) == parts
    decreases |parts|
  {
    if |parts| == 1 {
      SplitNoSeparator(parts[0], sep);
    } else {
      SplitJoin(parts[1..], sep);
      SplitAtSeparator(parts[0], sep, Join(parts[1..], [sep]));
      assert [parts[0]] + parts[1..] == parts;
    }
  }

  // ---------------------------------------------------------------------
  // trim
  // ---------------------------------------------------------------------

  /** The characters `String.prototype.trim` removes: ECMAScript WhiteSpace and LineTerminator. */
  predicate IsWhitespace(c: char)
  {
    || c == '\t' || c == '\n' || c == '\U{000B}' || c == '\U{000C}' || c == '\r' || c == ' '
    || c == '\U{00A0}' || c == '\U{1680}' || ('\U{2000}' <= c <= '\U{200A}')
    || c == '\U{2028}' || c == '\U{2029}' || c == '\U{202F}' || c == '\U{205F}'
    || c == '\U{3000}' || c == '\U{FEFF}'
  }

  predicate AllWhitespace(s: string)
  {
    forall i :: 0 <= i < |s| ==> IsWhitespace(s[i])
  }

  /** How many whitespace characters `s` starts with. */
  function LeadingSpace(s: string): (n: nat)
    ensures n <= |s|
    ensures forall k :: 0 <= k < n ==> IsWhitespace(s[k])
    ensures n < |s| ==> !IsWhitespace(s[n])
    decreases |s|
  {
    if s != [] && IsWhitespace(s[0]) then LeadingSpace(s[1..]) + 1 else 0
  }

  /** How many whitespace characters `s` ends with. */
  function TrailingSpace(s: string): (n: nat)
    ensures n <= |s|
    ensures forall k :: |s| - n <= k < |s| ==> IsWhitespace(s[k])
    ensures n < |s| ==> !IsWhitespace(s[|s| - n - 1])
    decreases |s|
  {
    if s != [] && IsWhitespace(s[|s| - 1]) then TrailingSpace(s[..|s| - 1]) + 1 else 0
  }

  /**
   * `s.trim()`: the middle of the string, with only whitespace cut off on
   * either side and no whitespace left at either end.
   */
  function Trim(s: string): (r: string)
    ensures var i := LeadingSpace(s);
      && i + |r| <= |s| && r == s[i..i + |r|]
      && AllWhitespace(s[..i]) && AllWhitespace(s[i + |r|..])
    ensures r == [] || (!IsWhitespace(r[0]) && !IsWhitespace(r[|r| - 1]))
  {
    var i := LeadingSpace(s);
    var t := s[i..];
    var n := TrailingSpace(t);
    assert forall k :: |t| - n <= k < |t| ==> s[i + k] == t[k];
    s[i..|s| - n]
  }

  /** A string with no whitespace at either end trims to itself. */
  lemma TrimKeeps(s: string)
    requires s == [] || (!IsWhitespace(s[0]) && !IsWhitespace(s[|s| - 1]))
    ensures Trim(s) == s
  {
  }

  lemma DigitIsNotWhitespace(c: char)
    requires IsDigit(c)
    ensures !IsWhitespace(c)
  {
  }

  /** A string is blank for `!s.trim()` exactly when every character is whitespace. */
  lemma TrimEmptyIffBlank(s: string)
    ensures Trim(s) == [] <==> AllWhitespace(s)
  {
    var r := Trim(s);
    var i := LeadingSpace(s);
    if r == [] {
      assert i == |s|;
      forall p | 0 <= p < |s| ensures IsWhitespace(s[p]) {
        assert s[p] == s[..i][p];
      }
    } else {
      assert s[i] == r[0];
    }
  }

  // ---------------------------------------------------------------------
  // toLowerCase, decimal numbers
  // ---------------------------------------------------------------------

  function LowerChar(c: char): char
  {
    if 'A' <= c <= 'Z' then (c as int - 'A' as int + 'a' as int) as char else c
  }

  /** `s.toLowerCase()` on the ASCII letters; every other character is kept. */
  function ToLower(s: string): (r: string)
    ensures |r| == |s|
    ensures forall i :: 0 <= i < |s| ==> r[i] == LowerChar(s[i])
    decreases |s|
  {
    if s == [] then [] else [LowerChar(s[0])] + ToLower(s[1..])
  }

  predicate IsDigit(c: char)
  {
    '0' <= c <= '9'
  }

  predicate AllDigits(s: string)
  {
    forall i :: 0 <= i < |s| ==> IsDigit(s[i])
  }

  function DigitChar(d: nat): char
    requires d < 10
  {
    ('0' as int + d) as char
  }

  /** How JavaScript prints a non-negative integer inside a template string. */
  function DecimalString(n: nat): (s: string)
    ensures 1 <= |s| && AllDigits(s)
    decreases n
  {
    if n < 10 then [DigitChar(n)] else DecimalString(n / 10) + [DigitChar(n % 10)]
  }

  /** The number a string of decimal digits stands for. */
  function DecimalValue(s: string): nat
    requires AllDigits(s)
    decreases |s|
  {
    if s == [] then 0 else 10 * DecimalValue(s[..|s| - 1]) + (s[|s| - 1] as int - '0' as int)
  }

  /** A printed number is a non-empty string of digits that reads back as the number. */
  lemma {:induction false} DecimalRoundTrip(n: nat)
    ensures DecimalValue(DecimalString(n)) == n
    decreases n
  {
    var s := DecimalString(n);
    if n >= 10 {
      DecimalRoundTrip(n / 10);
      assert s[..|s| - 1] == DecimalString(n / 10);
    }
  }

  /** `n` printed with at least `width` digits, padded with zeros on the left. */
  function PaddedDecimal(n: nat, width: nat): string
  {
    var d := DecimalString(n);
    if |d| >= width then d else Zeros(width - |d|) + d
  }

  lemma {:induction false} DecimalValueLeadingZero(s: string)
    requires AllDigits(s)
    ensures AllDigits(['0'] + s) && DecimalValue(['0'] + s) == DecimalValue(s)
    decreases |s|
  {
    var t := ['0'] + s;
    if s != [] {
      assert t[..|t| - 1] == ['0'] + s[..|s| - 1];
      DecimalValueLeadingZero(s[..|s| - 1]);
    }
  }

  function Zeros(k: nat): (z: string)
    ensures |z| == k && AllDigits(z)
  {
    if k == 0 then "" else ['0'] + Zeros(k - 1)
  }

  lemma {:induction false} DecimalValueZeros(k: nat, s: string)
    requires AllDigits(s)
    ensures AllDigits(Zeros(k) + s) && DecimalValue(Zeros(k) + s) == DecimalValue(s)
    decreases k
  {
    if k > 0 {
      DecimalValueZeros(k - 1, s);
      assert Zeros(k) == ['0'] + Zeros(k - 1);
      assert Zeros(k) + s == ['0'] + (Zeros(k - 1) + s);
      DecimalValueLeadingZero(Zeros(k - 1) + s);
      assert DecimalValue(['0'] + (Zeros(k - 1) + s)) == DecimalValue(s);
    } else {
      assert Zeros(k) + s == s;
    }
  }

  /** Zero padding keeps the value and reaches the width when the number fits in it. */
  lemma PaddedDecimalRoundTrip(n: nat, width: nat)
    ensures AllDigits(PaddedDecimal(n, width)) && DecimalValue(PaddedDecimal(n, width)) == n
    ensures |PaddedDecimal(n, width)| >= width
  {
    DecimalRoundTrip(n);
    var d := DecimalString(n);
    if |d| < width {
      DecimalValueZeros(width - |d|, d);
    }
  }

  function Pow10(w: nat): nat
  {
    if w == 0 then 1 else 10 * Pow10(w - 1)
  }

  /** A number below 10^w prints with at most w digits, so padding to w digits gives exactly w. */
  lemma {:induction false} DecimalWidth(n: nat, w: nat)
    requires 1 <= w && n < Pow10(w)
    ensures |DecimalString(n)| <= w
    ensures |PaddedDecimal(n, w)| == w
    decreases w
  {
    if n >= 10 {
      assert w > 1;
      DecimalWidth(n / 10, w - 1);
    }
  }

  // ---------------------------------------------------------------------
  // path.extname
  // ---------------------------------------------------------------------

  /**
   * A name that `path.join(dir, name)` keeps directly inside `dir`: one
   * without `/`. A `/` makes the rest of the path a sub-directory of `dir`.
   */
  predicate PlainName(name: string)
  {
    '/' !in name
  }

  /**
   * Node's `path.extname` of a file name without `/`: from the last `.` to
   * the end, or empty when there is no dot, when the only dot starts the
   * name, or when the name is `..`.
   */
  function Extname(name: string): (ext: string)
    ensures ext == [] || (ext[0] == '.' && |ext| < |name| && name[|name| - |ext|..] == ext)
    ensures forall k :: 1 <= k < |ext| ==> ext[k] != '.'
    ensures ext == [] && name != ".." ==> forall k :: 1 <= k < |name| ==> name[k] != '.'
    ensures name == ".." ==> ext == []
  {
    var d := LastIndexOf(name, '.');
    if d <= 0 || name == ".." then "" else name[d..]
  }

  lemma {:induction false} LastDotIgnoresCase(s: string)
    ensures LastIndexOf(ToLower(s), '.') == LastIndexOf(s, '.')
    decreases |s|
  {
    if s != [] {
      var n := |s| - 1;
      assert ToLower(s)[..n] == ToLower(s[..n]);
      LastDotIgnoresCase(s[..n]);
    }
  }

  /** Lower-casing commutes with taking the extension. */
  lemma ExtnameToLower(name: string)
    ensures Extname(ToLower(name)) == ToLower(Extname(name))
  {
    var low := ToLower(name);
    LastDotIgnoresCase(name);
    var d := LastIndexOf(name, '.');
    if low == ".." {
      assert name[0] == '.' && name[1] == '.';
      assert name == "..";
    }
    if d > 0 && name != ".." {
      assert low[d..] == ToLower(name[d..]);
    }
  }

  lemma ToLowerIdempotent(s: string)
    ensures ToLower(ToLower(s)) == ToLower(s)
  {
  }

  /** `s` ends with `ext` and has at least one character before it. */
  predicate HasExtension(s: string, ext: string)
  {
    |ext| < |s| && s[|s| - |ext|..] == ext
  }

  /**
   * For an extension with one dot, at its start, `path.extname` gives it
   * exactly for the names that end with it after at least one character.
   */
  lemma ExtnameIsSuffix(s: string, x: string)
    requires |x| >= 2 && x[0] == '.' && forall k :: 1 <= k < |x| ==> x[k] != '.'
    ensures Extname(s) == x <==> HasExtension(s, x)
  {
    if HasExtension(s, x) {
      var p := |s| - |x|;
      assert s[p] == x[0];
      forall k | p < k < |s| ensures s[k] != '.' { assert s[k] == x[k - p]; }
      var d := LastIndexOf(s, '.');
      assert d == p;
      assert s != "..";
    }
  }
}
