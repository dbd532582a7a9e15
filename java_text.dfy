/**
 * The few pieces of the Java library's text handling that the services rely on:
 * `String.trim`, `String.split(",")`, `Integer.parseInt` / `Long.parseLong`,
 * `Integer.toString` and `String.format("%06d", n)`.
 * Digits are the ASCII digits '0'..'9'.
 */
module JavaText {
  import opened Wrappers

  // ---------------------------------------------------------------------------
  // String.trim
  // ---------------------------------------------------------------------------

  /** `String.trim` removes every leading and trailing character whose code is at most U+0020. */
  predicate IsTrimmable(c: char) {
    c <= ' '
  }

  function TrimLeading(s: string): (r: string)
    ensures |r| <= |s|
    ensures r == [] || !IsTrimmable(r[0])
  {
    if s != [] && IsTrimmable(s[0]) then TrimLeading(s[1..]) else s
  }

  function TrimTrailing(s: string): (r: string)
    ensures |r| <= |s|
    ensures r == [] || !IsTrimmable(r[|r| - 1])
  {
    if s != [] && IsTrimmable(s[|s| - 1]) then TrimTrailing(s[..|s| - 1]) else s
  }

  /** Leading trimming drops a prefix made of white space only. */
  lemma {:induction false} TrimLeadingDropsBlankPrefix(s: string)
    ensures TrimLeading(s) == s[|s| - |TrimLeading(s)|..]
    ensures forall i :: 0 <= i < |s| - |TrimLeading(s)| ==> IsTrimmable(s[i])
  {
    if s != [] && IsTrimmable(s[0]) {
      TrimLeadingDropsBlankPrefix(s[1..]);
      assert forall i :: 1 <= i < |s| ==> s[i] == s[1..][i - 1];
    }
  }

  /** Trailing trimming drops a suffix made of white space only. */
  lemma {:induction false} TrimTrailingDropsBlankSuffix(s: string)
    ensures TrimTrailing(s) == s[..|TrimTrailing(s)|]
    ensures forall i :: |TrimTrailing(s)| <= i < |s| ==> IsTrimmable(s[i])
  {
    if s != [] && IsTrimmable(s[|s| - 1]) {
      TrimTrailingDropsBlankSuffix(s[..|s| - 1]);
      assert forall i :: 0 <= i < |s| - 1 ==> s[i] == s[..|s| - 1][i];
    }
  }

  /** Java's `s.trim()`. */
  function Trim(s: string): string {
    TrimTrailing(TrimLeading(s))
  }

  /** Java's `s.trim().isEmpty()`, the blank test every service applies to its inputs. */
  predicate IsBlank(s: string) {
    Trim(s) == []
  }

  /** A required text input that is null or blank (`s == null || s.trim().isEmpty()`). */
  predicate Missing(s: Option<string>) {
    s.None? || IsBlank(s.value)
  }

  /** Trimming keeps a contiguous part of the text, and what it keeps neither starts nor ends with white space. */
  lemma TrimIsInfix(s: string)
    ensures exists i, j :: 0 <= i <= j <= |s| && Trim(s) == s[i..j]
                        && (forall k :: 0 <= k < i ==> IsTrimmable(s[k]))
                        && (forall k :: j <= k < |s| ==> IsTrimmable(s[k]))
    ensures Trim(s) == [] || (!IsTrimmable(Trim(s)[0]) && !IsTrimmable(Trim(s)[|Trim(s)| - 1]))
  {
    var l := TrimLeading(s);
    var k := |s| - |l|;
    TrimLeadingDropsBlankPrefix(s);
    assert l == s[k..];
    var t := TrimTrailing(l);
    TrimTrailingDropsBlankSuffix(l);
    assert t == l[..|t|] == s[k..k + |t|];
  }

  /** A text is blank exactly when all of its characters are white space in the sense of `trim`. */
  lemma BlankIffAllTrimmable(s: string)
    ensures IsBlank(s) <==> forall i :: 0 <= i < |s| ==> IsTrimmable(s[i])
  {
    var l := TrimLeading(s);
    TrimLeadingDropsBlankPrefix(s);
    TrimTrailingDropsBlankSuffix(l);
    if l != [] {
      assert !IsTrimmable(s[|s| - |l|]);
    }
  }

  /** A text that neither starts nor ends with white space is its own trim. */
  lemma TrimOfTrimmed(s: string)
    requires s == [] || (!IsTrimmable(s[0]) && !IsTrimmable(s[|s| - 1]))
    ensures Trim(s) == s
  {
  }

  /** Trimming twice is trimming once, so a text and its trim are blank alike. */
  lemma TrimIdempotent(s: string)
    ensures Trim(Trim(s)) == Trim(s)
    ensures IsBlank(Trim(s)) <==> IsBlank(s)
  {
    TrimIsInfix(s);
    TrimOfTrimmed(Trim(s));
  }

  /** Characters that `trim` removes are not commas, so a comma-free text stays comma-free. */
  lemma TrimKeepsNoComma(s: string)
    requires ',' !in s
    ensures ',' !in Trim(s)
  {
    TrimIsInfix(s);
  }

  // ---------------------------------------------------------------------------
  // String.split(",")
  // ---------------------------------------------------------------------------

  /** The index of the first comma of `s`, or |s| when there is none. */
  function IndexOfComma(s: string): (k: nat)
    ensures k <= |s|
    ensures ',' !in s[..k]
    ensures k < |s| ==> s[k] == ','
  {
    if s == [] then 0
    else if s[0] == ',' then 0
    else
      var k := 1 + IndexOfComma(s[1..]);
      assert s[..k] == [s[0]] + s[1..][..k - 1];
      k
  }

  /** The pieces of `s` between commas: a text with n commas has n + 1 pieces. */
  function CommaPieces(s: string): (r: seq<string>)
    ensures |r| >= 1
  {
    if s == [] then [[]]
    else if s[0] == ',' then [[]] + CommaPieces(s[1..])
    else
      var rest := CommaPieces(s[1..]);
      [[s[0]] + rest[0]] + rest[1..]
  }

  /** `split` with limit 0 drops the empty pieces at the end of the result. */
  function DropTrailingEmpty(p: seq<string>): (r: seq<string>)
    ensures |r| <= |p| && r == p[..|r|]
    ensures r == [] || r[|r| - 1] != []
    ensures forall i :: |r| <= i < |p| ==> p[i] == []
  {
    if p == [] then []
    else if p[|p| - 1] == [] then DropTrailingEmpty(p[..|p| - 1])
    else p
  }

  /** Java's `s.split(",")`: when no comma occurs the result is `[s]` itself (even for the empty text). */
  function SplitOnComma(s: string): seq<string> {
    if ',' !in s then [s] else DropTrailingEmpty(CommaPieces(s))
  }

  /** The first piece is the text before the first comma. */
  lemma {:induction false} FirstPieceBeforeComma(s: string)
    ensures CommaPieces(s)[0] == s[..IndexOfComma(s)]
  {
    if s != [] && s[0] != ',' {
      FirstPieceBeforeComma(s[1..]);
      assert s[..IndexOfComma(s)] == [s[0]] + s[1..][..IndexOfComma(s[1..])];
    }
  }

  /** Every piece is empty exactly when the text is made of commas only. */
  lemma {:induction false} PiecesAllEmpty(s: string)
    ensures AllEmpty(CommaPieces(s)) <==> AllCommas(s)
  {
    if s != [] {
      PiecesAllEmpty(s[1..]);
      var p := CommaPieces(s);
      var q := CommaPieces(s[1..]);
      if s[0] == ',' {
        assert p == [[]] + q;
        assert AllEmpty(p) <==> AllEmpty(q) by {
          assert forall i :: 1 <= i < |p| ==> p[i] == q[i - 1];
          assert forall j :: 0 <= j < |q| ==> q[j] == p[j + 1];
        }
        assert AllCommas(s) <==> AllCommas(s[1..]) by {
          assert forall j :: 1 <= j < |s| ==> s[j] == s[1..][j - 1];
        }
      } else {
        assert p[0] != [];
      }
    }
  }

  ghost predicate AllEmpty(p: seq<string>) {
    forall i :: 0 <= i < |p| ==> p[i] == []
  }

  ghost predicate AllCommas(s: string) {
    forall j :: 0 <= j < |s| ==> s[j] == ','
  }

  lemma DropTrailingEmptyIsEmpty(p: seq<string>)
    ensures DropTrailingEmpty(p) == [] <==> AllEmpty(p)
  {
  }

  /**
   * What `s.split(",")[0]` yields: nothing at all (the array is empty and indexing it throws)
   * exactly when `s` is a non-empty run of commas; otherwise the text before the first comma.
   */
  lemma SplitFirstElement(s: string)
    ensures SplitOnComma(s) == [] <==> (s != [] && AllCommas(s))
    ensures SplitOnComma(s) != [] ==> SplitOnComma(s)[0] == s[..IndexOfComma(s)]
  {
    if ',' in s {
      PiecesAllEmpty(s);
      DropTrailingEmptyIsEmpty(CommaPieces(s));
      FirstPieceBeforeComma(s);
    } else {
      if s != [] {
        assert s[0] != ',';
      }
      assert s[..|s|] == s;
    }
  }

  // ---------------------------------------------------------------------------
  // Decimal numbers
  // ---------------------------------------------------------------------------

  const IntMin: int := -0x8000_0000
  const IntMax: int := 0x7fff_ffff
  const LongMin: int := -0x8000_0000_0000_0000
  const LongMax: int := 0x7fff_ffff_ffff_ffff

  predicate IsDigit(c: char) {
    '0' <= c <= '9'
  }

  predicate AllDigits(s: string) {
    forall i :: 0 <= i < |s| ==> IsDigit(s[i])
  }

  function DigitValue(c: char): nat
    requires IsDigit(c)
  {
    c as int - '0' as int
  }

  function DigitChar(d: nat): (c: char)
    requires d < 10
    ensures IsDigit(c) && DigitValue(c) == d
  {
    ('0' as int + d) as char
  }

  /** The value of a string of decimal digits, most significant first. */
  function DecimalValue(s: string): nat
    requires AllDigits(s)
  {
    if s == [] then 0 else DecimalValue(s[..|s| - 1]) * 10 + DigitValue(s[|s| - 1])
  }

  /**
   * `Integer.parseInt` / `Long.parseLong` in radix 10 over the range [lo, hi]: an optional sign
   * followed by at least one digit, whose value lies in the range; anything else throws
   * NumberFormatException (here: None).
   */
  function ParseDecimal(s: string, lo: int, hi: int): (r: Option<int>)
    ensures r.Some? ==> lo <= r.value <= hi
    ensures r.Some? ==> s != [] && (IsDigit(s[0]) || s[0] == '-' || s[0] == '+')
  {
    if s == [] then None
    else
      var digits := if s[0] == '-' || s[0] == '+' then s[1..] else s;
      if digits == [] || !AllDigits(digits) then None
      else
        var v: int := if s[0] == '-' then -(DecimalValue(digits) as int) else DecimalValue(digits);
        if lo <= v <= hi then Some(v) else None
  }

  /** `Integer.parseInt(s)`. */
  function ParseInt(s: string): Option<int> {
    ParseDecimal(s, IntMin, IntMax)
  }

  /** `Long.parseLong(s)`. */
  function ParseLong(s: string): Option<int> {
    ParseDecimal(s, LongMin, LongMax)
  }

  /** The message of the NumberFormatException both parsers throw for an unparsable text. */
  function NumberFormatMessage(s: string): string {
    "For input string: \"" + s + "\""
  }

  /** The decimal digits of n without leading zeros ("0" for zero). */
  function Digits(n: nat): (r: string)
    ensures |r| >= 1 && AllDigits(r) && DecimalValue(r) == n
    ensures r[0] == '0' ==> n == 0 && r == "0"
    decreases n
  {
    if n < 10 then [DigitChar(n)]
    else
      var r := Digits(n / 10) + [DigitChar(n % 10)];
      assert r[..|r| - 1] == Digits(n / 10);
      r
  }

  /** `Integer.toString(n)` / `Long.toString(n)`. */
  function ToString(n: int): string {
    if n < 0 then "-" + Digits(-n) else Digits(n)
  }

  /** The decimal text of a number has no surrounding white space and is not blank. */
  lemma ToStringIsTrimmed(n: int)
    ensures Trim(ToString(n)) == ToString(n) && !IsBlank(ToString(n))
  {
    var s := ToString(n);
    var d := if n < 0 then Digits(-n) else Digits(n);
    assert s[|s| - 1] == d[|d| - 1] && IsDigit(d[|d| - 1]);
    assert IsDigit(d[0]);
    TrimOfTrimmed(s);
  }

  /** Parsing the decimal text of any number of the parser's range gives the number back. */
  lemma ParseToString(n: int, lo: int, hi: int)
    requires lo <= n <= hi
    ensures ParseDecimal(ToString(n), lo, hi) == Some(n)
  {
    var s := ToString(n);
    if n < 0 {
      assert s[1..] == Digits(-n);
    } else {
      assert IsDigit(s[0]);
    }
  }

  function Zeros(k: nat): (r: string)
    ensures |r| == k && AllDigits(r)
  {
    if k == 0 then [] else Zeros(k - 1) + ['0']
  }

  /** `String.format("%0<width>d", n)` for a non-negative n: the digits, padded on the left with zeros. */
  function ZeroPadded(n: nat, width: nat): (r: string)
    ensures AllDigits(r)
  {
    var d := Digits(n);
    if |d| < width then Zeros(width - |d|) + d else d
  }

  lemma {:induction false} ZerosValue(k: nat)
    ensures DecimalValue(Zeros(k)) == 0
  {
    if k > 0 {
      assert Zeros(k)[..k - 1] == Zeros(k - 1);
      ZerosValue(k - 1);
    }
  }

  /** Leading zeros do not change the value of a digit string. */
  lemma {:induction false} LeadingZerosValue(k: nat, s: string)
    requires AllDigits(s)
    ensures DecimalValue(Zeros(k) + s) == DecimalValue(s)
  {
    if s == [] {
      assert Zeros(k) + s == Zeros(k);
      ZerosValue(k);
    } else {
      var t := Zeros(k) + s;
      assert t[..|t| - 1] == Zeros(k) + s[..|s| - 1];
      LeadingZerosValue(k, s[..|s| - 1]);
    }
  }

  function Pow10(k: nat): nat {
    if k == 0 then 1 else 10 * Pow10(k - 1)
  }

  /** A number below 10^k has at most k digits. */
  lemma {:induction false} DigitsLength(n: nat, k: nat)
    requires 1 <= k && n < Pow10(k)
    ensures |Digits(n)| <= k
  {
    if n >= 10 {
      DigitsLength(n / 10, k - 1);
    }
  }

  /**
   * `String.format("%06d", n)` for the random values used as verification codes: exactly six
   * digits, and parsing them back yields n.
   */
  lemma SixDigitCode(n: nat)
    requires n < 1000000
    ensures |ZeroPadded(n, 6)| == 6
    ensures ParseInt(ZeroPadded(n, 6)) == Some(n)
  {
    assert Pow10(6) == 1000000;
    DigitsLength(n, 6);
    var d := Digits(n);
    var r := ZeroPadded(n, 6);
    if |d| < 6 {
      LeadingZerosValue(6 - |d|, d);
    }
    assert DecimalValue(r) == n;
    assert IsDigit(r[0]);
  }

  /** Distinct random values give distinct codes. */
  lemma SixDigitCodeInjective(m: nat, n: nat)
    requires m < 1000000 && n < 1000000 && m != n
    ensures ZeroPadded(m, 6) != ZeroPadded(n, 6)
  {
    SixDigitCode(m);
    SixDigitCode(n);
  }
}
