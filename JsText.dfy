/**
 * The pieces of JavaScript's string handling that the components rely on:
 * `String.prototype.trim` and the zero-padded decimal fields that
 * `Date.prototype.toISOString` writes.
 */
module JsText {

  /**
   * The characters `trim` strips: the ECMAScript WhiteSpace set (tab,
   * vertical tab, form feed, space, no-break space, byte-order mark and
   * the other Unicode space separators) and the LineTerminator set.
   */
  predicate IsJsWhitespace(c: char) {
    var n := c as int;
    || n == 0x09 || n == 0x0B || n == 0x0C || n == 0x20 || n == 0xA0 || n == 0xFEFF
    || n == 0x1680 || (0x2000 <= n <= 0x200A) || n == 0x202F || n == 0x205F || n == 0x3000
    || n == 0x0A || n == 0x0D || n == 0x2028 || n == 0x2029
  }

  predicate AllWhitespace(s: string) {
    forall i :: 0 <= i < |s| ==> IsJsWhitespace(s[i])
  }

  /** Drops the leading whitespace: what remains is a suffix of `s` that does not start with whitespace. */
  function TrimStart(s: string): (r: string)
    ensures |r| <= |s| && r == s[|s| - |r|..]
    ensures AllWhitespace(s[..|s| - |r|])
    ensures r != [] ==> !IsJsWhitespace(r[0])
  {
    if s != [] && IsJsWhitespace(s[0]) then
      var r := TrimStart(s[1..]);
      assert forall i :: 0 <= i < |s| - |r| ==> IsJsWhitespace(s[i]) by {
        forall i | 0 <= i < |s| - |r| ensures IsJsWhitespace(s[i]) {
          if i > 0 {
            assert s[i] == s[1..][..|s| - 1 - |r|][i - 1];
          }
        }
      }
      r
    else s
  }

  /** Drops the trailing whitespace: what remains is a prefix of `s` that does not end with whitespace. */
  function TrimEnd(s: string): (r: string)
    ensures |r| <= |s| && r == s[..|r|]
    ensures AllWhitespace(s[|r|..])
    ensures r != [] ==> !IsJsWhitespace(r[|r| - 1])
  {
    if s != [] && IsJsWhitespace(s[|s| - 1]) then
      var r := TrimEnd(s[..|s| - 1]);
      assert forall i :: |r| <= i < |s| ==> IsJsWhitespace(s[i]) by {
        forall i | |r| <= i < |s| ensures IsJsWhitespace(s[i]) {
          if i < |s| - 1 {
            assert s[i] == s[..|s| - 1][|r|..][i - |r|];
          }
        }
      }
      r
    else s
  }

  /** `s.trim()`. */
  function Trim(s: string): string {
    TrimEnd(TrimStart(s))
  }

  /**
   * `Trim(s)` is the slice of `s` left once the whitespace on both ends is
   * cut off: the cut-off parts are all whitespace and the slice neither
   * starts nor ends with whitespace.
   */
  lemma TrimIsInnerSlice(s: string) returns (lo: nat, hi: nat)
    ensures lo <= hi <= |s| && Trim(s) == s[lo..hi]
    ensures AllWhitespace(s[..lo]) && AllWhitespace(s[hi..])
    ensures Trim(s) != [] ==> !IsJsWhitespace(Trim(s)[0]) && !IsJsWhitespace(Trim(s)[|Trim(s)| - 1])
  {
    var t := TrimStart(s);
    var r := TrimEnd(t);
    lo := |s| - |t|;
    hi := lo + |r|;
    SlicesOfSuffix(s, lo, |r|);
    TrimEndsWithoutWhitespace(s);
  }

  /** The trimmed text neither starts nor ends with whitespace. */
  lemma TrimEndsWithoutWhitespace(s: string)
    ensures Trim(s) != [] ==> !IsJsWhitespace(Trim(s)[0]) && !IsJsWhitespace(Trim(s)[|Trim(s)| - 1])
  {
    var t := TrimStart(s);
    var r := TrimEnd(t);
    if r != [] {
      assert r[0] == t[0];
    }
  }

  /** Slicing a suffix of `s` is slicing `s` itself further along. */
  lemma SlicesOfSuffix<T>(s: seq<T>, lo: nat, n: nat)
    requires lo + n <= |s|
    ensures s[lo..][..n] == s[lo..lo + n] && s[lo..][n..] == s[lo + n..]
  {
  }

  /** Trimming twice is trimming once. */
  lemma {:induction false} TrimIdempotent(s: string)
    ensures Trim(Trim(s)) == Trim(s)
  {
    var r := Trim(s);
    if r != [] {
      NoWhitespaceEndsUnchanged(r);
    }
  }

  /** A string that neither starts nor ends with whitespace is its own trim. */
  lemma NoWhitespaceEndsUnchanged(r: string)
    requires r != [] && !IsJsWhitespace(r[0]) && !IsJsWhitespace(r[|r| - 1])
    ensures Trim(r) == r
  {
    var lo, hi := TrimIsInnerSlice(r);
  }

  /** The character of a decimal digit. */
  function DigitChar(d: nat): (c: char)
    requires d < 10
    ensures '0' <= c <= '9'
  {
    ('0' as int + d) as char
  }

  predicate IsDigits(s: string) {
    forall i :: 0 <= i < |s| ==> '0' <= s[i] <= '9'
  }

  /** The decimal text of `n`, as JavaScript's `String(n)` writes a non-negative integer. */
  function Decimal(n: nat): (s: string)
    ensures 1 <= |s| && IsDigits(s)
    ensures n < 10 <==> |s| == 1
    ensures 10 <= n < 100 <==> |s| == 2
  {
    if n < 10 then [DigitChar(n)] else Decimal(n / 10) + [DigitChar(n % 10)]
  }

  /** Ten to the power `w`. */
  function Power10(w: nat): (p: nat)
    ensures p >= 1
  {
    if w == 0 then 1 else 10 * Power10(w - 1)
  }

  /** A number below `10^w` has at most `w` decimal digits. */
  lemma {:induction false} DecimalLength(n: nat, w: nat)
    requires 1 <= w && n < Power10(w)
    ensures |Decimal(n)| <= w
  {
    assert Power10(1) == 10;
    if n >= 10 {
      DecimalLength(n / 10, w - 1);
    }
  }

  /** `String(n).padStart(width, "0")`. */
  function PadDecimal(n: nat, width: nat): (s: string)
    ensures IsDigits(s) && |s| >= width
    ensures |Decimal(n)| <= width ==> |s| == width
    decreases width
  {
    var d := Decimal(n);
    if |d| >= width then d else ['0'] + PadDecimal(n, width - 1)
  }

  /** The value of a string of decimal digits (leading zeros allowed). */
  function DecimalValue(s: string): nat
    requires IsDigits(s)
  {
    if s == [] then 0 else DecimalValue(s[..|s| - 1]) * 10 + (s[|s| - 1] as int - '0' as int)
  }

  /** Reading back the text of `n` gives `n`. */
  lemma {:induction false} DecimalRoundTrip(n: nat)
    ensures DecimalValue(Decimal(n)) == n
  {
    if n >= 10 {
      var s := Decimal(n);
      assert s[..|s| - 1] == Decimal(n / 10);
      DecimalRoundTrip(n / 10);
    }
  }

  /** Leading zeros do not change the value. */
  lemma {:induction false} LeadingZeroValue(s: string)
    requires IsDigits(s)
    ensures DecimalValue(['0'] + s) == DecimalValue(s)
  {
    if s != [] {
      var t := ['0'] + s;
      assert t[..|t| - 1] == ['0'] + s[..|s| - 1];
      LeadingZeroValue(s[..|s| - 1]);
    }
  }

  /** Reading back the padded text of `n` gives `n`: padding loses nothing. */
  lemma {:induction false} PadDecimalRoundTrip(n: nat, width: nat)
    ensures DecimalValue(PadDecimal(n, width)) == n
    decreases width
  {
    if |Decimal(n)| >= width {
      DecimalRoundTrip(n);
    } else {
      PadDecimalRoundTrip(n, width - 1);
      LeadingZeroValue(PadDecimal(n, width - 1));
    }
  }
}
