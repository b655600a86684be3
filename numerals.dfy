/** Textual numerals as the controller software produces and reads them:
    Python's `hex(n)` digits, `int(s, 16)`, decimal formatting and
    `str.strip()`, over strings modelled as `seq<char>`. */
module Numerals {

  datatype Option<T> = None | Some(value: T)

  /** 16^k */
  function Pow16(k: nat): (p: nat)
    ensures p >= 1
  {
    if k == 0 then 1 else 16 * Pow16(k - 1)
  }

  predicate IsLowerHexDigit(c: char) {
    ('0' <= c <= '9') || ('a' <= c <= 'f')
  }

  /** A hexadecimal digit in either case. */
  predicate IsHexDigit(c: char) {
    ('0' <= c <= '9') || ('a' <= c <= 'f') || ('A' <= c <= 'F')
  }

  /** Value of one hexadecimal digit, upper or lower case, as `int(c, 16)` reads it. */
  function DigitValue(c: char): (r: Option<nat>)
    ensures r.Some? <==> IsHexDigit(c)
    ensures r.Some? ==> r.value < 16
    ensures '0' <= c <= '9' ==> r == Some(c as int - '0' as int)
    ensures 'a' <= c <= 'f' ==> r == Some(c as int - 'a' as int + 10)
    ensures 'A' <= c <= 'F' ==> r == Some(c as int - 'A' as int + 10)
  {
    if '0' <= c <= '9' then Some(c as int - '0' as int)
    else if 'a' <= c <= 'f' then Some(c as int - 'a' as int + 10)
    else if 'A' <= c <= 'F' then Some(c as int - 'A' as int + 10)
    else None
  }

  /** The lower-case digit Python's `hex()` writes for d. */
  function HexDigit(d: nat): (c: char)
    requires d < 16
    ensures IsLowerHexDigit(c)
    ensures DigitValue(c) == Some(d)
  {
    if d < 10 then ('0' as int + d) as char else ('a' as int + d - 10) as char
  }

  /** `c.upper()` for an ASCII character. */
  function UpperChar(c: char): char {
    if 'a' <= c <= 'z' then (c as int - 32) as char else c
  }

  /** `s.upper()` over ASCII text. */
  function Upper(s: seq<char>): (u: seq<char>)
    ensures |u| == |s|
  {
    seq(|s|, i requires 0 <= i < |s| => UpperChar(s[i]))
  }

  /** A digit and its upper-case form have the same value (or both none). */
  lemma DigitValueUpper(c: char)
    ensures DigitValue(UpperChar(c)) == DigitValue(c)
  {
  }

  /** `int(s, 16)` does not depend on the case of the digits. */
  lemma {:induction false} HexValueCaseInsensitive(s: seq<char>)
    ensures HexValue(Upper(s)) == HexValue(s)
    decreases |s|
  {
    var u := Upper(s);
    if |s| == 1 {
      DigitValueUpper(s[0]);
    } else if |s| > 1 {
      assert u[..|u| - 1] == Upper(s[..|s| - 1]);
      HexValueCaseInsensitive(s[..|s| - 1]);
      DigitValueUpper(s[|s| - 1]);
    }
  }

  /** The digits of `hex(n)` after the `0x` prefix: lower case, no leading zero. */
  function Hex(n: nat): (h: seq<char>)
    decreases n
  {
    if n < 16 then [HexDigit(n)] else Hex(n / 16) + [HexDigit(n % 16)]
  }

  /** `int(s, 16)` for a string of hexadecimal digits; `None` where Python raises
      ValueError because s is empty or holds a character that is not a digit. */
  function HexValue(s: seq<char>): (r: Option<nat>)
    decreases |s|
  {
    if s == [] then None
    else if |s| == 1 then DigitValue(s[0])
    else match (HexValue(s[..|s| - 1]), DigitValue(s[|s| - 1]))
      case (Some(hi), Some(lo)) => Some(16 * hi + lo)
      case _ => None
  }

  /** `int(s, 16)` reads a value exactly when s is a non-empty run of
      hexadecimal digits. */
  lemma {:induction false} HexValueDefined(s: seq<char>)
    ensures HexValue(s).Some? <==> s != [] && forall k :: 0 <= k < |s| ==> IsHexDigit(s[k])
    decreases |s|
  {
    if |s| > 1 {
      var init := s[..|s| - 1];
      HexValueDefined(init);
      assert forall k :: 0 <= k < |init| ==> init[k] == s[k];
    }
  }

  /** The reference for a zero-padded field: the w lowest hexadecimal digits
      of n, most significant first. */
  function PaddedHex(n: nat, w: nat): (f: seq<char>)
    ensures |f| == w
  {
    if w == 0 then [] else PaddedHex(n / 16, w - 1) + [HexDigit(n % 16)]
  }

  function Zeros(k: nat): (z: seq<char>)
    ensures |z| == k && forall i :: 0 <= i < k ==> z[i] == '0'
  {
    if k == 0 then [] else Zeros(k - 1) + ['0']
  }

  /** `hex()` never writes a leading zero and uses only lower-case digits. */
  lemma {:induction false} HexShape(n: nat)
    ensures 1 <= |Hex(n)|
    ensures n > 0 ==> Hex(n)[0] != '0'
    ensures forall i :: 0 <= i < |Hex(n)| ==> IsLowerHexDigit(Hex(n)[i])
  {
    if n >= 16 {
      HexShape(n / 16);
    }
  }

  /** A value has at most k hexadecimal digits exactly when it is below 16^k. */
  lemma {:induction false} HexLength(n: nat, k: nat)
    requires k >= 1
    ensures |Hex(n)| <= k <==> n < Pow16(k)
  {
    if n >= 16 {
      if k == 1 {
        HexShape(n / 16);
      } else {
        HexLength(n / 16, k - 1);
      }
    }
  }

  /** Reading back what `hex()` wrote gives the value: `int(hex(n), 16) == n`. */
  lemma {:induction false} HexRoundTrip(n: nat)
    ensures HexValue(Hex(n)) == Some(n)
  {
    if n >= 16 {
      HexRoundTrip(n / 16);
      var h := Hex(n);
      assert h[..|h| - 1] == Hex(n / 16);
    }
  }

  /** Leading zeros do not change the value `int(s, 16)` reads. */
  lemma {:induction false} LeadingZero(s: seq<char>)
    requires s != []
    ensures HexValue(['0'] + s) == HexValue(s)
    decreases |s|
  {
    var t := ['0'] + s;
    if |s| == 1 {
      assert t[..1] == ['0'];
    } else {
      assert t[..|t| - 1] == ['0'] + s[..|s| - 1];
      LeadingZero(s[..|s| - 1]);
    }
  }

  lemma {:induction false} ZerosValue(k: nat, s: seq<char>)
    requires s != []
    ensures HexValue(Zeros(k) + s) == HexValue(s)
  {
    if k > 0 {
      assert Zeros(k) == Zeros(k - 1) + ['0'];
      assert Zeros(k) + s == Zeros(k - 1) + (['0'] + s);
      LeadingZero(s);
      ZerosValue(k - 1, ['0'] + s);
    } else {
      assert Zeros(k) + s == s;
    }
  }

  /** The w-digit field reads back as n when n fits in w digits. */
  lemma {:induction false} PaddedHexValue(n: nat, w: nat)
    requires 1 <= w && n < Pow16(w)
    ensures HexValue(PaddedHex(n, w)) == Some(n)
  {
    if w > 1 {
      PaddedHexValue(n / 16, w - 1);
      assert PaddedHex(n, w)[..w - 1] == PaddedHex(n / 16, w - 1);
    }
  }

  /** Every digit of a zero-padded field is a lower-case hexadecimal digit. */
  lemma {:induction false} PaddedHexLower(n: nat, w: nat)
    ensures forall i :: 0 <= i < w ==> IsLowerHexDigit(PaddedHex(n, w)[i])
    decreases w
  {
    if w > 0 {
      PaddedHexLower(n / 16, w - 1);
      assert PaddedHex(n, w) == PaddedHex(n / 16, w - 1) + [HexDigit(n % 16)];
    }
  }

  /** Right-justifying the digits of `hex(n)` in a field of zeros of width w
      gives the w-digit zero-padded field, when n fits. */
  lemma {:induction false} RightJustifiedHex(n: nat, w: nat)
    requires 1 <= w && n < Pow16(w)
    ensures |Hex(n)| <= w
    ensures Zeros(w - |Hex(n)|) + Hex(n) == PaddedHex(n, w)
    decreases w
  {
    HexShape(n);
    if n < 16 {
      if w > 1 {
        RightJustifiedHex(0, w - 1);
        assert Zeros(w - 1) == Zeros(w - 1 - |Hex(0)|) + Hex(0);
      }
    } else {
      RightJustifiedHex(n / 16, w - 1);
      assert Zeros(w - |Hex(n)|) + Hex(n)
          == (Zeros(w - 1 - |Hex(n / 16)|) + Hex(n / 16)) + [HexDigit(n % 16)];
    }
  }

  /** The digits of the decimal numeral of n, as `'%d' % n` writes them. */
  function Decimal(n: nat): (s: seq<char>)
    decreases n
  {
    var d := ('0' as int + n % 10) as char;
    if n < 10 then [d] else Decimal(n / 10) + [d]
  }

  /** The value of a string of decimal digits, as Python's `float()` reads the
      integral part of `'%.4f'` output; `None` for anything else. */
  function DecimalValue(s: seq<char>): (r: Option<nat>)
    decreases |s|
  {
    if s == [] then None
    else
      var c := s[|s| - 1];
      var d := if '0' <= c <= '9' then Some(c as int - '0' as int) else None;
      if |s| == 1 then d
      else match (DecimalValue(s[..|s| - 1]), d)
        case (Some(hi), Some(lo)) => Some(10 * hi + lo)
        case _ => None
  }

  /** The decimal numeral reads back as the value it was made from. */
  lemma {:induction false} DecimalRoundTrip(n: nat)
    ensures DecimalValue(Decimal(n)) == Some(n)
  {
    if n >= 10 {
      DecimalRoundTrip(n / 10);
      var s := Decimal(n);
      assert s[..|s| - 1] == Decimal(n / 10);
    }
  }

  /** `'%.4f' % float(n)` for a whole number n. */
  function FixedPoint4(n: nat): (s: seq<char>)
  {
    Decimal(n) + ".0000"
  }

  /** `float()` of the text `FixedPoint4` writes, as Python reads a whole
      number followed by four zero decimals. */
  function FixedPoint4Value(s: seq<char>): (r: Option<real>)
  {
    if |s| < 5 || s[|s| - 5..] != ".0000" then None
    else match DecimalValue(s[..|s| - 5])
      case Some(n) => Some(n as real)
      case None => None
  }

  lemma FixedPoint4RoundTrip(n: nat)
    ensures FixedPoint4Value(FixedPoint4(n)) == Some(n as real)
  {
    var s := FixedPoint4(n);
    assert s[..|s| - 5] == Decimal(n);
    DecimalRoundTrip(n);
  }

  predicate IsSpace(c: char) {
    c == ' ' || c == '\t' || c == '\n' || c == '\r' || c == '\U{0b}' || c == '\U{0c}'
  }

  /** `s.strip()`: s without its leading and trailing whitespace. */
  function Strip(s: seq<char>): (r: seq<char>)
    ensures |r| <= |s|
    ensures r != [] ==> !IsSpace(r[0]) && !IsSpace(r[|r| - 1])
    ensures s != [] && !IsSpace(s[0]) && !IsSpace(s[|s| - 1]) ==> r == s
    ensures (forall k :: 0 <= k < |s| ==> IsSpace(s[k])) ==> r == []
    decreases |s|
  {
    if s == [] then []
    else if IsSpace(s[0]) then Strip(s[1..])
    else if IsSpace(s[|s| - 1]) then Strip(s[..|s| - 1])
    else s
  }

  /** s[a..b] is what is left of s once all of s[..a] and s[b..] is dropped,
      and those parts are whitespace. */
  predicate TrimmedAt(s: seq<char>, a: int, b: int) {
    0 <= a <= b <= |s|
    && (forall k :: 0 <= k < a ==> IsSpace(s[k]))
    && (forall k :: b <= k < |s| ==> IsSpace(s[k]))
  }

  /** `s.strip()` is s with a run of whitespace removed from each end and
      nothing else. With the ensures of `Strip` (no whitespace at either
      end of the result) this determines the result. */
  lemma StripIsSlice(s: seq<char>)
    ensures exists a, b :: TrimmedAt(s, a, b) && Strip(s) == s[a..b]
  {
    var a, b := StripBounds(s);
  }

  lemma {:induction false} StripBounds(s: seq<char>) returns (a: int, b: int)
    ensures TrimmedAt(s, a, b) && Strip(s) == s[a..b]
    decreases |s|
  {
    if s == [] {
      a, b := 0, 0;
    } else if IsSpace(s[0]) {
      var t := s[1..];
      var a', b' := StripBounds(t);
      a, b := a' + 1, b' + 1;
      assert t[a'..b'] == s[a..b];
      TrimFront(s, a', b');
    } else if IsSpace(s[|s| - 1]) {
      var t := s[..|s| - 1];
      a, b := StripBounds(t);
      assert t[a..b] == s[a..b];
      TrimBack(s, a, b);
    } else {
      a, b := 0, |s|;
    }
  }

  lemma TrimFront(s: seq<char>, a: int, b: int)
    requires s != [] && IsSpace(s[0]) && TrimmedAt(s[1..], a, b)
    ensures TrimmedAt(s, a + 1, b + 1)
  {
    forall k | 0 <= k < a + 1 ensures IsSpace(s[k]) {
      if k > 0 { assert s[k] == s[1..][k - 1]; }
    }
    forall k | b + 1 <= k < |s| ensures IsSpace(s[k]) {
      assert s[k] == s[1..][k - 1];
    }
  }

  lemma TrimBack(s: seq<char>, a: int, b: int)
    requires s != [] && IsSpace(s[|s| - 1]) && TrimmedAt(s[..|s| - 1], a, b)
    ensures TrimmedAt(s, a, b)
  {
    forall k | 0 <= k < a ensures IsSpace(s[k]) {
      assert s[k] == s[..|s| - 1][k];
    }
    forall k | b <= k < |s| ensures IsSpace(s[k]) {
      if k < |s| - 1 { assert s[k] == s[..|s| - 1][k]; }
    }
  }
}
