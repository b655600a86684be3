/** The ASCII-hex frame codec of the 5R7-001 temperature controller.

    A command frame is 16 characters: `*`, the address `00`, a two-character
    command code, four reserved zeros, a four-character hexadecimal value
    field, a two-character hexadecimal checksum and a carriage return.
    Offsets below are 0-based. */
module Auxil {
  import opened Numerals

  datatype DecodeError =
    | IndexError   // the reply is too short for its value digits
    | ValueError   // the value digits are not hexadecimal

  datatype Result<T> = Ok(value: T) | Err(error: DecodeError)

  function Abs(v: int): nat {
    if v < 0 then -v else v
  }

  /** `int(math.ceil(x))`: the least integer not below x. */
  function Ceil(x: real): (c: int)
    ensures x <= c as real < x + 1.0
  {
    if x.Floor as real == x then x.Floor else x.Floor + 1
  }

  /** The frame before any field is filled: `'*00' + command + '0000000000\r'`. */
  function Template(command: seq<char>): (t: seq<char>)
  {
    "*00" + command + "0000000000\r"
  }

  /** `sys.maxint` of a 64-bit Python 2: `int(math.ceil(x))` beyond
      [-MaxInt - 1, MaxInt] is a `long`. */
  const MaxInt: int := 0x7FFF_FFFF_FFFF_FFFF

  predicate IsLong(v: int) {
    v > MaxInt || v < -MaxInt - 1
  }

  /** `hex(v).split('x')[1]`: the digits of |v| (a negative v is written
      `-0x…`), followed by the `L` Python 2 appends to a `long`. */
  function HexText(v: int): (h: seq<char>)
    ensures 1 <= |h|
  {
    HexShape(Abs(v));
    Hex(Abs(v)) + (if IsLong(v) then "L" else "")
  }

  /** The characters at offsets 9..12 once `set_command` has written v into
      them: `HexText(v)` right-justified in zeros; a text longer than four
      characters only gets its last character, at offset 12. */
  function ValueField(v: int): (f: seq<char>)
    ensures |f| == 4
  {
    var h := HexText(v);
    if |h| <= 4 then Zeros(4 - |h|) + h else "000" + [h[|h| - 1]]
  }

  /** The value field character by character: the last character of the
      hex text at offset 12, and the characters before it at 11, 10 and 9
      only when there are at most four. */
  lemma ValueFieldChars(v: int)
    ensures var h, f := HexText(v), ValueField(v);
      f[3] == h[|h| - 1]
      && f[2] == (if 2 <= |h| <= 4 then h[|h| - 2] else '0')
      && f[1] == (if 3 <= |h| <= 4 then h[|h| - 3] else '0')
      && f[0] == (if |h| == 4 then h[0] else '0')
  {
  }

  /** Sum of the character codes of s. */
  function CharSum(s: seq<char>): (n: nat)
  {
    if s == [] then 0 else CharSum(s[..|s| - 1]) + s[|s| - 1] as nat
  }

  /** The checksum characters at offsets 13..14 for a character sum:
      `hex(sum % 256)`, right-justified over the template's `0`s. */
  function ChecksumField(sum: nat): (f: seq<char>)
    ensures |f| == 2
  {
    var cs := Hex(sum % 256);
    HexLength(sum % 256, 2);
    HexShape(sum % 256);
    if |cs| == 1 then ['0'] + cs else cs
  }

  /** The frame `set_command(command, value)` returns for the integer
      v == ceil(value): template, value field, then the checksum of
      offsets 1..12 computed after the value field is in place. */
  function Frame(command: seq<char>, v: int): (f: seq<char>)
    requires |command| == 2
    ensures |f| == 16
  {
    var head := "*00" + command + "0000" + ValueField(v);
    head + ChecksumField(CharSum(head[1..])) + "\r"
  }

  lemma FrameOfHead(command: seq<char>, v: int, head: seq<char>)
    requires |command| == 2 && head == "*00" + command + "0000" + ValueField(v)
    ensures Frame(command, v) == head + ChecksumField(CharSum(head[1..])) + "\r"
  {
  }

  /** A frame whose checksum field reads back as the checksum of offsets 1..12. */
  predicate ChecksumValid(f: seq<char>) {
    |f| == 16 && HexValue(f[13..15]) == Some(CharSum(f[1..13]) % 256)
  }

  /** A reply whose value window, the fourth- to seventh-last characters,
      holds four hexadecimal digits. */
  predicate Decodable(response: seq<char>) {
    var n := |response|;
    n >= 7 && IsHexDigit(response[n - 7]) && IsHexDigit(response[n - 6])
    && IsHexDigit(response[n - 5]) && IsHexDigit(response[n - 4])
  }

  /** A reply decodes exactly when its value window holds four hexadecimal
      digits. */
  lemma DecodableValue(response: seq<char>)
    ensures ResponseValue(response).Ok? <==> Decodable(response)
  {
    if |response| >= 7 {
      var w := response[|response| - 7..|response| - 3];
      HexValueDefined(w);
      assert w[0] == response[|response| - 7] && w[1] == response[|response| - 6];
      assert w[2] == response[|response| - 5] && w[3] == response[|response| - 4];
    }
  }

  /** The value a reply carries: `int(response[-7:-3], 16)`. Python's
      negative indices need at least 7 characters. */
  function ResponseValue(response: seq<char>): (r: Result<nat>)
  {
    if |response| < 7 then Err(IndexError)
    else match HexValue(response[|response| - 7..|response| - 3])
      case Some(n) => Ok(n)
      case None => Err(ValueError)
  }

  //----------------------------------------------------------------------
  // The operations, as the source performs them on a list of characters
  //----------------------------------------------------------------------

  /** Writes the checksum of offsets 1..12 into offsets 13..14 of a frame
      whose checksum field still holds the template's `00`. */
  method WriteChecksum(cml: array<char>)
    requires cml.Length == 16 && cml[13] == '0' && cml[14] == '0'
    modifies cml
    ensures cml[..] == old(cml[..13]) + ChecksumField(CharSum(old(cml[..13])[1..])) + [old(cml[15])]
  {
    var sum := 0;
    for x := 1 to 13
      invariant sum == CharSum(cml[1..x])
    {
      assert cml[1..x + 1][..x - 1] == cml[1..x];
      sum := sum + cml[x] as int;
    }
    var cs := Hex(sum % 256);
    HexLength(sum % 256, 2);
    HexShape(sum % 256);
    if |cs| == 1 {
      cml[14] := cs[0];
    } else {
      cml[13] := cs[0];
      cml[14] := cs[1];
    }
    assert cml[..] == cml[..13] + cml[13..15] + [cml[15]];
    assert old(cml[..13])[1..] == old(cml[1..13]);
  }

  /** Writes the digits of `hex(v)` into the value field, offsets 9..12,
      which still holds the template's `0000`: 0 and 1 by their only digit,
      any other value by its last four digits at most, right-justified, and
      a value with more than four digits by its last digit alone. */
  method WriteValue(cml: array<char>, v: int)
    requires cml.Length == 16 && cml[9] == '0' && cml[10] == '0' && cml[11] == '0' && cml[12] == '0'
    modifies cml
    ensures cml[..9] == old(cml[..9]) && cml[9..13] == ValueField(v) && cml[13..] == old(cml[13..])
  {
    ValueFieldChars(v);
    ghost var f := ValueField(v);
    if v == 0 || v == 1 {
      var h := HexText(v);
      cml[12] := h[|h| - 1];
      assert |h| == 1;
      assert cml[9] == f[0] && cml[10] == f[1] && cml[11] == f[2] && cml[12] == f[3];
    } else {
      var h := HexText(v);
      if |h| == 4 {
        cml[9] := h[|h| - 4];
        cml[10] := h[|h| - 3];
        cml[11] := h[|h| - 2];
      }
      if |h| == 3 {
        cml[10] := h[|h| - 3];
        cml[11] := h[|h| - 2];
      }
      if |h| == 2 {
        cml[11] := h[|h| - 2];
      }
      cml[12] := h[|h| - 1];
      if |h| == 4 {
        assert cml[9] == f[0] && cml[10] == f[1] && cml[11] == f[2] && cml[12] == f[3];
      } else if |h| == 3 {
        assert cml[9] == f[0] && cml[10] == f[1] && cml[11] == f[2] && cml[12] == f[3];
      } else if |h| == 2 {
        assert cml[9] == f[0] && cml[10] == f[1] && cml[11] == f[2] && cml[12] == f[3];
      } else {
        assert cml[9] == f[0] && cml[10] == f[1] && cml[11] == f[2] && cml[12] == f[3];
      }
    }
    SameFour(cml[9..13], f);
  }

  lemma SameFour<T>(a: seq<T>, b: seq<T>)
    requires |a| == 4 && |b| == 4
    requires a[0] == b[0] && a[1] == b[1] && a[2] == b[2] && a[3] == b[3]
    ensures a == b
  {
  }

  /** `set_command(command, value)`: the frame that sets a parameter to
      ceil(value). */
  method SetCommand(command: seq<char>, value: real) returns (frame: seq<char>)
    requires |command| == 2
    ensures frame == Frame(command, Ceil(value))
  {
    var v := Ceil(value);
    var cmd := Template(command);
    var cml := new char[16](i requires 0 <= i < 16 => cmd[i]);
    assert cml[..] == cmd;
    assert cml[9] == cmd[9] && cml[10] == cmd[10] && cml[11] == cmd[11] && cml[12] == cmd[12];
    WriteValue(cml, v);
    ghost var head := cml[..13];
    assert head == cml[..9] + cml[9..13];
    WriteChecksum(cml);
    frame := cml[..];
    FrameOfHead(command, v, head);
  }

  /** `check_sum(command)`: the query frame for a command, with a zero value field. */
  method CheckSum(command: seq<char>) returns (frame: seq<char>)
    requires |command| == 2
    ensures frame == Frame(command, 0)
  {
    var cmd := Template(command);
    var cml := new char[16](i requires 0 <= i < 16 => cmd[i]);
    assert cml[..13] == "*00" + command + "0000" + ValueField(0);
    assert cml[15] == '\r';
    ghost var head := cml[..13];
    WriteChecksum(cml);
    frame := cml[..];
    FrameOfHead(command, 0, head);
  }

  /** `get_response(response)`: the reply's value digits as a decimal
      numeral with four zero decimals, which `float()` reads back as the
      value of those digits. */
  method GetResponse(response: seq<char>) returns (r: Result<seq<char>>)
    ensures r.Ok? <==> ResponseValue(response).Ok?
    ensures r.Ok? ==> r.value == FixedPoint4(ResponseValue(response).value)
    ensures r.Ok? ==> FixedPoint4Value(r.value) == Some(ResponseValue(response).value as real)
    ensures r.Err? ==> r.error == ResponseValue(response).error
  {
    if |response| < 7 {
      return Err(IndexError);
    }
    var res := "****";
    var rel := new char[4](i requires 0 <= i < 4 => res[i]);
    rel[0] := response[|response| - 7];
    rel[1] := response[|response| - 6];
    rel[2] := response[|response| - 5];
    rel[3] := response[|response| - 4];
    assert rel[..] == response[|response| - 7..|response| - 3];
    var n := HexValue(rel[..]);
    if n.None? {
      return Err(ValueError);
    }
    FixedPoint4RoundTrip(n.value);
    r := Ok(FixedPoint4(n.value));
  }

  //----------------------------------------------------------------------
  // Properties of the frames
  //----------------------------------------------------------------------

  /** The fixed parts of every set frame. */
  lemma FrameLayout(command: seq<char>, v: int)
    requires |command| == 2
    ensures var f := Frame(command, v);
      f[0] == '*' && f[1..3] == "00" && f[3..5] == command
      && f[5..9] == "0000" && f[9..13] == ValueField(v) && f[15] == '\r'
  {
  }

  /** For 0 <= v <= 0xFFFF the value field is the four-digit, zero-padded,
      lower-case hexadecimal of v, most significant digit first. */
  lemma ValueFieldInRange(v: int)
    requires 0 <= v <= 0xFFFF
    ensures ValueField(v) == PaddedHex(v, 4)
    ensures forall i :: 0 <= i < 4 ==> IsLowerHexDigit(ValueField(v)[i])
  {
    assert Pow16(4) == 0x10000;
    RightJustifiedHex(v, 4);
    PaddedHexLower(v, 4);
  }

  /** The run-flag values 0 and 1 leave offsets 9..11 at `0` and put the one
      digit at offset 12, which is what the general branch writes for a
      one-digit value. */
  lemma FlagFields()
    ensures ValueField(0) == "0000" && ValueField(1) == "0001"
  {
  }

  /** A value with more than four hexadecimal digits keeps offsets 9..11 at
      `0` and only its last character reaches offset 12: its last digit,
      which does not read back as the value, or, for a `long`, the `L`,
      which does not read back at all. */
  lemma {:induction false} ValueFieldOverflow(v: int)
    requires v > 0xFFFF
    ensures ValueField(v) == "000" + [if IsLong(v) then 'L' else HexDigit(v % 16)]
    ensures !IsLong(v) ==> HexValue(ValueField(v)) == Some(v % 16) && v % 16 != v
    ensures IsLong(v) ==> HexValue(ValueField(v)) == None
  {
    assert Pow16(4) == 0x10000;
    HexLength(v, 4);
    var h := Hex(v);
    assert h[|h| - 1] == HexDigit(v % 16);
    assert "000" == Zeros(3);
    if IsLong(v) {
      LongFieldUndecodable();
    } else {
      ZerosValue(3, [HexDigit(v % 16)]);
    }
  }

  lemma LongFieldUndecodable()
    ensures HexValue("000" + "L") == None
  {
    var s := "000" + "L";
    assert s[|s| - 1] == 'L';
  }

  /** Past `sys.maxint` the frame's value field ends in `L`, so the reply
      window of the frame does not decode. */
  lemma LongRoundTrip(command: seq<char>, v: int)
    requires |command| == 2 && v > MaxInt
    ensures ResponseValue(Frame(command, v)) == Err(ValueError)
  {
    var f := Frame(command, v);
    FrameLayout(command, v);
    assert f[|f| - 7..|f| - 3] == f[9..13];
    ValueFieldOverflow(v);
  }

  lemma {:induction false} ChecksumFieldValue(sum: nat)
    ensures HexValue(ChecksumField(sum)) == Some(sum % 256)
    ensures forall i :: 0 <= i < 2 ==> IsLowerHexDigit(ChecksumField(sum)[i])
  {
    var cs := Hex(sum % 256);
    HexRoundTrip(sum % 256);
    HexShape(sum % 256);
    if |cs| == 1 {
      LeadingZero(cs);
    }
  }

  /** Every set frame carries a valid checksum: offsets 13..14 read back as
      the sum of the character codes at offsets 1..12, modulo 256. */
  lemma FrameChecksum(command: seq<char>, v: int)
    requires |command| == 2
    ensures ChecksumValid(Frame(command, v))
  {
    var head := "*00" + command + "0000" + ValueField(v);
    var f := Frame(command, v);
    assert f[1..13] == head[1..];
    assert f[13..15] == ChecksumField(CharSum(head[1..]));
    ChecksumFieldValue(CharSum(head[1..]));
  }

  /** The reply digits at len-7..len-4 of a 16-character frame are exactly
      its value field, so a frame's value reads back as written: for
      0 <= v <= 0xFFFF, `get_response(set_command(c, v))` is v. */
  lemma RoundTrip(command: seq<char>, v: int)
    requires |command| == 2 && 0 <= v <= 0xFFFF
    ensures ResponseValue(Frame(command, v)) == Ok(v)
  {
    var f := Frame(command, v);
    FrameLayout(command, v);
    assert f[|f| - 7..|f| - 3] == f[9..13];
    ValueFieldInRange(v);
    assert Pow16(4) == 0x10000;
    PaddedHexValue(v, 4);
  }

  /** The decoded value depends on the four characters at len-7..len-4 only. */
  lemma ResponseWindow(a: seq<char>, b: seq<char>)
    requires |a| >= 7 && |b| >= 7
    requires a[|a| - 7..|a| - 3] == b[|b| - 7..|b| - 3]
    ensures ResponseValue(a) == ResponseValue(b)
  {
  }

  /** The character sum of s from offset i on, added left to right. */
  function SumFrom(s: seq<char>, i: nat): (n: nat)
    requires i <= |s|
    decreases |s| - i
  {
    if i == |s| then 0 else s[i] as nat + SumFrom(s, i + 1)
  }

  lemma {:induction false} CharSumFrom(s: seq<char>, i: nat)
    requires i <= |s|
    ensures CharSum(s[i..]) == SumFrom(s, i)
    decreases |s| - i
  {
    if i < |s| {
      CharSumFrom(s, i + 1);
      CharSumCons(s[i..]);
      assert s[i..][1..] == s[i + 1..];
    }
  }

  lemma {:induction false} CharSumCons(s: seq<char>)
    requires s != []
    ensures CharSum(s) == s[0] as nat + CharSum(s[1..])
    decreases |s|
  {
    if |s| > 1 {
      CharSumCons(s[..|s| - 1]);
      assert s[..|s| - 1][1..] == s[1..][..|s| - 2];
    }
  }

  lemma {:induction false} CharSumAppend(a: seq<char>, b: seq<char>)
    ensures CharSum(a + b) == CharSum(a) + CharSum(b)
    decreases |b|
  {
    if b == [] {
      assert a + b == a;
    } else {
      assert (a + b)[..|a + b| - 1] == a + b[..|b| - 1];
      CharSumAppend(a, b[..|b| - 1]);
    }
  }

  /** The checksum catches any single changed character at offsets 1..12:
      two 8-bit frames that differ there in one place only have different
      sums modulo 256. */
  lemma SingleChangeDetected(f: seq<char>, g: seq<char>, i: nat)
    requires |f| == 16 && |g| == 16 && 1 <= i <= 12
    requires forall k :: 0 <= k < 16 ==> f[k] as int < 256 && g[k] as int < 256
    requires f[i] != g[i]
    requires forall k :: 1 <= k <= 12 && k != i ==> f[k] == g[k]
    ensures CharSum(f[1..13]) % 256 != CharSum(g[1..13]) % 256
  {
    var pre, post := f[1..i], f[i + 1..13];
    assert f[1..13] == pre + [f[i]] + post;
    assert g[1..13] == pre + [g[i]] + post;
    CharSumAppend(pre + [f[i]], post);
    CharSumAppend(pre, [f[i]]);
    CharSumAppend(pre + [g[i]], post);
    CharSumAppend(pre, [g[i]]);
    assert CharSum([f[i]]) == f[i] as nat && CharSum([g[i]]) == g[i] as nat by {
      assert [f[i]][..0] == [] && [g[i]][..0] == [];
    }
    ModDiffers(CharSum(pre) + CharSum(post), f[i] as int, g[i] as int);
  }

  lemma ModDiffers(a: int, x: int, y: int)
    requires 0 <= x < 256 && 0 <= y < 256 && x != y
    ensures (a + x) % 256 != (a + y) % 256
  {
  }

  /** A frame with a zero value field, such as a query, spelled out. */
  lemma ZeroValueFrame(command: seq<char>)
    requires |command| == 2
    ensures Frame(command, 0)
            == "*00" + command + "00000000" + ChecksumField(480 + command[0] as nat + command[1] as nat) + "\r"
  {
    FlagFields();
    var head := "*00" + command + "0000" + "0000";
    FrameOfHead(command, 0, head);
    assert head[1..] == "00" + command + "00000000";
    ZeroHeadSum(command);
    assert head + ChecksumField(480 + command[0] as nat + command[1] as nat) + "\r"
        == "*00" + command + "00000000" + ChecksumField(480 + command[0] as nat + command[1] as nat) + "\r";
  }

  lemma ZeroHeadSum(command: seq<char>)
    requires |command| == 2
    ensures CharSum("00" + command + "00000000") == 480 + command[0] as nat + command[1] as nat
  {
    CharSumAppend("00", command);
    CharSumAppend("00" + command, "00000000");
    var z := "00000000";
    CharSumFrom(z, 0);
    assert z[0..] == z;
    CharSumFrom("00", 0);
    assert "00"[0..] == "00";
    CharSumCons(command);
    assert command[1..][..0] == [];
  }

  /** Worked frame: temperature 92.50 C, scaled by 100 and rounded up,
      is sent as 9250 = 0x2422. */
  lemma ExampleTemperatureFrame()
    ensures Frame("1c", Ceil(92.5 * 100.0)) == "*001c000024227e\r"
  {
    assert Ceil(92.5 * 100.0) == 9250;
    ExampleTemperatureField();
    var head := "*001c00002422";
    FrameOfHead("1c", 9250, head);
    assert head[1..] == "001c00002422";
    ExampleTemperatureSum();
    ExampleTemperatureChecksum();
  }

  lemma ExampleTemperatureField()
    ensures ValueField(9250) == "2422"
  {
    ExampleTemperatureHex();
    assert Zeros(0) + "2422" == "2422";
  }

  lemma ExampleTemperatureHex()
    ensures Hex(9250) == "2422"
  {
    assert Hex(36) == Hex(2) + [HexDigit(4)] == "24";
    assert Hex(578) == Hex(36) + [HexDigit(2)] == "242";
    assert Hex(9250) == Hex(578) + [HexDigit(2)];
  }

  lemma ExampleTemperatureSum()
    ensures CharSum("001c00002422") == 638
  {
    var b := "001c00002422";
    CharSumFrom(b, 0);
    assert b[0..] == b;
  }

  lemma ExampleTemperatureChecksum()
    ensures ChecksumField(638) == "7e"
  {
    assert Hex(126) == Hex(7) + "e" == "7e";
  }

  /** Worked frame: the run flag set to 1. */
  lemma ExampleRunFlagFrame()
    ensures Frame("2d", 1) == "*002d0000000177\r"
  {
    FlagFields();
    var head := "*002d00000001";
    FrameOfHead("2d", 1, head);
    assert head[1..] == "002d00000001";
    ExampleRunFlagSum();
    ExampleRunFlagChecksum();
  }

  lemma ExampleRunFlagSum()
    ensures CharSum("002d00000001") == 631
  {
    var b := "002d00000001";
    CharSumFrom(b, 0);
    assert b[0..] == b;
  }

  lemma ExampleRunFlagChecksum()
    ensures ChecksumField(631) == "77"
  {
    assert Hex(119) == Hex(7) + "7" == "77";
  }

  /** A reply whose value digits are `03E8` decodes, upper case and all, to
      1000, which `get_response` writes as `1000.0000`. */
  lemma ExampleResponse()
    ensures ResponseValue("*000103E8c4\r") == Ok(1000)
    ensures FixedPoint4(1000) == "1000.0000"
  {
    var r := "*000103E8c4\r";
    assert r[|r| - 7..|r| - 3] == "03E8";
    ExampleReplyDigits();
    ExampleDecimal();
  }

  lemma ExampleReplyDigits()
    ensures HexValue("03E8") == Some(1000)
  {
    var d := "03E8";
    assert d[..3] == "03E" && d[..3][..2] == "03" && d[..2][..1] == "0";
    assert HexValue("0") == Some(0);
    assert HexValue("03") == Some(3);
    assert HexValue("03E") == Some(62);
  }

  lemma ExampleDecimal()
    ensures FixedPoint4(1000) == "1000.0000"
  {
    assert Decimal(1000) == Decimal(100) + "0" == Decimal(10) + "00" == Decimal(1) + "000";
  }
}
