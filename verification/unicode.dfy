/** Encoding.Unicode: text as UTF-16 code units, each written as two bytes,
    low byte first. A Dafny char is a Unicode scalar value, so characters
    above U+FFFF become a surrogate pair. */
module Unicode {
  import opened Wrappers

  type Byte = x: int | 0 <= x < 0x100

  type CodeUnit = x: int | 0 <= x < 0x1_0000

  predicate IsHighSurrogate(u: int) {
    0xD800 <= u < 0xDC00
  }

  predicate IsLowSurrogate(u: int) {
    0xDC00 <= u < 0xE000
  }

  /** Characters of the Basic Multilingual Plane take one code unit. */
  predicate IsBmp(s: string) {
    forall k :: 0 <= k < |s| ==> (s[k] as int) < 0x1_0000
  }

  /** UTF-16 code units of one character. */
  function CharToUnits(c: char): (units: seq<CodeUnit>)
    ensures |units| == (if (c as int) < 0x1_0000 then 1 else 2)
    ensures (c as int) < 0x1_0000 ==> units == [c as int]
    ensures |units| == 1 ==> !IsHighSurrogate(units[0]) && !IsLowSurrogate(units[0])
    ensures |units| == 2 ==> IsHighSurrogate(units[0]) && IsLowSurrogate(units[1])
  {
    var v := c as int;
    if v < 0x1_0000 then [v]
    else [0xD800 + (v - 0x1_0000) / 0x400, 0xDC00 + (v - 0x1_0000) % 0x400]
  }

  function ToUtf16(s: string): (units: seq<CodeUnit>)
    ensures |s| <= |units| <= 2 * |s|
    ensures IsBmp(s) ==> |units| == |s|
    ensures IsBmp(s) ==> forall k :: 0 <= k < |s| ==> units[k] == s[k] as int
  {
    if |s| == 0 then [] else CharToUnits(s[0]) + ToUtf16(s[1..])
  }

  /** Well-formed UTF-16 back to text; None on a lone surrogate. Units
      outside the surrogate range are characters of their own value. */
  function FromUtf16(units: seq<CodeUnit>): (r: Option<string>)
    ensures (forall k :: 0 <= k < |units| ==> !IsHighSurrogate(units[k]) && !IsLowSurrogate(units[k])) ==>
      && r.Some? && |r.value| == |units|
      && forall k :: 0 <= k < |units| ==> r.value[k] as int == units[k]
    decreases |units|
  {
    if |units| == 0 then Some([])
    else if IsHighSurrogate(units[0]) then
      if |units| >= 2 && IsLowSurrogate(units[1]) then
        var c := (0x1_0000 + (units[0] as int - 0xD800) * 0x400 + (units[1] as int - 0xDC00)) as char;
        match FromUtf16(units[2..])
        case Some(rest) => Some([c] + rest)
        case None => None
      else None
    else if IsLowSurrogate(units[0]) then None
    else
      match FromUtf16(units[1..])
      case Some(rest) => Some([units[0] as char] + rest)
      case None => None
  }

  /** Each code unit as two bytes, low byte first. */
  function UnitsToBytes(units: seq<CodeUnit>): (bytes: seq<Byte>)
    ensures |bytes| == 2 * |units|
  {
    if |units| == 0 then [] else [units[0] % 0x100, units[0] / 0x100] + UnitsToBytes(units[1..])
  }

  /** Byte pairs back to code units; None on an odd byte count. */
  function BytesToUnits(bytes: seq<Byte>): (r: Option<seq<CodeUnit>>)
    ensures r.Some? <==> |bytes| % 2 == 0
    ensures r.Some? ==> UnitsToBytes(r.value) == bytes
    decreases |bytes|
  {
    if |bytes| == 0 then Some([])
    else if |bytes| == 1 then None
    else
      match BytesToUnits(bytes[2..])
      case Some(rest) => Some([bytes[0] as int + 0x100 * bytes[1] as int] + rest)
      case None => None
  }

  /** Encoding.Unicode.GetBytes. */
  function GetBytes(s: string): (bytes: seq<Byte>)
    ensures |bytes| == 2 * |ToUtf16(s)|
    ensures IsBmp(s) ==> |bytes| == 2 * |s|
    ensures IsBmp(s) ==> forall k :: 0 <= k < |s| ==> bytes[2 * k] as int + 0x100 * bytes[2 * k + 1] as int == s[k] as int
  {
    UnitsToBytesLayout(ToUtf16(s));
    UnitsToBytes(ToUtf16(s))
  }

  /** Encoding.Unicode.GetString on well-formed input; None where .NET
      would substitute U+FFFD. Whatever it decodes re-encodes to the same
      bytes. */
  function GetString(bytes: seq<Byte>): (r: Option<string>)
    ensures r.Some? ==> GetBytes(r.value) == bytes
  {
    match BytesToUnits(bytes)
    case None => None
    case Some(units) =>
      var r := FromUtf16(units);
      if r.Some? then FromUtf16Inverse(units); r else r
  }

  /* ---------------------------------------------------------------------
     Lemmas
     --------------------------------------------------------------------- */

  /** Decoding undoes encoding, one character at a time. */
  lemma FromUtf16OfChar(c: char, rest: seq<CodeUnit>)
    ensures FromUtf16(CharToUnits(c) + rest) ==
      match FromUtf16(rest)
      case Some(t) => Some([c] + t)
      case None => None
  {
  }

  lemma {:induction false} FromUtf16ToUtf16(s: string)
    ensures FromUtf16(ToUtf16(s)) == Some(s)
    decreases |s|
  {
    if |s| > 0 {
      FromUtf16ToUtf16(s[1..]);
      FromUtf16OfChar(s[0], ToUtf16(s[1..]));
      assert [s[0]] + s[1..] == s;
    }
  }

  /** A surrogate pair decodes to the character whose units it is. */
  lemma PairIsChar(hi: CodeUnit, lo: CodeUnit)
    requires IsHighSurrogate(hi) && IsLowSurrogate(lo)
    ensures CharToUnits((0x1_0000 + (hi as int - 0xD800) * 0x400 + (lo as int - 0xDC00)) as char) == [hi, lo]
  {
  }

  /** Encoding one character and then a string t is encoding [c] + t. */
  lemma ToUtf16Cons(c: char, t: string)
    ensures ToUtf16([c] + t) == CharToUnits(c) + ToUtf16(t)
  {
  }

  /** Whatever decodes re-encodes to the same code units. */
  lemma {:induction false} FromUtf16Inverse(units: seq<CodeUnit>)
    requires FromUtf16(units).Some?
    ensures ToUtf16(FromUtf16(units).value) == units
    decreases |units|
  {
    if |units| > 0 {
      if IsHighSurrogate(units[0]) {
        var c := (0x1_0000 + (units[0] as int - 0xD800) * 0x400 + (units[1] as int - 0xDC00)) as char;
        var t := FromUtf16(units[2..]).value;
        assert FromUtf16(units).value == [c] + t;
        FromUtf16Inverse(units[2..]);
        PairIsChar(units[0], units[1]);
        ToUtf16Cons(c, t);
        assert [units[0], units[1]] + units[2..] == units;
      } else {
        var c := units[0] as char;
        var t := FromUtf16(units[1..]).value;
        assert FromUtf16(units).value == [c] + t;
        FromUtf16Inverse(units[1..]);
        ToUtf16Cons(c, t);
        assert [units[0]] + units[1..] == units;
      }
    }
  }

  /** Code unit k occupies bytes 2k (low byte) and 2k + 1 (high byte). */
  lemma {:induction false} UnitsToBytesLayout(units: seq<CodeUnit>)
    ensures forall k :: 0 <= k < |units| ==>
      UnitsToBytes(units)[2 * k] == units[k] % 0x100 && UnitsToBytes(units)[2 * k + 1] == units[k] / 0x100
    decreases |units|
  {
    if |units| > 0 {
      UnitsToBytesLayout(units[1..]);
      forall k | 1 <= k < |units|
        ensures UnitsToBytes(units)[2 * k] == units[k] % 0x100
        ensures UnitsToBytes(units)[2 * k + 1] == units[k] / 0x100
      {
        assert units[1..][k - 1] == units[k];
        assert UnitsToBytes(units)[2 * k] == UnitsToBytes(units[1..])[2 * (k - 1)];
        assert UnitsToBytes(units)[2 * k + 1] == UnitsToBytes(units[1..])[2 * (k - 1) + 1];
      }
    }
  }

  lemma {:induction false} BytesToUnitsOfUnits(units: seq<CodeUnit>)
    ensures BytesToUnits(UnitsToBytes(units)) == Some(units)
    decreases |units|
  {
    if |units| > 0 {
      var head: seq<Byte> := [units[0] % 0x100, units[0] / 0x100];
      var tail := UnitsToBytes(units[1..]);
      assert UnitsToBytes(units) == head + tail;
      assert (head + tail)[2..] == tail;
      BytesToUnitsOfUnits(units[1..]);
      assert [units[0]] + units[1..] == units;
    }
  }

  /** Round trip: GetString(GetBytes(s)) == s for every string. */
  lemma GetStringOfGetBytes(s: string)
    ensures GetString(GetBytes(s)) == Some(s)
  {
    BytesToUnitsOfUnits(ToUtf16(s));
    FromUtf16ToUtf16(s);
  }
}
