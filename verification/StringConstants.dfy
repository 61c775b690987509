/** The two tables of string constants that a loader hands to a module. A JavaScript string is a sequence of 16-bit code
    units; UTF-16 is section 2 of RFC 2781. */
module StringConstants {
  import opened Options

  type CodeUnit = c: int | 0 <= c < 0x1_0000
  type JsString = seq<CodeUnit>
  type Scalar = u: int | (0 <= u < 0xD800 || 0xE000 <= u < 0x11_0000) witness 0

  // ----- UTF-16 -----

  predicate High(c: CodeUnit) { 0xD800 <= c <= 0xDBFF }

  predicate Low(c: CodeUnit) { 0xDC00 <= c <= 0xDFFF }

  ghost function EncodeOne(u: Scalar): JsString {
    if u < 0x1_0000 then [u] else [0xD800 + (u - 0x1_0000) / 0x400, 0xDC00 + (u - 0x1_0000) % 0x400]
  }

  ghost function Encode(scalars: seq<Scalar>): JsString {
    if scalars == [] then [] else EncodeOne(scalars[0]) + Encode(scalars[1..])
  }

  ghost function Join(high: CodeUnit, low: CodeUnit): (u: Scalar)
    requires High(high) && Low(low)
    ensures EncodeOne(u) == [high, low]
  {
    0x1_0000 + (high - 0xD800) * 0x400 + (low - 0xDC00)
  }

  ghost function Prepend(u: Scalar, rest: Option<seq<Scalar>>): Option<seq<Scalar>> {
    if rest.Some? then Some([u] + rest.value) else None
  }

  ghost function Decode(s: JsString): Option<seq<Scalar>> {
    if |s| == 0 then Some([])
    else if High(s[0]) then
      if |s| > 1 && Low(s[1]) then Prepend(Join(s[0], s[1]), Decode(s[2..])) else None
    else if Low(s[0]) then None
    else Prepend(s[0], Decode(s[1..]))
  }

  lemma {:induction false} DecodeEncode(scalars: seq<Scalar>)
    ensures Decode(Encode(scalars)) == Some(scalars)
  {
    if scalars != [] {
      var u, rest := scalars[0], scalars[1..];
      DecodeEncode(rest);
      if u < 0x1_0000 {
        assert ([u] + Encode(rest))[1..] == Encode(rest);
      } else {
        var e := EncodeOne(u);
        assert (e + Encode(rest))[2..] == Encode(rest);
        JoinSplit(u);
      }
      assert [u] + rest == scalars;
    }
  }

  lemma JoinSplit(u: Scalar)
    requires u >= 0x1_0000
    ensures High(EncodeOne(u)[0]) && Low(EncodeOne(u)[1]) && Join(EncodeOne(u)[0], EncodeOne(u)[1]) == u
  {}

  lemma {:induction false} EncodeDecode(s: JsString)
    requires Decode(s).Some?
    ensures Encode(Decode(s).value) == s
    decreases |s|
  {
    if s != [] {
      var scalars := Decode(s).value;
      if High(s[0]) {
        EncodeDecode(s[2..]);
        assert scalars[1..] == Decode(s[2..]).value;
        assert s == [s[0], s[1]] + s[2..];
      } else {
        EncodeDecode(s[1..]);
        assert scalars[1..] == Decode(s[1..]).value;
        assert s == [s[0]] + s[1..];
      }
    }
  }

  /** Some sequence of scalar values has s as its encoding. */
  ghost predicate WellFormed(s: JsString) { exists scalars :: Encode(scalars) == s }

  lemma DecodableIsWellFormed(s: JsString)
    ensures Decode(s).Some? <==> WellFormed(s)
  {
    if Decode(s).Some? {
      EncodeDecode(s);
    }
    if WellFormed(s) {
      var scalars :| Encode(scalars) == s;
      DecodeEncode(scalars);
    }
  }

  /** hasLoneSurrogate. */
  method HasLoneSurrogate(s: JsString) returns (lone: bool)
    ensures lone <==> !WellFormed(s)
  {
    DecodableIsWellFormed(s);
    var i := 0;
    assert s[0..] == s;
    while i < |s|
      invariant 0 <= i <= |s|
      invariant Decode(s[i..]).Some? <==> Decode(s).Some?
    {
      var c := s[i];
      assert s[i..][1..] == s[i + 1..];
      if 0xD800 <= c <= 0xDBFF {
        var next := if i + 1 < |s| then s[i + 1] else 0;
        if 0xDC00 <= next <= 0xDFFF {
          assert s[i..][2..] == s[i + 2..];
          i := i + 2;
          continue;
        }
        return true;
      }
      if 0xDC00 <= c <= 0xDFFF {
        return true;
      }
      i := i + 1;
    }
    return false;
  }

  // ----- Hexadecimal keys -----

  function HexDigit(d: int): CodeUnit
    requires 0 <= d < 16
  {
    if d < 10 then 48 + d else 87 + d
  }

  /** toString(16). */
  function ToHex(n: nat): (t: JsString)
    ensures |t| > 0
  {
    if n < 16 then [HexDigit(n)] else ToHex(n / 16) + [HexDigit(n % 16)]
  }

  /** padStart. */
  function PadStart(t: JsString, length: nat, fill: CodeUnit): (r: JsString)
    ensures |r| == if |t| < length then length else |t|
    decreases length - |t|
  {
    if |t| < length then PadStart([fill] + t, length, fill) else t
  }

  ghost function HexValue(c: CodeUnit): int { if c < 58 then c - 48 else c - 87 }

  /** The number written by hexadecimal digits. */
  ghost function Value(t: JsString): int {
    if t == [] then 0 else Value(t[..|t| - 1]) * 16 + HexValue(t[|t| - 1])
  }

  lemma {:induction false} ToHexValue(n: nat)
    ensures Value(ToHex(n)) == n
  {
    if n >= 16 {
      ToHexValue(n / 16);
      assert (ToHex(n / 16) + [HexDigit(n % 16)])[..|ToHex(n / 16)|] == ToHex(n / 16);
    }
  }

  lemma {:induction false} ToHexLength(n: nat, k: nat, limit: nat)
    requires k > 0 && n < limit && limit == Power16(k)
    ensures |ToHex(n)| <= k
    decreases k
  {
    if n >= 16 {
      if k > 1 { ToHexLength(n / 16, k - 1, Power16(k - 1)); }
    }
  }

  ghost function Power16(k: nat): nat { if k == 0 then 1 else 16 * Power16(k - 1) }

  lemma {:induction false} LeadingZero(t: JsString)
    ensures Value([48] + t) == Value(t)
    decreases |t|
  {
    if t == [] {
      assert Value([48]) == Value([]) * 16 + HexValue(48) by { assert [48][..0] == []; }
    } else {
      assert ([48] + t)[..|t|] == [48] + t[..|t| - 1];
      LeadingZero(t[..|t| - 1]);
    }
  }

  lemma {:induction false} PaddedValue(t: JsString, length: nat)
    ensures Value(PadStart(t, length, 48)) == Value(t)
    decreases length - |t|
  {
    if |t| < length {
      PaddedValue([48] + t, length);
      LeadingZero(t);
    }
  }

  function Key(c: CodeUnit): JsString { PadStart(ToHex(c), 4, 48) }

  lemma KeyOfUnit(c: CodeUnit)
    ensures |Key(c)| == 4 && Value(Key(c)) == c
  {
    assert Power16(4) == 0x1_0000;
    ToHexLength(c, 4, 0x1_0000);
    ToHexValue(c);
    PaddedValue(ToHex(c), 4);
  }

  /** The digits of a key: 0 to 9 and a to f, the most significant first. */
  ghost function DigitText(d: nat): CodeUnit
    requires d < 16
  {
    "0123456789abcdef"[d] as int
  }

  lemma DigitTextIs(d: nat)
    requires d < 16
    ensures HexDigit(d) == DigitText(d)
  {}

  lemma PadMore(t: JsString, padded: JsString)
    requires padded == [48] + t
    ensures |t| < 4 ==> PadStart(t, 4, 48) == PadStart(padded, 4, 48)
    ensures |t| == 4 ==> PadStart(t, 4, 48) == t
  {}

  lemma PadFour(t: JsString)
    ensures |t| == 4 ==> PadStart(t, 4, 48) == t
    ensures |t| == 3 ==> PadStart(t, 4, 48) == [48] + t
    ensures |t| == 2 ==> PadStart(t, 4, 48) == [48, 48] + t
    ensures |t| == 1 ==> PadStart(t, 4, 48) == [48, 48, 48] + t
  {
    var a, b, c := [48] + t, [48] + ([48] + t), [48] + ([48] + ([48] + t));
    PadMore(t, a);
    PadMore(a, b);
    PadMore(b, c);
    PadMore(c, [48] + c);
    assert b == [48, 48] + t && c == [48, 48, 48] + t;
  }

  lemma ToHexNext(n: nat, a: nat, x: nat)
    requires n == 16 * a + x && x < 16
    ensures ToHex(n) == if a == 0 then [HexDigit(x)] else ToHex(a) + [HexDigit(x)]
  {
    assert n / 16 == a && n % 16 == x;
  }

  /** The padded digits of 16 (16 (16 d + z) + y) + x. */
  lemma FourDigits(c: nat, a: nat, b: nat, d: nat, x: nat, y: nat, z: nat)
    requires c == 16 * a + x && a == 16 * b + y && b == 16 * d + z && d < 16 && x < 16 && y < 16 && z < 16
    ensures PadStart(ToHex(c), 4, 48) == [HexDigit(d), HexDigit(z), HexDigit(y), HexDigit(x)]
  {
    ToHexNext(c, a, x);
    PadFour(ToHex(c));
    if a > 0 {
      ToHexNext(a, b, y);
      if b > 0 {
        ToHexNext(b, d, z);
        if d > 0 { ToHexNext(d, 0, d); }
      }
    }
  }

  lemma KeyDigits(c: CodeUnit)
    ensures Key(c) == [DigitText(c / 4096), DigitText(c / 256 % 16), DigitText(c / 16 % 16), DigitText(c % 16)]
  {
    var a, b, d := c / 16, c / 256, c / 4096;
    assert a / 16 == b && b / 16 == d;
    FourDigits(c, a, b, d, c % 16, a % 16, b % 16);
    DigitTextIs(d); DigitTextIs(b % 16); DigitTextIs(a % 16); DigitTextIs(c % 16);
  }

  ghost function HexUnits(s: JsString): JsString {
    if s == [] then [] else HexUnits(s[..|s| - 1]) + Key(s[|s| - 1])
  }

  /** Reads four digits at a time. */
  ghost function FromHexUnits(t: JsString): seq<int> {
    if |t| < 4 then [] else FromHexUnits(t[..|t| - 4]) + [Value(t[|t| - 4..])]
  }

  lemma LastUnit(front: JsString, c: CodeUnit)
    ensures HexUnits(front + [c]) == HexUnits(front) + Key(c)
  {
    assert (front + [c])[..|front|] == front;
  }

  /** The keys decode back to the string. */
  lemma {:induction false} HexRoundTrip(s: JsString)
    ensures FromHexUnits(HexUnits(s)) == s && |HexUnits(s)| == 4 * |s|
    decreases |s|
  {
    if s != [] {
      var front, c := s[..|s| - 1], s[|s| - 1];
      assert s == front + [c];
      HexRoundTrip(front);
      LastUnit(front, c);
      KeyOfUnit(c);
      LastKey(HexUnits(front), Key(c));
    }
  }

  lemma LastKey(front: JsString, key: JsString)
    requires |key| == 4
    ensures FromHexUnits(front + key) == FromHexUnits(front) + [Value(key)]
  {
    assert (front + key)[..|front|] == front && (front + key)[|front|..] == key;
  }

  lemma KeysDiffer(s: JsString, t: JsString)
    ensures HexUnits(s) == HexUnits(t) ==> s == t
  {
    HexRoundTrip(s);
    HexRoundTrip(t);
  }

  /** hexCodeUnits. */
  method HexCodeUnits(s: JsString) returns (out: JsString)
    ensures out == HexUnits(s)
  {
    out := [];
    for i := 0 to |s|
      invariant out == HexUnits(s[..i])
    {
      assert s[..i + 1][..i] == s[..i];
      out := out + PadStart(ToHex(s[i]), 4, 48);
    }
    assert s[..|s|] == s;
  }

  // ----- The tables -----

  ghost predicate IsPlainTable(pool: seq<JsString>, table: map<JsString, JsString>) {
    && (forall s :: s in table <==> s in pool && WellFormed(s))
    && (forall s :: s in table ==> table[s] == s)
  }

  ghost predicate IsHexTable(pool: seq<JsString>, table: map<JsString, JsString>) {
    && (forall s :: s in pool && !WellFormed(s) ==> HexUnits(s) in table && table[HexUnits(s)] == s)
    && (forall key :: key in table ==> table[key] in pool && !WellFormed(table[key]) && key == HexUnits(table[key]))
  }

  /** buildStringConstants. */
  method BuildStringConstants(stringPool: seq<JsString>) returns (constants: map<JsString, JsString>)
    ensures IsPlainTable(stringPool, constants)
  {
    constants := map[];
    for i := 0 to |stringPool|
      invariant IsPlainTable(stringPool[..i], constants)
    {
      var s := stringPool[i];
      assert stringPool[..i + 1] == stringPool[..i] + [s];
      var lone := HasLoneSurrogate(s);
      if lone { continue; }
      if s !in constants {
        constants := constants[s := s];
      }
    }
    assert stringPool[..|stringPool|] == stringPool;
  }

  /** buildStringConstants16. */
  method BuildStringConstants16(stringPool: seq<JsString>) returns (constants: map<JsString, JsString>)
    ensures IsHexTable(stringPool, constants)
  {
    constants := map[];
    for i := 0 to |stringPool|
      invariant IsHexTable(stringPool[..i], constants)
    {
      var s := stringPool[i];
      assert stringPool[..i + 1] == stringPool[..i] + [s];
      var lone := HasLoneSurrogate(s);
      if !lone { continue; }
      var key := HexCodeUnits(s);
      if key !in constants {
        AddToHexTable(stringPool[..i], s, constants);
        constants := constants[key := s];
      } else {
        KeysDiffer(s, constants[key]);
      }
    }
    assert stringPool[..|stringPool|] == stringPool;
  }

  lemma AddToHexTable(pool: seq<JsString>, s: JsString, table: map<JsString, JsString>)
    requires IsHexTable(pool, table) && !WellFormed(s) && HexUnits(s) !in table
    ensures IsHexTable(pool + [s], table[HexUnits(s) := s])
  {
    var r := table[HexUnits(s) := s];
    forall t | t in pool + [s] && !WellFormed(t) ensures HexUnits(t) in r && r[HexUnits(t)] == t {
      KeysDiffer(s, t);
    }
  }

  /** Each pool string is the value of exactly one entry of the two tables together, and nothing else is. */
  lemma EachStringHasOneEntry(pool: seq<JsString>, plain: map<JsString, JsString>, hex: map<JsString, JsString>,
      s: JsString)
    requires IsPlainTable(pool, plain) && IsHexTable(pool, hex)
    ensures s in pool <==> (s in plain && plain[s] == s) || (HexUnits(s) in hex && hex[HexUnits(s)] == s)
    ensures !(s in plain && HexUnits(s) in hex && hex[HexUnits(s)] == s)
    ensures forall key :: key in plain && plain[key] == s ==> key == s
    ensures forall key :: key in hex && hex[key] == s ==> key == HexUnits(s)
  {}
}
