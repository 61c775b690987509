/** The bit reader of an inflate loop: bytes are added to a hold register from above and taken from it below. Every
    value stays below 2^16, so that JavaScript's shifts and masks of 32-bit words are multiplication, division and
    remainder. */
module BitReader {
  import opened Bytes

  /** What a code adds to the result. */
  function CodeValue(code: Byte): nat {
    if code < 128 then code else code % 16 + code / 16 % 8
  }

  ghost function Total(codes: seq<Byte>): nat {
    if codes == [] then 0 else Total(codes[..|codes| - 1]) + CodeValue(codes[|codes| - 1])
  }

  /** 1 << bits. */
  function Bit(bits: nat): nat {
    if bits == 0 then 1 else 2 * Bit(bits - 1)
  }

  /** The number whose digits in base 256 are the bytes, the first byte the lowest digit. */
  ghost function Packed(bytes: seq<Byte>): nat {
    if bytes == [] then 0 else bytes[0] + 256 * Packed(bytes[1..])
  }

  lemma {:induction false} PackedAbove(bytes: seq<Byte>, b: Byte)
    ensures Packed(bytes + [b]) == Packed(bytes) + b * Bit(8 * |bytes|)
  {
    if bytes == [] {
      assert bytes + [b] == [b];
      assert Bit(0) == 1;
    } else {
      assert (bytes + [b])[1..] == bytes[1..] + [b];
      PackedAbove(bytes[1..], b);
      EightMoreBits(8 * |bytes[1..]|);
      Regroup(bytes[0], Packed(bytes[1..]), b, Bit(8 * |bytes[1..]|));
    }
  }

  lemma Regroup(first: nat, rest: nat, b: nat, p: nat)
    ensures first + 256 * (rest + b * p) == (first + 256 * rest) + b * (256 * p)
  {}

  lemma EightMoreBits(n: nat)
    ensures Bit(n + 8) == 256 * Bit(n)
  {
    assert Bit(n + 2) == 4 * Bit(n);
    assert Bit(n + 4) == 4 * Bit(n + 2);
    assert Bit(n + 6) == 4 * Bit(n + 4);
  }

  lemma PackedBelow(bytes: seq<Byte>)
    requires bytes != []
    ensures Packed(bytes) % 256 == bytes[0] && Packed(bytes) / 256 == Packed(bytes[1..])
  {}

  lemma FillStep(input: seq<Byte>, from: nat, pos: nat)
    requires from <= pos < |input|
    ensures Packed(input[from..pos + 1]) == Packed(input[from..pos]) + input[pos] * Bit(8 * (pos - from))
  {
    assert input[from..pos + 1] == input[from..pos] + [input[pos]];
    PackedAbove(input[from..pos], input[pos]);
  }

  lemma DrainStep(input: seq<Byte>, from: nat, pos: nat)
    requires from < pos <= |input|
    ensures Packed(input[from..pos]) % 256 == input[from] &&
        Packed(input[from..pos]) / 256 == Packed(input[from + 1..pos])
    ensures input[..from] + [input[from]] == input[..from + 1]
  {
    PackedBelow(input[from..pos]);
    assert input[from..pos][1..] == input[from + 1..pos];
  }

  lemma TotalNext(codes: seq<Byte>, code: Byte)
    ensures Total(codes + [code]) == Total(codes) + CodeValue(code)
  {
    assert (codes + [code])[..|codes|] == codes;
  }

  lemma Sixteens(c: nat, q: nat, r: nat)
    requires c == 16 * q + r && r < 16
    ensures c / 16 == q && c % 16 == r
  {}

  lemma Eights(q: nat, h: nat)
    requires q == 8 + h && h < 8
    ensures q % 8 == h
  {}

  /** What one more code adds: a code below 128 itself; of a code 128 + 16 h + l its low four bits l and the three bits
      h above them, the highest bit aside. */
  lemma OneMoreCode(codes: seq<Byte>, code: Byte, h: nat, l: nat)
    ensures code < 128 ==> Total(codes + [code]) == Total(codes) + code
    ensures h < 8 && l < 16 && code == 128 + 16 * h + l ==> Total(codes + [code]) == Total(codes) + h + l
  {
    TotalNext(codes, code);
    if h < 8 && l < 16 && code == 128 + 16 * h + l {
      Sixteens(code, 8 + h, l);
      Eights(8 + h, h);
    }
  }

  /** jsInflateBitsRun on any bytes: the codes read are the bytes put in, in order. */
  method RunInflateBits(input: seq<Byte>) returns (result: nat, ghost codes: seq<Byte>)
    ensures codes == input
    ensures result == Total(input)
  {
    var hold, bits, pos := 0, 0, 0;
    result, codes := 0, [];
    while pos < |input|
      invariant pos <= |input| && bits == 0 && hold == 0
      invariant codes == input[..pos] && result == Total(codes)
    {
      while bits < 16 && pos < |input|
        invariant |codes| <= pos <= |input| && bits == 8 * (pos - |codes|) && bits <= 16
        invariant hold == Packed(input[|codes|..pos])
        invariant codes == input[..|codes|] && result == Total(codes)
        invariant pos < |input| || |codes| < pos
      {
        FillStep(input, |codes|, pos);
        hold := hold + input[pos] * Bit(bits);
        pos := pos + 1;
        bits := bits + 8;
      }
      while bits >= 8
        invariant |codes| <= pos <= |input| && bits == 8 * (pos - |codes|) && bits <= 16
        invariant hold == Packed(input[|codes|..pos])
        invariant codes == input[..|codes|] && result == Total(codes)
        decreases bits
      {
        DrainStep(input, |codes|, pos);
        var code := hold % 256;
        hold := hold / 256;
        bits := bits - 8;
        TotalNext(codes, code);
        codes := codes + [code];
        if code < 128 {
          result := result + code;
        } else {
          result := result + code % 16 + code / 16 % 8;
        }
      }
    }
  }
}
