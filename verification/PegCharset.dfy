/** Charsets as 32 bytes of bits, and the loop that classifies them (3rd/lpeg/lpcode.c, charsettype). */
module PegCharset {
  import opened PegSyntax
  import opened PegCodegen

  type Bits = s: seq<bv8> | |s| == 32 witness seq(32, _ => 0)

  function Mask(k: nat): bv8
    requires k < 8
  {
    if k == 0 then 1 else if k == 1 then 2 else if k == 2 then 4 else if k == 3 then 8
    else if k == 4 then 16 else if k == 5 then 32 else if k == 6 then 64 else 128
  }

  predicate Bit(b: bv8, k: nat)
    requires k < 8
  {
    b & Mask(k) != 0
  }

  /** testchar */
  predicate Has(cs: Bits, c: Byte) { Bit(cs[c / 8], c % 8) }

  function SetOf(cs: Bits): Charset { set c: Byte | Has(cs, c) }

  lemma InByte(cs: Bits, i: nat, k: nat) returns (c: Byte)
    requires i < 32 && k < 8
    ensures c == 8 * i + k && (c in SetOf(cs) <==> Bit(cs[i], k))
  {
    c := 8 * i + k;
    assert c / 8 == i && c % 8 == k;
  }

  // ---------------------------------------------------------------- bytes

  lemma EmptyByte(k: nat)
    requires k < 8
    ensures !Bit(0, k) && Bit(0xFF, k)
  {
  }

  /** The position of the only bit, as charsettype looks for it. */
  function Position(b: bv8): (k: nat)
    ensures k < 8
  {
    var c4, b4 := if b & 0xF0 != 0 then 4 else 0, if b & 0xF0 != 0 then b >> 4 else b;
    var c2, b2 := if b4 & 0x0C != 0 then 2 else 0, if b4 & 0x0C != 0 then b4 >> 2 else b4;
    c4 + c2 + if b2 & 2 != 0 then 1 else 0
  }

  lemma OneBit(b: bv8, k: nat)
    requires b != 0 && b & (b - 1) == 0 && k < 8
    ensures Bit(b, k) <==> k == Position(b)
  {
  }

  /** A bit that is set, when there is one. */
  function SomeBit(b: bv8): (k: nat)
    ensures k < 8 && (b != 0 ==> Bit(b, k))
  {
    if b & 1 != 0 then 0 else if b & 2 != 0 then 1 else if b & 4 != 0 then 2 else if b & 8 != 0 then 3
    else if b & 16 != 0 then 4 else if b & 32 != 0 then 5 else if b & 64 != 0 then 6 else 7
  }

  lemma LackedBit(b: bv8)
    requires b != 0xFF
    ensures !Bit(b, SomeBit(!b))
  {
  }

  lemma TwoBits(b: bv8)
    requires b & (b - 1) != 0
    ensures SomeBit(b & (b - 1)) != SomeBit(b) && Bit(b, SomeBit(b & (b - 1)))
  {
  }

  // ---------------------------------------------------------------- sets

  lemma NeitherKind(cs: Charset, a: Byte, b: Byte, c: Byte)
    requires a in cs && b in cs && a != b && c !in cs
    ensures Kind(cs) == Other
  {
    if |cs| == 1 { SingletonUnique(cs, a, b); }
  }

  lemma NoBits(cs: Bits)
    requires forall j :: 0 <= j < 32 ==> cs[j] == 0
    ensures Kind(SetOf(cs)) == Empty
  {
    forall c: Byte ensures !Has(cs, c) { EmptyByte(c % 8); }
    assert SetOf(cs) == {};
  }

  lemma AllBits(cs: Bits)
    requires forall j :: 0 <= j < 32 ==> cs[j] == 0xFF
    ensures Kind(SetOf(cs)) == Whole
  {
    forall c: Byte ensures Has(cs, c) { EmptyByte(c % 8); }
    assert SetOf(cs) == Full;
    var a: Byte, b: Byte := 0, 1;
    assert a in Full && b in Full;
    if |SetOf(cs)| == 1 { SingletonUnique(SetOf(cs), a, b); }
  }

  predicate OneBitByte(b: bv8) { b != 0 && b & (b - 1) == 0 }

  lemma OnlyOne(cs: Bits, j: nat)
    requires j < 32 && OneBitByte(cs[j]) && forall i :: 0 <= i < 32 && i != j ==> cs[i] == 0
    ensures 8 * j + Position(cs[j]) < 256 && Kind(SetOf(cs)) == Single(8 * j + Position(cs[j]))
  {
    var only: Byte := 8 * j + Position(cs[j]);
    forall c: Byte ensures Has(cs, c) <==> c == only {
      EmptyByte(c % 8);
      OneBit(cs[j], c % 8);
      assert c == 8 * (c / 8) + c % 8;
    }
    assert SetOf(cs) == {only};
  }

  /** Two bits in different bytes, and a byte that is not full. */
  lemma SpreadOut(cs: Bits, i: nat, j: nat, k: nat)
    requires i < j < 32 && k < 32 && cs[i] != 0 && cs[j] != 0 && cs[k] != 0xFF
    ensures Kind(SetOf(cs)) == Other
  {
    var a := InByte(cs, i, SomeBit(cs[i]));
    var b := InByte(cs, j, SomeBit(cs[j]));
    LackedBit(cs[k]);
    var c := InByte(cs, k, SomeBit(!cs[k]));
    NeitherKind(SetOf(cs), a, b, c);
  }

  /** Two bits in one byte that is not full. */
  lemma TwoInByte(cs: Bits, i: nat)
    requires i < 32 && cs[i] & (cs[i] - 1) != 0 && cs[i] != 0xFF
    ensures Kind(SetOf(cs)) == Other
  {
    TwoBits(cs[i]);
    var a := InByte(cs, i, SomeBit(cs[i]));
    var b := InByte(cs, i, SomeBit(cs[i] & (cs[i] - 1)));
    LackedBit(cs[i]);
    var c := InByte(cs, i, SomeBit(!cs[i]));
    NeitherKind(SetOf(cs), a, b, c);
  }

  /** A full byte and one that is not. */
  lemma FullAndNot(cs: Bits, i: nat, k: nat)
    requires i < 32 && k < 32 && cs[i] == 0xFF && cs[k] != 0xFF
    ensures Kind(SetOf(cs)) == Other
  {
    EmptyByte(0);
    EmptyByte(1);
    var a := InByte(cs, i, 0);
    var b := InByte(cs, i, 1);
    LackedBit(cs[k]);
    var c := InByte(cs, k, SomeBit(!cs[k]));
    NeitherKind(SetOf(cs), a, b, c);
  }

  /** What the count says of the bytes seen: nothing, one bit, or all of them. */
  ghost predicate Seen(cs: Bits, i: nat, count: nat, candidate: int)
    requires i <= 32
  {
    || (count == 0 && forall j :: 0 <= j < i ==> cs[j] == 0)
    || (count == 1 && 0 <= candidate < i && OneBitByte(cs[candidate]) && forall j :: 0 <= j < i && j != candidate ==> cs[j] == 0)
    || (count == 8 * i && i > 0 && forall j :: 0 <= j < i ==> cs[j] == 0xFF)
  }

  /** charsettype */
  method CharsetType(cs: Bits) returns (k: SetKind)
    ensures k == Kind(SetOf(cs))
  {
    hide Kind, SetOf, Position;
    var count, candidate := 0, -1;
    for i := 0 to 32
      invariant Seen(cs, i, count, candidate)
    {
      var b := cs[i];
      if b == 0 {
        if count > 1 {
          FullAndNot(cs, 0, i);
          return Other;
        }
      } else if b == 0xFF {
        if count < 8 * i {
          FullAndNot(cs, i, 0);
          return Other;
        }
        count := count + 8;
      } else if b & (b - 1) == 0 {
        if count > 0 {
          SpreadOut(cs, if count == 1 then candidate else 0, i, i);
          return Other;
        }
        count, candidate := 1, i;
      } else {
        TwoInByte(cs, i);
        return Other;
      }
    }
    if count == 0 {
      NoBits(cs);
      k := Empty;
    } else if count == 1 {
      OnlyOne(cs, candidate);
      k := Single(8 * candidate + Position(cs[candidate]));
    } else {
      assert count == 256;
      AllBits(cs);
      k := Whole;
    }
  }
}
