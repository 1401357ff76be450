/**
  DES as lua-crypt.c runs it: the block cipher over given S-boxes and a given key schedule, and
  the text functions with their padding.
*/
module Des {
  import opened Division

  type Byte = bv8

  /** A block's halves as the two words of the cipher. */
  datatype Halves = Halves(x: bv32, y: bv32)

  type SubKeys = s: seq<bv32> | |s| == 32 witness seq(32, _ => 0)

  /** The fixed tables: S-boxes by number and index, and the key schedule. */
  datatype Tables = Tables(sb: (int, bv32) -> bv32, schedule: seq<Byte> -> SubKeys)

  // ---------------------------------------------------------------- words

  /** GET_UINT32 */
  function GetWord(b: seq<Byte>): bv32
    requires |b| == 4
  {
    (b[0] as bv32 << 24) | (b[1] as bv32 << 16) | (b[2] as bv32 << 8) | (b[3] as bv32)
  }

  /** PUT_UINT32 */
  function PutWord(n: bv32): (b: seq<Byte>)
    ensures |b| == 4
  {
    [((n >> 24) & 0xff) as Byte, ((n >> 16) & 0xff) as Byte, ((n >> 8) & 0xff) as Byte, (n & 0xff) as Byte]
  }

  lemma WordRoundTrip(n: bv32)
    ensures GetWord(PutWord(n)) == n
  {
  }

  lemma BytesRoundTrip(b: seq<Byte>)
    requires |b| == 4
    ensures PutWord(GetWord(b)) == b
  {
  }

  // ---------------------------------------------------------------- the permutations

  // The bits under the mask in b change places with those of a that are so many places further up.

  function Trade4(a: bv32, b: bv32): Halves {
    var t := ((a >> 4) ^ b) & 0x0F0F0F0F;
    Halves(a ^ (t << 4), b ^ t)
  }

  function Trade16(a: bv32, b: bv32): Halves {
    var t := ((a >> 16) ^ b) & 0x0000FFFF;
    Halves(a ^ (t << 16), b ^ t)
  }

  function Trade2(a: bv32, b: bv32): Halves {
    var t := ((a >> 2) ^ b) & 0x33333333;
    Halves(a ^ (t << 2), b ^ t)
  }

  function Trade8(a: bv32, b: bv32): Halves {
    var t := ((a >> 8) ^ b) & 0x00FF00FF;
    Halves(a ^ (t << 8), b ^ t)
  }

  function Trade0(a: bv32, b: bv32): Halves {
    var t := (a ^ b) & 0xAAAAAAAA;
    Halves(a ^ t, b ^ t)
  }

  function RotateLeft(w: bv32): bv32 { (w << 1) | (w >> 31) }

  function RotateRight(w: bv32): bv32 { (w << 31) | (w >> 1) }

  /** DES_IP */
  function Initial(h: Halves): Halves {
    var h1 := Trade4(h.x, h.y);
    var h2 := Trade16(h1.x, h1.y);
    var h3 := Trade2(h2.y, h2.x);
    var h4 := Trade8(h3.x, h3.y);
    var y := RotateLeft(h4.x);
    var h5 := Trade0(h4.y, y);
    Halves(RotateLeft(h5.x), h5.y)
  }

  /** DES_FP */
  function Final(h: Halves): Halves {
    var x := RotateRight(h.x);
    var h1 := Trade0(x, h.y);
    var y := RotateRight(h1.y);
    var h2 := Trade8(y, h1.x);
    var h3 := Trade2(h2.x, h2.y);
    var h4 := Trade16(h3.y, h3.x);
    Trade4(h4.x, h4.y)
  }

  // Each trade undoes itself.

  lemma Trade4Twice(a: bv32, b: bv32)
    ensures var h := Trade4(a, b); Trade4(h.x, h.y) == Halves(a, b)
  {
  }

  lemma Trade16Twice(a: bv32, b: bv32)
    ensures var h := Trade16(a, b); Trade16(h.x, h.y) == Halves(a, b)
  {
  }

  lemma Trade2Twice(a: bv32, b: bv32)
    ensures var h := Trade2(a, b); Trade2(h.x, h.y) == Halves(a, b)
  {
  }

  lemma Trade8Twice(a: bv32, b: bv32)
    ensures var h := Trade8(a, b); Trade8(h.x, h.y) == Halves(a, b)
  {
  }

  lemma Trade0Twice(a: bv32, b: bv32)
    ensures var h := Trade0(a, b); Trade0(h.x, h.y) == Halves(a, b)
  {
  }

  lemma Rotations(w: bv32)
    ensures RotateRight(RotateLeft(w)) == w == RotateLeft(RotateRight(w))
  {
  }

  /** DES_FP undoes DES_IP, and the other way round. */
  lemma PermutationsInverse(h: Halves)
    ensures Final(Initial(h)) == h
    ensures Initial(Final(h)) == h
  {
    hide Trade4, Trade16, Trade2, Trade8, Trade0, RotateLeft, RotateRight;
    InitialThenFinal(h);
    FinalThenInitial(h);
  }

  lemma InitialThenFinal(h: Halves)
    ensures Final(Initial(h)) == h
  {
    hide Trade4, Trade16, Trade2, Trade8, Trade0, RotateLeft, RotateRight;
    var h1 := Trade4(h.x, h.y);
    var h2 := Trade16(h1.x, h1.y);
    var h3 := Trade2(h2.y, h2.x);
    var h4 := Trade8(h3.x, h3.y);
    var h5 := Trade0(h4.y, RotateLeft(h4.x));
    Rotations(h5.x);
    Trade0Twice(h4.y, RotateLeft(h4.x));
    Rotations(h4.x);
    Trade8Twice(h3.x, h3.y);
    Trade2Twice(h2.y, h2.x);
    Trade16Twice(h1.x, h1.y);
    Trade4Twice(h.x, h.y);
  }

  lemma FinalThenInitial(h: Halves)
    ensures Initial(Final(h)) == h
  {
    hide Trade4, Trade16, Trade2, Trade8, Trade0, RotateLeft, RotateRight;
    var x := RotateRight(h.x);
    var h1 := Trade0(x, h.y);
    var y := RotateRight(h1.y);
    var h2 := Trade8(y, h1.x);
    var h3 := Trade2(h2.x, h2.y);
    var h4 := Trade16(h3.y, h3.x);
    Trade4Twice(h4.x, h4.y);
    Trade16Twice(h3.y, h3.x);
    Trade2Twice(h2.x, h2.y);
    Trade8Twice(y, h1.x);
    Rotations(h1.y);
    Trade0Twice(x, h.y);
    Rotations(h.x);
  }

  // ---------------------------------------------------------------- the standard's permutation

  /** The lowest bit of every byte of the block, from the last byte to the first. */
  function Gather(x: bv32, y: bv32): bv32 {
    ((y & 1) << 7) | ((y & 0x100) >> 2) | ((y & 0x1_0000) >> 11) | ((y & 0x100_0000) >> 20)
    | ((x & 1) << 3) | ((x & 0x100) >> 6) | ((x & 0x1_0000) >> 15) | ((x & 0x100_0000) >> 24)
  }

  /** The table IP of FIPS PUB 46-3: the even bits of each byte go to the left half, the odd ones to the right. */
  function StandardInitial(h: Halves): Halves {
    Halves(
      (Gather(h.x >> 6, h.y >> 6) << 24) | (Gather(h.x >> 4, h.y >> 4) << 16) | (Gather(h.x >> 2, h.y >> 2) << 8) | Gather(h.x, h.y),
      (Gather(h.x >> 7, h.y >> 7) << 24) | (Gather(h.x >> 5, h.y >> 5) << 16) | (Gather(h.x >> 3, h.y >> 3) << 8) | Gather(h.x >> 1, h.y >> 1))
  }

  /** DES_IP is that table, with each half turned left by one bit. */
  lemma InitialIsStandard(h: Halves)
    ensures Initial(h) == Halves(RotateLeft(StandardInitial(h).x), RotateLeft(StandardInitial(h).y))
  {
  }

  // ---------------------------------------------------------------- the rounds

  /** What DES_ROUND adds to one half, from the other half and two subkeys. */
  function Mix(t: Tables, k1: bv32, k2: bv32, x: bv32): bv32 {
    var u := k1 ^ x;
    var v := k2 ^ ((x << 28) | (x >> 4));
    t.sb(8, u & 0x3F) ^ t.sb(6, (u >> 8) & 0x3F) ^ t.sb(4, (u >> 16) & 0x3F) ^ t.sb(2, (u >> 24) & 0x3F)
    ^ t.sb(7, v & 0x3F) ^ t.sb(5, (v >> 8) & 0x3F) ^ t.sb(3, (v >> 16) & 0x3F) ^ t.sb(1, (v >> 24) & 0x3F)
  }

  function Added(half: bv32, mix: bv32): bv32 { half ^ mix }

  /** DES_ROUND(Y, X) and then DES_ROUND(X, Y), with four subkeys. */
  function TwoRounds(t: Tables, k: seq<bv32>, h: Halves): Halves
    requires |k| == 4
  {
    var x := Added(h.x, Mix(t, k[0], k[1], h.y));
    var y := Added(h.y, Mix(t, k[2], k[3], x));
    Halves(x, y)
  }

  function Rounds(t: Tables, sk: seq<bv32>, h: Halves): Halves
    requires |sk| % 4 == 0
  {
    if sk == [] then h else Rounds(t, sk[4..], TwoRounds(t, sk[..4], h))
  }

  function Swap(h: Halves): Halves { Halves(h.y, h.x) }

  function Mate(n: nat, i: nat): (m: nat)
    requires n % 4 == 0 && i < n
    ensures m < n
  {
    if i % 2 == 0 then n - 2 - i else n - i
  }

  lemma MateTwice(n: nat, i: nat)
    requires n % 4 == 0 && i < n
    ensures Mate(n, Mate(n, i)) == i
  {
    var k, q := n / 4, i / 2;
    DivExact(2 * k - q - 1, 2, i % 2);
  }

  lemma SameParity(i: nat, b: nat)
    requires b % 4 == 0
    ensures (i - b) % 2 == i % 2
  {
    DivExact(i / 2 - 2 * (b / 4), 2, i % 2);
  }

  lemma MateOfJoin(a: nat, b: nat, i: nat)
    requires a % 4 == 0 && b % 4 == 0 && i < a + b
    ensures Mate(a + b, i) == if i < b then a + Mate(b, i) else Mate(a, i - b)
  {
    if i >= b { SameParity(i, b); }
  }

  /** The subkeys in the order of ldesdecode: the pairs from the last to the first. */
  function Reversed(sk: seq<bv32>): (r: seq<bv32>)
    requires |sk| % 4 == 0
    ensures |r| == |sk|
  {
    seq(|sk|, i requires 0 <= i < |sk| => sk[Mate(|sk|, i)])
  }

  lemma ReversedJoin(a: seq<bv32>, b: seq<bv32>)
    requires |a| % 4 == 0 && |b| % 4 == 0
    ensures Reversed(a + b) == Reversed(b) + Reversed(a)
  {
    hide Mate;
    forall i | 0 <= i < |a| + |b| ensures Reversed(a + b)[i] == (Reversed(b) + Reversed(a))[i] {
      MateOfJoin(|a|, |b|, i);
    }
  }

  lemma ReversedFour(k: seq<bv32>)
    requires |k| == 4
    ensures Reversed(k) == [k[2], k[3], k[0], k[1]]
  {
  }

  lemma ReversedTwice(sk: seq<bv32>)
    requires |sk| % 4 == 0
    ensures Reversed(Reversed(sk)) == sk
  {
    hide Mate;
    forall i | 0 <= i < |sk| ensures Reversed(Reversed(sk))[i] == sk[i] {
      MateTwice(|sk|, i);
    }
  }

  lemma AddedTwice(a: bv32, b: bv32)
    ensures Added(Added(a, b), b) == a
  {
  }

  lemma {:induction false} RoundsJoin(t: Tables, a: seq<bv32>, b: seq<bv32>, h: Halves)
    requires |a| % 4 == 0 && |b| % 4 == 0
    ensures Rounds(t, a + b, h) == Rounds(t, b, Rounds(t, a, h))
  {
    hide TwoRounds;
    if a == [] {
      assert a + b == b;
    } else {
      assert (a + b)[4..] == a[4..] + b && (a + b)[..4] == a[..4];
      RoundsJoin(t, a[4..], b, TwoRounds(t, a[..4], h));
    }
  }

  /** Two rounds, undone on the swapped halves. */
  lemma TwoRoundsBack(t: Tables, k: seq<bv32>, h: Halves)
    requires |k| == 4
    ensures TwoRounds(t, [k[2], k[3], k[0], k[1]], Swap(TwoRounds(t, k, h))) == Swap(h)
  {
    hide Mix, Added;
    var x := Added(h.x, Mix(t, k[0], k[1], h.y));
    AddedTwice(h.y, Mix(t, k[2], k[3], x));
    AddedTwice(h.x, Mix(t, k[0], k[1], h.y));
  }

  lemma OneTurn(t: Tables, k: seq<bv32>, h: Halves)
    requires |k| == 4
    ensures Rounds(t, k, h) == TwoRounds(t, k, h)
  {
    hide TwoRounds;
    assert k[..4] == k && k[4..] == [];
  }

  /** The deciphering rule of FIPS PUB 46-3: the subkeys in reverse order undo the rounds. */
  lemma {:induction false} RoundsBack(t: Tables, sk: seq<bv32>, h: Halves)
    requires |sk| % 4 == 0
    ensures Rounds(t, Reversed(sk), Swap(Rounds(t, sk, h))) == Swap(h)
  {
    if sk != [] {
      hide TwoRounds, Rounds, Reversed;
      var head, rest := sk[..4], sk[4..];
      assert sk == head + rest;
      RoundsBack(t, rest, TwoRounds(t, head, h));
      ReversedJoin(head, rest);
      ReversedFour(head);
      FirstTwoBack(t, head, rest, Reversed(rest), h);
    }
  }

  /** What is known of the later rounds carries over to all of them. */
  lemma FirstTwoBack(t: Tables, k: seq<bv32>, rest: seq<bv32>, back: seq<bv32>, h: Halves)
    requires |k| == 4 && |rest| % 4 == 0 && |back| % 4 == 0
    requires var mid := TwoRounds(t, k, h); Rounds(t, back, Swap(Rounds(t, rest, mid))) == Swap(mid)
    ensures Rounds(t, back + [k[2], k[3], k[0], k[1]], Swap(Rounds(t, k + rest, h))) == Swap(h)
  {
    hide TwoRounds, Rounds, Swap;
    var mid, four := TwoRounds(t, k, h), [k[2], k[3], k[0], k[1]];
    OneTurn(t, k, h);
    RoundsJoin(t, k, rest, h);
    RoundsJoin(t, back, four, Swap(Rounds(t, rest, mid)));
    OneTurn(t, four, Swap(mid));
    TwoRoundsBack(t, k, h);
  }

  // ---------------------------------------------------------------- one block

  /** des_crypt */
  function Crypt(t: Tables, sk: SubKeys, b: seq<Byte>): (c: seq<Byte>)
    requires |b| == 8
    ensures |c| == 8
  {
    var h := Rounds(t, sk, Initial(Halves(GetWord(b[..4]), GetWord(b[4..]))));
    var f := Final(Swap(h));
    PutWord(f.x) + PutWord(f.y)
  }

  /** With the subkeys turned round, des_crypt undoes itself. */
  lemma CryptBack(t: Tables, sk: SubKeys, b: seq<Byte>)
    requires |b| == 8
    ensures Crypt(t, Reversed(sk), Crypt(t, sk, b)) == b
  {
    hide Rounds, Initial, Final, GetWord, PutWord, Reversed;
    var i := Halves(GetWord(b[..4]), GetWord(b[4..]));
    var h := Rounds(t, sk, Initial(i));
    var f := Final(Swap(h));
    var c := PutWord(f.x) + PutWord(f.y);
    assert c[..4] == PutWord(f.x) && c[4..] == PutWord(f.y);
    WordRoundTrip(f.x);
    WordRoundTrip(f.y);
    PermutationsInverse(Swap(h));
    RoundsBack(t, sk, Initial(i));
    PermutationsInverse(i);
    BytesRoundTrip(b[..4]);
    BytesRoundTrip(b[4..]);
    assert b == b[..4] + b[4..];
  }

  // ---------------------------------------------------------------- texts

  function CryptAll(t: Tables, sk: SubKeys, s: seq<Byte>): (c: seq<Byte>)
    requires |s| % 8 == 0
    ensures |c| == |s|
  {
    if s == [] then [] else Crypt(t, sk, s[..8]) + CryptAll(t, sk, s[8..])
  }

  lemma {:induction false} CryptAllBack(t: Tables, sk: SubKeys, s: seq<Byte>)
    requires |s| % 8 == 0
    ensures CryptAll(t, Reversed(sk), CryptAll(t, sk, s)) == s
  {
    if s != [] {
      hide Crypt, Reversed;
      var a, b := Crypt(t, sk, s[..8]), CryptAll(t, sk, s[8..]);
      assert (a + b)[..8] == a && (a + b)[8..] == b;
      CryptBack(t, sk, s[..8]);
      CryptAllBack(t, sk, s[8..]);
    }
  }

  lemma {:induction false} CryptOneMore(t: Tables, sk: SubKeys, s: seq<Byte>, b: seq<Byte>)
    requires |s| % 8 == 0 && |b| == 8
    ensures CryptAll(t, sk, s + b) == CryptAll(t, sk, s) + Crypt(t, sk, b)
  {
    hide Crypt;
    if s == [] {
      assert s + b == b && b[..8] == b && b[8..] == [];
    } else {
      assert (s + b)[..8] == s[..8] && (s + b)[8..] == s[8..] + b;
      CryptOneMore(t, sk, s[8..], b);
      assert Crypt(t, sk, s[..8]) + (CryptAll(t, sk, s[8..]) + Crypt(t, sk, b)) == CryptAll(t, sk, s) + Crypt(t, sk, b);
    }
  }

  function Zeros(n: nat): (z: seq<Byte>)
    ensures |z| == n
  {
    seq(n, _ => 0)
  }

  /** One marked byte and then zeros, up to the end of a block. */
  function Padded(text: seq<Byte>): (p: seq<Byte>)
    ensures |p| % 8 == 0 && |p| == |text| + 8 - |text| % 8
  {
    text + [0x80] + Zeros(7 - |text| % 8)
  }

  /** The end of p is n bytes of padding. */
  predicate EndsWith(p: seq<Byte>, n: nat)
    requires n <= |p|
  {
    n > 0 && p[|p| - n] == 0x80 && forall i :: |p| - n < i < |p| ==> p[i] == 0
  }

  lemma PaddedEnds(text: seq<Byte>, n: nat)
    requires n <= |Padded(text)|
    ensures EndsWith(Padded(text), n) <==> n == 8 - |text| % 8
  {
    var p := Padded(text);
    var k := 8 - |text| % 8;
    assert p[|p| - k] == 0x80;
    assert forall i :: |p| - k < i < |p| ==> p[i] == 0;
    if n > k && EndsWith(p, n) { assert false; }
    if 0 < n < k { assert p[|p| - n] == 0; }
  }

  lemma EndsPadded(p: seq<Byte>, n: nat)
    requires |p| % 8 == 0 && n <= 8 && n <= |p| && EndsWith(p, n)
    ensures Padded(p[..|p| - n]) == p
  {
    var text := p[..|p| - n];
    assert |text| % 8 == if n == 8 then 0 else 8 - n;
  }

  datatype Option<T> = None | Some(value: T)

  /** What decoding comes to; the last is a look at the byte before the buffer. */
  datatype Decoded = Plain(text: seq<Byte>) | Invalid | BeforeBuffer

  ghost predicate IsEncoding(t: Tables, key: seq<Byte>, text: seq<Byte>, s: seq<Byte>) {
    s == CryptAll(t, t.schedule(key), Padded(text))
  }

  /** ldesencode */
  method DesEncode(t: Tables, key: seq<Byte>, text: seq<Byte>) returns (r: Option<seq<Byte>>)
    ensures r.None? <==> |key| != 8
    ensures r.Some? ==> IsEncoding(t, key, text, r.value) && |r.value| == |text| + 8 - |text| % 8
  {
    hide Crypt;
    if |key| != 8 { return None; }
    var sk := t.schedule(key);
    var textsz := |text|;
    var chunksz := (textsz + 8) - (textsz + 8) % 8;
    var buffer := new Byte[chunksz](_ => 0);
    var i := 0;
    while i < textsz - 7
      invariant i % 8 == 0 && 0 <= i <= textsz
      invariant buffer[..i] == CryptAll(t, sk, text[..i])
    {
      PutBlock(t, sk, text[i..i + 8], buffer, i, text[..i]);
      assert text[..i + 8] == text[..i] + text[i..i + 8];
      i := i + 8;
    }
    var tail := Tail(text, i);
    PutBlock(t, sk, tail, buffer, i, text[..i]);
    assert buffer[..] == buffer[..i + 8];
    r := Some(buffer[..]);
  }

  /** The last block: the rest of the text and the padding. */
  method Tail(text: seq<Byte>, i: nat) returns (r: seq<Byte>)
    requires i <= |text| < i + 8 && i % 8 == 0
    ensures |r| == 8 && Padded(text) == text[..i] + r
  {
    var bytes := |text| - i;
    var tail := new Byte[8](_ => 0);
    for j := 0 to 8
      invariant forall k :: 0 <= k < j ==> tail[k] == if k < bytes then text[i + k] else if k == bytes then 0x80 else 0
    {
      tail[j] := if j < bytes then text[i + j] else if j == bytes then 0x80 else 0;
    }
    r := tail[..];
  }

  /** des_crypt into the buffer. */
  method PutBlock(t: Tables, sk: SubKeys, b: seq<Byte>, buffer: array<Byte>, i: nat, ghost before: seq<Byte>)
    requires |b| == 8 && i + 8 <= buffer.Length && |before| == i && i % 8 == 0
    requires buffer[..i] == CryptAll(t, sk, before)
    modifies buffer
    ensures buffer[..i + 8] == CryptAll(t, sk, before + b)
  {
    hide Crypt, CryptAll;
    ghost var was := buffer[..i];
    var c := Crypt(t, sk, b);
    for j := 0 to 8
      invariant buffer[..i] == was
      invariant forall k :: 0 <= k < j ==> buffer[i + k] == c[k]
    {
      buffer[i + j] := c[j];
    }
    assert buffer[..i + 8] == was + c;
    CryptOneMore(t, sk, before, b);
  }

  /** The reversal in ldesdecode. */
  method Reverse(esk: SubKeys) returns (sk: SubKeys)
    ensures sk == Reversed(esk)
  {
    var a := new bv32[32](_ => 0);
    var i := 0;
    while i < 32
      invariant i % 2 == 0 && 0 <= i <= 32
      invariant forall k :: 0 <= k < i ==> a[k] == Reversed(esk)[k]
    {
      a[i] := esk[30 - i];
      a[i + 1] := esk[31 - i];
      i := i + 2;
    }
    sk := a[..];
  }

  /** The comparison of a C int with a size: a negative number reads as a very large one. */
  function AsSize(i: int): int { if i < 0 then i + 0x1_0000_0000_0000_0000 else i }

  /** Where padding can begin, when everything behind p[i] is zero. */
  lemma PaddingNotBehind(p: seq<Byte>, i: nat, n: nat)
    requires i < |p| && n <= |p| && forall k :: i < k < |p| ==> p[k] == 0
    ensures EndsWith(p, n) && p[i] != 0 ==> p[i] == 0x80 && n == |p| - i
    ensures EndsWith(p, n) && p[i] == 0 ==> n > |p| - i
  {
  }

  /** The padding loop of ldesdecode, over the last block. */
  method FindPadding(p: seq<Byte>) returns (r: Decoded)
    requires |p| % 8 == 0 && |p| >= 8
    ensures r.Plain? <==> exists n: nat :: n <= 8 && EndsWith(p, n)
    ensures r.Plain? ==> |p| - 8 <= |r.text| < |p| && r.text == p[..|r.text|] && EndsWith(p, |p| - |r.text|)
    ensures r.BeforeBuffer? <==> p == Zeros(8)
  {
    var padding := 1;
    var i := |p| - 1;
    while AsSize(i) >= |p| - 8
      invariant -1 <= i < |p| && i >= |p| - 9 && padding == |p| - i
      invariant forall k :: i < k < |p| ==> p[k] == 0
      decreases i
    {
      if i < 0 {
        assert p == Zeros(8);
        return BeforeBuffer;
      }
      forall n: nat | n <= 8 ensures EndsWith(p, n) && p[i] != 0 ==> p[i] == 0x80 && n == |p| - i {
        PaddingNotBehind(p, i, n);
      }
      if p[i] == 0 {
        padding := padding + 1;
      } else if p[i] == 0x80 {
        break;
      } else {
        return Invalid;
      }
      i := i - 1;
    }
    if padding > 8 {
      forall n: nat | n <= 8 ensures !EndsWith(p, n) {
        if n > 0 { assert p[|p| - n] == 0; }
      }
      return Invalid;
    }
    assert EndsWith(p, padding);
    r := Plain(p[..|p| - padding]);
  }

  /** ldesdecode: it gives back a text exactly for the encoding of that text. */
  method DesDecode(t: Tables, key: seq<Byte>, s: seq<Byte>) returns (r: Decoded)
    ensures |key| != 8 ==> r == Invalid
    ensures |key| == 8 && r.Plain? ==> IsEncoding(t, key, r.text, s)
    ensures |key| == 8 ==> forall text :: IsEncoding(t, key, text, s) ==> r == Plain(text)
    ensures |key| == 8 ==> (r.BeforeBuffer? <==> s == CryptAll(t, t.schedule(key), Zeros(8)))
  {
    hide Crypt, CryptAll, Reversed, EndsWith;
    if |key| != 8 { return Invalid; }
    ghost var k := t.schedule(key);
    var sk := Reverse(t.schedule(key));
    if |s| % 8 != 0 || |s| == 0 { return Invalid; }
    var buffer := new Byte[|s|](_ => 0);
    CryptNothing(t, sk, s, buffer[..0]);
    var i := 0;
    while i < |s|
      invariant i % 8 == 0 && 0 <= i <= |s|
      invariant buffer[..i] == CryptAll(t, sk, s[..i])
    {
      PutBlock(t, sk, s[i..i + 8], buffer, i, s[..i]);
      assert s[..i + 8] == s[..i] + s[i..i + 8];
      i := i + 8;
    }
    ghost var p := buffer[..];
    assert s[..i] == s && buffer[..i] == p;
    Deciphered(t, k, s, p);
    r := FindPadding(buffer[..]);
    if r.Plain? { EndsPadded(p, |p| - |r.text|); }
    forall text | IsEncoding(t, key, text, s) ensures r == Plain(text) {
      CryptAllBack(t, k, Padded(text));
      OnlyText(p, text, r);
    }
  }

  lemma CryptNothing(t: Tables, sk: SubKeys, s: seq<Byte>, b: seq<Byte>)
    requires b == []
    ensures b == CryptAll(t, sk, s[..0])
  {
  }

  /** The deciphered blocks are those that were enciphered. */
  lemma Deciphered(t: Tables, k: SubKeys, s: seq<Byte>, p: seq<Byte>)
    requires |s| % 8 == 0 && p == CryptAll(t, Reversed(k), s)
    ensures CryptAll(t, k, p) == s
    ensures s == CryptAll(t, k, Zeros(8)) <==> p == Zeros(8)
  {
    hide Crypt, CryptAll, Reversed;
    ReversedTwice(k);
    CryptAllBack(t, Reversed(k), s);
    CryptAllBack(t, k, Zeros(8));
  }

  /** A padded text is found again, as nothing else could be read from its end. */
  lemma OnlyText(p: seq<Byte>, text: seq<Byte>, r: Decoded)
    requires p == Padded(text)
    requires r.Plain? <==> exists n: nat :: n <= 8 && n <= |p| && EndsWith(p, n)
    requires r.Plain? ==> |p| - 8 <= |r.text| < |p| && r.text == p[..|r.text|] && EndsWith(p, |p| - |r.text|)
    ensures r == Plain(text)
  {
    hide EndsWith;
    var n := 8 - |text| % 8;
    PaddedEnds(text, n);
    if r.Plain? { PaddedEnds(text, |p| - |r.text|); }
    assert p[..|text|] == text;
  }

  /** Decoding gives back every text, whatever the tables. */
  method EncodeThenDecode(t: Tables, key: seq<Byte>, text: seq<Byte>) returns (r: Decoded)
    requires |key| == 8
    ensures r == Plain(text)
  {
    hide IsEncoding;
    var c := DesEncode(t, key, text);
    r := DesDecode(t, key, c.value);
  }
}
