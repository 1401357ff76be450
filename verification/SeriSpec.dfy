/**
 * The byte format of the value serialiser (lualib-src/lua-seri.c) and its round trip. Words are
 * little-endian and pointers have eight bytes, as on the machines that pack and unpack alike.
 */
module SeriSpec {
  import opened Words

  const TYPE_NIL: int := 0
  const TYPE_BOOLEAN: int := 1
  const TYPE_NUMBER: int := 2
  const TYPE_USERDATA: int := 3
  const TYPE_SHORT_STRING: int := 4
  const TYPE_LONG_STRING: int := 5
  const TYPE_TABLE: int := 6

  const NUMBER_ZERO: int := 0
  const NUMBER_BYTE: int := 1
  const NUMBER_WORD: int := 2
  const NUMBER_DWORD: int := 4
  const NUMBER_QWORD: int := 6
  const NUMBER_REAL: int := 8

  const MAX_COOKIE: int := 32
  const MAX_DEPTH: nat := 32

  const HALF32: int := 0x8000_0000
  const HALF64: int := 0x8000_0000_0000_0000

  /**
   * A Lua value. Reals and pointers are their eight bytes. A table is its array part, holes and
   * all, and the pairs of its hash part in the order of traversal.
   */
  datatype Value =
    | Nil
    | Bool(b: bool)
    | Int(i: int)
    | Real(bits: seq<Byte>)
    | Pointer(bits: seq<Byte>)
    | Str(s: seq<Byte>)
    | Table(arr: seq<Value>, hash: seq<Pair>)

  datatype Pair = Pair(k: Value, v: Value)

  /** Values as Lua has them: 64-bit integers, no nil keys, sizes that fit in an int. */
  predicate IsValue(v: Value)
    decreases v
  {
    match v
    case Int(i) => -HALF64 <= i < HALF64
    case Real(bits) => |bits| == 8
    case Pointer(bits) => |bits| == 8
    case Str(s) => |s| < HALF32
    case Table(arr, hash) =>
      && |arr| < HALF32
      && (forall i :: 0 <= i < |arr| ==> IsValue(arr[i]))
      && (forall i :: 0 <= i < |hash| ==> !hash[i].k.Nil? && IsValue(hash[i].k) && IsValue(hash[i].v))
    case _ => true
  }

  /** pack_one accepts what it is given at depth d: tables are nested at most MAX_DEPTH deep. */
  predicate Fits(v: Value, d: nat)
    decreases v
  {
    && d <= MAX_DEPTH
    && (v.Table? ==>
      && (forall i :: 0 <= i < |v.arr| ==> Fits(v.arr[i], d + 1))
      && (forall i :: 0 <= i < |v.hash| ==> Fits(v.hash[i].k, d + 1) && Fits(v.hash[i].v, d + 1)))
  }

  // ---------------------------------------------------------------- words

  /** Two's complement. */
  function Unsigned(i: int, wrap: int): int { if i < 0 then i + wrap else i }

  function Signed(n: int, wrap: int): int { if n >= wrap / 2 then n - wrap else n }

  // ---------------------------------------------------------------- packing

  function Tag(t: int, cookie: int): Byte
    requires 0 <= t < 8 && 0 <= cookie < 32
  {
    t + 8 * cookie
  }

  /** COMBINE_TYPE and the masks that take it apart. */
  lemma TagBits(t: bv8, cookie: bv8)
    requires t < 8 && cookie < 32
    ensures (t | (cookie << 3)) & 7 == t && (t | (cookie << 3)) >> 3 == cookie
    ensures t | (cookie << 3) == t + 8 * cookie
  {
  }

  /** wb_integer: the shortest form. */
  function PackInt(i: int): (r: seq<Byte>)
    requires -HALF64 <= i < HALF64
    ensures r != []
  {
    if i == 0 then [Tag(TYPE_NUMBER, NUMBER_ZERO)]
    else if !(-HALF32 <= i < HALF32) then [Tag(TYPE_NUMBER, NUMBER_QWORD)] + ToBytes(Unsigned(i, WRAP64), 8)
    else if i < 0 then [Tag(TYPE_NUMBER, NUMBER_DWORD)] + ToBytes(Unsigned(i, WRAP32), 4)
    else if i < 0x100 then [Tag(TYPE_NUMBER, NUMBER_BYTE)] + ToBytes(i, 1)
    else if i < 0x10000 then [Tag(TYPE_NUMBER, NUMBER_WORD)] + ToBytes(i, 2)
    else [Tag(TYPE_NUMBER, NUMBER_DWORD)] + ToBytes(i, 4)
  }

  /** wb_string */
  function PackStr(s: seq<Byte>): seq<Byte>
    requires |s| < HALF32
  {
    if |s| < MAX_COOKIE then [Tag(TYPE_SHORT_STRING, |s|)] + s
    else if |s| < 0x10000 then [Tag(TYPE_LONG_STRING, 2)] + ToBytes(|s|, 2) + s
    else [Tag(TYPE_LONG_STRING, 4)] + ToBytes(|s|, 4) + s
  }

  /** The head of wb_table_array. */
  function PackSize(n: nat): seq<Byte>
    requires n < HALF32
  {
    if n >= MAX_COOKIE - 1 then [Tag(TYPE_TABLE, MAX_COOKIE - 1)] + PackInt(n) else [Tag(TYPE_TABLE, n)]
  }

  function Pack(v: Value): seq<Byte>
    requires IsValue(v)
    decreases v
  {
    match v
    case Nil => [Tag(TYPE_NIL, 0)]
    case Bool(b) => [Tag(TYPE_BOOLEAN, if b then 1 else 0)]
    case Int(i) => PackInt(i)
    case Real(bits) => [Tag(TYPE_NUMBER, NUMBER_REAL)] + bits
    case Pointer(bits) => [Tag(TYPE_USERDATA, 0)] + bits
    case Str(s) => PackStr(s)
    case Table(arr, hash) => PackSize(|arr|) + PackSeq(arr) + PackPairs(hash) + [Tag(TYPE_NIL, 0)]
  }

  predicate AreValues(l: seq<Value>) { forall i :: 0 <= i < |l| ==> IsValue(l[i]) }

  predicate ArePairs(l: seq<Pair>) { forall i :: 0 <= i < |l| ==> !l[i].k.Nil? && IsValue(l[i].k) && IsValue(l[i].v) }

  function PackSeq(l: seq<Value>): seq<Byte>
    requires AreValues(l)
    decreases l
  {
    if l == [] then [] else Pack(l[0]) + PackSeq(l[1..])
  }

  function PackPairs(l: seq<Pair>): seq<Byte>
    requires ArePairs(l)
    decreases l
  {
    if l == [] then [] else PackPair(l[0]) + PackPairs(l[1..])
  }

  function PackPair(p: Pair): seq<Byte>
    requires IsValue(p.k) && IsValue(p.v)
    decreases p
  {
    Pack(p.k) + Pack(p.v)
  }

  // ---------------------------------------------------------------- unpacking

  datatype Result<T> = Invalid | Ok(value: T, rest: seq<Byte>)

  /** rb_read */
  function Take(s: seq<Byte>, n: nat): (r: Result<seq<Byte>>)
    ensures r.Ok? ==> |r.value| == n && |r.rest| == |s| - n
  {
    if |s| < n then Invalid else Ok(s[..n], s[n..])
  }

  /** get_integer */
  function GetInt(s: seq<Byte>, cookie: int): (r: Result<int>)
    ensures r.Ok? ==> |r.rest| <= |s|
  {
    if cookie == NUMBER_ZERO then Ok(0, s)
    else if cookie == NUMBER_BYTE then Word(Take(s, 1), 0)
    else if cookie == NUMBER_WORD then Word(Take(s, 2), 0)
    else if cookie == NUMBER_DWORD then Word(Take(s, 4), WRAP32)
    else if cookie == NUMBER_QWORD then Word(Take(s, 8), WRAP64)
    else Invalid
  }

  function Word(t: Result<seq<Byte>>, wrap: int): (r: Result<int>)
    ensures r.Ok? ==> t.Ok? && r.rest == t.rest
  {
    match t case Invalid => Invalid
    case Ok(b, rest) => Ok(if wrap == 0 then FromBytes(b) else Signed(FromBytes(b), wrap), rest)
  }

  /** get_buffer */
  function GetStr(s: seq<Byte>, n: nat): (r: Result<Value>)
    ensures r.Ok? ==> |r.rest| <= |s|
  {
    match Take(s, n) case Invalid => Invalid case Ok(b, rest) => Ok(Str(b), rest)
  }

  /** The array size of a table: in the cookie, or in an integer that follows. */
  function GetSize(s: seq<Byte>, cookie: int): (r: Result<int>)
    ensures r.Ok? ==> |r.rest| <= |s|
  {
    if cookie != MAX_COOKIE - 1 then Ok(cookie, s)
    else match Take(s, 1)
    case Invalid => Invalid
    case Ok(t, rest) =>
      if t[0] % 8 != TYPE_NUMBER || t[0] / 8 == NUMBER_REAL then Invalid
      else match GetInt(rest, t[0] / 8)
      case Invalid => Invalid
      case Ok(n, rest2) => Ok(Truncated(n), rest2)
  }

  /** The conversion to a C int. */
  function Truncated(n: int): int { Signed(n % WRAP32, WRAP32) }

  /** unpack_one */
  function Unpack(s: seq<Byte>): (r: Result<Value>)
    ensures r.Ok? ==> |r.rest| < |s|
    decreases |s|, 0
  {
    if s == [] then Invalid else UnpackAs(s[1..], s[0] % 8, s[0] / 8)
  }

  /** push_value */
  function UnpackAs(s: seq<Byte>, t: int, cookie: int): (r: Result<Value>)
    ensures r.Ok? ==> |r.rest| <= |s|
    decreases |s|, 3
  {
    if t == TYPE_NIL then Ok(Nil, s)
    else if t == TYPE_BOOLEAN then Ok(Bool(cookie != 0), s)
    else if t == TYPE_NUMBER then
      if cookie == NUMBER_REAL then (match Take(s, 8) case Invalid => Invalid case Ok(b, rest) => Ok(Real(b), rest))
      else (match GetInt(s, cookie) case Invalid => Invalid case Ok(i, rest) => Ok(Int(i), rest))
    else if t == TYPE_USERDATA then (match Take(s, 8) case Invalid => Invalid case Ok(b, rest) => Ok(Pointer(b), rest))
    else if t == TYPE_SHORT_STRING then (if cookie < 0 then Invalid else GetStr(s, cookie))
    else if t == TYPE_LONG_STRING then
      if cookie == 2 || cookie == 4 then
        (match Take(s, cookie) case Invalid => Invalid case Ok(b, rest) => GetStr(rest, FromBytes(b)))
      else Invalid
    else if t == TYPE_TABLE then
      match GetSize(s, cookie)
      case Invalid => Invalid
      case Ok(n, rest) =>
        match UnpackSeq(rest, n)
        case Invalid => Invalid
        case Ok(arr, rest2) =>
          match UnpackPairs(rest2)
          case Invalid => Invalid
          case Ok(hash, rest3) => Ok(Table(arr, hash), rest3)
    else Invalid
  }

  function UnpackSeq(s: seq<Byte>, n: int): (r: Result<seq<Value>>)
    ensures r.Ok? ==> |r.rest| <= |s|
    decreases |s|, 1
  {
    if n <= 0 then Ok([], s)
    else match Unpack(s)
    case Invalid => Invalid
    case Ok(v, rest) =>
      match UnpackSeq(rest, n - 1)
      case Invalid => Invalid
      case Ok(l, rest2) => Ok([v] + l, rest2)
  }

  function UnpackPairs(s: seq<Byte>): (r: Result<seq<Pair>>)
    ensures r.Ok? ==> |r.rest| <= |s|
    decreases |s|, 1
  {
    match Unpack(s)
    case Invalid => Invalid
    case Ok(k, rest) =>
      if k.Nil? then Ok([], rest)
      else match Unpack(rest)
      case Invalid => Invalid
      case Ok(v, rest2) =>
        match UnpackPairs(rest2)
        case Invalid => Invalid
        case Ok(l, rest3) => Ok([Pair(k, v)] + l, rest3)
  }

  // ---------------------------------------------------------------- the round trip

  lemma TakeAppend(a: seq<Byte>, rest: seq<Byte>)
    ensures Take(a + rest, |a|) == Ok(a, rest)
  {
    assert (a + rest)[..|a|] == a && (a + rest)[|a|..] == rest;
  }

  lemma IntRoundTrip(i: int, rest: seq<Byte>)
    requires -HALF64 <= i < HALF64
    ensures var s := PackInt(i) + rest;
      && s[0] % 8 == TYPE_NUMBER && s[0] / 8 != NUMBER_REAL
      && GetInt(s[1..], s[0] / 8) == Ok(i, rest)
  {
    Powers();
    var s := PackInt(i);
    var k := |s| - 1;
    var u := if i < 0 then (if i < -HALF32 then Unsigned(i, WRAP64) else Unsigned(i, WRAP32)) else i;
    assert (s + rest)[1..] == s[1..] + rest;
    if i != 0 {
      BytesRoundTrip(u, k);
      assert s[1..] == ToBytes(u, k);
      TakeAppend(ToBytes(u, k), rest);
    } else {
      assert s[1..] + rest == rest;
    }
  }

  lemma StrRoundTrip(b: seq<Byte>, rest: seq<Byte>)
    requires |b| < HALF32
    ensures Unpack(PackStr(b) + rest) == Ok(Str(b), rest)
  {
    if |b| < MAX_COOKIE { ShortRoundTrip(b, rest); } else { LongRoundTrip(b, rest); }
  }

  lemma ShortRoundTrip(b: seq<Byte>, rest: seq<Byte>)
    requires |b| < MAX_COOKIE
    ensures Unpack(PackStr(b) + rest) == Ok(Str(b), rest)
  {
    hide ToBytes, FromBytes, Pow256, UnpackSeq, UnpackPairs, GetInt, GetSize;
    var s := PackStr(b) + rest;
    TakeAppend(b, rest);
    assert s[1..] == b + rest;
  }

  lemma LongRoundTrip(b: seq<Byte>, rest: seq<Byte>)
    requires MAX_COOKIE <= |b| < HALF32
    ensures Unpack(PackStr(b) + rest) == Ok(Str(b), rest)
  {
    hide ToBytes, Unpack, Pow256;
    Powers();
    LongFormRoundTrip(b, if |b| < 0x10000 then 2 else 4, rest);
  }

  /** A long string with its length in k bytes. */
  lemma LongFormRoundTrip(b: seq<Byte>, k: nat, rest: seq<Byte>)
    requires k == 2 || k == 4
    requires |b| < Pow256(k)
    ensures Unpack([Tag(TYPE_LONG_STRING, k)] + ToBytes(|b|, k) + b + rest) == Ok(Str(b), rest)
  {
    hide ToBytes, FromBytes, Pow256, UnpackSeq, UnpackPairs, GetInt, GetSize, Take;
    var s := [Tag(TYPE_LONG_STRING, k)] + ToBytes(|b|, k) + b + rest;
    TakeAppend(b, rest);
    BytesRoundTrip(|b|, k);
    assert s[1..] == ToBytes(|b|, k) + (b + rest);
    TakeAppend(ToBytes(|b|, k), b + rest);
  }

  /** The size of the array part, in either of its forms. */
  lemma SizeRoundTrip(n: nat, rest: seq<Byte>)
    requires n < HALF32
    ensures var s := PackSize(n) + rest; s[0] % 8 == TYPE_TABLE && GetSize(s[1..], s[0] / 8) == Ok(n, rest)
  {
    hide PackInt, GetInt;
    var s := PackSize(n) + rest;
    if n >= MAX_COOKIE - 1 {
      IntRoundTrip(n, rest);
      var t := PackInt(n) + rest;
      assert s[1..] == t;
      HeadAndTail(t);
    } else {
      assert s[1..] == rest;
    }
  }

  lemma HeadAndTail(t: seq<Byte>)
    requires t != []
    ensures Take(t, 1) == Ok([t[0]], t[1..])
  {
    assert t[..1] == [t[0]];
  }

  // one step of each of the mutually recursive functions

  lemma SeqStep(s: seq<Byte>, n: nat, v: Value, rest: seq<Byte>, l: seq<Value>, rest2: seq<Byte>)
    requires n > 0 && Unpack(s) == Ok(v, rest) && UnpackSeq(rest, n - 1) == Ok(l, rest2)
    ensures UnpackSeq(s, n) == Ok([v] + l, rest2)
  {
    hide Unpack;
  }

  lemma PairsStep(s: seq<Byte>, k: Value, rest: seq<Byte>, v: Value, rest2: seq<Byte>, l: seq<Pair>, rest3: seq<Byte>)
    requires Unpack(s) == Ok(k, rest) && !k.Nil? && Unpack(rest) == Ok(v, rest2) && UnpackPairs(rest2) == Ok(l, rest3)
    ensures UnpackPairs(s) == Ok([Pair(k, v)] + l, rest3)
  {
    hide Unpack;
  }

  lemma PairsEnd(rest: seq<Byte>)
    ensures UnpackPairs([Tag(TYPE_NIL, 0)] + rest) == Ok([], rest)
  {
    var s := [Tag(TYPE_NIL, 0)] + rest;
    assert s[1..] == rest && s[0] == 0;
    assert Unpack(s) == Ok(Nil, rest);
  }

  lemma TableStep(s: seq<Byte>, n: int, r1: seq<Byte>, arr: seq<Value>, r2: seq<Byte>, hash: seq<Pair>, r3: seq<Byte>)
    requires s != [] && s[0] % 8 == TYPE_TABLE && GetSize(s[1..], s[0] / 8) == Ok(n, r1)
    requires UnpackSeq(r1, n) == Ok(arr, r2) && UnpackPairs(r2) == Ok(hash, r3)
    ensures Unpack(s) == Ok(Table(arr, hash), r3)
  {
    hide UnpackSeq, UnpackPairs, GetSize;
  }

  lemma SeqHead(l: seq<Value>)
    requires AreValues(l) && l != []
    ensures IsValue(l[0]) && AreValues(l[1..]) && PackSeq(l) == Pack(l[0]) + PackSeq(l[1..])
  {
    hide Pack, IsValue;
  }

  lemma PairsHead(l: seq<Pair>)
    requires ArePairs(l) && l != []
    ensures ArePairs(l[1..]) && !l[0].k.Nil? && IsValue(l[0].k) && IsValue(l[0].v)
    ensures PackPairs(l) == (Pack(l[0].k) + Pack(l[0].v)) + PackPairs(l[1..])
  {
    hide Pack, IsValue;
  }

  lemma Regroup(a: seq<Byte>, b: seq<Byte>, c: seq<Byte>)
    ensures (a + b) + c == a + (b + c)
  {
  }

  lemma Regroup4(a: seq<Byte>, b: seq<Byte>, c: seq<Byte>, d: seq<Byte>, e: seq<Byte>)
    ensures (a + b + c + d) + e == a + (b + (c + d + e))
  {
  }

  lemma RegroupPair(a: seq<Byte>, b: seq<Byte>, c: seq<Byte>, d: seq<Byte>, e: seq<Byte>)
    ensures ((a + b) + c) + d + e == a + (b + (c + d + e))
  {
  }

  /** Unpacking a packed value gives it back and uses exactly its own bytes, whatever follows. */
  lemma {:induction false} RoundTrip(v: Value, rest: seq<Byte>)
    requires IsValue(v)
    ensures Unpack(Pack(v) + rest) == Ok(v, rest)
    decreases v
  {
    var s := Pack(v) + rest;
    match v
    case Nil => assert s[1..] == rest;
    case Bool(_) => assert s[1..] == rest;
    case Int(i) => IntRoundTrip(i, rest);
    case Real(bits) => assert s[1..] == bits + rest; TakeAppend(bits, rest);
    case Pointer(bits) => assert s[1..] == bits + rest; TakeAppend(bits, rest);
    case Str(b) => StrRoundTrip(b, rest);
    case Table(arr, hash) =>
      SeqRoundTrip(arr, PackPairs(hash) + [Tag(TYPE_NIL, 0)] + rest);
      PairsRoundTrip(hash, rest);
      TableRoundTrip(arr, hash, rest);
  }

  lemma TableRoundTrip(arr: seq<Value>, hash: seq<Pair>, rest: seq<Byte>)
    requires IsValue(Table(arr, hash))
    requires UnpackSeq(PackSeq(arr) + (PackPairs(hash) + [Tag(TYPE_NIL, 0)] + rest), |arr|) == Ok(arr, PackPairs(hash) + [Tag(TYPE_NIL, 0)] + rest)
    requires UnpackPairs(PackPairs(hash) + [Tag(TYPE_NIL, 0)] + rest) == Ok(hash, rest)
    ensures Unpack(Pack(Table(arr, hash)) + rest) == Ok(Table(arr, hash), rest)
  {
    hide PackSeq, PackPairs, Unpack, UnpackSeq, UnpackPairs, PackSize, GetSize;
    var ends := PackPairs(hash) + [Tag(TYPE_NIL, 0)] + rest;
    var tail := PackSeq(arr) + ends;
    Regroup4(PackSize(|arr|), PackSeq(arr), PackPairs(hash), [Tag(TYPE_NIL, 0)], rest);
    SizeRoundTrip(|arr|, tail);
    TableStep(PackSize(|arr|) + tail, |arr|, tail, arr, ends, hash, rest);
  }

  lemma {:induction false} SeqRoundTrip(l: seq<Value>, rest: seq<Byte>)
    requires AreValues(l)
    ensures UnpackSeq(PackSeq(l) + rest, |l|) == Ok(l, rest)
    decreases l
  {
    if l == [] {
      assert PackSeq(l) + rest == rest;
    } else {
      hide Pack, PackSeq, Unpack, UnpackSeq;
      SeqHead(l);
      RoundTrip(l[0], PackSeq(l[1..]) + rest);
      SeqRoundTrip(l[1..], rest);
      Regroup(Pack(l[0]), PackSeq(l[1..]), rest);
      SeqStep(PackSeq(l) + rest, |l|, l[0], PackSeq(l[1..]) + rest, l[1..], rest);
      assert [l[0]] + l[1..] == l;
    }
  }

  lemma {:induction false} PairsRoundTrip(l: seq<Pair>, rest: seq<Byte>)
    requires ArePairs(l)
    ensures UnpackPairs(PackPairs(l) + [Tag(TYPE_NIL, 0)] + rest) == Ok(l, rest)
    decreases l
  {
    if l == [] {
      assert PackPairs(l) + [Tag(TYPE_NIL, 0)] + rest == [Tag(TYPE_NIL, 0)] + rest;
      PairsEnd(rest);
    } else {
      hide Pack, PackPairs, Unpack, UnpackPairs;
      PairsHead(l);
      var more := PackPairs(l[1..]) + [Tag(TYPE_NIL, 0)] + rest;
      PairRoundTrip(l[0], more);
      PairsRoundTrip(l[1..], rest);
      RegroupPair(Pack(l[0].k), Pack(l[0].v), PackPairs(l[1..]), [Tag(TYPE_NIL, 0)], rest);
      PairsStep(Pack(l[0].k) + (Pack(l[0].v) + more), l[0].k, Pack(l[0].v) + more, l[0].v, more, l[1..], rest);
      assert [Pair(l[0].k, l[0].v)] + l[1..] == l;
    }
  }

  lemma {:induction false} PairRoundTrip(p: Pair, rest: seq<Byte>)
    requires IsValue(p.k) && IsValue(p.v)
    ensures Unpack(Pack(p.k) + (Pack(p.v) + rest)) == Ok(p.k, Pack(p.v) + rest)
    ensures Unpack(Pack(p.v) + rest) == Ok(p.v, rest)
    decreases p
  {
    RoundTrip(p.k, Pack(p.v) + rest);
    RoundTrip(p.v, rest);
  }

  lemma PackNotEmpty(v: Value)
    requires IsValue(v)
    ensures Pack(v) != []
  {
  }

  /** luaseri_unpack: values one after another until the bytes end. */
  function UnpackAll(s: seq<Byte>): (r: Result<seq<Value>>)
    decreases |s|
  {
    if s == [] then Ok([], [])
    else match Unpack(s)
    case Invalid => Invalid
    case Ok(v, rest) =>
      match UnpackAll(rest)
      case Invalid => Invalid
      case Ok(l, rest2) => Ok([v] + l, rest2)
  }

  /** Any sequence of values comes back from its packed bytes. */
  lemma {:induction false} AllRoundTrip(l: seq<Value>)
    requires AreValues(l)
    ensures UnpackAll(PackSeq(l)) == Ok(l, [])
  {
    if l != [] {
      hide Pack, Unpack, IsValue;
      SeqHead(l);
      RoundTrip(l[0], PackSeq(l[1..]));
      AllRoundTrip(l[1..]);
      PackNotEmpty(l[0]);
      assert [l[0]] + l[1..] == l;
    }
  }
}
