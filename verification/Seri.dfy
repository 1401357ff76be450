/**
 * The serialiser of lualib-src/lua-seri.c at work: packing into a list of 128-byte blocks and
 * unpacking from one buffer, both proved against the byte format.
 */
module Seri {
  import opened SeriSpec
  import opened Words

  const BLOCK_SIZE: nat := 128

  function Flatten(blocks: seq<seq<Byte>>): seq<Byte> {
    if blocks == [] then [] else blocks[0] + Flatten(blocks[1..])
  }

  lemma {:induction false} FlattenAppend(blocks: seq<seq<Byte>>, b: seq<Byte>)
    ensures Flatten(blocks + [b]) == Flatten(blocks) + b
  {
    if blocks == [] {
      assert [b][1..] == [] && blocks + [b] == [b];
    } else {
      FlattenAppend(blocks[1..], b);
      assert (blocks + [b])[1..] == blocks[1..] + [b];
      assert (blocks[0] + Flatten(blocks[1..])) + b == blocks[0] + (Flatten(blocks[1..]) + b);
    }
  }

  lemma {:induction false} FlattenSize(blocks: seq<seq<Byte>>)
    requires forall i :: 0 <= i < |blocks| ==> |blocks[i]| == BLOCK_SIZE
    ensures |Flatten(blocks)| == BLOCK_SIZE * |blocks|
  {
    if blocks != [] { FlattenSize(blocks[1..]); }
  }

  function FreshBlock(): (b: seq<Byte>)
    ensures |b| == BLOCK_SIZE
  {
    seq(BLOCK_SIZE, _ => 0)
  }

  class WriteBlock {
    var blocks: seq<seq<Byte>>  // the last one is being written
    var len: nat
    var ptr: nat

    ghost predicate Valid()
      reads this
    {
      && blocks != [] && ptr <= BLOCK_SIZE
      && (forall i :: 0 <= i < |blocks| ==> |blocks[i]| == BLOCK_SIZE)
      && len == BLOCK_SIZE * (|blocks| - 1) + ptr
    }

    /** The flat byte sequence that the blocks stand for. */
    ghost function Contents(): seq<Byte>
      requires Valid()
      reads this
    {
      Flatten(blocks[..|blocks| - 1]) + blocks[|blocks| - 1][..ptr]
    }

    /** wb_init */
    constructor ()
      ensures Valid() && Contents() == [] && len == 0
    {
      blocks, len, ptr := [FreshBlock()], 0, 0;
    }

    /** blk_alloc: the current block is full, and writing goes on in a new one. */
    method NextBlock()
      requires Valid() && ptr == BLOCK_SIZE
      modifies this
      ensures Valid() && ptr == 0 && Contents() == old(Contents()) && len == old(len)
    {
      var n := |blocks| - 1;
      FlattenAppend(blocks[..n], blocks[n]);
      assert blocks == blocks[..n] + [blocks[n]];
      assert blocks[n][..ptr] == blocks[n];
      blocks := blocks + [FreshBlock()];
      assert blocks[..|blocks| - 1] == old(blocks);
      assert Flatten(old(blocks)) + [] == Flatten(old(blocks));
      ptr := 0;
    }

    /** memcpy into the current block, where it fits. */
    method Fill(buf: seq<Byte>)
      requires Valid() && ptr + |buf| <= BLOCK_SIZE
      modifies this
      ensures Valid() && Contents() == old(Contents()) + buf && ptr == old(ptr) + |buf|
    {
      var n := |blocks| - 1;
      var b := blocks[n];
      ghost var front := Flatten(blocks[..n]);
      var b2 := b[..ptr] + buf + b[ptr + |buf|..];
      blocks := blocks[n := b2];
      assert blocks[..n] == old(blocks)[..n];
      assert b2[..ptr + |buf|] == b[..ptr] + buf;
      assert front + (b[..ptr] + buf) == (front + b[..ptr]) + buf;
      ptr := ptr + |buf|;
      len := len + |buf|;
    }

    /** wb_push: the bytes go on in as many blocks as it takes. */
    method Push(buf: seq<Byte>)
      requires Valid()
      modifies this
      ensures Valid() && Contents() == old(Contents()) + buf
    {
      if ptr == BLOCK_SIZE { NextBlock(); }
      var rest := buf;
      while ptr + |rest| > BLOCK_SIZE
        invariant Valid() && (ptr < BLOCK_SIZE)
        invariant Contents() + rest == old(Contents()) + buf
        decreases |rest|
      {
        rest := FillBlock(rest);
      }
      Fill(rest);
    }

    /** What fits goes into the current block, and a new one is begun. */
    method FillBlock(buf: seq<Byte>) returns (rest: seq<Byte>)
      requires Valid() && ptr < BLOCK_SIZE && ptr + |buf| > BLOCK_SIZE
      modifies this
      ensures Valid() && ptr == 0 && |rest| < |buf| && Contents() + rest == old(Contents()) + buf
    {
      hide Flatten;
      var copy := BLOCK_SIZE - ptr;
      ghost var was := Contents();
      Fill(buf[..copy]);
      NextBlock();
      rest := buf[copy..];
      assert (was + buf[..copy]) + buf[copy..] == was + buf;
    }

    /** wb_nil, wb_boolean, wb_integer, wb_real and wb_pointer push a tag and a word. */
    method WbTag(t: int, cookie: int)
      requires Valid() && 0 <= t < 8 && 0 <= cookie < 32
      modifies this
      ensures Valid() && Contents() == old(Contents()) + [Tag(t, cookie)]
    {
      Push([t + 8 * cookie]);
    }

    method WbWord(t: int, cookie: int, word: seq<Byte>)
      requires Valid() && 0 <= t < 8 && 0 <= cookie < 32
      modifies this
      ensures Valid() && Contents() == old(Contents()) + ([Tag(t, cookie)] + word)
    {
      hide Flatten, WriteBlock.Contents;
      ghost var was := Contents();
      WbTag(t, cookie);
      Push(word);
      Regroup(was, [Tag(t, cookie)], word);
    }

    method WbInteger(v: int)
      requires Valid() && -HALF64 <= v < HALF64
      modifies this
      ensures Valid() && Contents() == old(Contents()) + PackInt(v)
    {
      hide WriteBlock.Contents, WriteBlock.Valid, ToBytes;
      if v == 0 { WbTag(TYPE_NUMBER, NUMBER_ZERO); }
      else if !(-HALF32 <= v < HALF32) { WbWord(TYPE_NUMBER, NUMBER_QWORD, ToBytes(Unsigned(v, WRAP64), 8)); }
      else if v < 0 { WbWord(TYPE_NUMBER, NUMBER_DWORD, ToBytes(Unsigned(v, WRAP32), 4)); }
      else if v < 0x100 { WbWord(TYPE_NUMBER, NUMBER_BYTE, ToBytes(v, 1)); }
      else if v < 0x10000 { WbWord(TYPE_NUMBER, NUMBER_WORD, ToBytes(v, 2)); }
      else { WbWord(TYPE_NUMBER, NUMBER_DWORD, ToBytes(v, 4)); }
    }

    method WbString(str: seq<Byte>)
      requires Valid() && |str| < HALF32
      modifies this
      ensures Valid() && Contents() == old(Contents()) + PackStr(str)
    {
      hide WriteBlock.Contents, WriteBlock.Valid, ToBytes;
      ghost var was := Contents();
      if |str| < MAX_COOKIE {
        WbTag(TYPE_SHORT_STRING, |str|);
        if |str| > 0 { Push(str); }
        Regroup(was, [Tag(TYPE_SHORT_STRING, |str|)], str);
      } else {
        var k := if |str| < 0x10000 then 2 else 4;
        WbWord(TYPE_LONG_STRING, k, ToBytes(|str|, k));
        Push(str);
        Regroup(was, [Tag(TYPE_LONG_STRING, k)] + ToBytes(|str|, k), str);
      }
    }

    /** pack_one; it fails on tables that are nested too deep. */
    method PackOne(v: Value, depth: nat) returns (ok: bool)
      requires Valid() && IsValue(v)
      modifies this
      ensures Valid() && ok == Fits(v, depth) && (ok ==> Contents() == old(Contents()) + Pack(v))
      decreases v, 1
    {
      hide WriteBlock.Contents, WriteBlock.Valid, PackInt, PackStr, PackSeq, PackPairs;
      if depth > MAX_DEPTH { return false; }
      ok := true;
      match v
      case Nil => WbTag(TYPE_NIL, 0);
      case Bool(b) => WbTag(TYPE_BOOLEAN, if b then 1 else 0);
      case Int(i) => WbInteger(i);
      case Real(bits) => WbWord(TYPE_NUMBER, NUMBER_REAL, bits);
      case Pointer(bits) => WbWord(TYPE_USERDATA, 0, bits);
      case Str(s) => WbString(s);
      case Table(_, _) => ok := WbTable(v, depth + 1);
    }

    /** wb_table: wb_table_array and wb_table_hash. */
    method WbTable(v: Value, depth: nat) returns (ok: bool)
      requires Valid() && IsValue(v) && v.Table? && 0 < depth <= MAX_DEPTH + 1
      modifies this
      ensures Valid() && ok == Fits(v, depth - 1) && (ok ==> Contents() == old(Contents()) + Pack(v))
      decreases v, 0
    {
      hide WriteBlock.Contents, WriteBlock.Valid, Pack, PackInt, PackSeq, PackPairs, IsValue, Fits;
      ghost var was := Contents();
      TableParts(v, depth - 1);
      var n := |v.arr|;
      if n >= MAX_COOKIE - 1 {
        WbTag(TYPE_TABLE, MAX_COOKIE - 1);
        WbInteger(n);
        Regroup(was, [Tag(TYPE_TABLE, MAX_COOKIE - 1)], PackInt(n));
      } else {
        WbTag(TYPE_TABLE, n);
      }
      assert Contents() == was + PackSize(n);
      ok := PackEach(v.arr, depth);
      if !ok { return; }
      ok := PackEachPair(v.hash, depth);
      if !ok { return; }
      WbTag(TYPE_NIL, 0);
      Regroup5(was, PackSize(n), PackSeq(v.arr), PackPairs(v.hash), [Tag(TYPE_NIL, 0)]);
    }

    /** The elements of the array part. */
    method PackEach(l: seq<Value>, depth: nat) returns (ok: bool)
      requires Valid() && AreValues(l)
      modifies this
      ensures Valid() && ok == (forall i :: 0 <= i < |l| ==> Fits(l[i], depth))
      ensures ok ==> Contents() == old(Contents()) + PackSeq(l)
      decreases l
    {
      hide WriteBlock.Contents, WriteBlock.Valid, Pack, PackSeq, IsValue, Fits;
      ghost var was := Contents();
      NoMore();
      for i := 0 to |l|
        invariant Valid() && Contents() + PackSeq(l[i..]) == was + PackSeq(l)
        invariant forall j :: 0 <= j < i ==> Fits(l[j], depth)
      {
        SeqHead(l[i..]);
        assert l[i..][1..] == l[i + 1..];
        Regroup(Contents(), Pack(l[i]), PackSeq(l[i + 1..]));
        ok := PackOne(l[i], depth);
        if !ok { return; }
      }
      assert l[|l|..] == [];
      ok := true;
    }

    /** The pairs of the hash part. */
    method PackEachPair(l: seq<Pair>, depth: nat) returns (ok: bool)
      requires Valid() && ArePairs(l)
      modifies this
      ensures Valid() && ok == (forall i :: 0 <= i < |l| ==> Fits(l[i].k, depth) && Fits(l[i].v, depth))
      ensures ok ==> Contents() == old(Contents()) + PackPairs(l)
      decreases l
    {
      hide WriteBlock.Contents, WriteBlock.Valid, Pack, PackPairs, IsValue, Fits;
      ghost var was := Contents();
      NoMore();
      for i := 0 to |l|
        invariant Valid() && Contents() + PackPairs(l[i..]) == was + PackPairs(l)
        invariant forall j :: 0 <= j < i ==> Fits(l[j].k, depth) && Fits(l[j].v, depth)
      {
        PairsHead(l[i..]);
        assert l[i..][1..] == l[i + 1..];
        Regroup(Contents(), Pack(l[i].k) + Pack(l[i].v), PackPairs(l[i + 1..]));
        ok := PackOnePair(l[i], depth);
        if !ok { return; }
      }
      assert l[|l|..] == [];
      ok := true;
    }

    method PackOnePair(p: Pair, depth: nat) returns (ok: bool)
      requires Valid() && IsValue(p.k) && IsValue(p.v)
      modifies this
      ensures Valid() && ok == (Fits(p.k, depth) && Fits(p.v, depth))
      ensures ok ==> Contents() == old(Contents()) + (Pack(p.k) + Pack(p.v))
      decreases p
    {
      hide WriteBlock.Contents, WriteBlock.Valid, Pack, IsValue, Fits;
      ghost var was := Contents();
      ok := PackOne(p.k, depth);
      if !ok { return; }
      ok := PackOne(p.v, depth);
      Regroup(was, Pack(p.k), Pack(p.v));
    }

    /** luaseri_pack: the values in turn, then seri. */
    method PackAll(vs: seq<Value>) returns (ok: bool, bytes: seq<Byte>)
      requires Valid() && Contents() == [] && AreValues(vs)
      modifies this
      ensures ok == (forall i :: 0 <= i < |vs| ==> Fits(vs[i], 0))
      ensures ok ==> bytes == PackSeq(vs)
    {
      hide WriteBlock.Contents, WriteBlock.Valid, Pack, PackSeq, IsValue, Fits;
      bytes := [];
      ok := PackEach(vs, 0);
      if ok {
        bytes := SeriBytes();
        assert [] + PackSeq(vs) == PackSeq(vs);
      }
    }

    /** seri: the blocks are copied into one buffer. */
    method SeriBytes() returns (buffer: seq<Byte>)
      requires Valid()
      ensures buffer == Contents() && |buffer| == len
    {
      buffer := [];
      var left, b := len, 0;
      FlattenSize(blocks[..|blocks| - 1]);
      while left > 0
        invariant 0 <= b <= |blocks| && 0 <= left == len - BLOCK_SIZE * b
        invariant buffer == Flatten(blocks[..b])
        invariant left > 0 ==> b < |blocks|
        invariant left == 0 ==> b == |blocks| - 1 || b == |blocks|
        decreases left
      {
        if left >= BLOCK_SIZE {
          FlattenAppend(blocks[..b], blocks[b]);
          assert blocks[..b + 1] == blocks[..b] + [blocks[b]];
          buffer := buffer + blocks[b];
          left := left - BLOCK_SIZE;
          b := b + 1;
        } else {
          buffer := buffer + blocks[b][..left];
          return;
        }
      }
      LastBlock(b);
    }

    /** When nothing is left the last block is empty or has been copied whole. */
    lemma LastBlock(b: nat)
      requires Valid() && len == BLOCK_SIZE * b && (b == |blocks| - 1 || b == |blocks|)
      ensures Flatten(blocks[..b]) == Contents()
    {
      var n := |blocks| - 1;
      if b == n {
        assert Flatten(blocks[..n]) + [] == Flatten(blocks[..n]);
      } else {
        FlattenAppend(blocks[..n], blocks[n]);
        assert blocks[..b] == blocks[..n] + [blocks[n]];
        assert blocks[n][..ptr] == blocks[n];
      }
    }
  }

  lemma NoMore()
    ensures PackSeq([]) == [] && PackPairs([]) == []
    ensures forall s: seq<Byte> :: s + [] == s
  {
  }

  lemma Regroup5(a: seq<Byte>, b: seq<Byte>, c: seq<Byte>, d: seq<Byte>, e: seq<Byte>)
    ensures a + b + c + d + e == a + (b + c + d + e)
  {
  }

  lemma TableParts(v: Value, d: nat)
    requires IsValue(v) && v.Table? && d <= MAX_DEPTH
    ensures AreValues(v.arr) && ArePairs(v.hash) && |v.arr| < HALF32
    ensures Pack(v) == PackSize(|v.arr|) + PackSeq(v.arr) + PackPairs(v.hash) + [Tag(TYPE_NIL, 0)]
    ensures Fits(v, d) <==>
      && (forall i :: 0 <= i < |v.arr| ==> Fits(v.arr[i], d + 1))
      && (forall i :: 0 <= i < |v.hash| ==> Fits(v.hash[i].k, d + 1) && Fits(v.hash[i].v, d + 1))
  {
  }

  // ---------------------------------------------------------------- reading

  datatype Option<T> = None | Some(value: T)

  class ReadBlock {
    const buffer: seq<Byte>
    var ptr: nat
    var len: nat

    ghost predicate Valid()
      reads this
    {
      ptr + len == |buffer|
    }

    ghost function Rest(): seq<Byte>
      requires Valid()
      reads this
    {
      buffer[ptr..]
    }

    /** rball_init */
    constructor (buffer: seq<Byte>)
      ensures Valid() && Rest() == buffer && this.buffer == buffer
    {
      this.buffer := buffer;
      ptr, len := 0, |buffer|;
    }

    /** rb_read */
    method Read(sz: nat) returns (r: Option<seq<Byte>>)
      requires Valid()
      modifies this
      ensures Valid()
      ensures match Take(old(Rest()), sz) case Invalid => r == None && Rest() == old(Rest()) case Ok(b, rest) => r == Some(b) && Rest() == rest
    {
      if len < sz { return None; }
      r := Some(buffer[ptr..ptr + sz]);
      assert buffer[ptr..ptr + sz] == buffer[ptr..][..sz] && buffer[ptr + sz..] == buffer[ptr..][sz..];
      ptr := ptr + sz;
      len := len - sz;
    }

    /** get_integer */
    method GetInteger(cookie: int) returns (ok: bool, n: int)
      requires Valid()
      modifies this
      ensures Valid() && |Rest()| <= |old(Rest())|
      ensures match GetInt(old(Rest()), cookie) case Invalid => !ok case Ok(i, rest) => ok && n == i && Rest() == rest
    {
      hide ReadBlock.Rest, FromBytes;
      var k := if cookie == NUMBER_BYTE then 1 else if cookie == NUMBER_WORD then 2 else if cookie == NUMBER_DWORD then 4 else 8;
      if cookie == NUMBER_ZERO { return true, 0; }
      if cookie != NUMBER_BYTE && cookie != NUMBER_WORD && cookie != NUMBER_DWORD && cookie != NUMBER_QWORD { return false, 0; }
      var pn := Read(k);
      if pn == None { return false, 0; }
      n := FromBytes(pn.value);
      if cookie == NUMBER_DWORD { n := Signed(n, WRAP32); } else if cookie == NUMBER_QWORD { n := Signed(n, WRAP64); }
      ok := true;
    }

    /** get_buffer */
    method GetBuffer(n: nat) returns (ok: bool, v: Value)
      requires Valid()
      modifies this
      ensures Valid() && |Rest()| <= |old(Rest())|
      ensures match GetStr(old(Rest()), n) case Invalid => !ok case Ok(x, rest) => ok && v == x && Rest() == rest
    {
      hide ReadBlock.Rest;
      var p := Read(n);
      if p == None { return false, Nil; }
      ok, v := true, Str(p.value);
    }

    /** The first half of unpack_table: the size of the array part. */
    method GetArraySize(cookie: int) returns (ok: bool, n: int)
      requires Valid()
      modifies this
      ensures Valid() && |Rest()| <= |old(Rest())|
      ensures match GetSize(old(Rest()), cookie) case Invalid => !ok case Ok(i, rest) => ok && n == i && Rest() == rest
    {
      hide ReadBlock.Rest, GetInt, Signed;
      if cookie != MAX_COOKIE - 1 { return true, cookie; }
      var t := Read(1);
      if t == None { return false, 0; }
      var typ := t.value[0];
      if typ % 8 != TYPE_NUMBER || typ / 8 == NUMBER_REAL { return false, 0; }
      ok, n := GetInteger(typ / 8);
      if ok { n := Truncated(n); }
    }

    /** unpack_one */
    method UnpackOne() returns (ok: bool, v: Value)
      requires Valid()
      modifies this
      ensures Valid() && |Rest()| <= |old(Rest())|
      ensures match Unpack(old(Rest())) case Invalid => !ok case Ok(x, rest) => ok && v == x && Rest() == rest
      decreases |Rest()|, 0
    {
      hide ReadBlock.Rest, UnpackAs;
      ghost var s := Rest();
      var t := Read(1);
      if t == None { return false, Nil; }
      assert s[..1] == [s[0]];
      ok, v := PushValue(t.value[0] % 8, t.value[0] / 8);
    }

    /** push_value */
    method PushValue(t: int, cookie: int) returns (ok: bool, v: Value)
      requires Valid()
      modifies this
      ensures Valid() && |Rest()| <= |old(Rest())|
      ensures match UnpackAs(old(Rest()), t, cookie) case Invalid => !ok case Ok(x, rest) => ok && v == x && Rest() == rest
      decreases |Rest()|, 3
    {
      hide ReadBlock.Rest, GetInt, GetStr, UnpackSeq, UnpackPairs, GetSize, FromBytes;
      ok, v := true, Nil;
      if t == TYPE_NIL { return; }
      if t == TYPE_BOOLEAN { v := Bool(cookie != 0); return; }
      if t == TYPE_NUMBER && cookie != NUMBER_REAL {
        var n;
        ok, n := GetInteger(cookie);
        v := Int(n);
        return;
      }
      if t == TYPE_NUMBER || t == TYPE_USERDATA {
        var p := Read(8);
        if p == None { return false, Nil; }
        v := if t == TYPE_NUMBER then Real(p.value) else Pointer(p.value);
        return;
      }
      if t == TYPE_SHORT_STRING {
        if cookie < 0 { return false, Nil; }
        ok, v := GetBuffer(cookie);
        return;
      }
      if t == TYPE_LONG_STRING && (cookie == 2 || cookie == 4) {
        var p := Read(cookie);
        if p == None { return false, Nil; }
        ok, v := GetBuffer(FromBytes(p.value));
        return;
      }
      if t == TYPE_TABLE { ok, v := UnpackTable(cookie); return; }
      ok := false;
    }

    /** unpack_table */
    method UnpackTable(cookie: int) returns (ok: bool, v: Value)
      requires Valid()
      modifies this
      ensures Valid() && |Rest()| <= |old(Rest())|
      ensures match UnpackAs(old(Rest()), TYPE_TABLE, cookie) case Invalid => !ok case Ok(x, rest) => ok && v == x && Rest() == rest
      decreases |Rest()|, 2
    {
      hide ReadBlock.Rest, UnpackSeq, UnpackPairs, GetSize;
      v := Nil;
      var n;
      ok, n := GetArraySize(cookie);
      if !ok { return; }
      var arr, hash;
      ok, arr := UnpackEach(n);
      if !ok { return; }
      ok, hash := UnpackEachPair();
      v := Table(arr, hash);
    }

    /** The elements of the array part. */
    method UnpackEach(n: int) returns (ok: bool, l: seq<Value>)
      requires Valid()
      modifies this
      ensures Valid() && |Rest()| <= |old(Rest())|
      ensures match UnpackSeq(old(Rest()), n) case Invalid => !ok case Ok(x, rest) => ok && l == x && Rest() == rest
      decreases |Rest()|, 1
    {
      hide ReadBlock.Rest, Unpack;
      ghost var s := Rest();
      l := [];
      var i := 0;
      NoneYet(UnpackSeq(s, n));
      while i < n
        invariant Valid() && |Rest()| <= |s| && (i == 0 || |Rest()| < |s|)
        invariant (i == 0 && n < 0) || 0 <= i <= n || n < 0
        invariant UnpackSeq(s, n) == After(l, UnpackSeq(Rest(), n - i))
        decreases n - i
      {
        ghost var was := Rest();
        var v;
        ok, v := UnpackOne();
        if !ok { return; }
        OneAfter(l, v, UnpackSeq(Rest(), n - i - 1));
        l := l + [v];
        i := i + 1;
      }
      ok := true;
    }

    /** The pairs of the hash part, up to a nil key. */
    method UnpackEachPair() returns (ok: bool, l: seq<Pair>)
      requires Valid()
      modifies this
      ensures Valid() && |Rest()| <= |old(Rest())|
      ensures match UnpackPairs(old(Rest())) case Invalid => !ok case Ok(x, rest) => ok && l == x && Rest() == rest
      decreases |Rest()|, 1
    {
      hide ReadBlock.Rest, Unpack;
      ghost var s := Rest();
      l := [];
      NoneYet(UnpackPairs(s));
      while true
        invariant Valid() && |Rest()| <= |s|
        invariant UnpackPairs(s) == After(l, UnpackPairs(Rest()))
        decreases |Rest()|
      {
        var k, v;
        ok, k := UnpackOne();
        if !ok { return; }
        if k.Nil? { return; }
        ok, v := UnpackOne();
        if !ok { return; }
        OneAfter(l, Pair(k, v), UnpackPairs(Rest()));
        l := l + [Pair(k, v)];
      }
    }
  }

  /** What was read before comes in front. */
  function After<T>(l: seq<T>, r: Result<seq<T>>): Result<seq<T>> {
    match r case Invalid => Invalid case Ok(x, rest) => Ok(l + x, rest)
  }

  lemma NoneYet<T>(r: Result<seq<T>>)
    ensures After([], r) == r
  {
    match r case Invalid => case Ok(x, _) => assert [] + x == x;
  }

  lemma OneAfter<T>(l: seq<T>, v: T, r: Result<seq<T>>)
    ensures After(l, After([v], r)) == After(l + [v], r)
  {
    match r case Invalid => case Ok(x, _) => assert l + ([v] + x) == (l + [v]) + x;
  }

  /** One unfolding of UnpackAll. */
  lemma AllStep(s: seq<Byte>)
    ensures UnpackAll([]) == Ok([], [])
    ensures s != [] && Unpack(s).Invalid? ==> UnpackAll(s).Invalid?
    ensures s != [] && Unpack(s).Ok? ==> |Unpack(s).rest| < |s| && UnpackAll(s) == After([Unpack(s).value], UnpackAll(Unpack(s).rest))
  {
    hide Unpack;
  }

  lemma AfterNothing<T>(l: seq<T>, rest: seq<Byte>)
    ensures After(l, Ok([], rest)) == Ok(l, rest)
  {
    assert l + [] == l;
  }

  lemma RestLength(rb: ReadBlock)
    requires rb.Valid()
    ensures |rb.Rest()| == rb.len
  {
  }

  /** luaseri_unpack */
  method UnpackAllValues(buffer: seq<Byte>) returns (ok: bool, l: seq<Value>)
    ensures match UnpackAll(buffer) case Invalid => !ok case Ok(x, _) => ok && l == x
  {
    hide Unpack, UnpackAll, ReadBlock.Rest, After;
    var rb := new ReadBlock(buffer);
    l := [];
    NoneYet(UnpackAll(buffer));
    RestLength(rb);
    while rb.len > 0
      invariant rb.Valid() && |rb.Rest()| == rb.len
      invariant UnpackAll(buffer) == After(l, UnpackAll(rb.Rest()))
      decreases rb.len
    {
      ghost var s := rb.Rest();
      AllStep(s);
      AfterInvalid(l);
      var v;
      ok, v := rb.UnpackOne();
      if !ok { return; }
      RestLength(rb);
      OneAfter(l, v, UnpackAll(rb.Rest()));
      l := l + [v];
    }
    ok := true;
    AllStep([]);
    AfterNothing(l, []);
    assert rb.Rest() == [];
  }

  lemma AfterInvalid(l: seq<Value>)
    ensures After(l, Invalid).Invalid?
  {
  }

  /** Packing and unpacking give back every sequence of values that is not nested too deep. */
  method PackThenUnpack(vs: seq<Value>) returns (ok: bool, back: seq<Value>)
    requires AreValues(vs)
    ensures ok == (forall i :: 0 <= i < |vs| ==> Fits(vs[i], 0))
    ensures ok ==> back == vs
  {
    hide Unpack, Pack, PackSeq, UnpackAll, Fits, IsValue;
    var wb := new WriteBlock();
    var bytes;
    back := [];
    ok, bytes := wb.PackAll(vs);
    if ok {
      AllRoundTrip(vs);
      ok, back := UnpackAllValues(bytes);
    }
  }
}
