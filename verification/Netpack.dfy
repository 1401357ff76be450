/**
 * Stream reassembly (lualib-src/lua-netpack.c): packets framed by a two-byte big-endian length are
 * cut out of the chunks in which the streams of any number of sockets arrive.
 */
module Netpack {
  import opened Rings

  type Byte = x: int | 0 <= x < 256

  const QUEUESIZE: nat := 1024
  const HASHSIZE: nat := 4096

  // ---------------------------------------------------------------- the framing

  function ReadSize(b0: Byte, b1: Byte): (r: nat)
    ensures r < 0x10000
  {
    b0 * 256 + b1
  }

  /** The packets of a stream, and the bytes after the last one. */
  function Deframe(s: seq<Byte>): (r: (seq<seq<Byte>>, seq<Byte>))
    ensures |r.1| <= |s|
  {
    if |s| < 2 || |s| < 2 + ReadSize(s[0], s[1]) then ([], s)
    else
      var n := 2 + ReadSize(s[0], s[1]);
      var rest := Deframe(s[n..]);
      ([s[2..n]] + rest.0, rest.1)
  }

  /** What arrives later is framed from where the stream was left. */
  lemma {:induction false} DeframeAppend(s: seq<Byte>, t: seq<Byte>)
    ensures var a := Deframe(s); var b := Deframe(a.1 + t);
      Deframe(s + t) == (a.0 + b.0, b.1)
  {
    var a := Deframe(s);
    if |s| < 2 || |s| < 2 + ReadSize(s[0], s[1]) {
      assert [] + Deframe(s + t).0 == Deframe(s + t).0;
    } else {
      var n := 2 + ReadSize(s[0], s[1]);
      assert (s + t)[n..] == s[n..] + t && (s + t)[2..n] == s[2..n];
      DeframeAppend(s[n..], t);
      var b := Deframe(a.1 + t);
      assert ([s[2..n]] + Deframe(s[n..]).0) + b.0 == [s[2..n]] + (Deframe(s[n..]).0 + b.0);
    }
  }

  /** The tail of a stream holds no packet. */
  lemma {:induction false} DeframeTail(s: seq<Byte>)
    ensures Deframe(Deframe(s).1) == ([], Deframe(s).1)
  {
    if |s| >= 2 && |s| >= 2 + ReadSize(s[0], s[1]) { DeframeTail(s[2 + ReadSize(s[0], s[1])..]); }
  }

  datatype Packed = TooLong | Frame(bytes: seq<Byte>)

  /** lpack */
  function Pack(data: seq<Byte>): Packed {
    if |data| >= 0x10000 then TooLong else Frame([|data| / 256, |data| % 256] + data)
  }

  /** Packing is undone by deframing, whatever follows. */
  lemma PackDeframe(data: seq<Byte>, rest: seq<Byte>)
    ensures Pack(data).TooLong? <==> |data| >= 0x10000
    ensures Pack(data).Frame? ==> Deframe(Pack(data).bytes + rest) == ([data] + Deframe(rest).0, Deframe(rest).1)
  {
    if |data| < 0x10000 {
      var s := Pack(data).bytes + rest;
      assert ReadSize(s[0], s[1]) == |data|;
      assert s[2..2 + |data|] == data && s[2 + |data|..] == rest;
    }
  }

  function PackAll(ps: seq<seq<Byte>>): seq<Byte>
    requires forall p :: p in ps ==> |p| < 0x10000
  {
    if ps == [] then [] else Pack(ps[0]).bytes + PackAll(ps[1..])
  }

  /** Any sequence of packets comes back whole. */
  lemma {:induction false} PackAllDeframe(ps: seq<seq<Byte>>)
    requires forall p :: p in ps ==> |p| < 0x10000
    ensures Deframe(PackAll(ps)) == (ps, [])
  {
    if ps != [] {
      PackAllDeframe(ps[1..]);
      PackDeframe(ps[0], PackAll(ps[1..]));
      assert [ps[0]] + ps[1..] == ps;
    }
  }

  // ---------------------------------------------------------------- the queue

  datatype Pack1 = Pack1(id: int, data: seq<Byte>)

  /** A partial record: one byte of the header (`read` is -1), or the size and what has come of the data. */
  datatype Uncomplete = Uncomplete(id: int, size: nat, data: seq<Byte>, read: int, header: Byte)

  predicate RecordOk(u: Uncomplete) {
    if u.read < 0 then u.read == -1 && u.data == [] else u.size < 0x10000 && u.read == |u.data| < u.size
  }

  /** The unread bytes a record stands for. */
  function TailOf(u: Uncomplete): seq<Byte>
    requires RecordOk(u)
  {
    if u.read < 0 then [u.header] else [u.size / 256, u.size % 256] + u.data
  }

  /** hash_fd, with the arithmetic shifts and the unsigned sum of the source. */
  function HashFd(fd: int): (h: nat)
    ensures h < HASHSIZE
  {
    (fd / 0x100_0000 + fd / 0x1000 + fd) % 0x1_0000_0000 % HASHSIZE
  }

  datatype Found = Missing | Found(u: Uncomplete)

  datatype Outcome = Nothing | Data(data: seq<Byte>) | More

  /** Two records never belong to the same socket. */
  predicate DistinctIds(l: seq<Uncomplete>) { forall i, j :: 0 <= i < j < |l| ==> l[i].id != l[j].id }

  function FindIn(l: seq<Uncomplete>, fd: int): Found {
    if l == [] then Missing else if l[0].id == fd then Found(l[0]) else FindIn(l[1..], fd)
  }

  function Without(l: seq<Uncomplete>, fd: int): seq<Uncomplete> {
    if l == [] then [] else if l[0].id == fd then l[1..] else [l[0]] + Without(l[1..], fd)
  }

  function Packs(fd: int, ps: seq<seq<Byte>>): (r: seq<Pack1>)
    ensures |r| == |ps| && forall k :: 0 <= k < |ps| ==> r[k] == Pack1(fd, ps[k])
  {
    seq(|ps|, k requires 0 <= k < |ps| => Pack1(fd, ps[k]))
  }

  /** A bucket of the hash table. */
  predicate BucketOk(l: seq<Uncomplete>, h: nat) {
    && DistinctIds(l)
    && forall k :: 0 <= k < |l| ==> HashFd(l[k].id) == h && RecordOk(l[k])
  }

  lemma {:induction false} FindOk(l: seq<Uncomplete>, fd: int)
    requires forall k :: 0 <= k < |l| ==> RecordOk(l[k])
    ensures FindIn(l, fd).Found? ==> RecordOk(FindIn(l, fd).u) && FindIn(l, fd).u.id == fd
  {
    if l != [] && l[0].id != fd { FindOk(l[1..], fd); }
  }

  lemma {:induction false} FindAbsent(l: seq<Uncomplete>, fd: int)
    requires forall k :: 0 <= k < |l| ==> l[k].id != fd
    ensures FindIn(l, fd) == Missing && Without(l, fd) == l
  {
    if l != [] { FindAbsent(l[1..], fd); }
  }

  /** Taking a record out leaves all others, and the bucket in order. */
  lemma {:induction false} WithoutOk(l: seq<Uncomplete>, fd: int, h: nat)
    requires BucketOk(l, h)
    ensures BucketOk(Without(l, fd), h)
    ensures forall f :: FindIn(Without(l, fd), f) == if f == fd then Missing else FindIn(l, f)
    ensures forall k :: 0 <= k < |Without(l, fd)| ==> Without(l, fd)[k] in l && Without(l, fd)[k].id != fd
  {
    if l == [] {
    } else if l[0].id == fd {
      assert forall k :: 0 <= k < |l[1..]| ==> l[1..][k] == l[k + 1];
      FindAbsent(l[1..], fd);
    } else {
      assert BucketOk(l[1..], h);
      WithoutOk(l[1..], fd, h);
      var w := Without(l[1..], fd);
      assert Without(l, fd)[1..] == w;
      forall k | 0 <= k < |w| ensures w[k].id != l[0].id {
        var j :| 0 <= j < |l[1..]| && l[1..][j] == w[k];
        assert l[1..][j] == l[j + 1];
      }
    }
  }

  /** The search along a bucket's links. */
  method TakeFrom(l: seq<Uncomplete>, fd: int) returns (r: Found, rest: seq<Uncomplete>)
    ensures r == FindIn(l, fd) && rest == Without(l, fd)
  {
    var i := 0;
    while i < |l| && l[i].id != fd
      invariant 0 <= i <= |l|
      invariant FindIn(l, fd) == FindIn(l[i..], fd) && Without(l, fd) == l[..i] + Without(l[i..], fd)
    {
      assert l[i..][1..] == l[i + 1..] && l[..i + 1] == l[..i] + [l[i]];
      i := i + 1;
    }
    if i < |l| {
      assert l[i..][1..] == l[i + 1..];
      r, rest := Found(l[i]), l[..i] + l[i + 1..];
    } else {
      assert l[..i] + [] == l;
      r, rest := Missing, l;
    }
  }

  /** Nothing for a partial packet, data for just one, and more for anything else. */
  function OutcomeOf(ps: seq<seq<Byte>>, tail: seq<Byte>): Outcome {
    if ps == [] then Nothing else if |ps| == 1 && tail == [] then Data(ps[0]) else More
  }

  /** A buffer that starts with a header. */
  lemma FrameHead(s: seq<Byte>)
    requires |s| >= 2
    ensures var n := ReadSize(s[0], s[1]); [n / 256, n % 256] + [] + s[2..] == s
  {
  }

  /** A packet whose data has come in two parts. */
  lemma FrameStep(size: nat, data: seq<Byte>, buffer: seq<Byte>)
    requires size < 0x10000
    ensures var s, all := [size / 256, size % 256] + data + buffer, data + buffer;
      Deframe(s) == if |all| < size then ([], [size / 256, size % 256] + all)
                    else ([all[..size]] + Deframe(all[size..]).0, Deframe(all[size..]).1)
  {
    var s, all := [size / 256, size % 256] + data + buffer, data + buffer;
    assert s == [size / 256, size % 256] + all;
    assert ReadSize(s[0], s[1]) == size;
    assert |all| >= size ==> s[2..2 + size] == all[..size] && s[2 + size..] == all[size..];
  }

  lemma CutData(size: nat, data: seq<Byte>, buffer: seq<Byte>)
    requires |data| <= size <= |data| + |buffer|
    ensures var need := size - |data|;
      (data + buffer)[..size] == data + buffer[..need] && (data + buffer)[size..] == buffer[need..]
  {
  }

  lemma HeaderOk(fd: int, b: Byte)
    ensures var u := Uncomplete(fd, 0, [], -1, b); RecordOk(u) && TailOf(u) == [b]
    ensures Deframe([b]) == ([], [b])
  {
  }

  lemma PartOk(fd: int, size: nat, data: seq<Byte>)
    requires size < 0x10000 && |data| < size
    ensures var u := Uncomplete(fd, size, data, |data|, 0); RecordOk(u) && TailOf(u) == [size / 256, size % 256] + data
  {
  }

  lemma RecordFacts(u: Uncomplete, buffer: seq<Byte>)
    requires RecordOk(u) && |buffer| >= 1
    ensures u.read >= 0 ==> u.size < 0x10000 && |u.data| <= u.size && TailOf(u) == [u.size / 256, u.size % 256] + u.data
    ensures u.read < 0 ==> var n := buffer[0] + u.header * 256; n < 0x10000 && TailOf(u) + buffer == [n / 256, n % 256] + [] + buffer[1..]
  {
  }

  lemma NoPacket(fd: int, was: seq<Pack1>)
    ensures was + Packs(fd, []) == was
  {
  }

  lemma OneMore(fd: int, was: seq<Pack1>, p: seq<Byte>, ps: seq<seq<Byte>>)
    ensures (was + [Pack1(fd, p)]) + Packs(fd, ps) == was + Packs(fd, [p] + ps)
    ensures ps == [] ==> was + [Pack1(fd, p)] == was + Packs(fd, [p] + ps)
  {
  }

  /** A packet and something more is never just one packet. */
  lemma MoreOutcome(rest: seq<Byte>)
    requires |rest| >= 1
    ensures forall p: seq<Byte> :: OutcomeOf([p] + Deframe(rest).0, Deframe(rest).1) == More
  {
  }

  class NetQueue {
    var cap: nat
    var head: nat
    var tail: nat
    var queue: array<Pack1>
    const hash: array<seq<Uncomplete>>
    ghost var stream: map<int, seq<Byte>>        // everything that came on a socket since it was opened
    ghost var emitted: map<int, seq<seq<Byte>>>  // the packets handed over for it

    ghost predicate Shape()
      reads this, hash
    {
      queue.Length == cap && 1 < cap && head < cap && tail < cap && HashOk()
    }

    ghost predicate HashOk()
      reads hash
    {
      hash.Length == HASHSIZE && forall h :: 0 <= h < HASHSIZE ==> BucketOk(hash[h], h)
    }

    /** The queue of packets waiting to be popped. */
    ghost function Contents(): seq<Pack1>
      requires Shape()
      reads this, queue, hash
    {
      Ring(queue[..], head, tail)
    }

    /** The partial record of a socket, if it has one. */
    function Held(fd: int): Found
      requires hash.Length == HASHSIZE
      reads hash
    {
      FindIn(hash[HashFd(fd)], fd)
    }

    ghost function HeldTail(fd: int): seq<Byte>
      requires HashOk()
      reads hash
    {
      assert BucketOk(hash[HashFd(fd)], HashFd(fd));
      FindOk(hash[HashFd(fd)], fd);
      match Held(fd) case Missing => [] case Found(u) => TailOf(u)
    }

    /** For every socket: what was emitted are the packets of its stream, and what is held is its tail. */
    ghost predicate Valid()
      reads this, queue, hash
    {
      && Shape()
      && forall fd :: Deframe(At(stream, fd)) == (At(emitted, fd), HeldTail(fd))
    }

    /** get_queue */
    constructor ()
      ensures Valid() && Contents() == [] && stream == map[] && emitted == map[] && fresh(queue) && fresh(hash)
    {
      cap, head, tail := QUEUESIZE, 0, 0;
      queue := new Pack1[QUEUESIZE](_ => Pack1(0, []));
      hash := new seq<Uncomplete>[HASHSIZE](_ => []);
      stream, emitted := map[], map[];
    }

    /** find_uncomplete: the record leaves the table. */
    method FindUncomplete(fd: int) returns (r: Found)
      requires HashOk()
      modifies hash
      ensures HashOk() && r == old(Held(fd)) && (r.Found? ==> RecordOk(r.u) && r.u.id == fd)
      ensures Held(fd) == Missing && forall f :: f != fd ==> Held(f) == old(Held(f)) && HeldTail(f) == old(HeldTail(f))
    {
      hide RecordOk, TailOf, FindIn, Without;
      var h := HashFd(fd);
      ghost var l := hash[h];
      assert BucketOk(l, h);
      FindOk(l, fd);
      WithoutOk(l, fd, h);
      var rest;
      r, rest := TakeFrom(hash[h], fd);
      hash[h] := rest;
      forall f | f != fd ensures Held(f) == old(Held(f)) && HeldTail(f) == old(HeldTail(f)) { }
    }

    /** save_uncomplete, or linking a record back: it becomes the first of its bucket. */
    method SaveUncomplete(u: Uncomplete)
      requires HashOk() && RecordOk(u) && Held(u.id) == Missing
      modifies hash
      ensures HashOk() && Held(u.id) == Found(u) && forall f :: f != u.id ==> Held(f) == old(Held(f)) && HeldTail(f) == old(HeldTail(f))
    {
      hide RecordOk, TailOf, FindIn;
      var h := HashFd(u.id);
      assert BucketOk(hash[h], h);
      MissingIds(hash[h], u.id);
      ConsOk(hash[h], u, h);
      hash[h] := [u] + hash[h];
    }

    /** push_data, with expand_queue when the ring is full. */
    method PushData(fd: int, data: seq<Byte>)
      requires Shape()
      modifies this`cap, this`head, this`tail, this`queue, queue
      ensures Shape() && Contents() == old(Contents()) + [Pack1(fd, data)] && (queue == old(queue) || fresh(queue))
    {
      hide Ring, BucketOk;
      RingPushed(queue[..], head, tail, Pack1(fd, data));
      queue[tail] := Pack1(fd, data);
      assert queue[..] == old(queue[..])[old(tail) := Pack1(fd, data)];
      tail := tail + 1;
      if tail >= cap { tail := tail - cap; }
      if head == tail { ExpandQueue(); }
    }

    method ExpandQueue()
      requires Shape() && head == tail
      modifies this`cap, this`head, this`tail, this`queue
      ensures Shape() && fresh(queue) && Contents() == old(queue[..][head..] + queue[..][..head])
    {
      hide BucketOk;
      var q := new Pack1[cap + QUEUESIZE](_ => Pack1(0, []));
      ghost var all := queue[..][head..] + queue[..][..head];
      var i := 0;
      while i < cap
        invariant 0 <= i <= cap && q[..i] == all[..i]
        modifies q
      {
        WrapIndex(head, i, cap);
        q[i] := queue[(head + i) % cap];
        assert all[i] == queue[(head + i) % cap];
        i := i + 1;
      }
      assert all[..cap] == all;
      head, tail, cap := 0, cap, cap + QUEUESIZE;
      queue := q;
    }

    /** push_more: the packets of a buffer go to the queue, and what is left becomes a partial record. */
    method PushMore(fd: int, buffer: seq<Byte>)
      requires Shape() && |buffer| >= 1 && Held(fd) == Missing
      modifies this`cap, this`head, this`tail, this`queue, queue, hash
      ensures Shape() && (queue == old(queue) || fresh(queue))
      ensures Contents() == old(Contents()) + Packs(fd, Deframe(buffer).0)
      ensures HeldTail(fd) == Deframe(buffer).1
      ensures forall f :: f != fd ==> Held(f) == old(Held(f)) && HeldTail(f) == old(HeldTail(f))
      decreases |buffer|
    {
      hide Ring, BucketOk, RecordOk, FindIn, HashFd;
      if |buffer| == 1 {
        NoPacket(fd, Contents());
        HeaderOk(fd, buffer[0]);
        SaveUncomplete(Uncomplete(fd, 0, [], -1, buffer[0]));
        assert buffer == [buffer[0]];
        return;
      }
      var packSize := ReadSize(buffer[0], buffer[1]);
      var data := buffer[2..];
      FrameHead(buffer);
      FrameStep(packSize, [], data);
      if |data| < packSize {
        NoPacket(fd, Contents());
        PartOk(fd, packSize, data);
        SaveUncomplete(Uncomplete(fd, packSize, data, |data|, 0));
        return;
      }
      ghost var was := Contents();
      PushData(fd, data[..packSize]);
      assert [] + data == data;
      OneMore(fd, was, data[..packSize], Deframe(data[packSize..]).0);
      if |data| > packSize {
        PushMore(fd, data[packSize..]);
      } else {
        NoTail(fd, data[packSize..]);
      }
    }

    /** A socket without a record has no unread bytes. */
    lemma NoTail(fd: int, rest: seq<Byte>)
      requires HashOk() && Held(fd) == Missing && |rest| == 0
      ensures Deframe(rest) == ([], []) && HeldTail(fd) == []
    {
    }

    /** filter_data_ */
    method FilterData(fd: int, buffer: seq<Byte>) returns (r: Outcome)
      requires Shape() && |buffer| >= 1
      modifies this`cap, this`head, this`tail, this`queue, queue, hash
      ensures Shape() && (queue == old(queue) || fresh(queue))
      ensures var d := Deframe(old(HeldTail(fd)) + buffer);
        && HeldTail(fd) == d.1 && r == OutcomeOf(d.0, d.1)
        && Contents() == old(Contents()) + (if r.More? then Packs(fd, d.0) else [])
      ensures forall f :: f != fd ==> HeldTail(f) == old(HeldTail(f))
    {
      hide Ring, BucketOk, RecordOk, FindIn, HashFd;
      var found := FindUncomplete(fd);
      if found.Found? {
        RecordFacts(found.u, buffer);
        if found.u.read < 0 {
          r := Fill(fd, buffer[0] + found.u.header * 256, [], buffer[1..]);
        } else {
          r := Fill(fd, found.u.size, found.u.data, buffer);
        }
      } else {
        assert [] + buffer == buffer;
        if |buffer| == 1 {
          HeaderOk(fd, buffer[0]);
          SaveUncomplete(Uncomplete(fd, 0, [], -1, buffer[0]));
          assert buffer == [buffer[0]];
          return Nothing;
        }
        FrameHead(buffer);
        r := Fill(fd, ReadSize(buffer[0], buffer[1]), [], buffer[2..]);
      }
    }

    /** The record is filled with what the buffer has; the rest of the buffer is taken apart. */
    method Fill(fd: int, size: nat, data: seq<Byte>, buffer: seq<Byte>) returns (r: Outcome)
      requires Shape() && Held(fd) == Missing && size < 0x10000 && |data| <= size
      modifies this`cap, this`head, this`tail, this`queue, queue, hash
      ensures Shape() && (queue == old(queue) || fresh(queue))
      ensures var d := Deframe([size / 256, size % 256] + data + buffer);
        && HeldTail(fd) == d.1 && r == OutcomeOf(d.0, d.1)
        && Contents() == old(Contents()) + (if r.More? then Packs(fd, d.0) else [])
      ensures forall f :: f != fd ==> Held(f) == old(Held(f)) && HeldTail(f) == old(HeldTail(f))
    {
      hide Ring, BucketOk, RecordOk, FindIn, HashFd;
      FrameStep(size, data, buffer);
      var need := size - |data|;
      if |buffer| < need {
        PartOk(fd, size, data + buffer);
        SaveUncomplete(Uncomplete(fd, size, data + buffer, |data| + |buffer|, 0));
        return Nothing;
      }
      CutData(size, data, buffer);
      if |buffer| == need {
        NoTail(fd, buffer[need..]);
        return Data(data + buffer[..need]);
      }
      ghost var was := Contents();
      PushData(fd, data + buffer[..need]);
      OneMore(fd, was, data + buffer[..need], Deframe(buffer[need..]).0);
      PushMore(fd, buffer[need..]);
      MoreOutcome(buffer[need..]);
      r := More;
    }

    /** lfilter for a data message: the stream of the socket goes on. */
    method Filter(fd: int, buffer: seq<Byte>) returns (r: Outcome)
      requires Valid() && |buffer| >= 1
      modifies this`cap, this`head, this`tail, this`queue, queue, hash, this`stream, this`emitted
      ensures Valid() && (queue == old(queue) || fresh(queue))
      ensures var d := Deframe(old(HeldTail(fd)) + buffer);
        && stream == old(stream)[fd := At(old(stream), fd) + buffer]
        && emitted == old(emitted)[fd := At(old(emitted), fd) + d.0]
        && r == OutcomeOf(d.0, d.1)
        && Contents() == old(Contents()) + (if r.More? then Packs(fd, d.0) else [])
    {
      hide Ring, BucketOk, RecordOk, FindIn, HashFd, Deframe, NetQueue.HeldTail, NetQueue.Held;
      ghost var d := Deframe(HeldTail(fd) + buffer);
      DeframeAppend(At(stream, fd), buffer);
      r := FilterData(fd, buffer);
      stream := stream[fd := At(stream, fd) + buffer];
      emitted := emitted[fd := At(emitted, fd) + d.0];
    }

    /** lfilter for a close or an error: the partial record goes, and the stream ends. */
    method Close(fd: int)
      requires Valid()
      modifies hash, this`stream, this`emitted
      ensures Valid() && Contents() == old(Contents()) && Held(fd) == Missing
      ensures stream == old(stream)[fd := []] && emitted == old(emitted)[fd := []]
    {
      hide Ring, BucketOk, RecordOk, HashFd;
      var r := FindUncomplete(fd);
      NoTail(fd, []);
      stream := stream[fd := []];
      emitted := emitted[fd := []];
    }

    /** lpop */
    method Pop() returns (ok: bool, p: Pack1)
      requires Valid()
      modifies this`head
      ensures Valid() && ok == (old(Contents()) != [])
      ensures if ok then p == old(Contents())[0] && Contents() == old(Contents())[1..] else Contents() == []
    {
      hide Ring, BucketOk, Deframe, NetQueue.HeldTail;
      RingSize(queue[..], head, tail);
      ok, p := head != tail, Pack1(0, []);
      if ok {
        p := queue[head];
        RingPopped(queue[..], head, tail);
        head := head + 1;
        if head >= cap { head := 0; }
      }
    }
  }

  ghost function At<T>(m: map<int, seq<T>>, fd: int): seq<T> { if fd in m then m[fd] else [] }

  lemma {:induction false} MissingIds(l: seq<Uncomplete>, fd: int)
    requires FindIn(l, fd) == Missing
    ensures forall k :: 0 <= k < |l| ==> l[k].id != fd
  {
    if l != [] {
      MissingIds(l[1..], fd);
      forall k | 0 <= k < |l| ensures l[k].id != fd { if k > 0 { assert l[1..][k - 1] == l[k]; } }
    }
  }

  lemma ConsOk(l: seq<Uncomplete>, u: Uncomplete, h: nat)
    requires BucketOk(l, h) && RecordOk(u) && HashFd(u.id) == h && forall k :: 0 <= k < |l| ==> l[k].id != u.id
    ensures BucketOk([u] + l, h) && forall f :: FindIn([u] + l, f) == if f == u.id then Found(u) else FindIn(l, f)
  {
    assert ([u] + l)[1..] == l;
  }
}
