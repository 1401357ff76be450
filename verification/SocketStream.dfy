/**
 * Packets, buffers and the byte stream of a socket's sending side (skynet-src/socket_server.c):
 * what is left of a list, the order of packets by priority, and how the log of all writes reads.
 */
module SocketStream {

  type Byte = bv8

  datatype Priority = High | Low

  datatype Packet = Packet(prio: Priority, data: seq<Byte>)

  /** A write_buffer: `off` bytes of the packet are written. */
  datatype Buf = Buf(p: Packet, off: nat)

  datatype Option<T> = None | Some(value: T)

  datatype Request = Data(p: Packet) | Close(shutdown: bool)

  function Min(a: nat, b: nat): nat { if a < b then a else b }

  // ---------------------------------------------------------------- packets and bytes

  function Flatten(ps: seq<Packet>): seq<Byte> {
    if ps == [] then [] else ps[0].data + Flatten(ps[1..])
  }

  lemma {:induction false} FlattenAppend(a: seq<Packet>, b: seq<Packet>)
    ensures Flatten(a + b) == Flatten(a) + Flatten(b)
  {
    if a == [] { assert a + b == b; }
    else { assert (a + b)[1..] == a[1..] + b; FlattenAppend(a[1..], b); }
  }

  /** The bytes of a list still to be written. */
  function Rest(l: seq<Buf>): seq<Byte>
    requires InBounds(l)
  {
    if l == [] then [] else l[0].p.data[l[0].off..] + Rest(l[1..])
  }

  predicate InBounds(l: seq<Buf>) { forall k :: 0 <= k < |l| ==> l[k].off <= |l[k].p.data| }

  /** Nothing of the list has been written yet. */
  predicate Unsent(l: seq<Buf>) { forall k :: 0 <= k < |l| ==> l[k].off == 0 }

  lemma RestHead(l: seq<Buf>)
    requires InBounds(l) && l != []
    ensures InBounds(l[1..]) && Rest(l) == l[0].p.data[l[0].off..] + Rest(l[1..])
  {
  }

  lemma {:induction false} RestAppend(a: seq<Buf>, b: seq<Buf>)
    requires InBounds(a) && InBounds(b)
    ensures InBounds(a + b) && Rest(a + b) == Rest(a) + Rest(b)
  {
    if a == [] { assert a + b == b; }
    else {
      hide Rest;
      RestAppend(a[1..], b);
      RestHead(a);
      RestHead(a + b);
      assert (a + b)[1..] == a[1..] + b;
      Regroup(a[0].p.data[a[0].off..], Rest(a[1..]), Rest(b));
    }
  }

  function Packets(l: seq<Buf>): (r: seq<Packet>)
    ensures |r| == |l| && forall k :: 0 <= k < |l| ==> r[k] == l[k].p
  {
    seq(|l|, k requires 0 <= k < |l| => l[k].p)
  }

  function PipePackets(pipe: seq<Request>): seq<Packet> {
    if pipe == [] then []
    else PipeOne(pipe[0]) + PipePackets(pipe[1..])
  }

  function PipeOne(r: Request): seq<Packet> { if r.Data? then [r.p] else [] }

  lemma PipeHead(pipe: seq<Request>)
    requires pipe != []
    ensures PipePackets(pipe) == PipeOne(pipe[0]) + PipePackets(pipe[1..])
  {
  }

  lemma {:induction false} PipeAppend(pipe: seq<Request>, r: Request)
    ensures PipePackets(pipe + [r]) == PipePackets(pipe) + PipeOne(r)
  {
    if pipe == [] { assert [r][1..] == []; assert pipe + [r] == [r]; }
    else {
      PipeAppend(pipe[1..], r);
      PipeHead(pipe);
      PipeHead(pipe + [r]);
      assert (pipe + [r])[1..] == pipe[1..] + [r];
      Regroup(PipeOne(pipe[0]), PipePackets(pipe[1..]), PipeOne(r));
    }
  }

  lemma PacketsHead(l: seq<Buf>)
    requires l != []
    ensures Packets(l) == [l[0].p] + Packets(l[1..])
  {
  }

  lemma PacketsAppend(a: seq<Buf>, b: seq<Buf>)
    ensures Packets(a + b) == Packets(a) + Packets(b)
  {
  }

  /** The packets of one priority, in order. */
  function Of(ps: seq<Packet>, c: Priority): seq<Packet> {
    if ps == [] then [] else (if ps[0].prio == c then [ps[0]] else []) + Of(ps[1..], c)
  }

  function OfOne(p: Packet, c: Priority): seq<Packet> { if p.prio == c then [p] else [] }

  lemma OfHead(ps: seq<Packet>, c: Priority)
    requires ps != []
    ensures Of(ps, c) == OfOne(ps[0], c) + Of(ps[1..], c)
  {
  }

  lemma Regroup<T>(a: seq<T>, b: seq<T>, c: seq<T>)
    ensures a + (b + c) == (a + b) + c
  {
  }

  lemma {:induction false} OfAppend(a: seq<Packet>, b: seq<Packet>, c: Priority)
    ensures Of(a + b, c) == Of(a, c) + Of(b, c)
  {
    if a == [] { assert a + b == b; }
    else {
      OfAppend(a[1..], b, c);
      OfHead(a, c);
      OfHead(a + b, c);
      assert (a + b)[1..] == a[1..] + b;
      Regroup(OfOne(a[0], c), Of(a[1..], c), Of(b, c));
    }
  }

  lemma {:induction false} OfNone(a: seq<Packet>, c: Priority)
    requires forall k :: 0 <= k < |a| ==> a[k].prio != c
    ensures Of(a, c) == []
  {
    if a != [] { OfNone(a[1..], c); }
  }

  /** The same packets of either priority in the same order. */
  ghost predicate SameOrder(a: seq<Packet>, b: seq<Packet>) { forall c :: Of(a, c) == Of(b, c) }

  /** A packet may overtake packets of lower priority only. */
  lemma {:induction false} Overtakes(a: seq<Packet>, p: Packet, low: seq<Packet>, b: seq<Packet>)
    requires p.prio.High? && forall k :: 0 <= k < |low| ==> low[k].prio.Low?
    ensures SameOrder(a + low + [p] + b, a + [p] + low + b)
  {
    forall c ensures Of(a + low + [p] + b, c) == Of(a + [p] + low + b, c) {
      OfAppend(a + low + [p], b, c);
      OfAppend(a + low, [p], c);
      OfAppend(a, low, c);
      OfAppend(a + [p] + low, b, c);
      OfAppend(a + [p], low, c);
      OfAppend(a, [p], c);
      if c.High? { OfNone(low, c); } else { OfNone([p], c); }
      assert Of(a, c) + [] == Of(a, c);
    }
  }

  lemma {:induction false} SameOrderAppend(a: seq<Packet>, b: seq<Packet>, p: seq<Packet>)
    requires SameOrder(a, b)
    ensures SameOrder(a + p, b + p)
  {
    forall c ensures Of(a + p, c) == Of(b + p, c) { OfAppend(a, p, c); OfAppend(b, p, c); }
  }

  lemma SameOrderCons(p: seq<Packet>, a: seq<Packet>, b: seq<Packet>)
    requires SameOrder(a, b)
    ensures SameOrder(p + a, p + b)
  {
    forall c ensures Of(p + a, c) == Of(p + b, c) { OfAppend(p, a, c); OfAppend(p, b, c); }
  }

  /** The same packets in all: how many there are, and which. */
  lemma {:induction false} OfAll(a: seq<Packet>)
    ensures multiset(a) == multiset(Of(a, High)) + multiset(Of(a, Low))
  {
    hide Of;
    if a != [] {
      OfAll(a[1..]);
      OfHead(a, High);
      OfHead(a, Low);
      AddOne(a, a[0], a[1..], OfOne(a[0], High), OfOne(a[0], Low), Of(a[1..], High), Of(a[1..], Low));
    } else {
      OfNone(a, High);
      OfNone(a, Low);
    }
  }

  lemma AddOne(a: seq<Packet>, x: Packet, t: seq<Packet>, xh: seq<Packet>, xl: seq<Packet>, h: seq<Packet>, l: seq<Packet>)
    requires a == [x] + t && multiset(t) == multiset(h) + multiset(l) && multiset(xh) + multiset(xl) == multiset([x])
    ensures multiset(a) == multiset(xh + h) + multiset(xl + l)
  {
  }

  lemma SameOrderSame(a: seq<Packet>, b: seq<Packet>)
    requires SameOrder(a, b)
    ensures multiset(a) == multiset(b) && |a| == |b|
  {
    OfAll(a);
    OfAll(b);
    assert |multiset(a)| == |a| && |multiset(b)| == |b|;
  }

  // ---------------------------------------------------------------- lists of buffers

  /** One list while it is being sent. */
  ghost predicate ListOk(l: seq<Buf>) { InBounds(l) && (l != [] ==> Unsent(l[1..])) }

  predicate AllLow(l: seq<Buf>) { forall k :: 0 <= k < |l| ==> l[k].p.prio.Low? }

  /** The head of a list after `sz` more of its bytes are written. */
  function Advance(l: seq<Buf>, sz: nat): seq<Buf>
    requires l != []
  {
    [Buf(l[0].p, l[0].off + sz)] + l[1..]
  }

  lemma CutHere(d: seq<Byte>, o: nat, n: nat)
    requires o + n <= |d|
    ensures d[..o + n] == d[..o] + d[o..o + n] && d[o..] == d[o..o + n] + d[o + n..]
  {
  }

  /** A write() of n bytes stops short of the end of the head. */
  predicate Short(l: seq<Buf>, n: nat) { l != [] && l[0].off + n < |l[0].p.data| }

  /** A write() of `sz` bytes of the head. */
  lemma WrotePart(l: seq<Buf>, sz: nat)
    requires ListOk(l) && l != [] && l[0].off + sz <= |l[0].p.data|
    ensures var l2 := Advance(l, sz);
      && ListOk(l2) && Rest(l) == l[0].p.data[l[0].off..l[0].off + sz] + Rest(l2) && |Rest(l)| == |Rest(l2)| + sz
      && Packets(l2) == Packets(l)
  {
    var d, o := l[0].p.data, l[0].off;
    assert Advance(l, sz)[1..] == l[1..];
    CutHere(d, o, sz);
    Regroup(d[o..o + sz], d[o + sz..], Rest(l[1..]));
    PacketsHead(l);
    PacketsHead(Advance(l, sz));
  }

  /** The whole packet is written. */
  lemma WroteWhole(done: seq<Packet>, l: seq<Buf>)
    requires ListOk(l) && l != [] && l[0].off == |l[0].p.data|
    ensures ListOk(l[1..]) && Rest(l[1..]) == Rest(l)
    ensures (done + [l[0].p]) + Packets(l[1..]) == done + Packets(l)
  {
    PacketsHead(l);
    Regroup(done, [l[0].p], Packets(l[1..]));
  }

  // ---------------------------------------------------------------- the stream

  /** What one write() took: data[from..to] of a packet. */
  datatype Piece = Piece(p: Packet, from: nat, to: nat)

  ghost predicate PiecesOk(log: seq<Piece>) { forall k :: 0 <= k < |log| ==> log[k].from <= log[k].to <= |log[k].p.data| }

  /** The stream: all that write() has taken. */
  function Bytes(log: seq<Piece>): seq<Byte>
    requires PiecesOk(log)
  {
    if log == [] then [] else var x := log[|log| - 1]; Bytes(log[..|log| - 1]) + x.p.data[x.from..x.to]
  }

  /**
   * How the stream reads: whole packets and part of at most one, or, when a packet begins before
   * the last is complete, broken.
   */
  datatype Reading = Broken | Clean(done: seq<Packet>, open: Option<Buf>)

  function ReadPiece(r: Reading, x: Piece): Reading {
    match r
    case Broken => Broken
    case Clean(done, open) =>
      if x.from == x.to then Clean(if x.p.data == [] then done + [x.p] else done, open)
      else if (open.None? && x.from == 0) || open == Some(Buf(x.p, x.from)) then
        if x.to == |x.p.data| then Clean(done + [x.p], None) else Clean(done, Some(Buf(x.p, x.to)))
      else Broken
  }

  function Read(log: seq<Piece>): Reading {
    if log == [] then Clean([], None) else ReadPiece(Read(log[..|log| - 1]), log[|log| - 1])
  }

  lemma ReadMore(log: seq<Piece>, x: Piece)
    ensures Read(log + [x]) == ReadPiece(Read(log), x)
    ensures PiecesOk(log) && x.from <= x.to <= |x.p.data| ==>
      PiecesOk(log + [x]) && Bytes(log + [x]) == Bytes(log) + x.p.data[x.from..x.to]
  {
    assert (log + [x])[..|log|] == log;
  }

  /** What of a packet is on the wire. */
  function OpenBytes(b: Option<Buf>): seq<Byte> {
    if b.Some? then b.value.p.data[..Min(b.value.off, |b.value.p.data|)] else []
  }

  /** A clean stream is, byte for byte, the whole packets and the written part of the open one. */
  lemma {:induction false} CleanBytes(log: seq<Piece>)
    requires PiecesOk(log) && Read(log).Clean?
    ensures var r := Read(log);
      && (r.open.Some? ==> 0 < r.open.value.off < |r.open.value.p.data|)
      && Bytes(log) == Flatten(r.done) + OpenBytes(r.open)
  {
    if log != [] {
      var was, x := log[..|log| - 1], log[|log| - 1];
      assert PiecesOk(was);
      CleanBytes(was);
      OnePiece(Bytes(was), Read(was).done, Read(was).open, x);
    }
  }

  lemma OnePiece(bytes: seq<Byte>, done: seq<Packet>, open: Option<Buf>, x: Piece)
    requires x.from <= x.to <= |x.p.data|
    requires open.Some? ==> 0 < open.value.off < |open.value.p.data|
    requires bytes == Flatten(done) + OpenBytes(open)
    ensures var r := ReadPiece(Clean(done, open), x); r.Clean? ==>
      && (r.open.Some? ==> 0 < r.open.value.off < |r.open.value.p.data|)
      && bytes + x.p.data[x.from..x.to] == Flatten(r.done) + OpenBytes(r.open)
  {
    hide Flatten;
    var d := x.p.data;
    FlattenOne(done, x.p);
    if x.from == x.to {
      assert d[x.from..x.to] == [] && bytes + [] == bytes;
      assert d == [] ==> Flatten(done + [x.p]) == Flatten(done);
    } else if (open.None? && x.from == 0) || open == Some(Buf(x.p, x.from)) {
      CutHere(d, x.from, x.to - x.from);
      Regroup(Flatten(done), d[..x.from], d[x.from..x.to]);
      assert bytes == Flatten(done) + d[..x.from];
      assert d[..|d|] == d;
    }
  }

  lemma FlattenOne(done: seq<Packet>, p: Packet)
    ensures Flatten(done + [p]) == Flatten(done) + p.data
  {
    FlattenAppend(done, [p]);
    assert [p][1..] == [];
  }

  /** A buffer or the head of a list, when it is written in part. */
  function OpenBuf(b: Option<Buf>): Option<Buf> { if b.Some? && b.value.off > 0 then b else None }

  function Opened(l: seq<Buf>): Option<Buf> { if l != [] && l[0].off > 0 then Some(l[0]) else None }

  /** The log tells of whole packets and of the list that is being written. */
  ghost predicate Wired(log: seq<Piece>, done: seq<Packet>, l: seq<Buf>) {
    PiecesOk(log) && Read(log) == Clean(done, Opened(l))
  }

  /** Writing on at the head of the list. */
  lemma LogHead(log: seq<Piece>, done: seq<Packet>, l: seq<Buf>, sz: nat)
    requires Wired(log, done, l) && ListOk(l) && l != [] && l[0].off + sz <= |l[0].p.data|
    ensures var b, l2 := l[0], Advance(l, sz); var log2 := log + [Piece(b.p, b.off, b.off + sz)];
      && PiecesOk(log2) && Bytes(log2) == Bytes(log) + b.p.data[b.off..b.off + sz]
      && if l2[0].off == |b.p.data| then Wired(log2, done + [b.p], l2[1..]) else Wired(log2, done, l2)
  {
    CleanBytes(log);
    hide Bytes, Flatten, Read;
    var b := l[0];
    ReadMore(log, Piece(b.p, b.off, b.off + sz));
    assert Advance(l, sz)[1..] == l[1..];
    assert Opened(l[1..]) == None;
  }

  /** A direct write of the first n bytes of a packet. */
  lemma LogDirect(log: seq<Piece>, done: seq<Packet>, open: Option<Buf>, p: Packet, n: nat)
    requires PiecesOk(log) && Read(log) == Clean(done, open) && n <= |p.data|
    ensures var log2 := log + [Piece(p, 0, n)];
      && PiecesOk(log2) && Bytes(log2) == Bytes(log) + p.data[..n]
      && (open.Some? && n > 0 ==> Read(log2) == Broken)
      && (open.Some? && n == 0 ==> Read(log2) == Clean(if p.data == [] then done + [p] else done, open))
      && (open.None? ==> Read(log2) == if n == |p.data| then Clean(done + [p], None) else Clean(done, OpenBuf(Some(Buf(p, n)))))
  {
    CleanBytes(log);
    ReadMore(log, Piece(p, 0, n));
  }

  lemma LogBroken(log: seq<Piece>, p: Packet, n: nat)
    requires PiecesOk(log) && Read(log) == Broken && n <= |p.data|
    ensures var log2 := log + [Piece(p, 0, n)]; PiecesOk(log2) && Bytes(log2) == Bytes(log) + p.data[..n] && Read(log2) == Broken
  {
    ReadMore(log, Piece(p, 0, n));
  }

  lemma LowPackets(l: seq<Buf>)
    requires AllLow(l)
    ensures forall k :: 0 <= k < |Packets(l)| ==> Packets(l)[k].prio.Low?
  {
  }

  lemma HeadInBounds(l: seq<Buf>)
    requires ListOk(l) && l != []
    ensures l[0].off <= |l[0].p.data|
  {
  }

  lemma RestOne(b: Buf)
    requires b.off <= |b.p.data|
    ensures Rest([b]) == b.p.data[b.off..] && |Rest([b])| == |b.p.data| - b.off
  {
    assert [b][1..] == [];
  }

  /** What comes after is not affected. */
  lemma Joined<T>(a: seq<T>, b: seq<T>, a2: seq<T>, b2: seq<T>, c: seq<T>)
    requires a + b == a2 + b2
    ensures a + (b + c) == a2 + (b2 + c)
  {
    assert a + (b + c) == (a + b) + c;
    assert a2 + (b2 + c) == (a2 + b2) + c;
  }

  /** list_uncomplete */
  predicate ListUncomplete(l: seq<Buf>) { l != [] && l[0].off != 0 }

  lemma NoneSent(l: seq<Buf>)
    requires ListOk(l) && !ListUncomplete(l)
    ensures Unsent(l)
  {
    if l != [] {
      forall k | 0 <= k < |l| ensures l[k].off == 0 { if k > 0 { assert l[1..][k - 1] == l[k]; } }
    }
  }

  lemma UnsentHead(l: seq<Buf>)
    requires Unsent(l)
    ensures !ListUncomplete(l) && Opened(l) == None && (InBounds(l) ==> ListOk(l))
  {
  }

  /** Moving the head of the low list changes neither what is left nor its order. */
  lemma Raised(l: seq<Buf>)
    requires ListOk(l) && l != []
    ensures ListOk([l[0]]) && InBounds(l[1..]) && Unsent(l[1..]) && Opened([l[0]]) == Opened(l)
    ensures Rest([l[0]]) + Rest(l[1..]) == Rest(l) && Packets([l[0]]) + Packets(l[1..]) == Packets(l)
  {
    assert [l[0]] + l[1..] == l;
    RestAppend([l[0]], l[1..]);
    PacketsAppend([l[0]], l[1..]);
  }

  lemma Nothing()
    ensures Rest([]) == [] && Packets([]) == [] && ListOk([]) && Opened([]) == None
  {
  }

  /** A buffer put before an untouched list. */
  lemma PutFirst(b: Buf, l: seq<Buf>)
    requires b.off <= |b.p.data| && InBounds(l) && Unsent(l)
    ensures ListOk([b] + l) && Opened([b] + l) == Opened([b]) == OpenBuf(Some(b))
    ensures Rest([b] + l) == Rest([b]) + Rest(l) && |Rest([b])| == |b.p.data| - b.off
    ensures Packets([b] + l) == [b.p] + Packets(l)
  {
    assert ([b] + l)[1..] == l;
    RestAppend([b], l);
    RestOne(b);
    PacketsHead([b] + l);
  }

  /** An untouched packet at the end of a list. */
  lemma NewLast(l: seq<Buf>, p: Packet)
    requires InBounds(l)
    ensures var l2 := l + [Buf(p, 0)];
      && InBounds(l2) && Rest(l2) == Rest(l) + p.data && Opened(l2) == Opened(l)
      && (ListOk(l) ==> ListOk(l2)) && (Unsent(l) ==> Unsent(l2)) && (AllLow(l) && p.prio.Low? ==> AllLow(l2))
      && Packets(l2) == Packets(l) + [p]
  {
    var l2 := l + [Buf(p, 0)];
    RestAppend(l, [Buf(p, 0)]);
    RestOne(Buf(p, 0));
    PacketsAppend(l, [Buf(p, 0)]);
    assert Packets([Buf(p, 0)]) == [p];
    if l != [] { assert l2[1..] == l[1..] + [Buf(p, 0)]; }
  }

  /** Where send_socket puts a packet: behind the high list, or behind the low one. */
  predicate ToHigh(high: seq<Buf>, low: seq<Buf>, connected: bool, p: Packet) { (high == [] && low == [] && connected) || p.prio.High? }

  /** Wherever it goes, the packets of each priority are in the order in which they came. */
  lemma QueuedUp(high: seq<Buf>, low: seq<Buf>, connected: bool, p: Packet)
    requires AllLow(low)
    ensures var b := [Buf(p, 0)];
      if ToHigh(high, low, connected, p)
      then SameOrder(Packets(high + b) + Packets(low), Packets(high) + Packets(low) + [p])
      else SameOrder(Packets(high) + Packets(low + b), Packets(high) + Packets(low) + [p])
  {
    hide Of;
    var b := [Buf(p, 0)];
    PacketsAppend(high, b);
    PacketsAppend(low, b);
    assert Packets(b) == [p];
    if ToHigh(high, low, connected, p) {
      if low == [] {
        assert Packets(high) + [p] + Packets(low) == Packets(high) + Packets(low) + [p];
      } else {
        LowPackets(low);
        Overtakes(Packets(high), p, Packets(low), []);
        assert Packets(high) + Packets(low) + [p] + [] == Packets(high) + Packets(low) + [p];
        assert Packets(high) + [p] + Packets(low) + [] == Packets(high) + [p] + Packets(low);
      }
    } else {
      Regroup(Packets(high), Packets(low), [p]);
    }
  }
}
