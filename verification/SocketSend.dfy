/**
 * The sending side of one TCP socket (skynet-src/socket_server.c): the high and low list, direct
 * writes by other threads, requests through the control pipe, and closing. Each method is one step
 * of the socket thread or of a sender, so that methods may be called in any order. What the socket
 * thread does under dw_lock is one step, as nobody else reads or writes what it changes there and
 * goes on with it; a sender's reads before and under dw_lock are steps of their own, and so are the
 * two halves of force_close.
 */
module SocketSend {
  import opened SocketStream

  datatype SocketType = Connecting | Connected | HalfClose | Invalid

  /** What write() does: some bytes are taken, or it has to be tried again, or it fails for good. */
  datatype WriteResult = Wrote(n: nat) | Interrupted | WouldBlock | Failed

  /** MustClose: the socket thread goes on to force_close. */
  datatype Outcome = Ignore | Closed | MustClose

  const MAX_SENDING: nat := 0xffff

  /** can_direct_write reads high.head, low.head, dw_buffer, sending and type, in this order. */
  const READS: nat := 5

  /** dw_lock, as far as senders hold it: in the second can_direct_write, or about to write. */
  datatype Lock = Free | Checking(p: Packet, next: nat) | Writing(p: Packet)

  /** socket_server_send before dw_lock: its next read, or, after all of them, about to try the lock. */
  datatype Call = Call(p: Packet, next: nat)

  /** What a sender may do; a step that is not enabled does nothing. */
  datatype SenderStep = Start(a: nat, p: Packet) | Look(a: nat, seen: bool) | Try(a: nat) | LookLocked | Write(w: WriteResult) | Inc | Put(p: Packet)

  /** What anybody may do: a sender, or the socket thread with a request, a list, or a close. */
  datatype AnyStep = By(s: SenderStep) | DataCommand | SendOn(os: seq<WriteResult>) | CloseCommand(os: seq<WriteResult>) | Begin | Finish

  /** A step that others than sender `a` can make; with `locked` it has dw_lock. */
  predicate Others(step: AnyStep, a: nat, locked: bool) {
    step.By? ==>
      && !(step.s.Start? && step.s.a == a) && !(step.s.Look? && step.s.a == a) && !(step.s.Try? && step.s.a == a)
      && !(locked && (step.s.LookLocked? || step.s.Write?))
  }

  /** The packet of a direct write, accepted or left over. */
  function Hand(lock: Lock, dw: Option<Buf>): seq<Packet> {
    (if lock.Writing? then [lock.p] else []) + (if dw.Some? then [dw.value.p] else [])
  }

  /** What was accepted when a call began still is, and it is out of the pipe once the call has read `sending`. */
  ghost predicate Began(next: nat, start: seq<Packet>, accepted: seq<Packet>, taken: seq<Packet>) {
    multiset(start) <= multiset(accepted) && (next >= 4 ==> multiset(start) <= multiset(taken))
  }

  class Socket {
    var typ: SocketType
    var high: seq<Buf>
    var low: seq<Buf>
    var wbSize: int
    var sending: nat             // the low 16 bits: requests on their way through the pipe
    var dw: Option<Buf>          // dw_buffer and dw_offset
    var lock: Lock
    var calls: map<nat, Call>
    var closing: bool            // force_close has freed the lists and waits for dw_lock
    var pipe: seq<Request>
    var waiting: nat             // senders that have counted themselves but not yet sent their request
    ghost var log: seq<Piece>            // everything write() has taken
    ghost var done: seq<Packet>          // packets written whole
    ghost var taken: seq<Packet>         // packets accepted and out of the pipe, in the order of acceptance
    ghost var starts: map<nat, seq<Packet>>  // what was accepted when a call began
    ghost var since: seq<Packet>         // the same for the call that holds dw_lock
    ghost var mark: nat                  // |taken| when that call, under dw_lock, read the high list
    ghost var dropped: seq<Packet>       // the packets of the lists that force_close freed
    ghost var cut: Option<Buf>           // their head, if written in part
    ghost var lost: Option<Buf>          // the remainder of a direct write that force_close freed
    ghost var torn: bool                 // a direct write went on the wire behind part of a packet

    /** force_close has not begun. */
    ghost predicate Alive()
      reads `typ, `closing
    {
      !closing && !typ.Invalid?
    }

    ghost predicate Open()
      reads `typ, `closing
    {
      (typ.Connecting? || typ.Connected?) && !closing
    }

    /** The buffer that may be written in part: a direct write's remainder, or the head of the high list. */
    ghost function Front(): seq<Buf>
      reads `dw, `high
    {
      if dw.Some? then [dw.value] else high
    }

    /** What of a packet is on the wire, but not all of it. */
    ghost function OpenPart(): Option<Buf>
      reads `typ, `closing, `cut, `lost, `dw, `high
    {
      if closing || typ.Invalid? then (if cut.Some? then cut else OpenBuf(if closing then dw else lost)) else Opened(Front())
    }

    /** The packets not yet written whole, in the order in which they will be. */
    ghost function Queue(): seq<Packet>
      reads `lock, `dw, `high, `low
    {
      Hand(lock, dw) + (Packets(high) + Packets(low))
    }

    /** The bytes still to be written, in order. */
    ghost function Remaining(): seq<Byte>
      requires InBounds(Front()) && InBounds(high) && InBounds(low)
      reads `dw, `high, `low
    {
      (if dw.Some? then Rest(Front()) else []) + (Rest(high) + Rest(low))
    }

    /** What has been written and what is still to be. */
    ghost function Stream(): seq<Byte>
      reads `log, `dw, `high, `low
    {
      if PiecesOk(log) && InBounds(Front()) && InBounds(high) && InBounds(low) then Bytes(log) + Remaining() else []
    }

    /** All packets accepted, in order: those of direct writes and those of requests. */
    ghost function Accepted(): seq<Packet>
      reads `taken, `pipe
    {
      taken + PipePackets(pipe)
    }

    /** What can_direct_write wants of its k-th read. */
    predicate Sees(k: nat)
      reads `high, `low, `dw, `sending, `typ
    {
      if k == 0 then high == [] else if k == 1 then low == [] else if k == 2 then dw.None?
      else if k == 3 then sending == 0 else typ.Connected?
    }

    ghost predicate ListsOk()
      reads `high, `low, `dw
    {
      && ListOk(high) && InBounds(low) && Unsent(low) && AllLow(low)
      && (dw.Some? ==> dw.value.off <= |dw.value.p.data| && Unsent(high) && dw.value.p.prio.High?)
    }

    ghost predicate LockOk()
      reads `lock, `high, `dw, `typ, `closing, `done, `since
    {
      && (lock.Writing? && Open() ==> multiset(since) <= multiset(done))
      && (lock.Writing? ==> dw.None? && Unsent(high) && lock.p.prio.High? && !typ.Invalid? && !typ.Connecting?)
      && (lock.Checking? ==> lock.p.prio.High? && lock.next < READS && !typ.Connecting?)
      && (lock.Checking? && lock.next >= 1 ==> Unsent(high))
      && (lock.Checking? && lock.next >= 3 ==> dw.None?)
      && (typ.Connecting? ==> dw.None?)
    }

    ghost predicate CallsOk()
      reads `calls, `starts, `typ
    {
      forall a :: a in calls ==>
        calls[a].p.prio.High? && calls[a].next <= READS && a in starts && (calls[a].next == READS ==> !typ.Connecting?)
    }

    ghost predicate CountsOk()
      reads `sending, `waiting, `pipe
    {
      sending == waiting + |PipePackets(pipe)| && sending <= MAX_SENDING
    }

    ghost predicate SizeOk()
      reads `wbSize, `high, `low, `typ, `closing
    {
      Alive() && InBounds(high) && InBounds(low) ==> wbSize == |Rest(high)| + |Rest(low)|
    }

    ghost predicate EndOk()
      reads `closing, `typ, `high, `low, `dw
    {
      && (closing || typ.Invalid? ==> high == [] && low == [])
      && (closing ==> !typ.Invalid?)
      && (typ.Invalid? ==> dw.None?)
    }

    /** How the stream reads: broken if torn, and else whole packets and the open part. */
    ghost predicate StreamOk()
      reads `log, `torn, `done, `typ, `closing, `cut, `lost, `dw, `high
    {
      && PiecesOk(log) && Read(log) == (if torn then Broken else Clean(done, OpenPart()))
      && (Alive() ==> !torn && cut.None?)
      && (cut.Some? ==> cut.value.off > 0)
    }

    /** Each priority is written in the order of acceptance; no packet gets lost but those that closing drops. */
    ghost predicate OrderOk()
      reads `typ, `closing, `taken, `done, `lock, `dw, `high, `low, `dropped, `lost
    {
      if Alive() then SameOrder(taken, done + Queue())
      else
        && multiset(taken) == multiset(done) + multiset(dropped) + multiset(Left())
        && (dropped == [] ==> SameOrder(taken, done + Left()))
    }

    ghost function Left(): seq<Packet>
      reads `typ, `lock, `dw, `lost
    {
      if typ.Invalid? then Hand(Free, lost) else Hand(lock, dw)
    }

    /**
     * The lists have been seen empty under dw_lock: what was taken by then is written, but for a
     * remainder in dw_buffer; what was taken since is in the lists.
     */
    ghost predicate SeenEmpty()
      reads `taken, `done, `dw, `high, `low, `mark, `since
    {
      && mark <= |taken|
      && SameOrder(taken[..mark], done + Hand(Free, dw)) && SameOrder(taken[mark..], Packets(high) + Packets(low))
      && multiset(since) <= multiset(taken[..mark])
    }

    ghost predicate MarkOk()
      reads `typ, `closing, `lock, `taken, `done, `dw, `high, `low, `mark, `since
    {
      Open() && lock.Checking? && (lock.next >= 2 || (lock.next == 1 && low == [])) ==> SeenEmpty()
    }

    /** Nothing that was accepted before a call is in the pipe any more once the call has read `sending`. */
    ghost predicate BeforeOk()
      reads `typ, `closing, `calls, `starts, `taken, `pipe, `lock, `since
    {
      Open() ==>
        && (forall a :: a in calls && a in starts ==> Began(calls[a].next, starts[a], Accepted(), taken))
        && (lock.Checking? ==> multiset(since) <= multiset(taken))
    }

    ghost predicate Valid()
      reads this
    {
      && ListsOk() && LockOk() && CallsOk() && CountsOk() && SizeOk() && EndOk()
      && StreamOk() && OrderOk() && MarkOk() && BeforeOk()
    }

    /** new_fd, for an outgoing connection that is still being made or is already. */
    constructor (connected: bool)
      ensures Valid() && Open() && done == [] && taken == [] && log == [] && pipe == []
      ensures typ.Connected? == connected && high == [] && low == [] && dw.None? && lock.Free? && calls == map[] && sending == 0
    {
      typ := if connected then Connected else Connecting;
      high, low, wbSize, sending, dw, lock, calls, closing, pipe := [], [], 0, 0, None, Free, map[], false, [];
      log, done, taken, waiting, starts, since, mark := [], [], [], 0, map[], [], 0;
      dropped, cut, lost, torn := [], None, None, false;
    }

    // -------------------------------------------------------------- sending

    /** One successful write() of the head of a list. */
    method WriteHead(list: seq<Buf>, n: nat, ghost after: nat) returns (left: seq<Buf>, whole: bool)
      requires ListOk(list) && list != [] && Wired(log, done, list) && wbSize == |Rest(list)| + after
      modifies this`wbSize, this`log, this`done
      ensures ListOk(left) && Wired(log, done, left) && wbSize == |Rest(left)| + after
      ensures Bytes(log) + Rest(left) == old(Bytes(log)) + Rest(list) && done + Packets(left) == old(done) + Packets(list)
      ensures |left| == if whole then |list| - 1 else |list|
      ensures AllLow(list) ==> AllLow(left)
      ensures Short(list, n) ==> !whole && left == Advance(list, n)
    {
      hide Rest, Wired, ListOk, Bytes, Packets, PiecesOk;
      var b := list[0];
      WiredPieces(log, done, list);
      HeadInBounds(list);
      var sz := Min(n, |b.p.data| - b.off);
      WrotePart(list, sz);
      LogHead(log, done, list, sz);
      Regroup(Bytes(log), b.p.data[b.off..b.off + sz], Rest(Advance(list, sz)));
      log := log + [Piece(b.p, b.off, b.off + sz)];
      wbSize := wbSize - sz;
      left := Advance(list, sz);
      whole := left[0].off == |b.p.data|;
      if whole {
        WroteWhole(done, left);
        left := left[1..];
        done := done + [b.p];
      }
      WiredPieces(log, done, left);
    }

    /**
     * send_list_tcp: write a list as far as the system takes it. Only the packets written whole
     * leave the list. After a failure the caller closes the socket.
     */
    method SendListTcp(list: seq<Buf>, os: seq<WriteResult>, ghost after: nat) returns (left: seq<Buf>, os2: seq<WriteResult>, failed: bool)
      requires ListOk(list) && Wired(log, done, list) && wbSize == |Rest(list)| + after
      modifies this`wbSize, this`log, this`done
      ensures ListOk(left) && Wired(log, done, left) && wbSize == |Rest(left)| + after
      ensures Bytes(log) + Rest(left) == old(Bytes(log)) + Rest(list)
      ensures done + Packets(left) == old(done) + Packets(list)
      ensures AllLow(list) ==> AllLow(left)
      ensures os != [] && os[0].Wrote? && Short(list, os[0].n) ==> !failed && left == Advance(list, os[0].n)
    {
      hide Rest, AllLow, Packets, Bytes, Read;
      left, os2, failed := list, os, false;
      while left != []
        invariant ListOk(left) && Wired(log, done, left) && wbSize == |Rest(left)| + after
        invariant Bytes(log) + Rest(left) == old(Bytes(log)) + Rest(list)
        invariant done + Packets(left) == old(done) + Packets(list)
        invariant AllLow(list) ==> AllLow(left)
        invariant os != [] && os[0].Wrote? && Short(list, os[0].n) ==> left == list && os2 == os
        decreases |left|, |os2|
      {
        if os2 == [] || os2[0].WouldBlock? { return; }
        if os2[0].Failed? { failed := true; return; }
        if os2[0].Wrote? {
          var whole;
          left, whole := WriteHead(left, os2[0].n, after);
          if !whole { os2 := os2[1..]; return; }
        }
        os2 := os2[1..];
      }
    }

    /** The state in which the socket thread sends, under dw_lock. */
    ghost predicate Sending()
      reads this
    {
      lock.Free? && dw.None? && Alive() && CallsOk() && CountsOk() && BeforeOk() && !torn && cut.None?
    }

    /** force_close under the socket thread's own dw_lock; `tail` is what was being written, `rest` is freed. */
    method ForceClose(ghost tail: seq<Buf>, ghost rest: seq<Packet>)
      requires Sending() && Wired(log, done, tail) && SameOrder(taken, done + rest)
      modifies this`typ, this`high, this`low, this`cut, this`dropped, this`lost
      ensures Valid() && typ.Invalid? && cut == Opened(tail) && dropped == rest && lost.None?
    {
      hide Of, PipePackets, SameOrder, Read, Rest, Packets, BeforeOk, Hand, PiecesOk, CallsOk, Unsent, AllLow;
      DroppedAll(taken, done, rest);
      WiredPieces(log, done, tail);
      cut, dropped, lost := Opened(tail), rest, None;
      high, low, typ := [], [], Invalid;
      CallsStay();
      Ended();
    }

    /** A closed socket has little left to promise. */
    lemma Ended()
      requires typ.Invalid? && !closing && high == [] && low == [] && dw.None? && !lock.Writing? && LockOk() && CallsOk() && CountsOk()
      requires StreamOk() && OrderOk()
      ensures Valid()
    {
      hide SameOrder, Read, CallsOk, PipePackets, StreamOk, OrderOk, LockOk;
    }

    twostate lemma CallsStay()
      requires old(CallsOk()) && calls == old(calls) && starts == old(starts) && (typ.Connecting? ==> old(typ).Connecting?)
      ensures CallsOk()
    {
    }

    /** Without a direct write the two lists are all there is. */
    lemma TwoLists()
      requires lock.Free? && dw.None?
      ensures Queue() == Packets(high) + Packets(low)
      ensures InBounds(high) && InBounds(low) ==> Remaining() == Rest(high) + Rest(low)
      ensures high == [] ==> Queue() == Packets(low)
      ensures high == [] && InBounds(low) ==> Remaining() == Rest(low)
    {
    }

    /** Step 1 of send_buffer_. */
    method SendHigh(os: seq<WriteResult>) returns (os2: seq<WriteResult>, r: Outcome)
      requires Valid() && lock.Free? && dw.None? && Alive()
      modifies this`typ, this`high, this`low, this`cut, this`dropped, this`lost, this`wbSize, this`log, this`done
      ensures Valid() && (r.Closed? <==> typ.Invalid?) && (r.Ignore? <==> Alive()) && (r.Ignore? ==> typ == old(typ))
      ensures r.Ignore? ==> Stream() == old(Stream()) && done + Queue() == old(done + Queue())
      ensures os != [] && os[0].Wrote? && Short(old(high), os[0].n) ==> r.Ignore? && high == Advance(old(high), os[0].n) && low == old(low)
    {
      hide Valid, Rest, Packets, SameOrder, Bytes, Read, Queue, Remaining, PipePackets, CallsOk, BeforeOk, CountsOk, InBounds, AllLow, Unsent;
      HighStart();
      TwoLists();
      LogOk();
      ghost var high0, done0, bytes0 := high, done, Bytes(log);
      var failed;
      high, os2, failed := SendListTcp(high, os, |Rest(low)|);
      Joined(done0, Packets(high0), done, Packets(high), Packets(low));
      Joined(bytes0, Rest(high0), Bytes(log), Rest(high), Rest(low));
      if failed { ForceClose(high, Packets(high) + Packets(low)); return os2, Closed; }
      Assembled();
      TwoLists();
      LogOk();
      r := Ignore;
    }

    lemma HighStart()
      requires Valid() && lock.Free? && dw.None? && Alive()
      ensures Sending() && ListOk(high) && InBounds(high) && InBounds(low) && Unsent(low) && AllLow(low)
      ensures wbSize == |Rest(high)| + |Rest(low)| && Wired(log, done, high) && SameOrder(taken, done + (Packets(high) + Packets(low)))
    {
      hide Rest, Packets, SameOrder, Bytes, Read, PipePackets, CallsOk, BeforeOk;
      TwoLists();
    }

    /** Valid, but for the head of the low list, which may be written in part. */
    ghost predicate LowSending()
      reads this
    {
      && Sending() && high == [] && ListOk(low) && AllLow(low) && wbSize == |Rest(low)|
      && Wired(log, done, low) && SameOrder(taken, done + Packets(low)) && (typ.Connecting? ==> dw.None?)
    }

    lemma LowStart()
      requires Valid() && lock.Free? && dw.None? && Alive() && high == []
      ensures LowSending() && Queue() == Packets(low) && Remaining() == Rest(low)
    {
      hide Rest, Packets, SameOrder, Bytes, Read, PipePackets, CallsOk, BeforeOk;
      TwoLists();
      UnsentHead(low);
      Nothing();
    }

    /** Step 2. */
    method WriteLow(os: seq<WriteResult>) returns (r: Outcome)
      requires LowSending()
      modifies this`typ, this`high, this`low, this`cut, this`dropped, this`lost, this`wbSize, this`log, this`done
      ensures r.Closed? ==> Valid() && typ.Invalid?
      ensures !r.Closed? ==> r.Ignore? && LowSending() && typ == old(typ)
      ensures r.Ignore? ==> Bytes(log) + Rest(low) == old(Bytes(log) + Rest(low)) && done + Packets(low) == old(done + Packets(low))
    {
      hide Valid, Rest, Packets, PipePackets, SameOrder, Bytes, Read, AllLow, CallsOk, BeforeOk;
      var os2, failed;
      low, os2, failed := SendListTcp(low, os, 0);
      if failed { ForceClose(low, Packets(low)); return Closed; }
      r := Ignore;
    }

    /** Step 3. */
    method LowCheck()
      requires LowSending()
      modifies this`high, this`low
      ensures Valid() && |high| <= 1 && Queue() == old(Packets(low)) && Remaining() == old(Rest(low))
    {
      hide Rest, Packets, SameOrder, Bytes, Read, PipePackets, CallsOk, BeforeOk, Unsent, InBounds, Valid, Queue, Remaining;
      Nothing();
      if ListUncomplete(low) {
        Raised(low);
        RaiseUncomplete();
      } else {
        NoneSent(low);
        LowBounds(low);
      }
      Assembled();
      TwoLists();
    }

    /** What makes the state valid again after sending. */
    lemma Assembled()
      requires Sending() && ListOk(high) && InBounds(low) && Unsent(low) && AllLow(low)
      requires wbSize == |Rest(high)| + |Rest(low)| && Wired(log, done, high) && SameOrder(taken, done + (Packets(high) + Packets(low)))
      ensures Valid() && InBounds(high)
    {
      hide SameOrder, Read, CallsOk, BeforeOk, PipePackets, Rest, Packets;
      TwoLists();
    }

    /** raise_uncomplete: the head of the low list becomes the whole high list. */
    method RaiseUncomplete()
      requires high == [] && low != []
      modifies this`high, this`low
      ensures high == [old(low)[0]] && low == old(low)[1..]
    {
      high := [low[0]];
      low := low[1..];
    }

    /** Steps 2 and 3. */
    method SendLow(os: seq<WriteResult>) returns (r: Outcome)
      requires Valid() && lock.Free? && dw.None? && Alive() && high == [] && low != []
      modifies this`typ, this`high, this`low, this`cut, this`dropped, this`lost, this`wbSize, this`log, this`done
      ensures Valid() && (r.Closed? <==> typ.Invalid?) && (r.Ignore? <==> Alive()) && (r.Ignore? ==> typ == old(typ))
      ensures r.Ignore? ==> Stream() == old(Stream()) && done + Queue() == old(done + Queue())
    {
      hide Valid, LowSending, Rest, Packets, Queue, Remaining, ListOk, InBounds, Bytes, Stream;
      LowStart();
      LogOk();
      r := WriteLow(os);
      if r.Ignore? { LowAlive(); LowCheck(); LogOk(); }
    }

    lemma LowAlive()
      requires LowSending()
      ensures Alive()
    {
    }

    lemma LogOk()
      requires Valid()
      ensures PiecesOk(log) && InBounds(Front()) && InBounds(high) && InBounds(low) && Stream() == Bytes(log) + Remaining()
    {
      hide Read;
    }

    /** Step 4: nothing is left to write. */
    method BuffersEmpty() returns (r: Outcome, ghost graceful: bool)
      requires Valid() && lock.Free? && dw.None? && Alive() && high == [] && low == []
      modifies this`typ, this`high, this`low, this`cut, this`dropped, this`lost
      ensures Valid() && (r.Closed? <==> typ.Invalid?) && (r.Ignore? <==> Alive())
      ensures r.Ignore? ==> typ == old(typ) && high == [] && low == []
      ensures graceful <==> old(typ).HalfClose?
      ensures graceful ==> r.Closed? && SameOrder(taken, done) && dropped == [] && cut.None? && lost.None?
    {
      hide SameOrder, Bytes, Read, PipePackets, CallsOk, BeforeOk;
      TwoLists();
      Nothing();
      assert wbSize == 0;
      assert done + (Packets([]) + Packets([])) == done + [] == done;
      if typ.HalfClose? {
        ForceClose([], []);
        return Closed, true;
      }
      r, graceful := Ignore, false;
    }

    /**
     * send_buffer_, under dw_lock: the high list, then the low one; a low packet written in part
     * moves to the high list. A half-closed socket with nothing left to write goes away (`graceful`).
     */
    method SendBufferLocked(os: seq<WriteResult>) returns (r: Outcome, ghost graceful: bool)
      requires Valid() && lock.Free? && dw.None? && Alive()
      modifies this`typ, this`high, this`low, this`cut, this`dropped, this`lost, this`wbSize, this`log, this`done
      ensures Valid() && (r.Closed? <==> typ.Invalid?) && (r.Ignore? <==> Alive()) && (r.Ignore? ==> typ == old(typ))
      ensures r.Ignore? ==> Stream() == old(Stream()) && done + Queue() == old(done + Queue())
      ensures graceful ==> r.Closed? && old(typ).HalfClose? && SameOrder(taken, done) && dropped == [] && cut.None? && lost.None?
      ensures os != [] && os[0].Wrote? && Short(old(high), os[0].n) ==> r.Ignore? && high == Advance(old(high), os[0].n) && low == old(low)
    {
      hide Rest, Packets, SameOrder, Bytes, Read, Queue, Remaining, Stream, LockOk, CallsOk, CountsOk, SizeOk, StreamOk, OrderOk, MarkOk, BeforeOk;
      UnsentHead(low);
      assert !ListUncomplete(low);
      LogOk();
      graceful := false;
      var os2;
      os2, r := SendHigh(os);
      LogOk();
      if r.Closed? || high != [] { return; }
      if low != [] {
        r := SendLow(os2);
        LogOk();
        if r.Closed? || high != [] || low != [] { return; }
      }
      TwoLists();
      r, graceful := BuffersEmpty();
      if r.Ignore? { TwoLists(); }
    }

    /** send_buffer: what a direct write left over goes first. Blocked while a sender has the lock. */
    method SendBuffer(os: seq<WriteResult>) returns (r: Outcome, ghost graceful: bool)
      requires Valid() && Alive()
      modifies this`typ, this`high, this`low, this`dw, this`cut, this`dropped, this`lost, this`wbSize, this`log, this`done
      ensures Valid() && (r.Closed? <==> typ.Invalid?) && (r.Ignore? <==> Alive()) && (r.Ignore? ==> typ == old(typ))
      ensures r.Ignore? ==> Stream() == old(Stream()) && done + Queue() == old(done + Queue())
      ensures graceful ==> r.Closed? && old(typ).HalfClose? && SameOrder(taken, done) && dropped == [] && cut.None? && lost.None?
      ensures os != [] && os[0].Wrote? && old(lock.Free? && dw.None?) && Short(old(high), os[0].n) ==>
        r.Ignore? && high == Advance(old(high), os[0].n) && low == old(low) && dw.None?
    {
      hide Valid, Queue, Remaining, Stream, SameOrder, Bytes;
      LogOk();
      if !lock.Free? { return Ignore, false; }
      if dw.Some? { TakeDirect(); }
      LogOk();
      r, graceful := SendBufferLocked(os);
    }

    /** The remainder of a direct write becomes the head of the high list. */
    method TakeDirect()
      requires Valid() && lock.Free? && dw.Some? && Alive()
      modifies this`high, this`dw, this`wbSize
      ensures Valid() && dw.None? && Stream() == old(Stream()) && Queue() == old(Queue())
    {
      hide SameOrder, Bytes, Read, Rest, Packets, AllLow, Unsent, PipePackets, CallsOk, BeforeOk;
      var b := dw.value;
      PutFirst(b, high);
      Regroup(Rest([b]), Rest(high), Rest(low));
      Regroup([b.p], Packets(high), Packets(low));
      ghost var q := Queue();
      wbSize := wbSize + (|b.p.data| - b.off);
      high := [b] + high;
      dw := None;
      assert Queue() == q by { TwoLists(); }
    }

    // -------------------------------------------------------------- requests

    /**
     * The ctrl command 'D' or 'P': send_socket and dec_sending_ref, which makes the count go down only
     * when the packet is queued. On a socket that is not open the packet is discarded.
     */
    method HandleData()
      requires Valid() && !closing && pipe != [] && pipe[0].Data?
      modifies this`high, this`low, this`wbSize, this`pipe, this`sending, this`taken
      ensures Valid() && pipe == old(pipe)[1..] && sending == old(sending) - 1
      ensures !old(Open()) ==> high == old(high) && low == old(low) && taken == old(taken)
      ensures old(Open()) ==>
        && (if old(ToHigh(high, low, typ.Connected?, pipe[0].p)) then high == old(high) + [Buf(old(pipe)[0].p, 0)] && low == old(low)
             else high == old(high) && low == old(low) + [Buf(old(pipe)[0].p, 0)])
      ensures old(Open()) ==> taken == old(taken) + [old(pipe)[0].p] && SameOrder(Queue(), old(Queue()) + [old(pipe)[0].p])
    {
      hide Valid, Queue, SameOrder, PipePackets, CountsOk;
      var p := pipe[0].p;
      PipeHead(pipe);
      SomeSending();
      assert sending != 0;
      if typ.Connecting? || typ.Connected? { SendSocket(p); } else { Discard(); }
    }

    lemma SomeSending()
      requires Valid() && pipe != [] && pipe[0].Data?
      ensures sending > 0 && PipePackets(pipe) == [pipe[0].p] + PipePackets(pipe[1..])
    {
      PipeHead(pipe);
    }

    method Discard()
      requires Valid() && !Open() && pipe != [] && pipe[0].Data?
      modifies this`pipe, this`sending
      ensures Valid() && pipe == old(pipe)[1..] && sending == old(sending) - 1
    {
      hide ListsOk, LockOk, CallsOk, SizeOk, EndOk, StreamOk, OrderOk, MarkOk, PipePackets, Accepted;
      SomeSending();
      pipe := pipe[1..];
      sending := sending - 1;
    }

    /** send_socket on an open socket, for the request at the head of the pipe. */
    method SendSocket(p: Packet)
      requires Valid() && Open() && pipe != [] && pipe[0] == Data(p)
      modifies this`high, this`low, this`wbSize, this`pipe, this`sending, this`taken
      ensures Valid() && pipe == old(pipe)[1..] && sending == old(sending) - 1
      ensures (if old(ToHigh(high, low, typ.Connected?, pipe[0].p)) then high == old(high) + [Buf(old(pipe)[0].p, 0)] && low == old(low)
        else high == old(high) && low == old(low) + [Buf(old(pipe)[0].p, 0)])
      ensures taken == old(taken) + [p] && SameOrder(Queue(), old(Queue()) + [p])
    {
      hide Valid, Packets, PipePackets, Queue, SameOrder;
      SomeSending();
      ListFacts(p);
      if ToHigh(high, low, typ.Connected?, p) { high := high + [Buf(p, 0)]; } else { low := low + [Buf(p, 0)]; }
      wbSize := wbSize + |p.data|;
      taken := taken + [p];
      pipe := pipe[1..];
      sending := sending - 1;
      QueuedLists();
      QueuedOrder();
      QueuedMark();
      QueuedBefore();
      Together();
    }

    lemma ListFacts(p: Packet)
      requires Valid()
      ensures AllLow(low)
    {
    }

    twostate predicate Queued()
      reads this
    {
      && old(Open()) && |taken| == |old(taken)| + 1 && taken[..|old(taken)|] == old(taken)
      && (var p := taken[|old(taken)|];
        && old(pipe) == [Data(p)] + pipe && sending == old(sending) - 1 && wbSize == old(wbSize) + |p.data|
        && (if old(ToHigh(high, low, typ.Connected?, p)) then high == old(high) + [Buf(p, 0)] && low == old(low)
            else high == old(high) && low == old(low) + [Buf(p, 0)]))
      && unchanged(`typ, `closing, `dw, `lock, `calls, `starts, `since, `mark, `waiting, `log, `done, `lost, `cut, `dropped, `torn)
    }

    twostate lemma QueuedLists()
      requires old(Valid()) && Queued()
      ensures ListsOk() && LockOk() && CallsOk() && CountsOk() && SizeOk() && EndOk() && StreamOk()
    {
      hide Read, PipePackets, Rest, Packets, OrderOk, MarkOk, BeforeOk, CallsOk;
      var p := taken[|old(taken)|];
      NewLast(old(high), p);
      NewLast(old(low), p);
      PipeHead(old(pipe));
      assert old(pipe)[1..] == pipe;
      CallsStay();
    }

    twostate lemma QueuedOrder()
      requires old(Valid()) && Queued()
      ensures OrderOk() && SameOrder(Queue(), old(Queue()) + [taken[|old(taken)|]])
    {
      hide SameOrder, Packets, Hand, LockOk, CallsOk, CountsOk, SizeOk, StreamOk, MarkOk, BeforeOk;
      var p := taken[|old(taken)|];
      QueuedUp(old(high), old(low), typ.Connected?, p);
      QueueOrder(old(taken), done, Hand(lock, dw), old(Packets(high) + Packets(low)), Packets(high) + Packets(low), p);
      assert taken == old(taken) + [p];
    }

    twostate lemma QueuedMark()
      requires old(Valid()) && Queued()
      ensures MarkOk()
    {
      hide SameOrder, Packets, Hand, LockOk, CallsOk, CountsOk, SizeOk, StreamOk, OrderOk, BeforeOk;
      var p := taken[|old(taken)|];
      QueuedUp(old(high), old(low), typ.Connected?, p);
      assert taken == old(taken) + [p];
      if mark <= |old(taken)| { SuffixOrder(old(taken), mark, old(Packets(high) + Packets(low)), Packets(high) + Packets(low), p); }
    }

    twostate lemma QueuedBefore()
      requires old(Valid()) && Queued()
      ensures BeforeOk()
    {
      hide SameOrder, PipePackets, LockOk, CallsOk, CountsOk, SizeOk, StreamOk, OrderOk, MarkOk, ListsOk;
      var p := taken[|old(taken)|];
      PipeHead(old(pipe));
      assert old(pipe)[1..] == pipe && taken == old(taken) + [p];
      MoreTaken(old(taken), p, PipePackets(pipe));
    }

    // -------------------------------------------------------------- closing

    /**
     * The ctrl command 'K': close_socket. What is queued is sent first as far as possible. When
     * nothing is left (`graceful`) or on a shutdown the socket thread goes on to force_close; else the
     * socket is half closed: no more is taken, and what is taken by now is still written. Neither the
     * lists nor the pipe change under the socket thread, and the count does not go down, so the reads
     * of nomore_sending_data hold together at the first of them.
     */
    method HandleClose(os: seq<WriteResult>) returns (r: Outcome, ghost graceful: bool)
      requires Valid() && !closing && pipe != [] && pipe[0].Close?
      modifies this`typ, this`high, this`low, this`dw, this`cut, this`dropped, this`lost, this`wbSize, this`log, this`done, this`pipe
      ensures Valid() && pipe == old(pipe)[1..] && PipePackets(pipe) == old(PipePackets(pipe))
      ensures r.Closed? ==> typ.Invalid?
      ensures r.Ignore? ==> typ.HalfClose?
      ensures r.MustClose? ==> Alive() && typ == old(typ) && (old(pipe)[0].shutdown || graceful)
      ensures graceful ==> r.MustClose? && high == [] && low == [] && dw.None? && sending == 0 && PipePackets(pipe) == []
      ensures graceful ==> SameOrder(taken, done + Hand(lock, None))
      ensures !r.Closed? ==> Stream() == old(Stream()) && done + Queue() == old(done + Queue())
      ensures old(!typ.Invalid? && high == [] && low == [] && dw.None? && sending == 0) ==> graceful && done == old(done)
    {
      hide Valid, Queue, Remaining, Stream, SameOrder, PipePackets;
      var shutdown := pipe[0].shutdown;
      PopClose();
      graceful := false;
      if typ.Invalid? { return Closed, false; }
      if !(high == [] && low == [] && dw.None? && sending == 0) {
        ghost var g;
        r, g := SendBuffer(os);
        if r.Closed? { return; }
      }
      if shutdown || (high == [] && low == [] && dw.None? && sending == 0) {
        NothingLeft();
        graceful := high == [] && low == [] && dw.None? && sending == 0;
        return MustClose, graceful;
      }
      HalfClosed();
      r := Ignore;
    }

    /** A close request leaves the pipe. */
    method PopClose()
      requires Valid() && pipe != [] && pipe[0].Close?
      modifies this`pipe
      ensures Valid() && pipe == old(pipe)[1..] && PipePackets(pipe) == old(PipePackets(pipe))
    {
      hide ListsOk, LockOk, CallsOk, SizeOk, EndOk, StreamOk, OrderOk, MarkOk, PipePackets;
      PipeHead(pipe);
      assert PipePackets(pipe) == PipePackets(pipe[1..]);
      pipe := pipe[1..];
    }

    /** nomore_sending_data: with empty lists, no remainder and nothing on its way, all that was accepted is written, but for a direct write still on. */
    lemma NothingLeft()
      requires Valid() && Alive()
      ensures high == [] && low == [] && dw.None? && sending == 0 ==>
        PipePackets(pipe) == [] && Accepted() == taken && SameOrder(taken, done + Hand(lock, None)) && Read(log) == Clean(done, None)
    {
      hide SameOrder, Read, CallsOk, PipePackets;
      Nothing();
      assert done + (Hand(lock, None) + ([] + [])) == done + Hand(lock, None);
      if sending == 0 { EmptyPipe(pipe); }
      assert taken + [] == taken;
    }

    /** The half close. */
    method HalfClosed()
      requires Valid() && Alive()
      modifies this`typ
      ensures Valid() && typ.HalfClose?
    {
      hide SameOrder, Read, PipePackets, Rest, CallsOk, Queue;
      typ := HalfClose;
      CallsStay();
    }

    /**
     * The first half of force_close, without dw_lock: the lists are freed. It comes after HandleClose,
     * or after an error or the end of what is read, at any time.
     */
    method BeginClose()
      requires Valid() && Alive()
      modifies this`high, this`low, this`closing, this`cut, this`dropped
      ensures Valid() && closing && high == [] && low == []
      ensures dropped == old(Packets(high) + Packets(low)) && cut == (if dw.Some? then None else old(Opened(high)))
    {
      hide Valid, Packets, Opened;
      dropped := Packets(high) + Packets(low);
      cut := if dw.Some? then None else Opened(high);
      high, low, closing := [], [], true;
      FreedStream();
      FreedOrder();
      FreedRest();
      Together();
    }

    lemma Together()
      requires ListsOk() && LockOk() && CallsOk() && CountsOk() && SizeOk() && EndOk() && StreamOk() && OrderOk() && MarkOk() && BeforeOk()
      ensures Valid()
    {
      hide ListsOk, LockOk, CallsOk, CountsOk, SizeOk, EndOk, StreamOk, OrderOk, MarkOk, BeforeOk;
    }

    twostate predicate ListsFreed()
      reads this
    {
      && old(Alive()) && closing && high == [] && low == []
      && dropped == old(Packets(high) + Packets(low)) && cut == (if dw.Some? then None else old(Opened(high)))
      && unchanged(`typ, `dw, `lock, `calls, `starts, `sending, `waiting, `pipe, `log, `done, `taken, `lost, `torn)
    }

    twostate lemma FreedStream()
      requires old(Valid()) && ListsFreed()
      ensures StreamOk()
    {
      hide Read, Packets, ListsOk, LockOk, CallsOk, CountsOk, SizeOk, OrderOk, MarkOk, BeforeOk;
    }

    twostate lemma FreedOrder()
      requires old(Valid()) && ListsFreed()
      ensures OrderOk()
    {
      hide SameOrder, Packets, Hand, ListsOk, LockOk, CallsOk, CountsOk, SizeOk, StreamOk, MarkOk, BeforeOk;
      FreedLists(taken, done, Hand(lock, dw), dropped);
    }

    twostate lemma FreedRest()
      requires old(Valid()) && ListsFreed()
      ensures ListsOk() && LockOk() && CallsOk() && CountsOk() && SizeOk() && EndOk() && MarkOk() && BeforeOk()
    {
      hide Rest, PipePackets, Packets, StreamOk, OrderOk;
    }

    /**
     * The second half, under dw_lock: what a direct write left over is freed, too. Everything taken has
     * been written if and only if nothing was freed.
     */
    method FinishClose()
      requires Valid() && closing && lock.Free?
      modifies this`typ, this`dw, this`closing, this`lost
      ensures Valid() && typ.Invalid? && lost == old(dw)
      ensures SameOrder(taken, done) <==> dropped == [] && lost.None?
    {
      hide SameOrder, Read, PipePackets, Rest, CallsOk;
      AllWritten(taken, done, dropped, Hand(lock, dw));
      HandNone(lock, dw);
      lost := dw;
      typ, dw, closing := Invalid, None, false;
      CallsStay();
      Ended();
    }

    /** report_connect */
    method ReportConnect(error: bool) returns (r: Outcome)
      requires Valid() && typ.Connecting? && Alive()
      modifies this`typ
      ensures Valid() && (if error then r.MustClose? && typ == old(typ) else r.Ignore? && typ.Connected?)
    {
      hide SameOrder, Read, PipePackets, Rest, CallsOk, Queue;
      if error { return MustClose; }
      typ := Connected;
      CallsStay();
      r := Ignore;
    }

    // -------------------------------------------------------------- senders

    /** socket_server_send begins. */
    method StartSend(a: nat, p: Packet)
      requires Valid() && a !in calls && p.prio.High?
      modifies this`calls, this`starts
      ensures Valid() && calls == old(calls)[a := Call(p, 0)] && starts == old(starts)[a := Accepted()]
    {
      hide ListsOk, LockOk, CountsOk, SizeOk, EndOk, StreamOk, OrderOk, MarkOk, PipePackets;
      calls := calls[a := Call(p, 0)];
      starts := starts[a := Accepted()];
    }

    /**
     * The next read of the first can_direct_write. The lists and dw_buffer may be in the middle of a
     * change then, so what is seen of them may be anything. A sender that sees otherwise sends a request.
     */
    method Look(a: nat, seen: bool) returns (ok: bool)
      requires Valid() && a in calls && calls[a].next < READS
      modifies this`calls
      ensures Valid() && ok == if old(calls)[a].next < 3 then seen else Sees(old(calls)[a].next)
      ensures calls == if ok then old(calls)[a := Call(old(calls)[a].p, old(calls)[a].next + 1)] else old(calls) - {a}
    {
      hide Valid, Accepted;
      var k := calls[a].next;
      ok := if k < 3 then seen else Sees(k);
      if ok { GoOn(a); } else { Leave(a); }
    }

    /** A call goes on to its next read. */
    method GoOn(a: nat)
      requires Valid() && a in calls && calls[a].next < READS && (calls[a].next >= 3 ==> Sees(calls[a].next))
      modifies this`calls
      ensures Valid() && calls == old(calls)[a := Call(old(calls)[a].p, old(calls)[a].next + 1)]
    {
      hide ListsOk, LockOk, CountsOk, SizeOk, EndOk, StreamOk, OrderOk, MarkOk, Accepted, Began, Sees;
      NextFacts(a);
      var c := calls[a];
      calls := calls[a := Call(c.p, c.next + 1)];
    }

    lemma NextFacts(a: nat)
      requires Valid() && a in calls && calls[a].next < READS && (calls[a].next >= 3 ==> Sees(calls[a].next))
      ensures a in starts && calls[a].p.prio.High? && (calls[a].next + 1 == READS ==> !typ.Connecting?)
      ensures Open() ==> Began(calls[a].next + 1, starts[a], Accepted(), taken)
    {
      hide ListsOk, LockOk, SizeOk, EndOk, StreamOk, OrderOk, MarkOk, Accepted;
      if calls[a].next == 3 { PipeGone(); }
    }

    lemma PipeGone()
      requires CountsOk() && sending == 0
      ensures Accepted() == taken
    {
      EmptyPipe(pipe);
      assert taken + [] == taken;
    }

    /** socket_trylock */
    method TryLock(a: nat) returns (ok: bool)
      requires Valid() && a in calls && calls[a].next == READS
      modifies this`calls, this`lock, this`since
      ensures Valid() && calls == old(calls) - {a} && ok == old(lock).Free?
      ensures if ok then lock == Checking(old(calls)[a].p, 0) && since == starts[a] else lock == old(lock) && since == old(since)
    {
      hide Valid;
      ok := lock.Free?;
      var c := calls[a];
      FewerCalls(a);
      Leave(a);
      if ok { TakeLock(c.p, starts[a]); }
    }

    /** A call goes another way. */
    method Leave(a: nat)
      requires Valid()
      modifies this`calls
      ensures Valid() && calls == old(calls) - {a}
    {
      hide ListsOk, LockOk, CountsOk, SizeOk, EndOk, StreamOk, OrderOk, MarkOk, Accepted;
      calls := calls - {a};
    }

    method TakeLock(p: Packet, ghost start: seq<Packet>)
      requires Valid() && lock.Free? && p.prio.High? && !typ.Connecting? && (Open() ==> multiset(start) <= multiset(taken))
      modifies this`lock, this`since
      ensures Valid() && lock == Checking(p, 0) && since == start
    {
      hide ListsOk, CallsOk, CountsOk, SizeOk, EndOk, StreamOk, OrderOk, SeenEmpty, Accepted;
      lock, since := Checking(p, 0), start;
      HandSame();
    }

    lemma FewerCalls(a: nat)
      requires Valid() && a in calls && calls[a].next == READS
      ensures calls[a].p.prio.High? && a in starts && !typ.Connecting? && (Open() ==> multiset(starts[a]) <= multiset(taken))
    {
    }

    /** Nothing but the lock changes, and that not between writing and not writing. */
    twostate lemma HandSame()
      requires old(OrderOk()) && unchanged(`typ, `closing, `taken, `done, `dw, `high, `low, `dropped, `lost)
      requires !old(lock).Writing? && !lock.Writing?
      ensures OrderOk() && Queue() == old(Queue())
    {
      hide SameOrder, Packets;
    }

    /**
     * The next read of the second can_direct_write, under dw_lock. A sender that sees otherwise unlocks
     * and sends a request instead. After the last read the packet is accepted: behind all that was taken
     * when the high list was read, as what was taken since is still in the lists.
     */
    method LookLocked() returns (ok: bool)
      requires Valid() && lock.Checking?
      modifies this`lock, this`mark, this`taken
      ensures Valid() && ok == Sees(old(lock).next)
      ensures lock == if !ok then Free else if old(lock).next + 1 < READS then Checking(old(lock).p, old(lock).next + 1) else Writing(old(lock).p)
      ensures !lock.Writing? ==> taken == old(taken)
      ensures lock.Writing? && Open() ==>
        && mark == old(mark) <= |old(taken)| && taken == old(taken)[..mark] + [lock.p] + old(taken)[mark..]
        && SameOrder(old(taken)[..mark], done) && multiset(since) <= multiset(old(taken)[..mark]) && multiset(since) <= multiset(done)
      ensures lock.Writing? && !Open() ==> taken == old(taken) + [lock.p]
    {
      hide Valid, SameOrder;
      NextRead();
      ok := Sees(lock.next);
      if !ok { Unlock(); }
      else if lock.next == 0 { SeeHigh(); }
      else if lock.next + 1 < READS { SeeNext(); }
      else { Accept(); }
    }

    lemma NextRead()
      requires Valid() && lock.Checking?
      ensures lock.next < READS
    {
    }

    method Unlock()
      requires Valid() && lock.Checking?
      modifies this`lock
      ensures Valid() && lock.Free?
    {
      hide ListsOk, CallsOk, CountsOk, SizeOk, EndOk, StreamOk, OrderOk, SeenEmpty, Accepted;
      lock := Free;
      HandSame();
    }

    method SeeHigh()
      requires Valid() && lock.Checking? && lock.next == 0 && high == []
      modifies this`lock, this`mark
      ensures Valid() && lock == Checking(old(lock).p, 1)
    {
      hide CallsOk, CountsOk, SizeOk, EndOk, StreamOk, OrderOk, Accepted, Packets;
      if Open() && low == [] { EmptyNow(); }
      mark := |taken|;
      lock := Checking(lock.p, 1);
      HandSame();
    }

    lemma EmptyNow()
      requires Valid() && Alive() && !lock.Writing? && high == [] && low == []
      ensures taken[..|taken|] == taken && taken[|taken|..] == Packets(high) + Packets(low) && SameOrder(taken, done + Hand(Free, dw))
    {
      hide ListsOk, LockOk, CallsOk, CountsOk, SizeOk, EndOk, StreamOk, MarkOk, BeforeOk, SameOrder, Packets;
      SameHand(lock, Free, dw);
      NothingSince(taken, done, Hand(Free, dw));
    }

    method SeeNext()
      requires Valid() && lock.Checking? && 1 <= lock.next < READS - 1 && Sees(lock.next)
      modifies this`lock
      ensures Valid() && lock == Checking(old(lock).p, old(lock).next + 1)
    {
      hide ListsOk, CallsOk, CountsOk, SizeOk, EndOk, StreamOk, OrderOk, SeenEmpty, Accepted;
      lock := Checking(lock.p, lock.next + 1);
      HandSame();
    }

    method Accept()
      requires Valid() && lock.Checking? && lock.next == READS - 1 && typ.Connected?
      modifies this`lock, this`taken
      ensures Valid() && lock == Writing(old(lock).p)
      ensures Open() ==>
        && mark <= |old(taken)| && taken == old(taken)[..mark] + [lock.p] + old(taken)[mark..]
        && SameOrder(old(taken)[..mark], done) && multiset(since) <= multiset(old(taken)[..mark]) && multiset(since) <= multiset(done)
      ensures !Open() ==> taken == old(taken) + [lock.p]
    {
      hide Valid;
      if closing { AcceptLate(); } else { AcceptOpen(); }
    }

    method AcceptOpen()
      requires Valid() && lock.Checking? && lock.next == READS - 1 && typ.Connected? && !closing
      modifies this`lock, this`taken
      ensures Valid() && lock == Writing(old(lock).p)
      ensures mark <= |old(taken)| && taken == old(taken)[..mark] + [lock.p] + old(taken)[mark..]
      ensures SameOrder(old(taken)[..mark], done) && multiset(since) <= multiset(old(taken)[..mark]) && multiset(since) <= multiset(done)
    {
      hide Valid, SameOrder;
      AcceptFacts();
      var p := lock.p;
      taken := taken[..mark] + [p] + taken[mark..];
      lock := Writing(p);
      AcceptedOrder();
      AcceptedBefore();
      AcceptedRest();
      Together();
    }

    twostate predicate Accepting()
      reads this
    {
      && old(lock).Checking? && old(lock).next == READS - 1 && lock == Writing(old(lock).p) && typ.Connected? && !closing
      && mark <= |old(taken)| && taken == old(taken)[..mark] + [lock.p] + old(taken)[mark..]
      && unchanged(`typ, `high, `low, `wbSize, `sending, `dw, `calls, `closing, `pipe, `waiting, `log, `done, `starts, `since, `mark, `dropped, `cut, `lost, `torn)
    }

    twostate lemma AcceptedOrder()
      requires old(Valid()) && Accepting()
        && SameOrder(taken, done + (Hand(lock, dw) + (Packets(high) + Packets(low))))
      ensures OrderOk()
    {
      hide Valid, SameOrder, Packets, Hand;
    }

    twostate lemma AcceptedBefore()
      requires old(Valid()) && Accepting()
      ensures BeforeOk()
    {
      hide ListsOk, LockOk, CallsOk, CountsOk, SizeOk, EndOk, StreamOk, OrderOk, MarkOk, PipePackets, Began;
      MoreInserted(old(taken), mark, lock.p, PipePackets(pipe));
      assert Accepted() == taken + PipePackets(pipe) && old(Accepted()) == old(taken) + PipePackets(pipe);
      MoreBegan(old(taken), taken, PipePackets(pipe));
    }

    twostate lemma AcceptedRest()
      requires old(Valid()) && Accepting() && multiset(since) <= multiset(done)
      ensures ListsOk() && LockOk() && CallsOk() && CountsOk() && SizeOk() && EndOk() && StreamOk() && MarkOk()
    {
      hide CallsOk, OrderOk, BeforeOk, PipePackets, Packets, SameOrder, Rest, Read;
      CallsStay();
    }

    lemma AcceptFacts()
      requires Valid() && Open() && lock.Checking? && lock.next == READS - 1
      ensures mark <= |taken| && SameOrder(taken[..mark], done) && multiset(since) <= multiset(taken[..mark]) && multiset(since) <= multiset(done)
      ensures SameOrder(taken[..mark] + [lock.p] + taken[mark..], done + (Hand(Writing(lock.p), dw) + (Packets(high) + Packets(low))))
    {
      hide ListsOk, CallsOk, CountsOk, SizeOk, EndOk, StreamOk, OrderOk, BeforeOk, PipePackets, Packets, SameOrder, Hand;
      InsertedAt(taken, mark, done, Packets(high) + Packets(low), lock.p);
      SameOrderSame(taken[..mark], done);
    }

    method AcceptLate()
      requires Valid() && lock.Checking? && lock.next == READS - 1 && typ.Connected? && closing
      modifies this`lock, this`taken
      ensures Valid() && lock == Writing(old(lock).p) && taken == old(taken) + [lock.p]
    {
      hide ListsOk, CallsOk, CountsOk, SizeOk, StreamOk, PipePackets, Packets, SameOrder;
      var p := lock.p;
      AcceptedLate(taken, done, dropped, p);
      taken := taken + [p];
      lock := Writing(p);
    }

    /**
     * The write of socket_server_send, the setting of dw_buffer, and the unlocking: while a sender has
     * the lock nobody else writes or looks at dw_buffer but to give up.
     */
    method DirectWrite(w: WriteResult) returns (whole: bool)
      requires Valid() && lock.Writing?
      modifies this`lock, this`dw, this`log, this`done, this`torn
      ensures Valid() && lock.Free?
      ensures var p, n := old(lock).p, if w.Wrote? then Min(w.n, |old(lock).p.data|) else 0;
        && PiecesOk(log) && Bytes(log) == old(Bytes(log)) + p.data[..n] && whole == (n == |p.data|)
        && (if whole then done == old(done) + [p] && dw.None? else done == old(done) && dw == Some(Buf(p, n)))
        && torn == (old(torn) || (cut.Some? && n > 0))
      ensures Alive() ==> done + Queue() == old(done + Queue())
    {
      hide Valid, Read, Bytes, PiecesOk, Queue;
      PiecesFine();
      var p := lock.p;
      var n := if w.Wrote? then Min(w.n, |p.data|) else 0;
      ReadMore(log, Piece(p, 0, n));
      assert p.data[0..n] == p.data[..n];
      log := log + [Piece(p, 0, n)];
      torn := torn || (cut.Some? && n > 0);
      whole := n == |p.data|;
      if whole { done := done + [p]; } else { dw := Some(Buf(p, n)); }
      lock := Free;
      WrittenStream();
      WrittenOrder();
      WrittenRest();
      Together();
    }

    lemma PiecesFine()
      requires Valid()
      ensures PiecesOk(log) && (lock.Writing? ==> dw.None?)
    {
    }

    twostate predicate Written()
      reads this
    {
      && old(lock).Writing? && lock.Free? && old(dw).None?
      && |log| == |old(log)| + 1 && log[..|old(log)|] == old(log)
      && (var x := log[|old(log)|]; var p := old(lock).p;
        && x.p == p && x.from == 0 && x.to <= |p.data|
        && (if x.to == |p.data| then done == old(done) + [p] && dw.None? else done == old(done) && dw == Some(Buf(p, x.to)))
        && torn == (old(torn) || (cut.Some? && x.to > 0)))
      && unchanged(`typ, `high, `low, `wbSize, `sending, `calls, `closing, `pipe, `taken, `waiting, `starts, `since, `mark, `dropped, `cut, `lost)
    }

    twostate lemma WrittenStream()
      requires old(Valid()) && Written()
      ensures StreamOk()
    {
      hide Read, Bytes, Packets, ListsOk, CallsOk, CountsOk, SizeOk, OrderOk, MarkOk, BeforeOk;
      var x := log[|old(log)|];
      assert log == old(log) + [Piece(x.p, 0, x.to)];
      NothingOpen();
      if old(torn) { LogBroken(old(log), x.p, x.to); } else { LogDirect(old(log), old(done), old(OpenPart()), x.p, x.to); }
    }

    /** While a sender writes, the only open part can be what was cut off. */
    twostate lemma NothingOpen()
      requires old(Valid()) && old(lock).Writing?
      ensures old(OpenPart()) == old(if closing && cut.Some? then cut else None) && !old(typ).Invalid?
      ensures old(cut).Some? ==> old(closing)
    {
      hide Read, Bytes, Packets, CallsOk, CountsOk, SizeOk, OrderOk, MarkOk, BeforeOk;
    }

    twostate lemma WrittenOrder()
      requires old(Valid()) && Written()
      ensures OrderOk() && (Alive() ==> done + Queue() == old(done + Queue()))
    {
      hide Packets, SameOrder, ListsOk, CallsOk, CountsOk, SizeOk, StreamOk, MarkOk, BeforeOk;
      NothingOpen();
      Moved(old(done), old(lock).p, log[|old(log)|].to, Packets(high) + Packets(low));
    }

    twostate lemma WrittenRest()
      requires old(Valid()) && Written()
      ensures ListsOk() && LockOk() && CallsOk() && CountsOk() && SizeOk() && EndOk() && MarkOk() && BeforeOk()
    {
      hide Rest, PipePackets, Packets, StreamOk, OrderOk;
    }

    /** inc_sending_ref; it waits while the count is at its maximum. */
    method IncSending() returns (ok: bool)
      requires Valid()
      modifies this`sending, this`waiting
      ensures Valid() && ok == (old(sending) < MAX_SENDING) && sending == if ok then old(sending) + 1 else old(sending)
      ensures waiting == if ok then old(waiting) + 1 else old(waiting)
    {
      hide ListsOk, LockOk, CallsOk, SizeOk, EndOk, StreamOk, OrderOk, MarkOk, BeforeOk, PipePackets;
      ok := sending < MAX_SENDING;
      if ok { sending := sending + 1; waiting := waiting + 1; }
    }

    /** send_request of a 'D' or 'P' command by a sender that has counted itself: the packet is accepted. */
    method SendRequest(p: Packet)
      requires Valid() && waiting > 0
      modifies this`pipe, this`waiting
      ensures Valid() && pipe == old(pipe) + [Data(p)] && Accepted() == old(Accepted()) + [p]
    {
      hide ListsOk, LockOk, CallsOk, SizeOk, EndOk, StreamOk, OrderOk, MarkOk, PipePackets;
      PipeAppend(pipe, Data(p));
      Regroup(taken, PipePackets(pipe), [p]);
      ghost var was := Accepted();
      pipe, waiting := pipe + [Data(p)], waiting - 1;
      assert Accepted() == was + [p];
      assert multiset(was) <= multiset(was + [p]);
    }

    /** send_request of a 'K' command. */
    method CloseRequest(shutdown: bool)
      requires Valid()
      modifies this`pipe
      ensures Valid() && pipe == old(pipe) + [Close(shutdown)] && Accepted() == old(Accepted())
    {
      hide ListsOk, LockOk, CallsOk, SizeOk, EndOk, StreamOk, OrderOk, MarkOk, PipePackets;
      PipeAppend(pipe, Close(shutdown));
      assert PipePackets(pipe) + [] == PipePackets(pipe);
      pipe := pipe + [Close(shutdown)];
    }

    /** How many bytes are on the wire. */
    ghost function Sent(): nat
      reads `log
    {
      if PiecesOk(log) then |Bytes(log)| else 0
    }

    /** One step of any sender, if it is enabled. */
    method Sender(step: SenderStep, ghost a: nat)
      requires Valid()
      modifies this`calls, this`starts, this`lock, this`since, this`mark, this`taken, this`dw, this`log, this`done, this`torn, this`sending, this`waiting, this`pipe
      ensures Valid() && multiset(old(taken)) <= multiset(taken) && Sent() >= old(Sent())
      ensures torn <==> old(torn) || (cut.Some? && Sent() > old(Sent()))
      ensures !(step.Start? && step.a == a) && !(step.Look? && step.a == a) && !(step.Try? && step.a == a) ==>
        && (a in old(calls) ==> a in calls && calls[a] == old(calls)[a])
        && (a in old(starts) ==> a in starts && starts[a] == old(starts)[a])
      ensures !step.LookLocked? && !step.Write? && !old(lock).Free? ==> lock == old(lock) && since == old(since)
    {
      hide Valid, Bytes;
      LogOk();
      match step {
        case Start(b, p) => if b !in calls && p.prio.High? { StartSend(b, p); }
        case Look(b, seen) => if b in calls && calls[b].next < READS { var _ := Look(b, seen); }
        case Try(b) => if b in calls && calls[b].next == READS { var _ := TryLock(b); }
        case LookLocked => if lock.Checking? { LookOn(); }
        case Write(w) => if lock.Writing? { var _ := DirectWrite(w); }
        case Inc => var _ := IncSending();
        case Put(p) => if waiting > 0 { SendRequest(p); }
      }
    }

    method LookOn()
      requires Valid() && lock.Checking?
      modifies this`lock, this`mark, this`taken
      ensures Valid() && multiset(old(taken)) <= multiset(taken)
    {
      hide Valid, Queue;
      ghost var was := taken;
      var ok := LookLocked();
      if lock.Writing? {
        if Open() { MoreInserted(was, mark, lock.p, []); } else { MoreTaken(was, lock.p, []); }
      }
    }

    /** Any run of the senders. */
    method RunSenders(steps: seq<SenderStep>)
      requires Valid()
      modifies this`calls, this`starts, this`lock, this`since, this`mark, this`taken, this`dw, this`log, this`done, this`torn, this`sending, this`waiting, this`pipe
      ensures Valid() && multiset(old(taken)) <= multiset(taken) && Sent() >= old(Sent())
      ensures torn <==> old(torn) || (cut.Some? && Sent() > old(Sent()))
    {
      hide Valid, Sent;
      for i := 0 to |steps|
        invariant Valid() && multiset(old(taken)) <= multiset(taken) && Sent() >= old(Sent())
        invariant cut == old(cut) && (torn <==> old(torn) || (cut.Some? && Sent() > old(Sent())))
      {
        Sender(steps[i], 0);
      }
    }

    // -------------------------------------------------------------- what this means

    /**
     * The stream: whole packets and part of at most one, which the socket still has or has just freed;
     * it is broken exactly if a direct write went behind part of a packet, and never before force_close.
     */
    lemma WireShape()
      requires Valid()
      ensures PiecesOk(log) && (Read(log).Broken? <==> torn) && (torn ==> !Alive())
      ensures !torn ==> Read(log) == Clean(done, OpenPart()) && Bytes(log) == Flatten(done) + OpenBytes(OpenPart())
    {
      hide Read, Bytes, Flatten, SameOrder, Rest, Packets;
      if !torn { CleanBytes(log); }
    }

    /** The packets of each priority are written in the order in which they were accepted. */
    lemma InOrder(c: Priority)
      requires Valid() && Alive()
      ensures Of(done, c) <= Of(taken, c) <= Of(Accepted(), c)
    {
      OfAppend(done, Queue(), c);
      OfAppend(taken, PipePackets(pipe), c);
      assert SameOrder(taken, done + Queue());
      assert Of(taken, c) == Of(done + Queue(), c);
    }

    /** One step of somebody else than sender `a`. */
    method Other(step: AnyStep, a: nat, locked: bool)
      requires Valid() && Others(step, a, locked) && (locked ==> !lock.Free?)
      modifies this
      ensures Valid() && (a in old(calls) ==> a in calls && calls[a] == old(calls)[a])
      ensures a in old(starts) ==> a in starts && starts[a] == old(starts)[a]
      ensures locked ==> lock == old(lock) && since == old(since)
    {
      hide Valid, Queue, Stream, Sent, PipePackets;
      match step {
        case By(s) => Sender(s, a);
        case DataCommand => if !closing && pipe != [] && pipe[0].Data? { HandleData(); }
        case SendOn(os) => if !closing && !typ.Invalid? { var _, _ := SendBuffer(os); }
        case CloseCommand(os) => if !closing && pipe != [] && pipe[0].Close? { var _, _ := HandleClose(os); }
        case Begin => if !closing && !typ.Invalid? { BeginClose(); }
        case Finish => if closing && lock.Free? { FinishClose(); }
      }
    }

    method OtherSteps(steps: seq<AnyStep>, a: nat, locked: bool)
      requires Valid() && (forall k :: 0 <= k < |steps| ==> Others(steps[k], a, locked)) && (locked ==> !lock.Free?)
      modifies this
      ensures Valid() && (a in old(calls) ==> a in calls && calls[a] == old(calls)[a])
      ensures a in old(starts) ==> a in starts && starts[a] == old(starts)[a]
      ensures locked ==> lock == old(lock) && since == old(since)
    {
      hide Valid, Others;
      for i := 0 to |steps|
        invariant Valid() && (a in old(calls) ==> a in calls && calls[a] == old(calls)[a])
        invariant a in old(starts) ==> a in starts && starts[a] == old(starts)[a]
        invariant locked ==> lock == old(lock) && since == old(since)
      {
        Other(steps[i], a, locked);
      }
    }

    /**
     * socket_server_send from its call to the write, with any steps of all others between any two of its
     * own. A direct write overtakes nothing that was accepted before the call: all of that is written
     * whole, although the two checks read one field after another while others go on.
     */
    method WholeCall(a: nat, p: Packet, seen: seq<bool>, gaps: seq<seq<AnyStep>>, gaps2: seq<seq<AnyStep>>) returns (direct: bool)
      requires Valid() && a !in calls && p.prio.High? && |seen| == READS && |gaps| == |gaps2| == READS + 1
      requires forall i, k :: 0 <= i < |gaps| && 0 <= k < |gaps[i]| ==> Others(gaps[i][k], a, false)
      requires forall i, k :: 0 <= i < |gaps2| && 0 <= k < |gaps2[i]| ==> Others(gaps2[i][k], a, true)
      modifies this
      ensures Valid() && (direct ==> lock == Writing(p))
      ensures direct && Open() ==> multiset(old(Accepted())) <= multiset(done)
    {
      hide Valid, Others, Accepted;
      ghost var before := Accepted();
      StartSend(a, p);
      for k := 0 to READS
        invariant Valid() && a in calls && calls[a] == Call(p, k) && a in starts && starts[a] == before
      {
        OtherSteps(gaps[k], a, false);
        var ok := Look(a, seen[k]);
        if !ok { return false; }
      }
      OtherSteps(gaps[READS], a, false);
      direct := TryLock(a);
      if !direct { return; }
      for k := 0 to READS
        invariant Valid() && since == before && lock == if k < READS then Checking(p, k) else Writing(p)
      {
        OtherSteps(gaps2[k], a, true);
        var ok := LookLocked();
        if !ok { return false; }
      }
      OtherSteps(gaps2[READS], a, true);
      if Open() { WriterLast(); }
    }

    lemma WriterLast()
      requires Valid() && Open() && lock.Writing?
      ensures multiset(since) <= multiset(done)
    {
    }

    /**
     * A graceful close to its end, with any steps of senders before and while the lists are freed.
     * Everything accepted before the close, and what was accepted for direct writes since, is written
     * exactly if no direct write left a remainder.
     */
    method CloseToTheEnd(os: seq<WriteResult>, between: seq<SenderStep>, during: seq<SenderStep>) returns (ghost graceful: bool)
      requires Valid() && Open() && pipe != [] && pipe[0].Close?
      modifies this
      ensures Valid()
      ensures graceful ==> multiset(old(Accepted())) <= multiset(taken) && !torn
      ensures graceful && typ.Invalid? ==> (SameOrder(taken, done) <==> lost.None?)
    {
      hide Valid, SameOrder, PipePackets, Sent, Queue, Stream, Hand;
      ghost var before := Accepted();
      var r;
      r, graceful := HandleClose(os);
      if graceful {
        assert before == taken + [] == taken;
        NotTorn();
      }
      if r.MustClose? { CloseOn(between, during); }
    }

    method CloseOn(between: seq<SenderStep>, during: seq<SenderStep>)
      requires Valid() && Alive()
      modifies this
      ensures Valid() && multiset(old(taken)) <= multiset(taken)
      ensures old(high == [] && low == []) ==> !torn && (typ.Invalid? ==> (SameOrder(taken, done) <==> lost.None?))
    {
      hide Valid, SameOrder, PipePackets, Sent, Queue;
      NotTorn();
      RunSenders(between);
      NotTorn();
      BeginClose();
      Nothing();
      RunSenders(during);
      if lock.Free? { FinishClose(); }
    }

    lemma NotTorn()
      requires Valid() && Alive()
      ensures !torn && cut.None?
    {
    }

    /**
     * A close at any time, with any steps of senders before it gets dw_lock. The stream breaks exactly if
     * the head of the lists was written in part and a direct write puts something behind it.
     */
    method CloseUnderWrites(during: seq<SenderStep>)
      requires Valid() && Alive()
      modifies this
      ensures Valid()
      ensures Read(log).Broken? <==> old(dw.None? && Opened(high).Some?) && Sent() > old(Sent())
    {
      hide Valid, SameOrder, PipePackets, Sent, Packets, Opened, Read;
      NotTorn();
      BeginClose();
      RunSenders(during);
      if lock.Free? { FinishClose(); }
      WireShape();
    }
  }

  /** Closing with nothing in hand: the rest is dropped. */
  lemma DroppedAll(taken: seq<Packet>, done: seq<Packet>, rest: seq<Packet>)
    requires SameOrder(taken, done + rest)
    ensures Hand(Free, None) == []
    ensures multiset(taken) == multiset(done) + multiset(rest) + multiset(Hand(Free, None))
    ensures rest == [] ==> SameOrder(taken, done + Hand(Free, None))
  {
    hide Of;
    SameOrderSame(taken, done + rest);
    assert multiset(done + rest) == multiset(done) + multiset(rest);
    assert rest == [] ==> done + rest == done + Hand(Free, None);
  }

  lemma LowBounds(l: seq<Buf>)
    requires ListOk(l)
    ensures InBounds(l) && (Unsent(l) ==> Opened(l) == None)
    ensures |Rest(l)| == |Rest([])| + |Rest(l)| && Packets(l) == Packets([]) + Packets(l)
  {
  }

  /** A packet is queued behind what is already on its way. */
  lemma QueueOrder(taken: seq<Packet>, done: seq<Packet>, hand: seq<Packet>, hl: seq<Packet>, hl2: seq<Packet>, p: Packet)
    requires SameOrder(hl2, hl + [p])
    ensures SameOrder(taken, done + (hand + hl)) ==> SameOrder(taken + [p], done + (hand + hl2))
    ensures SameOrder(hand + hl2, (hand + hl) + [p])
  {
    hide Of;
    SameOrderCons(hand, hl2, hl + [p]);
    assert hand + (hl + [p]) == (hand + hl) + [p];
    SameOrderCons(done, hand + hl2, (hand + hl) + [p]);
    assert done + ((hand + hl) + [p]) == (done + (hand + hl)) + [p];
    if SameOrder(taken, done + (hand + hl)) { SameOrderAppend(taken, done + (hand + hl), [p]); }
  }

  lemma SuffixOrder(taken: seq<Packet>, mark: nat, hl: seq<Packet>, hl2: seq<Packet>, p: Packet)
    requires SameOrder(hl2, hl + [p]) && mark <= |taken|
    ensures (taken + [p])[..mark] == taken[..mark]
    ensures SameOrder(taken[mark..], hl) ==> SameOrder((taken + [p])[mark..], hl2)
  {
    hide Of;
    assert (taken + [p])[mark..] == taken[mark..] + [p];
    if SameOrder(taken[mark..], hl) { SameOrderAppend(taken[mark..], hl, [p]); }
  }

  lemma MoreTaken(taken: seq<Packet>, p: Packet, rest: seq<Packet>)
    ensures (taken + [p]) + rest == taken + ([p] + rest)
    ensures multiset(taken) <= multiset(taken + [p])
  {
  }

  lemma EmptyPipe(pipe: seq<Request>)
    requires |PipePackets(pipe)| == 0
    ensures PipePackets(pipe) == []
  {
  }

  /** The lists are dropped, what is in hand is not. */
  lemma FreedLists(taken: seq<Packet>, done: seq<Packet>, hand: seq<Packet>, hl: seq<Packet>)
    requires SameOrder(taken, done + (hand + hl))
    ensures multiset(taken) == multiset(done) + multiset(hl) + multiset(hand)
    ensures hl == [] ==> SameOrder(taken, done + hand)
  {
    hide Of;
    SameOrderSame(taken, done + (hand + hl));
    assert multiset(done + (hand + hl)) == multiset(done) + (multiset(hand) + multiset(hl));
    assert hl == [] ==> hand + hl == hand;
  }

  /** All is written if and only if nothing was dropped and nothing is in hand. */
  lemma AllWritten(taken: seq<Packet>, done: seq<Packet>, dropped: seq<Packet>, left: seq<Packet>)
    requires multiset(taken) == multiset(done) + multiset(dropped) + multiset(left)
    requires dropped == [] ==> SameOrder(taken, done + left)
    ensures SameOrder(taken, done) <==> dropped == [] && left == []
  {
    hide Of;
    assert |multiset(taken)| == |taken| && |multiset(done)| == |done| && |multiset(dropped)| == |dropped| && |multiset(left)| == |left|;
    if SameOrder(taken, done) { SameOrderSame(taken, done); }
    assert done + [] == done;
  }

  lemma HandNone(lock: Lock, dw: Option<Buf>)
    ensures lock.Free? ==> (Hand(lock, dw) == [] <==> dw.None?) && Hand(lock, dw) == Hand(Free, dw)
  {
  }

  lemma SameHand(l: Lock, l2: Lock, dw: Option<Buf>)
    requires !l.Writing? && !l2.Writing?
    ensures Hand(l, dw) == Hand(l2, dw)
  {
  }

  /** With empty lists all that was taken is written or in hand. */
  lemma NothingSince(taken: seq<Packet>, done: seq<Packet>, hand: seq<Packet>)
    ensures taken[..|taken|] == taken && taken[|taken|..] == [] && Packets([]) + Packets([]) == []
    ensures SameOrder(taken, done + (hand + (Packets([]) + Packets([])))) ==> SameOrder(taken, done + hand)
  {
    hide Of;
    assert hand + (Packets([]) + Packets([])) == hand;
  }

  /** A packet written before what is queued is accepted before it. */
  lemma InsertedAt(taken: seq<Packet>, mark: nat, done: seq<Packet>, hl: seq<Packet>, p: Packet)
    requires mark <= |taken| && SameOrder(taken[..mark], done + Hand(Free, None)) && SameOrder(taken[mark..], hl)
    ensures SameOrder(taken[..mark], done)
    ensures SameOrder(taken[..mark] + [p] + taken[mark..], done + (Hand(Writing(p), None) + hl))
  {
    hide Of;
    assert done + Hand(Free, None) == done && Hand(Writing(p), None) == [p];
    SameOrderAppend(taken[..mark], done, [p] + taken[mark..]);
    SameOrderCons(done + [p], taken[mark..], hl);
    assert taken[..mark] + [p] + taken[mark..] == taken[..mark] + ([p] + taken[mark..]);
    assert done + ([p] + taken[mark..]) == (done + [p]) + taken[mark..];
    assert done + ([p] + hl) == (done + [p]) + hl;
  }

  lemma MoreInserted(taken: seq<Packet>, mark: nat, p: Packet, rest: seq<Packet>)
    requires mark <= |taken|
    ensures var t2 := taken[..mark] + [p] + taken[mark..]; multiset(taken) <= multiset(t2) && multiset(taken + rest) <= multiset(t2 + rest)
  {
    assert taken == taken[..mark] + taken[mark..];
  }

  /** Accepted while the socket closes. */
  lemma AcceptedLate(taken: seq<Packet>, done: seq<Packet>, dropped: seq<Packet>, p: Packet)
    ensures Hand(Writing(p), None) == [p] && Hand(Free, None) == []
    ensures multiset(taken) == multiset(done) + multiset(dropped) + multiset([]) ==>
      multiset(taken + [p]) == multiset(done) + multiset(dropped) + multiset([p])
    ensures SameOrder(taken, done + []) ==> SameOrder(taken + [p], done + [p])
  {
    hide Of;
    assert done + [] == done;
    if SameOrder(taken, done) { SameOrderAppend(taken, done, [p]); }
  }

  /** A packet in hand is written, or left over. */
  lemma Moved(done: seq<Packet>, p: Packet, n: nat, hl: seq<Packet>)
    ensures done + (Hand(Writing(p), None) + hl) == (done + [p]) + (Hand(Free, None) + hl)
    ensures Hand(Writing(p), None) == Hand(Free, Some(Buf(p, n))) == [p] && Hand(Free, None) == []
    ensures done + [p] == (done + [p]) + [] && multiset(done + [p]) == multiset(done) + multiset([p])
  {
  }

  /** A direct write by one sender, undisturbed, up to the write: its packet is accepted. */
  method DirectAccept(s: Socket, a: nat, p: Packet)
    requires s.Valid() && s.lock.Free? && s.typ.Connected? && s.high == [] && s.low == [] && s.dw.None? && s.sending == 0
    requires a !in s.calls && p.prio.High?
    modifies s`calls, s`starts, s`lock, s`since, s`mark, s`taken
    ensures s.Valid() && s.lock == Writing(p) && (old(s.taken) == [] ==> s.taken == [p])
  {
    hide Socket.Valid, SameOrder;
    s.StartSend(a, p);
    for k := 0 to READS
      invariant s.Valid() && a in s.calls && s.calls[a] == Call(p, k) && s.lock.Free? && s.taken == old(s.taken)
    {
      var _ := s.Look(a, true);
    }
    var _ := s.TryLock(a);
    for k := 0 to READS
      invariant s.Valid()
      invariant if k < READS then s.lock == Checking(p, k) && s.taken == old(s.taken) else s.lock == Writing(p) && (old(s.taken) == [] ==> s.taken == [p])
    {
      var _ := s.LookLocked();
    }
  }

  /** A packet is written in part, and nothing else is on its way. */
  method HalfWritten(b: Packet) returns (s: Socket)
    requires b.prio.High? && |b.data| > 1
    ensures fresh(s) && s.Valid() && s.typ.Connected? && !s.closing && s.lock.Free? && s.dw.None? && s.sending == 0 && s.calls == map[]
    ensures s.high == [Buf(b, 1)] && s.low == []
  {
    hide Socket.Valid, SameOrder, Socket.Queue, Socket.Stream, Socket.Accepted;
    s := new Socket(true);
    var _ := s.IncSending();
    s.SendRequest(b);
    s.HandleData();
    assert s.high == [Buf(b, 0)];
    var r, _ := s.SendBuffer([Wrote(1)]);
  }

  /** Its list is freed, and a direct write follows it on the wire. */
  method TornRun(b: Packet, p: Packet) returns (s: Socket)
    requires b.prio.High? && |b.data| > 1 && p.prio.High? && p.data != []
    ensures fresh(s) && s.Valid() && s.typ.Invalid? && Read(s.log).Broken?
  {
    hide Socket.Valid, SameOrder, Socket.Queue, Socket.Stream, Read, Bytes;
    s := HalfWritten(b);
    s.BeginClose();
    DirectAccept(s, 0, p);
    var _ := s.DirectWrite(Wrote(1));
    s.FinishClose();
    s.WireShape();
  }

  /**
   * A direct write that is under way while the socket is closed gracefully may lose its packet: it
   * was checked before the close request was handled, and it is written, in part or not at all,
   * before the lock is free for closing.
   */
  method LateDirectWrite() returns (s: Socket)
    ensures fresh(s) && s.Valid() && s.typ.Invalid? && s.taken == [Packet(High, [7])] && s.done == []
  {
    hide Socket.Valid, SameOrder, Socket.Queue, Socket.Stream, Read, Bytes, PipePackets;
    s := new Socket(true);
    DirectAccept(s, 0, Packet(High, [7]));
    s.CloseRequest(false);
    var r, graceful := s.HandleClose([]);
    s.BeginClose();
    var whole := s.DirectWrite(WouldBlock);
    s.FinishClose();
  }

  lemma MoreBegan(taken: seq<Packet>, taken2: seq<Packet>, rest: seq<Packet>)
    requires multiset(taken) <= multiset(taken2) && multiset(taken + rest) <= multiset(taken2 + rest)
    ensures forall next, start :: Began(next, start, taken + rest, taken) ==> Began(next, start, taken2 + rest, taken2)
  {
  }

  lemma WiredPieces(log: seq<Piece>, done: seq<Packet>, l: seq<Buf>)
    requires Wired(log, done, l)
    ensures PiecesOk(log)
  {
  }
}
