/**
 * The hierarchical timing wheel of skynet-src/skynet_timer.c: one near ring of 256 slots and
 * four levels of 64 slots over a 32-bit clock that wraps around. It is proved to behave like
 * a plain list of (expiry, event) pairs.
 */
module Timer {
  import opened Division
  import opened Bits

  const TIME_NEAR: int := 256
  const TIME_LEVEL: int := 64
  const WRAP: int := 0x1_0000_0000
  const HALF: int := 0x8000_0000

  type U32 = x: int | 0 <= x < WRAP

  datatype Node = Node(expire: U32, event: nat)

  datatype Slot = Near(i: int) | Level(l: int, i: int)

  /** The 32-bit distance from `t` forward to `e`. */
  function Ahead(e: U32, t: U32): U32 { if e >= t then e - t else e - t + WRAP }

  function Tick(t: U32): U32 { if t + 1 == WRAP then 0 else t + 1 }

  function Plus(t: U32, d: U32): U32 { if t + d < WRAP then t + d else t + d - WRAP }

  /** 256 * 64^l: the span covered by one slot of level l. */
  function Span(l: int): int {
    if l <= 0 then 0x100 else if l == 1 then 0x4000 else if l == 2 then 0x10_0000 else 0x400_0000
  }

  /** add_node's choice of list. (x|(m-1)) == (y|(m-1)) means that x and y agree above the mask. */
  function SlotOf(e: U32, t: U32): Slot {
    if e / Span(0) == t / Span(0) then Near(e % 256)
    else
      var l := if e / Span(1) == t / Span(1) then 0 else if e / Span(2) == t / Span(2) then 1
               else if e / Span(3) == t / Span(3) then 2 else 3;
      Level(l, (e / Span(l)) % 64)
  }

  /** The masks of the source, bit by bit, compare and take apart quotients as SlotOf does. */
  lemma MaskCompares(x: U32, y: U32, l: int)
    requires 0 <= l < 4
    ensures Or(x, Span(l) - 1) == Or(y, Span(l) - 1) <==> x / Span(l) == y / Span(l)
    ensures And(x, TIME_NEAR - 1) == x % 256 && And(x / Span(l), TIME_LEVEL - 1) == (x / Span(l)) % 64
  {
    SpanIsPower(l);
    hide Or, And, Span;
    SameAbove(x, y, 8 + 6 * l);
    LowBits(x, 8);
    LowBits(x / Span(l), 6);
  }

  lemma SpanIsPower(l: int)
    requires 0 <= l < 4
    ensures Span(l) == Pow2(8 + 6 * l) && Pow2(8) == TIME_NEAR && Pow2(6) == TIME_LEVEL
  {
    assert Pow2(6) == 64 && Pow2(8) == 256;
    Pow2Split(8, 6);
    Pow2Split(14, 6);
    Pow2Split(20, 6);
  }

  /** The list that timer_shift redistributes when the clock becomes `ct`, if any. */
  datatype Moved = Nothing | Moved(l: int, i: int)

  function Shifted(ct: U32): Moved {
    if ct == 0 then Moved(3, 0) else ShiftedFrom(ct, 0)
  }

  function ShiftedFrom(ct: U32, l: int): Moved
    requires 0 <= l <= 3 && ct != 0
    decreases 3 - l
  {
    if ct % Span(l) != 0 then Nothing
    else
      var idx := (ct / Span(l)) % 64;
      if idx != 0 then Moved(l, idx)
      else if l == 3 then Nothing   // cannot happen for ct != 0
      else ShiftedFrom(ct, l + 1)
  }

  lemma QuotientStep(t: int, m: int)
    requires t >= 0 && m > 0
    ensures (t + 1) % m == 0 ==> (t + 1) / m == t / m + 1
    ensures (t + 1) % m != 0 ==> (t + 1) / m == t / m
  {
    var q, r := t / m, t % m;
    assert t == m * q + r;
    if r + 1 == m {
      assert t + 1 == m * (q + 1);
      DivExact(q + 1, m, 0);
    } else {
      assert t + 1 == m * q + (r + 1);
      DivExact(q, m, r + 1);
    }
  }

  /** A pending expiry is at least one tick and less than half the clock range ahead. */
  predicate Pending(e: U32, t: U32) { 1 <= Ahead(e, t) < HALF }

  /** Quotients of a time by the four spans are digits in base 64 on top of each other. */
  lemma Digits(x: U32)
    ensures x / 0x100 == 64 * (x / 0x4000) + (x / 0x100) % 64
    ensures x / 0x4000 == 64 * (x / 0x10_0000) + (x / 0x4000) % 64
    ensures x / 0x10_0000 == 64 * (x / 0x400_0000) + (x / 0x10_0000) % 64
    ensures x / 0x400_0000 == (x / 0x400_0000) % 64
  {
  }

  /** The last tick of a block of `m` ticks. */
  lemma LastOfBlock(t: int, m: int)
    requires t >= 0 && m > 0 && (t + 1) % m == 0
    ensures t % m == m - 1
  {
    QuotientStep(t, m);
    assert t == m * (t / m) + t % m && t + 1 == m * ((t + 1) / m);
    assert m * (t / m + 1) == m * (t / m) + m;
  }

  /** Within a block of `m` ticks that ends with `t` nothing is pending. */
  lemma BlockEnd(e: U32, t: U32, m: int)
    requires Pending(e, t) && m > 0 && m <= 0x400_0000 && (t + 1) % m == 0
    ensures e / m != t / m
  {
    LastOfBlock(t, m);
    var q := t / m;
    assert t == m * q + (m - 1);
    assert e == m * (e / m) + e % m;
  }

  /** The new time does not carry at all. */
  lemma StableLowest(e: U32, t: U32)
    requires Pending(e, t) && t + 1 < WRAP && (t + 1) % 0x100 != 0
    ensures SlotOf(e, t) == SlotOf(e, t + 1)
  {
    Digits(t);
    Digits(t + 1);
    QuotientStep(t, 0x100);
  }

  /** The new time carries into level 0 and no further. */
  lemma StableLow(e: U32, t: U32)
    requires Pending(e, t) && t + 1 < WRAP && (t + 1) % 0x100 == 0 && (t + 1) % 0x4000 != 0
    ensures var m := Shifted(t + 1); SlotOf(e, t) == SlotOf(e, t + 1) || (m.Moved? && SlotOf(e, t) == Level(m.l, m.i))
  {
    Digits(e);
    Digits(t);
    Digits(t + 1);
    QuotientStep(t, 0x100);
    BlockEnd(e, t, 0x100);
    QuotientStep(t, 0x4000);
    assert Shifted(t + 1) == Moved(0, ((t + 1) / 0x100) % 64);
  }

  /** It carries into level 1 and no further. */
  lemma StableMid(e: U32, t: U32)
    requires Pending(e, t) && t + 1 < WRAP && (t + 1) % 0x4000 == 0 && (t + 1) % 0x10_0000 != 0
    ensures var m := Shifted(t + 1); SlotOf(e, t) == SlotOf(e, t + 1) || (m.Moved? && SlotOf(e, t) == Level(m.l, m.i))
  {
    Digits(e);
    Digits(t + 1);
    QuotientStep(t, 0x4000);
    BlockEnd(e, t, 0x4000);
    QuotientStep(t, 0x10_0000);
    assert (t + 1) % 0x100 == 0 && ((t + 1) / 0x100) % 64 == 0;
    assert Shifted(t + 1) == Moved(1, ((t + 1) / 0x4000) % 64);
  }

  /** It carries into level 2 or 3. */
  lemma StableHigh(e: U32, t: U32)
    requires Pending(e, t) && t + 1 < WRAP && (t + 1) % 0x10_0000 == 0
    ensures var m := Shifted(t + 1); SlotOf(e, t) == SlotOf(e, t + 1) || (m.Moved? && SlotOf(e, t) == Level(m.l, m.i))
  {
    Digits(e);
    Digits(t);
    Digits(t + 1);
    QuotientStep(t, 0x10_0000);
    BlockEnd(e, t, 0x10_0000);
    QuotientStep(t, 0x400_0000);
    assert (t + 1) % 0x4000 == 0 && ((t + 1) / 0x4000) % 64 == 0;
    assert (t + 1) % 0x100 == 0 && ((t + 1) / 0x100) % 64 == 0;
    if (t + 1) % 0x400_0000 == 0 {
      BlockEnd(e, t, 0x400_0000);
      assert Shifted(t + 1) == Moved(3, ((t + 1) / 0x400_0000) % 64);
    } else {
      assert Shifted(t + 1) == Moved(2, ((t + 1) / 0x10_0000) % 64);
    }
  }

  /** Ticking changes the right slot of a pending expiry only for the list that is moved. */
  lemma SlotStable(e: U32, t: U32)
    requires Pending(e, t)
    ensures var m := Shifted(Tick(t)); var s := SlotOf(e, t);
      s == SlotOf(e, Tick(t)) || (m.Moved? && s == Level(m.l, m.i))
  {
    if t + 1 == WRAP {
      Digits(e);
      Digits(t);
      BlockEnd(e, t, 0x400_0000);
    } else if (t + 1) % 0x100 != 0 {
      StableLowest(e, t);
    } else if (t + 1) % 0x4000 != 0 {
      StableLow(e, t);
    } else if (t + 1) % 0x10_0000 != 0 {
      StableMid(e, t);
    } else {
      StableHigh(e, t);
    }
  }

  // ---------------------------------------------------------------- the plain list

  /** Events of the nodes with expiry `e`, in order. */
  function At(l: seq<Node>, e: U32): seq<nat> {
    if l == [] then [] else (if l[0].expire == e then [l[0].event] else []) + At(l[1..], e)
  }

  function Without(l: seq<Node>, e: U32): seq<Node> {
    if l == [] then [] else (if l[0].expire == e then [] else [l[0]]) + Without(l[1..], e)
  }

  lemma HeadOf(l: seq<Node>)
    requires l != []
    ensures forall e: U32 :: At(l, e) == (if l[0].expire == e then [l[0].event] else []) + At(l[1..], e)
  {
  }

  lemma {:induction false} AtAppend(a: seq<Node>, b: seq<Node>, e: U32)
    ensures At(a + b, e) == At(a, e) + At(b, e)
  {
    if a == [] {
      assert a + b == b;
    } else {
      assert (a + b)[0] == a[0] && (a + b)[1..] == a[1..] + b;
      AtAppend(a[1..], b, e);
      var h := if a[0].expire == e then [a[0].event] else [];
      assert At(a + b, e) == h + (At(a[1..], e) + At(b, e));
      assert At(a, e) == h + At(a[1..], e);
    }
  }

  lemma {:induction false} AtWithout(l: seq<Node>, x: U32, e: U32)
    ensures At(Without(l, x), e) == if e == x then [] else At(l, e)
  {
    if l != [] {
      AtWithout(l[1..], x, e);
      AtAppend(if l[0].expire == x then [] else [l[0]], Without(l[1..], x), e);
    }
  }

  /** No node of `l` expires at `e`. */
  lemma {:induction false} AtNone(l: seq<Node>, e: U32)
    requires forall k :: 0 <= k < |l| ==> l[k].expire != e
    ensures At(l, e) == []
  {
    if l != [] {
      assert forall k :: 0 <= k < |l[1..]| ==> l[1..][k] == l[k + 1];
      AtNone(l[1..], e);
    }
  }

  /** All nodes of `l` expire at `e`. */
  lemma {:induction false} AtAll(l: seq<Node>, e: U32)
    requires forall k :: 0 <= k < |l| ==> l[k].expire == e
    ensures |At(l, e)| == |l| && forall k :: 0 <= k < |l| ==> At(l, e)[k] == l[k].event
  {
    if l != [] {
      assert forall k :: 0 <= k < |l[1..]| ==> l[1..][k] == l[k + 1];
      AtAll(l[1..], e);
    }
  }

  // ---------------------------------------------------------------- the wheel

  /** The loop of timer_shift: the lowest level whose digit of the new time is not zero. */
  method ListToMove(ct: U32) returns (m: Moved)
    ensures m == Shifted(ct)
    ensures m.Moved? ==> IsSlot(Level(m.l, m.i))
  {
    if ct == 0 { return Moved(3, 0); }
    var mask, q, i := TIME_NEAR, ct / TIME_NEAR, 0;
    while ct % mask == 0
      invariant 0 <= i <= 3 && mask == Span(i) && q == ct / Span(i)
      invariant Shifted(ct) == ShiftedFrom(ct, i)
      decreases 3 - i
    {
      var idx := q % TIME_LEVEL;
      if idx != 0 { return Moved(i, idx); }
      Digits(ct);
      mask, q, i := mask * TIME_LEVEL, q / TIME_LEVEL, i + 1;
    }
    m := Nothing;
  }

  predicate IsSlot(s: Slot) {
    match s
    case Near(i) => 0 <= i < TIME_NEAR
    case Level(l, i) => 0 <= l < 4 && 0 <= i < TIME_LEVEL
  }

  /** add_node's choice always exists. */
  lemma SlotExists(e: U32, now: U32)
    ensures IsSlot(SlotOf(e, now))
  {
  }

  /** The list to be moved and the time at which it was last in place. */
  datatype Carry = Carry(slot: Slot, before: U32)

  class Wheel {
    const near: array<seq<Node>>
    const t: array2<seq<Node>>
    var time: U32
    ghost var pending: seq<Node>   // all timers not yet fired, in the order they were added

    ghost predicate Shape() {
      near.Length == TIME_NEAR && t.Length0 == 4 && t.Length1 == TIME_LEVEL
    }

    function ListAt(s: Slot): seq<Node>
      requires Shape() && IsSlot(s)
      reads near, t
    {
      match s
      case Near(i) => near[i]
      case Level(l, i) => t[l, i]
    }

    /** Every node sits in the list add_node would choose for it at time `now`. */
    ghost predicate Placed(now: U32)
      requires Shape()
      reads near, t
    {
      forall s: Slot, k: int :: IsSlot(s) && 0 <= k < |ListAt(s)| ==> SlotOf(ListAt(s)[k].expire, now) == s
    }

    /** The timers due at `e` according to the lists. */
    ghost function Due(e: U32, now: U32): seq<nat>
      requires Shape()
      reads near, t
    {
      SlotExists(e, now);
      At(ListAt(SlotOf(e, now)), e)
    }

    /** The lists hold, expiry by expiry, exactly the nodes of the plain list `p`. */
    ghost predicate Holds(p: seq<Node>, now: U32)
      requires Shape()
      reads near, t
    {
      forall e: U32 :: Due(e, now) == At(p, e)
    }

    ghost predicate Valid()
      reads this, near, t
    {
      && Shape()
      && Placed(time)
      && Holds(pending, time)
      && forall k :: 0 <= k < |pending| ==> Pending(pending[k].expire, time)
    }

    constructor ()
      ensures Valid() && fresh(near) && fresh(t) && time == 0 && pending == []
    {
      near := new seq<Node>[TIME_NEAR](_ => []);
      t := new seq<Node>[4, TIME_LEVEL]((_, _) => []);
      time := 0;
      pending := [];
    }

    /** add_node: append the node to its list; nothing else changes. */
    method AddNode(node: Node)
      requires Shape()
      modifies near, t
      ensures forall s: Slot :: IsSlot(s) ==>
        ListAt(s) == old(ListAt(s)) + (if s == SlotOf(node.expire, time) then [node] else [])
    {
      var e := node.expire;
      if e / Span(0) == time / Span(0) {
        near[e % 256] := near[e % 256] + [node];
      } else {
        var i := 0;
        while i < 3 && e / Span(i + 1) != time / Span(i + 1)
          invariant 0 <= i <= 3
          invariant forall j :: 1 <= j <= i ==> e / Span(j) != time / Span(j)
        {
          i := i + 1;
        }
        assert SlotOf(e, time) == Level(i, (e / Span(i)) % 64) by {
          assert i >= 1 ==> e / Span(1) != time / Span(1);
          assert i >= 2 ==> e / Span(2) != time / Span(2);
          assert i >= 3 ==> e / Span(3) != time / Span(3);
        }
        t[i, (e / Span(i)) % 64] := t[i, (e / Span(i)) % 64] + [node];
      }
    }

    /** A node added to the lists is due after all others of its expiry. */
    twostate lemma AddedDue(node: Node)
      requires Shape() && old(time) == time
      requires forall s: Slot :: IsSlot(s) ==>
        ListAt(s) == old(ListAt(s)) + (if s == SlotOf(node.expire, time) then [node] else [])
      ensures old(Placed(time)) ==> Placed(time)
      ensures forall e: U32 :: Due(e, time) == old(Due(e, time)) + (if e == node.expire then [node.event] else [])
    {
      hide SlotOf, IsSlot, ListAt;
      forall e: U32 ensures Due(e, time) == old(Due(e, time)) + (if e == node.expire then [node.event] else []) {
        var s := SlotOf(e, time);
        SlotExists(e, time);
        AtAppend(old(ListAt(s)), [node], e);
        assert old(ListAt(s)) + [] == old(ListAt(s));
        if e != node.expire { AtNone([node], e); } else { assert [node][1..] == []; }
        assert ListAt(s) == old(ListAt(s)) + (if s == SlotOf(node.expire, time) then [node] else []);
        assert Due(e, time) == At(ListAt(s), e);
      }
    }

    /** add_node, seen from the timers that are due. */
    method AddPlaced(node: Node)
      requires Shape()
      modifies near, t
      ensures old(Placed(time)) ==> Placed(time)
      ensures forall e: U32 :: Due(e, time) == old(Due(e, time)) + (if e == node.expire then [node.event] else [])
    {
      AddNode(node);
      AddedDue(node);
    }

    /** timer_add: the timer expires `d` ticks ahead. */
    method TimerAdd(event: nat, d: U32)
      requires Valid() && 1 <= d < HALF
      modifies this`pending, near, t
      ensures Valid()
      ensures pending == old(pending) + [Node(Plus(time, d), event)]
    {
      var node := Node(Plus(time, d), event);
      AddPlaced(node);
      pending := pending + [node];
      forall e: U32 ensures Due(e, time) == At(pending, e) {
        AtAppend(old(pending), [node], e);
        if e != node.expire { AtNone([node], e); }
      }
    }

    /** link_clear: what the list held is now all that the lists lack. */
    method ClearLevel(l: int, i: int, ghost before: U32) returns (nodes: seq<Node>)
      requires Shape() && 0 <= l < 4 && 0 <= i < TIME_LEVEL && Placed(before)
      requires forall e: U32 :: At(pending, e) != [] ==>
        SlotOf(e, before) == SlotOf(e, time) || SlotOf(e, before) == Level(l, i)
      requires Holds(pending, before)
      modifies t
      ensures Placed(time) && Lacks(nodes)
    {
      nodes := t[l, i];
      t[l, i] := [];
      Cleared(Carry(Level(l, i), before));
    }

    /**
     * move_list: put every node of a list where it belongs at the present time. `before` is
     * the time at which all nodes were last in place.
     */
    method MoveList(l: int, i: int, ghost before: U32)
      requires Shape() && 0 <= l < 4 && 0 <= i < TIME_LEVEL && Placed(before)
      requires forall e: U32 :: At(pending, e) != [] ==>
        SlotOf(e, before) == SlotOf(e, time) || SlotOf(e, before) == Level(l, i)
      requires Holds(pending, before)
      modifies near, t
      ensures Placed(time) && Holds(pending, time)
    {
      var rest := ClearLevel(l, i, before);
      while rest != []
        invariant Placed(time)
        invariant Lacks(rest)
        decreases |rest|
      {
        MoveOne(rest);
        rest := rest[1..];
      }
    }

    /** The lists lack exactly the nodes of `rest`. */
    ghost predicate Lacks(rest: seq<Node>)
      requires Shape()
      reads this, near, t
    {
      forall e: U32 :: Due(e, time) + At(rest, e) == At(pending, e)
    }

    /** The first node of `rest` takes its place among the due timers. */
    method MoveOne(rest: seq<Node>)
      requires Shape() && Placed(time) && rest != [] && Lacks(rest)
      modifies near, t
      ensures Placed(time) && Lacks(rest[1..])
    {
      AddPlaced(rest[0]);
      HeadOf(rest);
    }

    /** After the list to be moved is cleared, what it held is all that is missing, and all else is in place. */
    twostate lemma Cleared(c: Carry)
      requires Shape() && IsSlot(c.slot) && old(time) == time && old(pending) == pending
      requires old(Placed(c.before)) && old(Holds(pending, c.before))
      requires forall e: U32 :: At(pending, e) != [] ==>
        SlotOf(e, c.before) == SlotOf(e, time) || SlotOf(e, c.before) == c.slot
      requires forall s: Slot :: IsSlot(s) ==> ListAt(s) == if s == c.slot then [] else old(ListAt(s))
      ensures Placed(time) && Lacks(old(ListAt(c.slot)))
    {
      hide SlotOf, IsSlot, ListAt;
      var all := old(ListAt(c.slot));
      forall s: Slot, k: int | IsSlot(s) && 0 <= k < |ListAt(s)|
        ensures SlotOf(ListAt(s)[k].expire, time) == s
      {
        var node := old(ListAt(s))[k];
        assert SlotOf(node.expire, c.before) == s;
        AtFound(old(ListAt(s)), k);
        assert old(Due(node.expire, c.before)) == At(pending, node.expire);
      }
      forall e: U32 ensures Due(e, time) + At(all, e) == At(pending, e) {
        SlotExists(e, time);
        SlotExists(e, c.before);
        var s := SlotOf(e, time);
        assert old(Due(e, c.before)) == At(pending, e);
        NotListed(all, e, c.before, c.slot);
        NotListed(old(ListAt(s)), e, c.before, s);
      }
    }

    /** The list being moved may be any when every pending timer already is where it belongs. */
    twostate lemma Undisturbed(before: U32)
      requires Shape() && old(pending) == pending
      requires old(Placed(before)) && old(Holds(pending, before))
      requires forall s: Slot :: IsSlot(s) ==> ListAt(s) == old(ListAt(s))
      requires forall e: U32 :: At(pending, e) != [] ==> SlotOf(e, before) == SlotOf(e, time)
      ensures Placed(time) && Holds(pending, time)
    {
      hide SlotOf, IsSlot, ListAt;
      forall s: Slot, k: int | IsSlot(s) && 0 <= k < |ListAt(s)|
        ensures SlotOf(ListAt(s)[k].expire, time) == s
      {
        var node := old(ListAt(s))[k];
        assert SlotOf(node.expire, before) == s;
        AtFound(old(ListAt(s)), k);
        assert old(Due(node.expire, before)) == At(pending, node.expire);
      }
      forall e: U32 ensures Due(e, time) == At(pending, e) {
        SlotExists(e, time);
        SlotExists(e, before);
        var s := SlotOf(e, time);
        assert old(Due(e, before)) == At(pending, e);
        NotListed(ListAt(s), e, before, s);
      }
    }

    /** timer_shift: advance the clock and redistribute the one list whose turn has come. */
    method TimerShift()
      requires Valid()
      modifies this`time, near, t
      ensures time == Tick(old(time)) && Placed(time) && Holds(pending, time)
    {
      hide SlotOf, Shifted;
      ghost var before := time;
      PendingStable();
      time := if time + 1 == WRAP then 0 else time + 1;
      var m := ListToMove(time);
      if m.Moved? {
        MoveList(m.l, m.i, before);
      } else {
        Undisturbed(before);
      }
    }

    /** Every timer in the plain list keeps its slot when the clock ticks, or is in the list to be moved. */
    lemma PendingStable()
      requires Valid()
      ensures var m := Shifted(Tick(time)); forall e: U32 :: At(pending, e) != [] ==>
        SlotOf(e, time) == SlotOf(e, Tick(time)) || (m.Moved? && SlotOf(e, time) == Level(m.l, m.i))
    {
      hide SlotOf, Shifted;
      forall e: U32 | At(pending, e) != []
        ensures var m := Shifted(Tick(time));
          SlotOf(e, time) == SlotOf(e, Tick(time)) || (m.Moved? && SlotOf(e, time) == Level(m.l, m.i))
      {
        var k := AtWitness(pending, e);
        SlotStable(e, time);
      }
    }

    /**
     * timer_execute: fire the timers due now. The lock is released while they are dispatched,
     * so `others` (event, delay) may be added by other threads meanwhile.
     */
    method TimerExecute(others: seq<(nat, U32)>) returns (fired: seq<nat>)
      requires Shape() && Placed(time) && Holds(pending, time)
      requires forall k :: 0 <= k < |pending| ==> Ahead(pending[k].expire, time) < HALF
      requires forall k :: 0 <= k < |others| ==> 1 <= others[k].1 < HALF
      modifies this`pending, near, t
      ensures Valid()
      ensures fired == At(old(pending), time)
      ensures pending == Without(old(pending), time) + (if fired == [] then [] else Nodes(others, time))
    {
      hide SlotOf;
      var idx := time % TIME_NEAR;
      fired := [];
      NearIsNow();
      WithoutRest(pending, time);
      while near[idx] != []
        invariant near[idx] != [] ==> pending == old(pending) && fired == [] && Placed(time) && Holds(pending, time)
        invariant near[idx] != [] ==> At(pending, time) != []
        invariant near[idx] == [] ==> Valid() && fired == At(old(pending), time)
        invariant near[idx] == [] ==>
          pending == Without(old(pending), time) + (if fired == [] then [] else Nodes(others, time))
        decreases |near[idx]|
      {
        var current := ClearNow();
        // unlocked here
        fired := fired + current;
        AddAll(others);
        // locked again
        WithoutRest(old(pending), time);
        NoneNow();
      }
    }

    /** link_clear on the near list of the present time; its events are about to be dispatched. */
    method ClearNow() returns (current: seq<nat>)
      requires Shape() && Placed(time) && Holds(pending, time)
      requires forall k :: 0 <= k < |pending| ==> Ahead(pending[k].expire, time) < HALF
      modifies this`pending, near
      ensures Valid() && current == At(old(pending), time) && pending == Without(old(pending), time)
    {
      NearIsNow();
      current := Events(near[time % TIME_NEAR]);
      near[time % TIME_NEAR] := [];
      pending := Without(pending, time);
      Dispatched(time % TIME_NEAR);
    }

    /** The timers that other threads add while the lock is free. */
    method AddAll(others: seq<(nat, U32)>)
      requires Valid()
      requires forall k :: 0 <= k < |others| ==> 1 <= others[k].1 < HALF
      modifies this`pending, near, t
      ensures Valid() && pending == old(pending) + Nodes(others, time)
    {
      for i := 0 to |others|
        invariant Valid() && pending == old(pending) + Nodes(others[..i], time)
      {
        TimerAdd(others[i].0, others[i].1);
        assert others[..i + 1][..i] == others[..i];
      }
      assert others[..|others|] == others;
    }

    /** Clearing the near list of the present time leaves the plain list without its due timers. */
    twostate lemma Dispatched(idx: int)
      requires Shape() && time == old(time) && idx == time % TIME_NEAR
      requires old(Placed(time)) && old(Holds(pending, time))
      requires pending == Without(old(pending), time)
      requires forall k :: 0 <= k < |old(pending)| ==> Ahead(old(pending)[k].expire, time) < HALF
      requires forall s: Slot :: IsSlot(s) ==> ListAt(s) == if s == Near(idx) then [] else old(ListAt(s))
      ensures Valid()
    {
      hide ListAt;
      forall s: Slot, k: int | IsSlot(s) && 0 <= k < |ListAt(s)|
        ensures SlotOf(ListAt(s)[k].expire, time) == s
      {
        assert SlotOf(old(ListAt(s))[k].expire, time) == s;
      }
      forall e: U32 ensures Due(e, time) == At(pending, e) {
        AtWithout(old(pending), time, e);
        assert old(Due(e, time)) == At(old(pending), e);
        NearOnlyNow(e, time);
      }
      WithoutRest(old(pending), time);
    }

    lemma NoneNow()
      requires Valid()
      ensures near[time % TIME_NEAR] == []
    {
      NearIsNow();
      if At(pending, time) != [] { var k := AtWitness(pending, time); }
    }

    /**
     * timer_update: one tick of the plain list. The execution before the shift finds nothing,
     * as no timer is ever due at the present time between updates.
     */
    method TimerUpdate(others: seq<(nat, U32)>) returns (fired: seq<nat>)
      requires Valid()
      requires forall k :: 0 <= k < |others| ==> 1 <= others[k].1 < HALF
      modifies this`pending, this`time, near, t
      ensures Valid()
      ensures var after := Apply(Plain(old(time), old(pending)), Update);
        && fired == after.1
        && time == after.0.time
        && pending == after.0.list + (if fired == [] then [] else Nodes(others, time))
    {
      hide At, Without, SlotOf, Shifted, Wheel.Placed, Wheel.Holds, Wheel.Due, Wheel.ListAt;
      NoneDue();
      WithoutRest(pending, time);
      var early := TimerExecute([]);
      assert pending == old(pending);
      TimerShift();
      assert time == Tick(old(time)) && pending == old(pending);
      fired := TimerExecute(others);
    }

    lemma NoneDue()
      requires Valid()
      ensures At(pending, time) == []
    {
      if At(pending, time) != [] { var k := AtWitness(pending, time); }
    }

    /** The near list of the present time holds exactly the timers due now. */
    lemma NearIsNow()
      requires Shape() && Placed(time) && Holds(pending, time)
      ensures forall k :: 0 <= k < |near[time % TIME_NEAR]| ==> near[time % TIME_NEAR][k].expire == time
      ensures Events(near[time % TIME_NEAR]) == At(pending, time)
      ensures near[time % TIME_NEAR] == [] <==> At(pending, time) == []
    {
      var l := near[time % TIME_NEAR];
      forall k | 0 <= k < |l| ensures l[k].expire == time {
        assert ListAt(Near(time % TIME_NEAR))[k] == l[k];
      }
      AtAll(l, time);
      EventsAt(l);
      assert Due(time, time) == At(pending, time);
    }
  }

  /** Only the present time has the near slot of the present time. */
  lemma NearOnlyNow(e: U32, t: U32)
    ensures SlotOf(e, t) == Near(t % TIME_NEAR) <==> e == t
  {
  }

  /** What is left without the timers due at `e`. */
  lemma {:induction false} WithoutRest(l: seq<Node>, e: U32)
    ensures forall k :: 0 <= k < |Without(l, e)| ==> Without(l, e)[k].expire != e && Without(l, e)[k] in l
    ensures At(l, e) == [] ==> Without(l, e) == l
  {
    if l != [] { WithoutRest(l[1..], e); }
  }

  function Nodes(others: seq<(nat, U32)>, t: U32): seq<Node> {
    if others == [] then [] else Nodes(others[..|others| - 1], t) + [Node(Plus(t, others[|others| - 1].1), others[|others| - 1].0)]
  }

  function Events(l: seq<Node>): seq<nat> {
    if l == [] then [] else [l[0].event] + Events(l[1..])
  }

  lemma {:induction false} EventsAt(l: seq<Node>)
    ensures |Events(l)| == |l| && forall k :: 0 <= k < |l| ==> Events(l)[k] == l[k].event
  {
    if l != [] { EventsAt(l[1..]); }
  }

  lemma {:induction false} AtFound(l: seq<Node>, k: int)
    requires 0 <= k < |l|
    ensures At(l, l[k].expire) != []
  {
    if k > 0 { AtFound(l[1..], k - 1); }
  }

  /** A list in place at time `t` holds no node that belongs elsewhere. */
  lemma NotListed(l: seq<Node>, e: U32, t: U32, slot: Slot)
    requires forall k :: 0 <= k < |l| ==> SlotOf(l[k].expire, t) == slot
    ensures SlotOf(e, t) != slot ==> At(l, e) == []
  {
    hide SlotOf;
    if SlotOf(e, t) != slot { AtNone(l, e); }
  }

  lemma {:induction false} AtWitness(l: seq<Node>, e: U32) returns (k: int)
    requires At(l, e) != []
    ensures 0 <= k < |l| && l[k].expire == e
  {
    if l[0].expire == e { k := 0; }
    else { var j := AtWitness(l[1..], e); k := j + 1; }
  }

  // ---------------------------------------------------------------- runs of the plain list

  datatype Plain = Plain(time: U32, list: seq<Node>)

  datatype Op = Add(event: nat, d: U32) | Update

  /** The new plain list and the events that fire. */
  function Apply(p: Plain, op: Op): (Plain, seq<nat>) {
    match op
    case Add(ev, d) => (Plain(p.time, p.list + [Node(Plus(p.time, d), ev)]), [])
    case Update => (Plain(Tick(p.time), Without(p.list, Tick(p.time))), At(p.list, Tick(p.time)))
  }

  /** What each update of a run fires. */
  function Log(p: Plain, ops: seq<Op>): seq<seq<nat>>
    decreases |ops|
  {
    if ops == [] then []
    else
      var a := Apply(p, ops[0]);
      if ops[0].Update? then [a.1] + Log(a.0, ops[1..]) else Log(a.0, ops[1..])
  }

  function Count(l: seq<nat>, ev: nat): nat { multiset(l)[ev] }

  /** How many nodes of the list carry event `ev`, and how many of them at expiry `e`. */
  function Copies(l: seq<Node>, ev: nat): nat {
    if l == [] then 0 else (if l[0].event == ev then 1 else 0) + Copies(l[1..], ev)
  }

  predicate AddsOf(ops: seq<Op>, ev: nat) {
    exists k :: 0 <= k < |ops| && ops[k].Add? && ops[k].event == ev
  }

  lemma {:induction false} CopiesAppend(a: seq<Node>, b: seq<Node>, ev: nat)
    ensures Copies(a + b, ev) == Copies(a, ev) + Copies(b, ev)
  {
    if a == [] { assert a + b == b; }
    else { assert (a + b)[1..] == a[1..] + b; CopiesAppend(a[1..], b, ev); }
  }

  /** Copies split into those at `e` and the rest. */
  lemma {:induction false} CopiesSplit(l: seq<Node>, ev: nat, e: U32)
    ensures Copies(l, ev) == Count(At(l, e), ev) + Copies(Without(l, e), ev)
  {
    if l != [] {
      CopiesSplit(l[1..], ev, e);
      CopiesAppend(if l[0].expire == e then [] else [l[0]], Without(l[1..], e), ev);
      assert [l[0]][1..] == [];
      assert Copies([l[0]], ev) == if l[0].event == ev then 1 else 0;
    }
  }

  /** All copies of `ev` expire at `x`. */
  predicate OnlyAt(l: seq<Node>, ev: nat, x: U32) {
    forall k :: 0 <= k < |l| && l[k].event == ev ==> l[k].expire == x
  }

  lemma {:induction false} OtherTimes(l: seq<Node>, ev: nat, x: U32, e: U32)
    requires OnlyAt(l, ev, x)
    ensures e != x ==> Count(At(l, e), ev) == 0
    ensures e == x ==> Copies(Without(l, e), ev) == 0
    ensures OnlyAt(Without(l, e), ev, x)
  {
    if l != [] {
      hide OnlyAt;
      OnlyHead(l, ev, x);
      OtherTimes(l[1..], ev, x, e);
      if l[0].expire == e {
        assert Without(l, e) == Without(l[1..], e);
      } else {
        assert Without(l, e)[1..] == Without(l[1..], e);
        OnlyCons(Without(l, e), ev, x);
      }
    }
  }

  lemma OnlyHead(l: seq<Node>, ev: nat, x: U32)
    requires l != [] && OnlyAt(l, ev, x)
    ensures (l[0].event == ev ==> l[0].expire == x) && OnlyAt(l[1..], ev, x)
  {
    forall k | 0 <= k < |l[1..]| && l[1..][k].event == ev ensures l[1..][k].expire == x { assert l[1..][k] == l[k + 1]; }
  }

  lemma OnlyCons(l: seq<Node>, ev: nat, x: U32)
    requires l != [] && (l[0].event == ev ==> l[0].expire == x) && OnlyAt(l[1..], ev, x)
    ensures OnlyAt(l, ev, x)
  {
    forall k | 0 <= k < |l| && l[k].event == ev ensures l[k].expire == x { if k > 0 { assert l[1..][k - 1] == l[k]; } }
  }

  lemma RestAdds(ops: seq<Op>, ev: nat)
    requires !AddsOf(ops, ev) && ops != []
    ensures !AddsOf(ops[1..], ev) && (ops[0].Add? ==> ops[0].event != ev)
  {
    forall k | 0 <= k < |ops[1..]| ensures !(ops[1..][k].Add? && ops[1..][k].event == ev) {
      assert ops[1..][k] == ops[k + 1];
    }
  }

  lemma AddOther(l: seq<Node>, ev: nat, x: U32, node: Node)
    requires node.event != ev
    ensures Copies(l + [node], ev) == Copies(l, ev)
    ensures OnlyAt(l, ev, x) ==> OnlyAt(l + [node], ev, x)
  {
    CopiesAppend(l, [node], ev);
    assert [node][1..] == [];
  }

  /** An event that is not in the list and is not added never fires. */
  lemma {:induction false} NeverFires(p: Plain, ev: nat, ops: seq<Op>, j: nat)
    requires Copies(p.list, ev) == 0 && !AddsOf(ops, ev) && j < |Log(p, ops)|
    ensures Count(Log(p, ops)[j], ev) == 0
    decreases |ops|
  {
    hide At, Without, Copies, Count;
    var a := Apply(p, ops[0]);
    RestAdds(ops, ev);
    match ops[0]
    case Add(e2, d) =>
      AddOther(p.list, ev, p.time, Node(Plus(p.time, d), e2));
      NeverFires(a.0, ev, ops[1..], j);
    case Update =>
      CopiesSplit(p.list, ev, Tick(p.time));
      if j > 0 { NeverFires(a.0, ev, ops[1..], j - 1); }
  }

  /** A single pending copy of `ev`, `n` ticks ahead, fires once, at the n-th update, and never else. */
  lemma {:induction false} PendingFires(p: Plain, ev: nat, x: U32, ops: seq<Op>, j: nat)
    requires Copies(p.list, ev) == 1 && OnlyAt(p.list, ev, x) && !AddsOf(ops, ev) && x != p.time && j < |Log(p, ops)|
    ensures Count(Log(p, ops)[j], ev) == if j + 1 == Ahead(x, p.time) then 1 else 0
    decreases |ops|
  {
    hide At, Without, Copies, Count, Plus;
    var a := Apply(p, ops[0]);
    RestAdds(ops, ev);
    match ops[0]
    case Add(e2, d) =>
      AddOther(p.list, ev, x, Node(Plus(p.time, d), e2));
      PendingFires(a.0, ev, x, ops[1..], j);
    case Update =>
      CopiesSplit(p.list, ev, Tick(p.time));
      OtherTimes(p.list, ev, x, Tick(p.time));
      if j > 0 {
        if Tick(p.time) == x { NeverFires(a.0, ev, ops[1..], j - 1); }
        else { PendingFires(a.0, ev, x, ops[1..], j - 1); }
      }
  }

  /**
   * A timer added with delay d (1 <= d < 2^31) fires exactly once, at the d-th following
   * update, whatever else is added meanwhile and even when the clock wraps around.
   */
  lemma FiresExactlyOnce(p: Plain, ev: nat, d: U32, ops: seq<Op>, j: nat)
    requires Copies(p.list, ev) == 0 && !AddsOf(ops, ev) && 1 <= d < HALF
    requires j < |Log(Apply(p, Add(ev, d)).0, ops)|
    ensures Count(Log(Apply(p, Add(ev, d)).0, ops)[j], ev) == if j + 1 == d then 1 else 0
  {
    var node := Node(Plus(p.time, d), ev);
    var q := Apply(p, Add(ev, d)).0;
    CopiesAppend(p.list, [node], ev);
    assert [node][1..] == [];
    forall k | 0 <= k < |q.list| && q.list[k].event == ev ensures q.list[k].expire == node.expire {
      if k < |p.list| { NoCopies(p.list, ev, k); }
    }
    PendingFires(q, ev, node.expire, ops, j);
  }

  lemma {:induction false} NoCopies(l: seq<Node>, ev: nat, k: nat)
    requires Copies(l, ev) == 0 && k < |l|
    ensures l[k].event != ev
  {
    if k > 0 { NoCopies(l[1..], ev, k - 1); }
  }

  /** `a` occurs before `b`. */
  predicate Precedes(l: seq<nat>, a: nat, b: nat) {
    exists i, j :: 0 <= i < j < |l| && l[i] == a && l[j] == b
  }

  /** Timers of equal expiry fire in the order in which they were added. */
  lemma {:induction false} SameExpiryInOrder(l: seq<Node>, i: nat, j: nat)
    requires i < j < |l| && l[i].expire == l[j].expire
    ensures Precedes(At(l, l[i].expire), l[i].event, l[j].event)
  {
    var e := l[i].expire;
    AtAppend(l[..j], l[j..], e);
    assert l[..j] + l[j..] == l;
    AtAppend(l[..i], l[i..j], e);
    assert l[..i] + l[i..j] == l[..j];
    assert At(l[i..j], e) == [l[i].event] + At(l[i..j][1..], e);
    assert At(l[j..], e) == [l[j].event] + At(l[j..][1..], e);
    var n, m := |At(l[..i], e)|, |At(l[..j], e)|;
    assert At(l, e)[n] == l[i].event && At(l, e)[m] == l[j].event;
  }
}
