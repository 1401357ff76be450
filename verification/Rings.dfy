/** The part of a ring buffer from its head to its tail. */
module Rings {
  import opened Division

  function Ring<T>(s: seq<T>, head: nat, tail: nat): seq<T>
    requires head <= |s| && tail <= |s|
  {
    if head <= tail then s[head..tail] else s[head..] + s[..tail]
  }

  lemma RingSize<T>(s: seq<T>, head: nat, tail: nat)
    requires head < |s| && tail < |s|
    ensures |Ring(s, head, tail)| == if head <= tail then tail - head else tail + |s| - head
  {
  }

  lemma RingPopped<T>(s: seq<T>, head: nat, tail: nat)
    requires head < |s| && tail < |s| && head != tail
    ensures Ring(s, head, tail) == [s[head]] + Ring(s, if head + 1 == |s| then 0 else head + 1, tail)
  {
  }

  /** A push extends the ring, or fills it. */
  lemma RingPushed<T>(s: seq<T>, head: nat, tail: nat, m: T)
    requires head < |s| && tail < |s|
    ensures var s2, t2 := s[tail := m], if tail + 1 == |s| then 0 else tail + 1;
      (if t2 == head then s2[head..] + s2[..head] else Ring(s2, head, t2)) == Ring(s, head, tail) + [m]
  {
  }

  lemma WrapIndex(head: nat, i: nat, cap: nat)
    requires head < cap && i < cap
    ensures (head + i) % cap == if head + i < cap then head + i else head + i - cap
  {
    if head + i >= cap {
      assert head + i == cap * 1 + (head + i - cap);
      DivExact(1, cap, head + i - cap);
    } else {
      DivExact(0, cap, head + i);
    }
  }
}
