/** The arithmetic of handle registration (skynet_handle.c): which slots a round of probes reaches. */
module HandleProbing {
  import opened Division
  import opened Bits

  const HANDLE_MASK := 0xff_ffff
  const HARBOR_STEP := 0x100_0000

  // ---------------------------------------------------------------- slots

  /** The slot of a handle: the mask of a power of two is the remainder. */
  function SlotOf(handle: nat, size: nat): (i: nat)
    requires size > 0
    ensures i < size
  {
    handle % size
  }

  lemma MaskIsSlot(handle: nat, bits: nat)
    ensures And(handle, Pow2(bits) - 1) == SlotOf(handle, Pow2(bits))
  {
    LowBits(handle, bits);
  }

  /** The harbour's bits lie above every slot number, so they do not change the slot. */
  lemma HarborBitsDoNotMatter(handle: nat, harbor: nat, bits: nat)
    requires bits <= 24
    ensures SlotOf(handle + harbor * HARBOR_STEP, Pow2(bits)) == SlotOf(handle, Pow2(bits))
  {
    var rest := Pow2(24 - bits);
    Pow2Split(bits, 24 - bits);
    TwentyFour();
    AddMultiple(handle, Pow2(bits), rest, harbor);
  }

  lemma AddMultiple(handle: nat, size: nat, rest: nat, harbor: nat)
    requires size > 0 && size * rest == HARBOR_STEP
    ensures (handle + harbor * HARBOR_STEP) % size == handle % size
  {
    var q, r := handle / size, handle % size;
    assert harbor * HARBOR_STEP == size * (rest * harbor);
    assert size * (q + rest * harbor) == size * q + size * (rest * harbor);
    DivExact(q + rest * harbor, size, r);
  }

  /** Joining the harbour's bits to a handle adds them, and masking takes them off again. */
  lemma HandleBits(handle: bv32, harbor: bv32)
    requires handle <= 0xff_ffff && harbor < 256
    ensures handle | (harbor << 24) == handle + (harbor << 24)
    ensures (handle | (harbor << 24)) & 0xff_ffff == handle
  {
  }

  lemma TwentyFour()
    ensures Pow2(24) == HARBOR_STEP
  {
    Pow2Split(8, 16);
    Pow2Split(8, 8);
    assert Pow2(4) == 16;
    Pow2Split(4, 4);
  }

  /** Two handles in different slots stay in different slots when the array doubles. */
  lemma DoublingSeparates(a: nat, size: nat)
    requires size > 0
    ensures SlotOf(a, 2 * size) == SlotOf(a, size) || SlotOf(a, 2 * size) == SlotOf(a, size) + size
  {
    var q, r := a / (2 * size), a % (2 * size);
    assert a == size * (2 * q) + r;
    if r < size { DivExact(2 * q, size, r); } else { DivExact(2 * q + 1, size, r - size); }
  }

  // ---------------------------------------------------------------- probing

  /** The handle tried after j others, counting from `index`: past the mask comes 1. */
  function Probe(index: nat, j: nat): (h: nat)
    requires index >= 1
    ensures 1 <= h <= HANDLE_MASK
  {
    (index - 1 + j) % HANDLE_MASK + 1
  }

  lemma ProbeStep(index: nat, j: nat)
    requires index >= 1
    ensures Probe(index, j + 1) == if Probe(index, j) + 1 > HANDLE_MASK then 1 else Probe(index, j) + 1
  {
    var n := index - 1 + j;
    var q, r := n / HANDLE_MASK, n % HANDLE_MASK;
    if r + 1 < HANDLE_MASK { DivExact(q, HANDLE_MASK, r + 1); } else { DivExact(q + 1, HANDLE_MASK, 0); }
  }

  /** Among the first `size` handles tried there is one for slot k. */
  ghost predicate Probed(index: nat, size: nat, k: nat)
    requires index >= 1 && size > 0
  {
    exists j: nat :: j < size && SlotOf(Probe(index, j), size) == k
  }

  /** The indices from which slot 0 is passed over: a wrap falls inside the round of probes, and 1 follows the mask. */
  predicate WrapsInside(index: nat, size: nat)
  {
    HARBOR_STEP - size < index < HARBOR_STEP
  }

  /** A power of two up to 2^24 divides it. */
  lemma MaskSplit(bits: nat) returns (q: nat)
    requires bits <= 24
    ensures q > 0 && Pow2(bits) * q == HARBOR_STEP && (bits < 24 ==> q >= 2)
  {
    q := Pow2(24 - bits);
    Pow2Split(bits, 24 - bits);
    TwentyFour();
  }

  lemma Monotone(m: nat, a: int, b: int)
    requires a <= b
    ensures m * a <= m * b
  {
  }

  lemma OneMore(m: int, a: int)
    ensures m * (a + 1) == m * a + m
  {
  }

  lemma IntoSlot(index: nat, j: nat, size: nat, q: int, k: nat)
    requires index >= 1 && j < size && k < size
    requires Probe(index, j) == size * q + k
    ensures Probed(index, size, k)
  {
    DivExact(q, size, k);
  }

  /** Where the round lies: slots r to the last, then those before r, of the next turn or of the first. */
  lemma {:induction false} RoundProbes(index: nat, size: nat, q: nat, d: nat, r: nat, k: nat)
    requires size > 0 && q > 0 && size * q == HARBOR_STEP && index == size * d + r && r < size && k < size
    requires 1 <= index < HARBOR_STEP
    ensures k >= r ==> Probed(index, size, k)
    ensures k < r && (d + 1 < q || k > 0) ==> Probed(index, size, k)
  {
    InsideMask(index, size, q, d, r);
    if k >= r {
      assert Probe(index, k - r) == index + (k - r);
      IntoSlot(index, k - r, size, d, k);
    } else if d + 1 < q {
      var j := size + k - r;
      assert Probe(index, j) == index + j;
      OneMore(size, d);
      IntoSlot(index, j, size, d + 1, k);
    } else if k > 0 {
      var j := HANDLE_MASK - index + k;
      DivExact(1, HANDLE_MASK, k - 1);
      assert Probe(index, j) == k;
      IntoSlot(index, j, size, 0, k);
    }
  }

  lemma InsideMask(index: nat, size: nat, q: nat, d: nat, r: nat)
    requires size > 0 && q > 0 && size * q == HARBOR_STEP && index == size * d + r && r < size && index < HARBOR_STEP
    ensures d < q && index - r + size <= HARBOR_STEP
    ensures d + 1 < q ==> index - r + 2 * size <= HARBOR_STEP
    ensures d + 1 == q ==> index - r + size == HARBOR_STEP
  {
    if d >= q { Monotone(size, q, d); }
    OneMore(size, d);
    OneMore(size, d + 1);
    Monotone(size, d + 1, q);
    if d + 1 < q { Monotone(size, d + 2, q); }
  }

  /** Every slot but 0 is tried, wherever the round starts. */
  lemma NonzeroProbed(index: nat, bits: nat, k: nat)
    requires 1 <= index <= HARBOR_STEP && bits <= 24 && 0 < k < Pow2(bits)
    ensures Probed(index, Pow2(bits), k)
  {
    hide Pow2, Probed;
    var size := Pow2(bits);
    var q := MaskSplit(bits);
    if index == HARBOR_STEP {
      Monotone(size, 1, q);
      FromTheMask(index, size, k);
    } else {
      RoundProbes(index, size, q, index / size, index % size, k);
    }
  }

  lemma FromTheMask(index: nat, size: nat, k: nat)
    requires index == HARBOR_STEP && 0 < k < size <= HARBOR_STEP
    ensures Probed(index, size, k)
  {
    DivExact(1, HANDLE_MASK, k - 1);
    assert Probe(index, k - 1) == k;
    IntoSlot(index, k - 1, size, 0, k);
  }

  /** Slot 0 is tried exactly when no wrap falls inside the round. */
  lemma ZeroProbed(index: nat, bits: nat)
    requires 1 <= index <= HARBOR_STEP && bits < 24
    ensures Probed(index, Pow2(bits), 0) <==> !WrapsInside(index, Pow2(bits))
  {
    hide Pow2, Probed;
    var size := Pow2(bits);
    var q := MaskSplit(bits);
    Monotone(size, 2, q);
    if WrapsInside(index, size) {
      ZeroPassedOver(index, size, q);
    } else {
      ZeroReached(index, size, q, index / size, index % size);
    }
  }

  lemma ZeroPassedOver(index: nat, size: nat, q: nat)
    requires size > 0 && size * q == HARBOR_STEP && WrapsInside(index, size) && index >= 1
    ensures !Probed(index, size, 0)
  {
    forall j: nat | j < size ensures SlotOf(Probe(index, j), size) != 0 {
      NeverZero(index, j, size, q);
    }
  }

  lemma ZeroReached(index: nat, size: nat, q: nat, d: nat, r: nat)
    requires size > 0 && q > 0 && size * q == HARBOR_STEP && 2 * size <= HARBOR_STEP && index == size * d + r && r < size
    requires 1 <= index <= HARBOR_STEP && !WrapsInside(index, size)
    ensures Probed(index, size, 0)
  {
    hide Probed;
    if index == HARBOR_STEP {
      DivExact(1, HANDLE_MASK, size - 1);
      assert Probe(index, size - 1) == size;
      IntoSlot(index, size - 1, size, 1, 0);
    } else {
      InsideMask(index, size, q, d, r);
      RoundProbes(index, size, q, d, r, 0);
    }
  }

  lemma NeverZero(index: nat, j: nat, size: nat, q: nat)
    requires size > 0 && size * q == HARBOR_STEP && WrapsInside(index, size) && index >= 1 && j < size
    ensures SlotOf(Probe(index, j), size) != 0
  {
    OneMore(size, q - 1);
    if index + j <= HANDLE_MASK {
      DivExact(q - 1, size, index + j - (HARBOR_STEP - size));
    } else {
      DivExact(1, HANDLE_MASK, index - 1 + j - HANDLE_MASK);
      assert Probe(index, j) == index + j - HANDLE_MASK;
      DivExact(0, size, index + j - HANDLE_MASK);
    }
  }
}
