/**
  The handle table (skynet_handle.c).  Services sit in a slot array whose length is a power of
  two, each at its handle modulo that length; the names sit in a sorted array that is searched by
  halves.  `live` and `directory` are the two finite maps the arrays stand for.
*/
module Handles {
  import opened HandleProbing
  import opened Bits
  import opened NameDirectory

  const DEFAULT_SLOT_SIZE := 4
  const MAX_SLOT_SIZE := 0x4000_0000
  const INT_MAX := 0x7fff_ffff

  type Ctx = nat

  /** A slot, with the handle its context carries. */
  datatype Slot = Empty | Held(ctx: Ctx, handle: nat)

  datatype Option<T> = None | Some(value: T)

  /** What registering comes to: a handle, the failed assertion on the size, or a null context read while the slots are moved. */
  datatype Registration = Registered(handle: nat) | NoMoreSlots | NullContext

  /** The last: the doubled capacity does not fit in an int; the assertion behind the doubling cannot tell. */
  datatype Naming = Named | AlreadyNamed | CapOverflows

  // ---------------------------------------------------------------- the slots and the map

  function Full(harbor: nat, low: nat): nat { low + harbor * HARBOR_STEP }

  predicate IsHandle(h: nat, harbor: nat) { Full(harbor, 1) <= h <= Full(harbor, HANDLE_MASK) }

  ghost predicate AtHome(s: seq<Slot>, i: nat, harbor: nat, live: map<nat, Ctx>)
    requires i < |s|
  {
    s[i].Held? ==>
      && IsHandle(s[i].handle, harbor)
      && SlotOf(s[i].handle, |s|) == i
      && s[i].handle in live && live[s[i].handle] == s[i].ctx
  }

  ghost predicate Found(s: seq<Slot>, h: nat, live: map<nat, Ctx>)
    requires |s| > 0 && h in live
  {
    s[SlotOf(h, |s|)] == Held(live[h], h)
  }

  /** The slots hold exactly the live handles, each where its own bits put it. */
  ghost predicate Holds(s: seq<Slot>, harbor: nat, live: map<nat, Ctx>) {
    && |s| > 0
    && (forall i :: 0 <= i < |s| ==> AtHome(s, i, harbor, live))
    && (forall h <- live :: Found(s, h, live))
  }

  lemma PlaceKeeps(s: seq<Slot>, harbor: nat, live: map<nat, Ctx>, i: nat, ctx: Ctx, h: nat)
    requires Holds(s, harbor, live) && i < |s| && s[i] == Empty && SlotOf(h, |s|) == i && IsHandle(h, harbor)
    ensures h !in live && Holds(s[i := Held(ctx, h)], harbor, live[h := ctx])
  {
    hide IsHandle, SlotOf;
    var t, l := s[i := Held(ctx, h)], live[h := ctx];
    forall g <- live ensures g != h { assert Found(s, g, live); }
    forall k | 0 <= k < |t| ensures AtHome(t, k, harbor, l) {
      assert AtHome(s, k, harbor, live);
    }
    forall g <- l ensures Found(t, g, l) {
      if g != h { assert Found(s, g, live); }
    }
  }

  lemma RemoveKeeps(s: seq<Slot>, harbor: nat, live: map<nat, Ctx>, i: nat)
    requires Holds(s, harbor, live) && i < |s| && s[i].Held?
    ensures s[i].handle in live && Holds(s[i := Empty], harbor, live - {s[i].handle})
  {
    hide IsHandle, SlotOf;
    var h := s[i].handle;
    var t, l := s[i := Empty], live - {h};
    assert AtHome(s, i, harbor, live);
    forall k | 0 <= k < |t| ensures AtHome(t, k, harbor, l) {
      assert AtHome(s, k, harbor, live);
    }
    forall g <- l ensures Found(t, g, l) {
      assert Found(s, g, live);
    }
  }

  /** Where a slot of the doubled array comes from. */
  function From(j: nat, size: nat): nat { if j < size then j else j - size }

  predicate MovedAt(s: seq<Slot>, t: seq<Slot>, j: nat)
    requires |t| == 2 * |s| && j < |t|
  {
    var x := s[From(j, |s|)];
    t[j] == if x.Held? && SlotOf(x.handle, |t|) == j then x else Empty
  }

  lemma MoveKeeps(s: seq<Slot>, t: seq<Slot>, harbor: nat, live: map<nat, Ctx>)
    requires Holds(s, harbor, live) && |t| == 2 * |s| && forall j :: 0 <= j < |t| ==> MovedAt(s, t, j)
    ensures Holds(t, harbor, live)
  {
    hide IsHandle, SlotOf;
    forall j | 0 <= j < |t| ensures AtHome(t, j, harbor, live) {
      assert MovedAt(s, t, j) && AtHome(s, From(j, |s|), harbor, live);
    }
    forall h <- live ensures Found(t, h, live) {
      assert Found(s, h, live);
      DoublingSeparates(h, |s|);
      assert MovedAt(s, t, SlotOf(h, |t|));
    }
  }

  /** No free slot is among the first n tried. */
  ghost predicate Taken(s: seq<Slot>, index: nat, n: nat)
    requires index >= 1 && |s| > 0
  {
    forall j: nat :: j < n ==> s[SlotOf(Probe(index, j), |s|)].Held?
  }

  /** The first free slot of a round is the one tried after j others. */
  ghost predicate IsFirstFree(s: seq<Slot>, index: nat, j: nat)
    requires index >= 1 && |s| > 0
  {
    j < |s| && Taken(s, index, j) && s[SlotOf(Probe(index, j), |s|)] == Empty
  }

  lemma FirstFreeUnique(s: seq<Slot>, index: nat, j: nat, k: nat)
    requires index >= 1 && |s| > 0 && IsFirstFree(s, index, j) && IsFirstFree(s, index, k)
    ensures j == k
  {
    hide Probe, SlotOf;
  }

  /** Every slot is held, except perhaps slot 0 when a wrap passed it over. */
  ghost predicate Crowded(s: seq<Slot>, index: nat) {
    forall k :: 0 <= k < |s| ==> s[k].Held? || (k == 0 && WrapsInside(index, |s|))
  }

  lemma TakenMeansCrowded(s: seq<Slot>, index: nat, bits: nat)
    requires 1 <= index <= HARBOR_STEP && bits < 24 && |s| == Pow2(bits)
    ensures Taken(s, index, |s|) <==> Crowded(s, index)
  {
    hide Probe, SlotOf, Pow2, WrapsInside;
    ZeroProbed(index, bits);
    if Taken(s, index, |s|) {
      forall k | 0 <= k < |s| ensures s[k].Held? || (k == 0 && WrapsInside(index, |s|)) {
        if k > 0 { NonzeroProbed(index, bits, k); }
      }
    }
    if Crowded(s, index) {
      forall j: nat | j < |s| ensures s[SlotOf(Probe(index, j), |s|)].Held? {
        assert Probed(index, |s|, SlotOf(Probe(index, j), |s|));
      }
    }
  }

  /** Every slot but the first is held, and a wrap passes the first over. */
  ghost predicate OnlyZeroFree(s: seq<Slot>, index: nat)
    requires |s| > 0
  {
    WrapsInside(index, |s|) && s[0] == Empty && forall k :: 0 < k < |s| ==> s[k].Held?
  }

  lemma MissedExactly(s: seq<Slot>, index: nat, bits: nat)
    requires 1 <= index <= HARBOR_STEP && bits < 24 && |s| == Pow2(bits)
    ensures Taken(s, index, |s|) && s[0] == Empty <==> OnlyZeroFree(s, index)
  {
    hide Taken, WrapsInside, Pow2;
    TakenMeansCrowded(s, index, bits);
  }

  /** After a doubling there is always room: of two slots with one origin at most one is held. */
  lemma RoomAfterDoubling(s: seq<Slot>, t: seq<Slot>, index: nat, bits: nat)
    requires |t| == 2 * |s| && |s| >= 2 && forall j :: 0 <= j < |t| ==> MovedAt(s, t, j)
    requires 1 <= index <= HARBOR_STEP && bits <= 24 && |t| == Pow2(bits)
    ensures !Taken(t, index, |t|)
  {
    hide Probe, Pow2;
    assert MovedAt(s, t, 1) && MovedAt(s, t, 1 + |s|);
    var k := if t[1].Held? then 1 + |s| else 1;
    NonzeroProbed(index, bits, k);
  }

  class HandleStorage {
    const harbor: nat
    var index: nat
    var slot: array<Slot>
    var names: array<Name>
    var count: nat

    ghost var bits: nat
    ghost var live: map<nat, Ctx>
    ghost var directory: map<CString, nat>
    /** Every handle given out so far, and whether numbering has started again at 1. */
    ghost var issued: set<nat>
    ghost var wrapped: bool
    /** The capacity of the names is 2^nameBits. */
    ghost var nameBits: nat

    ghost predicate SlotsValid()
      reads this`index, this`slot, this`bits, this`live, this`issued, this`wrapped, slot
    {
      && 2 <= bits <= 24 && slot.Length == Pow2(bits)
      && 1 <= index <= HARBOR_STEP
      && Holds(slot[..], harbor, live)
      && live.Keys <= issued
      && (!wrapped ==> forall h <- issued :: h < Full(harbor, index))
    }

    ghost predicate NamesValid()
      reads this`names, this`count, this`directory, this`nameBits, names
    {
      && count <= names.Length && 2 <= names.Length <= MAX_SLOT_SIZE && names.Length == Pow2(nameBits) && nameBits <= 30
      && Sorted(names[..count]) && Lists(names[..count], directory)
    }

    ghost predicate Valid()
      reads this, slot, names
    {
      SlotsValid() && NamesValid()
    }

    /** skynet_handle_init */
    constructor (harbor: nat)
      ensures Valid() && fresh(slot) && fresh(names)
      ensures this.harbor == harbor % 256 && live == map[] && directory == map[] && issued == {} && !wrapped && index == 1 && bits == 2
    {
      this.harbor := harbor % 256;
      slot := new Slot[DEFAULT_SLOT_SIZE](_ => Empty);
      index := 1;
      names := new Name[2](_ => Name([], 0));
      count := 0;
      bits, live, directory, issued, wrapped, nameBits := 2, map[], map[], {}, false, 1;
      new;
      assert Pow2(2) == 4;
    }

    /** The inner loop of skynet_handle_register: the first free slot of a round. */
    method FirstFree() returns (low: Option<nat>, ghost tried: nat)
      requires SlotsValid()
      ensures tried <= slot.Length && Taken(slot[..], index, tried)
      ensures low.None? ==> tried == slot.Length
      ensures low.Some? ==> tried < slot.Length && low.value == Probe(index, tried) && slot[SlotOf(low.value, slot.Length)] == Empty
    {
      hide Probe, SlotOf, Pow2, Holds;
      var handle, i := index, 0;
      tried := 0;
      ProbeStart(index);
      while i < slot.Length
        invariant 0 <= i <= slot.Length && 1 <= handle <= HARBOR_STEP && tried == i
        invariant (if handle > HANDLE_MASK then 1 else handle) == Probe(index, i)
        invariant Taken(slot[..], index, i)
      {
        if handle > HANDLE_MASK { handle := 1; }
        var hash := SlotOf(handle, slot.Length);
        if slot[hash] == Empty { return Some(handle), i; }
        ProbeStep(index, i);
        handle := handle + 1;
        i := i + 1;
        tried := i;
      }
      low := None;
    }

    /** The doubling in skynet_handle_register. */
    method Double() returns (wide: array<Slot>)
      requires SlotsValid()
      requires forall i :: 0 <= i < slot.Length ==> slot[i].Held?
      ensures fresh(wide) && wide.Length == 2 * slot.Length
      ensures forall j :: 0 <= j < wide.Length ==> MovedAt(slot[..], wide[..], j)
    {
      hide SlotOf, Pow2, IsHandle;
      var size := slot.Length;
      wide := new Slot[2 * size](_ => Empty);
      for i := 0 to size
        invariant forall j :: 0 <= j < 2 * size && From(j, size) < i ==> MovedAt(slot[..], wide[..], j)
        invariant forall j :: 0 <= j < 2 * size && From(j, size) >= i ==> wide[j] == Empty
      {
        var x := slot[i];
        assert AtHome(slot[..], i, harbor, live);
        DoublingSeparates(x.handle, size);
        var hash := SlotOf(x.handle, size * 2);
        assert From(hash, size) == i;
        assert wide[hash] == Empty;
        wide[hash] := x;
      }
    }

    /** A round found nothing: the slots are doubled, unless that cannot be done. */
    method MakeRoom() returns (failure: Option<Registration>)
      requires SlotsValid() && Taken(slot[..], index, slot.Length)
      modifies this`slot, this`bits
      ensures failure == if old(bits) == 24 then Some(NoMoreSlots) else if old(slot[0]) == Empty then Some(NullContext) else None
      ensures failure.Some? ==> slot == old(slot) && bits == old(bits)
      ensures failure.None? ==> SlotsValid() && fresh(slot) && bits == old(bits) + 1 && !Taken(slot[..], index, slot.Length)
      ensures old(bits) < 24 ==> Crowded(old(slot[..]), index)
    {
      hide Probe, SlotOf, Pow2, Holds, Taken, WrapsInside, AtHome, Found, MovedAt;
      SizeLimit(bits);
      if slot.Length * 2 - 1 > HANDLE_MASK { return Some(NoMoreSlots); }
      TakenMeansCrowded(slot[..], index, bits);
      if slot[0] == Empty { return Some(NullContext); }
      var wide := Double();
      MoveKeeps(slot[..], wide[..], harbor, live);
      RoomAfterDoubling(slot[..], wide[..], index, bits + 1);
      slot := wide;
      bits := bits + 1;
      failure := None;
    }

    /** The free slot found is filled, and numbering goes on behind its handle. */
    method Place(ctx: Ctx, low: nat, ghost tried: nat) returns (handle: nat)
      requires SlotsValid() && low == Probe(index, tried) && tried < slot.Length && slot[SlotOf(low, slot.Length)] == Empty
      modifies this`index, this`live, this`issued, this`wrapped, slot
      ensures SlotsValid()
      ensures handle == Full(harbor, low) && IsHandle(handle, harbor) && handle !in old(live)
      ensures live == old(live)[handle := ctx] && issued == old(issued) + {handle} && index == low + 1
      ensures wrapped == (old(wrapped) || low < old(index))
      ensures !wrapped ==> handle !in old(issued)
      ensures old(Taken(slot[..], index, tried)) ==> Taken(slot[..], old(index), tried)
    {
      hide Probe, SlotOf, Pow2, Holds;
      handle := Full(harbor, low);
      HarborBitsDoNotMatter(low, harbor, bits);
      PlaceKeeps(slot[..], harbor, live, SlotOf(low, slot.Length), ctx, handle);
      slot[SlotOf(low, slot.Length)] := Held(ctx, handle);
      wrapped := wrapped || low < index;
      index := low + 1;
      live := live[handle := ctx];
      issued := issued + {handle};
    }

    /** skynet_handle_register */
    method Register(ctx: Ctx) returns (r: Registration)
      requires Valid()
      modifies this`index, this`slot, this`bits, this`live, this`issued, this`wrapped, slot
      ensures Valid() && (slot == old(slot) || fresh(slot))
      ensures r.Registered? ==>
        && r.handle !in old(live) && IsHandle(r.handle, harbor)
        && live == old(live)[r.handle := ctx] && issued == old(issued) + {r.handle}
        && index == r.handle - harbor * HARBOR_STEP + 1
        && wrapped == (old(wrapped) || r.handle < Full(harbor, old(index)))
        && (!wrapped ==> r.handle !in old(issued))
        && (exists j: nat :: j < slot.Length && r.handle == Full(harbor, Probe(old(index), j)) && Taken(slot[..], old(index), j)
              && (bits == old(bits) ==> IsFirstFree(old(slot[..]), old(index), j)))
        && bits == (if old(Taken(slot[..], index, slot.Length)) then old(bits) + 1 else old(bits))
      ensures !r.Registered? ==>
        live == old(live) && issued == old(issued) && index == old(index) && wrapped == old(wrapped) && bits == old(bits)
      ensures r.NoMoreSlots? <==> old(bits) == 24 && old(Taken(slot[..], index, slot.Length))
      ensures r.NullContext? <==> old(bits) < 24 && old(OnlyZeroFree(slot[..], index))
    {
      hide Probe, SlotOf, Pow2, Holds, Taken, NamesValid, OnlyZeroFree;
      if bits < 24 { MissedExactly(slot[..], index, bits); }
      var low;
      ghost var tried;
      low, tried := FirstFree();
      if low == None {
        var failure := MakeRoom();
        if failure.Some? { return failure.value; }
        low, tried := FirstFree();
      } else {
        TakenNot(slot[..], index, tried, slot.Length);
      }
      var handle := Place(ctx, low.value, tried);
      r := Registered(handle);
    }

    /** skynet_handle_retire; the context is released by the caller of the model. */
    method Retire(handle: nat) returns (r: Option<Ctx>)
      requires Valid()
      modifies this`count, this`live, this`directory, slot, names
      ensures Valid()
      ensures r == if handle in old(live) then Some(old(live)[handle]) else None
      ensures live == old(live) - {handle}
      ensures directory == if handle in old(live) then DropHandles(old(directory), {handle}) else old(directory)
    {
      hide SlotOf, Pow2, Holds, Sorted, Lists;
      var hash := SlotOf(handle, slot.Length);
      FoundAt(slot[..], harbor, live, handle);
      if slot[hash].Empty? || slot[hash].handle != handle {
        assert live - {handle} == live;
        return None;
      }
      r := Some(slot[hash].ctx);
      RemoveKeeps(slot[..], harbor, live, hash);
      slot[hash] := Empty;
      live := live - {handle};
      StrikeNames(handle);
    }

    /** The loop of skynet_handle_retire over the names. */
    method StrikeNames(handle: nat)
      requires NamesValid()
      modifies this`count, this`directory, names
      ensures NamesValid() && directory == DropHandles(old(directory), {handle})
    {
      WithoutKeeps(names[..count], handle, directory);
      hide Sorted, Lists, Without;
      count := StrikeOut(names, count, handle);
      directory := DropHandles(directory, {handle});
    }

    /** skynet_handle_retireall, when nobody registers meanwhile. */
    method RetireAll()
      requires Valid()
      modifies this`count, this`live, this`directory, slot, names
      ensures Valid() && live == map[]
      ensures directory == DropHandles(old(directory), old(live).Keys)
    {
      hide Pow2, SlotOf, SlotsValid, NamesValid;
      ghost var l, d := live, directory;
      assert live - live.Keys == map[];
      while true
        invariant Valid() && live.Keys <= l.Keys
        invariant directory == DropHandles(d, l.Keys - live.Keys)
        decreases |live|
      {
        ghost var before := live;
        var n := RetireRound(l, d);
        if n == 0 { return; }
      }
    }

    /** One pass over the slots; 0 is not a handle. */
    method RetireRound(ghost l: map<nat, Ctx>, ghost d: map<CString, nat>) returns (n: nat)
      requires Valid() && live.Keys <= l.Keys && directory == DropHandles(d, l.Keys - live.Keys)
      modifies this`count, this`live, this`directory, slot, names
      ensures Valid() && live.Keys <= l.Keys && directory == DropHandles(d, l.Keys - live.Keys)
      ensures n > 0 ==> |live| < |old(live)|
      ensures n == 0 ==> live == map[]
    {
      n := 0;
      for i := 0 to slot.Length
        invariant Valid() && live.Keys <= l.Keys && directory == DropHandles(d, l.Keys - live.Keys)
        invariant n == 0 ==> live == old(live) && forall k :: 0 <= k < i ==> slot[k] == Empty
        invariant n > 0 ==> |live| < |old(live)|
      {
        var x := slot[i];
        assert AtHome(slot[..], i, harbor, live);
        if x.Held? && x.handle != 0 {
          ghost var was := live;
          var r := Retire(x.handle);
          RetiredMore(l, d, was, x.handle);
          if r != None { n := n + 1; }
        }
      }
      if n == 0 { NoneLeft(slot[..], harbor, live); }
    }

    /** skynet_handle_grab */
    method Grab(handle: nat) returns (r: Option<Ctx>)
      requires Valid()
      ensures r == if handle in live then Some(live[handle]) else None
    {
      hide SlotOf, Pow2, Holds;
      FoundAt(slot[..], harbor, live, handle);
      var hash := SlotOf(handle, slot.Length);
      r := if slot[hash].Held? && slot[hash].handle == handle then Some(slot[hash].ctx) else None;
    }

    // -------------------------------------------------------------- names

    /** The search by halves, as in skynet_handle_findname and in _insert_name. */
    method Search(name: CString) returns (found: bool, at: nat)
      requires NamesValid()
      ensures at <= count
      ensures found ==> at < count && names[at].name == name && name in directory && names[at].handle == directory[name]
      ensures !found ==> name !in directory && AllBelow(names[..count][..at], name) && AllAbove(names[..count][at..], name)
    {
      hide Strcmp;
      ghost var s := names[..count];
      var begin, end := 0, count - 1;
      while begin <= end
        invariant 0 <= begin <= end + 1 <= count
        invariant AllBelow(s[..begin], name) && AllAbove(s[end + 1..], name)
        decreases end - begin
      {
        assert begin + end < 0x8000_0000;
        var mid := (begin + end) / 2;
        var c := Strcmp(names[mid].name, name);
        HalfDecided(s, mid, name);
        SameIffZero(names[mid].name, name);
        if c == 0 {
          assert s[mid] in s;
          return true, mid;
        }
        if c < 0 { begin := mid + 1; } else { end := mid - 1; }
      }
      NotListed(s, begin, name, directory);
      found, at := false, begin;
    }

    /** skynet_handle_findname: 0 for an unknown name. */
    method FindName(name: CString) returns (handle: nat)
      requires Valid()
      ensures handle == if name in directory then directory[name] else 0
    {
      var found, at := Search(name);
      handle := if found then names[at].handle else 0;
    }

    /** _insert_name_before */
    method InsertNameBefore(name: CString, handle: nat, before: nat) returns (ok: bool)
      requires NamesValid() && before <= count
      modifies this`names, this`count, this`nameBits, names
      ensures ok == (old(count) < old(names.Length) || old(names.Length) * 2 <= INT_MAX)
      ensures !ok ==> names == old(names) && count == old(count) && nameBits == old(nameBits) && names[..count] == old(names[..count])
      ensures ok ==>
        && (names == old(names) || fresh(names)) && 2 <= names.Length <= MAX_SLOT_SIZE && names.Length == Pow2(nameBits) && nameBits <= 30 && count == old(count) + 1 <= names.Length
        && names[..count] == Inserted(old(names[..count]), before, Name(name, handle))
    {
      hide Sorted, Lists;
      if count >= names.Length {
        NameCap(nameBits);
        if names.Length * 2 > INT_MAX { return false; }
        assert names.Length * 2 <= MAX_SLOT_SIZE;
        nameBits := nameBits + 1;
        names := MovedApart(names, count, before);
      } else {
        ShiftUp(names, count, before);
      }
      names[before] := Name(name, handle);
      count := count + 1;
      ok := true;
    }

    /** _insert_name */
    method InsertName(name: CString, handle: nat) returns (r: Naming)
      requires NamesValid()
      modifies this`names, this`count, this`directory, this`nameBits, names
      ensures r.AlreadyNamed? <==> name in old(directory)
      ensures r.CapOverflows? <==> name !in old(directory) && old(count) == old(names.Length) == MAX_SLOT_SIZE
      ensures NamesValid() && (names == old(names) || fresh(names))
      ensures directory == if r == Named then old(directory)[name := handle] else old(directory)
    {
      hide Sorted, Lists, AllAbove, AllBelow, Inserted;
      var found, at := Search(name);
      if found { return AlreadyNamed; }
      InsertKeeps(names[..count], at, Name(name, handle), directory);
      var ok := InsertNameBefore(name, handle, at);
      if !ok { return CapOverflows; }
      directory := directory[name := handle];
      r := Named;
    }

    /** skynet_handle_namehandle */
    method NameHandle(handle: nat, name: CString) returns (r: Naming)
      requires Valid()
      modifies this`names, this`count, this`directory, this`nameBits, names
      ensures r.AlreadyNamed? <==> name in old(directory)
      ensures r.CapOverflows? <==> name !in old(directory) && old(count) == old(names.Length) == MAX_SLOT_SIZE
      ensures Valid() && (names == old(names) || fresh(names))
      ensures directory == if r == Named then old(directory)[name := handle] else old(directory)
    {
      hide SlotsValid, NamesValid;
      r := InsertName(name, handle);
    }
  }

  // ---------------------------------------------------------------- a null context

  /** The first free slot of a round of four is the j-th tried: nothing doubles. */
  method RegisterNext(s: HandleStorage, ctx: Ctx, ghost j: nat) returns (h: nat)
    requires s.Valid() && s.bits == 2 && s.harbor == 0 && IsFirstFree(s.slot[..], s.index, j)
    modifies s, s.slot
    ensures s.Valid() && s.bits == 2 && (s.slot == old(s.slot) || fresh(s.slot)) && s.names == old(s.names)
    ensures h == Probe(old(s.index), j) && s.live == old(s.live)[h := ctx] && s.index == h + 1
    ensures s.wrapped == (old(s.wrapped) || h < old(s.index))
  {
    hide HandleStorage.NamesValid, Holds, Probe, Pow2, SlotOf, OnlyZeroFree, Taken;
    FourSlots();
    ghost var index, slots := s.index, s.slot[..];
    TakenNot(slots, index, j, 4);
    MissedExactly(slots, index, 2);
    var r := s.Register(ctx);
    h := r.handle;
    ghost var k: nat :| h == Full(0, Probe(index, k)) && IsFirstFree(slots, index, k);
    FirstFreeUnique(slots, index, j, k);
  }

  lemma FourSlots()
    ensures Pow2(2) == 4
  {
  }

  /** With only handle 3 live, the next handle is the next number, or the one after it when slot 3 is next. */
  lemma OnlyThree(s: seq<Slot>, live: map<nat, Ctx>, index: nat)
    requires Holds(s, 0, live) && |s| == 4 && live.Keys == {3} && 1 <= index < HANDLE_MASK
    ensures IsFirstFree(s, index, if index % 4 == 3 then 1 else 0)
  {
    ByLive(s, live);
    var j := if index % 4 == 3 then 1 else 0;
    assert Probe(index, 0) == index && Probe(index, 1) == index + 1;
    assert s[3] == Held(live[3], 3) by { assert Found(s, 3, live); }
  }

  lemma ByLive(s: seq<Slot>, live: map<nat, Ctx>)
    requires Holds(s, 0, live)
    ensures forall i :: 0 <= i < |s| && s[i].Held? ==> s[i].handle in live.Keys && SlotOf(s[i].handle, |s|) == i
  {
    hide SlotOf;
    forall i | 0 <= i < |s| ensures s[i].Held? ==> s[i].handle in live.Keys && SlotOf(s[i].handle, |s|) == i {
      assert AtHome(s, i, 0, live);
    }
  }

  /** With no live handle in its slot the next number is the next handle. */
  lemma NextIs(s: seq<Slot>, live: map<nat, Ctx>, index: nat)
    requires Holds(s, 0, live) && |s| == 4 && 1 <= index <= HANDLE_MASK && forall h :: h in live.Keys ==> h % 4 != index % 4
    ensures IsFirstFree(s, index, 0)
  {
    ByLive(s, live);
    assert Probe(index, 0) == index;
  }

  lemma SlotsOf(s: HandleStorage)
    requires s.Valid() && s.bits == 2
    ensures |s.slot[..]| == 4 && Holds(s.slot[..], s.harbor, s.live) && s.index >= 1
  {
  }

  /** Registering the next number, when its slot is free. */
  method RegisterNumber(s: HandleStorage, ctx: Ctx) returns (h: nat)
    requires s.Valid() && s.bits == 2 && s.harbor == 0 && s.index <= HANDLE_MASK
    requires forall x :: x in s.live.Keys ==> x % 4 != s.index % 4
    modifies s, s.slot
    ensures s.Valid() && s.bits == 2 && (s.slot == old(s.slot) || fresh(s.slot)) && s.names == old(s.names)
    ensures h == old(s.index) && s.live == old(s.live)[h := ctx] && s.index == h + 1 && s.wrapped == old(s.wrapped)
  {
    hide HandleStorage.Valid, Holds, IsFirstFree;
    SlotsOf(s);
    NextIs(s.slot[..], s.live, s.index);
    h := RegisterNext(s, ctx, 0);
  }

  /** Registering and retiring once, while handle 3 stays. */
  method PassOne(s: HandleStorage, ctx: Ctx)
    requires s.Valid() && s.bits == 2 && s.harbor == 0 && 4 <= s.index < HANDLE_MASK && s.live.Keys == {3}
    modifies s, s.slot, s.names
    ensures s.Valid() && s.bits == 2 && (s.slot == old(s.slot) || fresh(s.slot)) && s.names == old(s.names)
    ensures s.index == old(s.index) + (if old(s.index) % 4 == 3 then 2 else 1) && s.live.Keys == {3} && s.wrapped == old(s.wrapped)
  {
    hide HandleStorage.Valid, Holds, IsFirstFree;
    SlotsOf(s);
    OnlyThree(s.slot[..], s.live, s.index);
    var h := RegisterNext(s, ctx, if s.index % 4 == 3 then 1 else 0);
    var _ := s.Retire(h);
  }

  /** Three services are registered and the first two retired. */
  method StartWithThree(ctx: Ctx) returns (s: HandleStorage)
    ensures fresh(s) && fresh(s.slot) && fresh(s.names)
    ensures s.Valid() && s.bits == 2 && s.harbor == 0 && s.index == 4 && s.live.Keys == {3} && !s.wrapped
  {
    hide HandleStorage.Valid, Holds, IsFirstFree, OnlyZeroFree;
    s := new HandleStorage(0);
    var h1 := RegisterNumber(s, ctx);
    var h2 := RegisterNumber(s, ctx);
    var h3 := RegisterNumber(s, ctx);
    var _ := s.Retire(h1);
    var _ := s.Retire(h2);
  }

  /** The numbering comes near its end. */
  method ComeNear(s: HandleStorage, ctx: Ctx)
    requires s.Valid() && s.bits == 2 && s.harbor == 0 && 4 <= s.index <= HANDLE_MASK - 2 && s.live.Keys == {3}
    modifies s, s.slot, s.names
    ensures s.Valid() && s.bits == 2 && (s.slot == old(s.slot) || fresh(s.slot)) && s.names == old(s.names)
    ensures s.index == HANDLE_MASK - 2 && s.live.Keys == {3} && s.wrapped == old(s.wrapped)
  {
    hide HandleStorage.Valid;
    while s.index < HANDLE_MASK - 2
      invariant s.Valid() && s.bits == 2 && s.harbor == 0 && 4 <= s.index <= HANDLE_MASK - 2 && s.live.Keys == {3}
      invariant (s.slot == old(s.slot) || fresh(s.slot)) && s.names == old(s.names) && s.wrapped == old(s.wrapped)
      decreases HANDLE_MASK - s.index
    {
      PassOne(s, ctx);
    }
  }

  /**
   * A run in which registering would read a null context: the numbering comes near its end while
   * handle 3 stays, and then slots 1 and 2 are taken, so that the next round wraps and skips slot 0.
   */
  method NullContextRun(ctx: Ctx) returns (s: HandleStorage)
    ensures fresh(s) && s.Valid() && s.bits == 2 && !s.wrapped && OnlyZeroFree(s.slot[..], s.index)
  {
    hide HandleStorage.Valid, Holds, IsFirstFree, OnlyZeroFree;
    s := StartWithThree(ctx);
    ComeNear(s, ctx);
    var a := RegisterNumber(s, ctx);
    var b := RegisterNumber(s, ctx);
    SlotsOf(s);
    ThreeHeld(s.slot[..], s.live, s.index);
  }

  lemma ThreeHeld(s: seq<Slot>, live: map<nat, Ctx>, index: nat)
    requires Holds(s, 0, live) && |s| == 4 && index == HANDLE_MASK && live.Keys == {3, HANDLE_MASK - 2, HANDLE_MASK - 1}
    ensures OnlyZeroFree(s, index)
  {
    ByLive(s, live);
    assert Found(s, 3, live) && Found(s, HANDLE_MASK - 2, live) && Found(s, HANDLE_MASK - 1, live);
  }

  lemma TakenNot(s: seq<Slot>, index: nat, tried: nat, n: nat)
    requires index >= 1 && |s| > 0 && tried < n && s[SlotOf(Probe(index, tried), |s|)] == Empty
    ensures !Taken(s, index, n)
  {
  }

  /** A handle is live exactly when its slot holds it. */
  lemma FoundAt(s: seq<Slot>, harbor: nat, live: map<nat, Ctx>, h: nat)
    requires Holds(s, harbor, live)
    ensures h in live <==> s[SlotOf(h, |s|)].Held? && s[SlotOf(h, |s|)].handle == h
    ensures h in live ==> s[SlotOf(h, |s|)].ctx == live[h]
  {
    hide SlotOf;
    assert AtHome(s, SlotOf(h, |s|), harbor, live);
    if h in live { assert Found(s, h, live); }
  }

  lemma NoneLeft(s: seq<Slot>, harbor: nat, live: map<nat, Ctx>)
    requires Holds(s, harbor, live) && forall k :: 0 <= k < |s| ==> s[k] == Empty
    ensures live == map[]
  {
    forall h ensures h !in live {
      FoundAt(s, harbor, live, h);
    }
  }

  /** Retiring one more handle. */
  lemma RetiredMore(l: map<nat, Ctx>, d: map<CString, nat>, was: map<nat, Ctx>, h: nat)
    requires was.Keys <= l.Keys
    ensures h in was ==> |was - {h}| < |was| && DropHandles(DropHandles(d, l.Keys - was.Keys), {h}) == DropHandles(d, l.Keys - (was - {h}).Keys)
  {
    if h in was { assert was == (was - {h})[h := was[h]]; }
  }

  lemma WithoutNothing(handle: nat)
    ensures Without([], handle) == []
  {
  }

  lemma WithoutOne(s: seq<Name>, i: nat, handle: nat)
    requires i < |s|
    ensures Without(s[..i + 1], handle) == Without(s[..i], handle) + if s[i].handle == handle then [] else [s[i]]
  {
    assert s[..i + 1][..i] == s[..i];
  }

  /** The names of other handles move to the front, in their order. */
  method StrikeOut(a: array<Name>, n: nat, handle: nat) returns (j: nat)
    requires n <= a.Length
    modifies a
    ensures j <= n && a[..j] == Without(old(a[..n]), handle)
  {
    hide Without;
    ghost var was := a[..n];
    WithoutNothing(handle);
    assert was[..0] == [];
    j := 0;
    for i := 0 to n
      invariant j <= i
      invariant forall k :: i <= k < n ==> a[k] == was[k]
      invariant a[..j] == Without(was[..i], handle)
    {
      WithoutOne(was, i, handle);
      if a[i].handle == handle { continue; }
      ghost var kept := a[..j];
      if i != j { a[j] := a[i]; }
      assert a[..j + 1] == kept + [was[i]];
      j := j + 1;
    }
    assert was[..n] == was;
  }

  /** A new array of twice the length, with a gap. */
  method MovedApart(a: array<Name>, count: nat, before: nat) returns (n: array<Name>)
    requires before <= count == a.Length && count > 0
    ensures fresh(n) && n.Length == 2 * a.Length
    ensures n[..before] == a[..before] && n[before + 1..count + 1] == a[before..count]
  {
    n := new Name[a.Length * 2](_ => Name([], 0));
    for i := 0 to before
      invariant n[..i] == a[..i]
    {
      n[i] := a[i];
    }
    for i := before to count
      invariant n[..before] == a[..before]
      invariant n[before + 1..i + 1] == a[before..i]
    {
      n[i + 1] := a[i];
    }
  }

  /** A gap in the same array. */
  method ShiftUp(a: array<Name>, count: nat, before: nat)
    requires before <= count < a.Length
    modifies a
    ensures a[..before] == old(a[..before]) && a[before + 1..count + 1] == old(a[before..count])
  {
    var i := count;
    while i > before
      invariant before <= i <= count
      invariant forall k :: 0 <= k < i ==> a[k] == old(a[k])
      invariant forall k :: i < k <= count ==> a[k] == old(a[k - 1])
    {
      a[i] := a[i - 1];
      i := i - 1;
    }
  }

  /** A capacity that can still be doubled in an int doubles to at most 2^30. */
  lemma NameCap(bits: nat)
    requires bits <= 30
    ensures Pow2(bits) <= MAX_SLOT_SIZE && Pow2(bits + 1) == 2 * Pow2(bits)
    ensures Pow2(bits) * 2 <= INT_MAX ==> bits < 30 && Pow2(bits) * 2 <= MAX_SLOT_SIZE
    ensures Pow2(bits) * 2 > INT_MAX ==> Pow2(bits) == MAX_SLOT_SIZE
  {
    TwentyFour();
    Pow2Split(24, 6);
    assert Pow2(6) == 64;
    if bits < 30 { HalfAtMost(bits); }
  }

  lemma {:induction false} HalfAtMost(bits: nat)
    requires bits < 30
    ensures Pow2(bits) * 2 <= Pow2(30)
    decreases 30 - bits
  {
    if bits < 29 { HalfAtMost(bits + 1); }
  }

  lemma ProbeStart(index: nat)
    requires 1 <= index <= HARBOR_STEP
    ensures Probe(index, 0) == if index > HANDLE_MASK then 1 else index
  {
  }

  lemma SizeLimit(bits: nat)
    requires 2 <= bits <= 24
    ensures 4 <= Pow2(bits) <= HARBOR_STEP && Pow2(bits + 1) == 2 * Pow2(bits)
    ensures Pow2(bits) * 2 - 1 > HANDLE_MASK <==> bits == 24
  {
    TwentyFour();
    assert Pow2(bits) == 4 * Pow2(bits - 2);
    if bits < 24 {
      hide Pow2;
      var q := MaskSplit(bits);
      Monotone(Pow2(bits), 2, q);
    }
  }
}
