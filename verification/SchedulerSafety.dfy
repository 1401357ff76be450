/** The scheduler's invariant holds in every run, and what follows from it. */
module SchedulerSafety {
  import opened MessageQueue
  import opened Scheduler
  import opened Counting

  // ---------------------------------------------------------------- owners

  /** An activity other than `a` owns q. */
  ghost predicate OwnedElse(acts: map<nat, Act>, a: nat, q: nat) { exists b :: b in acts && b != a && q in Owns(acts[b]) }

  lemma OwnedPut(acts: map<nat, Act>, a: nat, act: Act, q: nat)
    ensures Owned(acts[a := act], q) <==> q in Owns(act) || OwnedElse(acts, a, q)
    ensures Owned(acts, q) <==> (a in acts && q in Owns(acts[a])) || OwnedElse(acts, a, q)
  {
    hide Owns;
    var acts2 := acts[a := act];
    if q in Owns(act) { assert a in acts2 && q in Owns(acts2[a]); }
    if OwnedElse(acts, a, q) {
      var b :| b in acts && b != a && q in Owns(acts[b]);
      assert b in acts2 && q in Owns(acts2[b]);
    }
  }

  function OwnsOf(acts: map<nat, Act>, a: nat): set<nat> { if a in acts then Owns(acts[a]) else {} }

  /** The owners' part of the invariant. */
  ghost predicate Places(queues: map<nat, Queue>, list: seq<nat>, acts: map<nat, Act>) {
    Exclusive(queues, list, acts) && Flags(queues, list, acts)
  }

  lemma NotElse(queues: map<nat, Queue>, list: seq<nat>, acts: map<nat, Act>, a: nat, q: nat)
    requires Exclusive(queues, list, acts)
    requires q in list || q in OwnsOf(acts, a)
    ensures !OwnedElse(acts, a, q) && q in queues
    ensures q in list ==> q !in OwnsOf(acts, a)
  {
    hide Owns;
    if q in list { assert !Owned(acts, q); }
  }

  /** The activity goes on with the same queues. */
  lemma PlacesSame(queues: map<nat, Queue>, list: seq<nat>, acts: map<nat, Act>, a: nat, act: Act)
    requires Places(queues, list, acts) && Owns(act) == OwnsOf(acts, a)
    ensures Places(queues, list, acts[a := act])
  {
    hide Owns;
    var acts2 := acts[a := act];
    forall q ensures Owned(acts2, q) <==> Owned(acts, q) { OwnedPut(acts, a, act, q); }
  }

  /** It takes the head of the global list. */
  lemma PlacesTake(queues: map<nat, Queue>, list: seq<nat>, acts: map<nat, Act>, a: nat, act: Act)
    requires Places(queues, list, acts) && list != [] && Owns(act) == OwnsOf(acts, a) + {list[0]}
    ensures Places(queues, list[1..], acts[a := act])
    ensures list[0] !in OwnsOf(acts, a)
  {
    hide Owns;
    var acts2 := acts[a := act];
    assert list[0] in list;
    NotElse(queues, list, acts, a, list[0]);
    forall q ensures Owned(acts2, q) <==> Owned(acts, q) || q == list[0] { OwnedPut(acts, a, act, q); }
    assert forall q :: q in list <==> q == list[0] || q in list[1..];
    assert list[0] !in list[1..];
  }

  /** It puts a queue that it owns at the end of the global list. */
  lemma PlacesGive(queues: map<nat, Queue>, list: seq<nat>, acts: map<nat, Act>, a: nat, act: Act, q0: nat)
    requires Places(queues, list, acts) && q0 in OwnsOf(acts, a) && Owns(act) == OwnsOf(acts, a) - {q0}
    ensures Places(queues, list + [q0], acts[a := act])
    ensures q0 !in list
  {
    hide Owns;
    var acts2 := acts[a := act];
    NotElse(queues, list, acts, a, q0);
    assert Owned(acts, q0);
    forall q ensures Owned(acts2, q) <==> Owned(acts, q) && q != q0 { OwnedPut(acts, a, act, q); }
    assert forall q :: q in list + [q0] <==> q == q0 || q in list;
    AppendDistinct(list, q0);
  }

  lemma AppendDistinct(l: seq<nat>, q: nat)
    requires Distinct(l) && q !in l
    ensures Distinct(l + [q])
  {
    var l2 := l + [q];
    forall i, j | 0 <= i < j < |l2| ensures l2[i] != l2[j] { assert l[i] in l; }
  }

  /** It leaves a queue that it owns empty and unflagged. */
  lemma PlacesIdle(queues: map<nat, Queue>, list: seq<nat>, acts: map<nat, Act>, a: nat, act: Act, q0: nat)
    requires Places(queues, list, acts) && q0 in OwnsOf(acts, a) && Owns(act) == OwnsOf(acts, a) - {q0}
    requires q0 in queues && queues[q0].msgs == [] && !queues[q0].release
    ensures Places(queues[q0 := queues[q0].(inGlobal := false)], list, acts[a := act])
  {
    hide Owns;
    var acts2 := acts[a := act];
    NotElse(queues, list, acts, a, q0);
    assert Owned(acts, q0);
    forall q ensures Owned(acts2, q) <==> Owned(acts, q) && q != q0 { OwnedPut(acts, a, act, q); }
  }

  /** It frees a queue that it owns. */
  lemma PlacesFree(queues: map<nat, Queue>, list: seq<nat>, acts: map<nat, Act>, a: nat, act: Act, q0: nat)
    requires Places(queues, list, acts) && q0 in OwnsOf(acts, a) && Owns(act) == OwnsOf(acts, a) - {q0}
    ensures Places(queues - {q0}, list, acts[a := act])
    ensures q0 !in list
  {
    hide Owns;
    var acts2 := acts[a := act];
    NotElse(queues, list, acts, a, q0);
    assert Owned(acts, q0);
    forall q ensures Owned(acts2, q) <==> Owned(acts, q) && q != q0 { OwnedPut(acts, a, act, q); }
  }

  /** A new queue, owned and flagged from the start. */
  lemma PlacesNew(queues: map<nat, Queue>, list: seq<nat>, acts: map<nat, Act>, a: nat, act: Act, h: nat)
    requires Places(queues, list, acts) && a !in acts && Owns(act) == {h} && h !in queues
    ensures Places(queues[h := Queue(h, [], true, false)], list, acts[a := act])
  {
    hide Owns;
    var acts2 := acts[a := act];
    forall q ensures Owned(acts2, q) <==> Owned(acts, q) || q == h { OwnedPut(acts, a, act, q); }
    assert h !in list;
  }

  /** A queue changes but keeps its flags: only what is owned or listed may hold messages. */
  lemma PlacesUpdate(queues: map<nat, Queue>, list: seq<nat>, acts: map<nat, Act>, q0: nat, x: Queue)
    requires Places(queues, list, acts) && q0 in queues && (q0 in list || Owned(acts, q0))
    requires x.inGlobal == queues[q0].inGlobal && x.release == queues[q0].release
    ensures Places(queues[q0 := x], list, acts)
  {
    hide Owns, Owned;
  }

  /** A message arrives, or the release flag is set: a queue that is idle goes to the global list. */
  lemma PlacesWake(queues: map<nat, Queue>, list: seq<nat>, acts: map<nat, Act>, c: nat, x: Queue)
    requires Places(queues, list, acts) && c in queues && !queues[c].release
    requires x.inGlobal || x.release
    ensures !queues[c].inGlobal ==> c !in list && !Owned(acts, c)
    ensures Places(queues[c := x], if queues[c].inGlobal then list else list + [c], acts)
  {
    hide Owns, Owned;
    if !queues[c].inGlobal {
      assert c !in list && !Owned(acts, c);
      AppendDistinct(list, c);
      assert forall q :: q in list + [c] <==> q == c || q in list;
    }
  }

  // ---------------------------------------------------------------- references

  function HoldsOf(acts: map<nat, Act>, a: nat): set<nat> { if a in acts then Holds(acts[a]) else {} }

  function FreesOf(acts: map<nat, Act>, a: nat): set<nat> { if a in acts then Frees(acts[a]) else {} }

  lemma HoldersPut(acts: map<nat, Act>, a: nat, act: Act, c: nat)
    ensures |Holders(acts[a := act], c)| + One(c in HoldsOf(acts, a)) == |Holders(acts, c)| + One(c in Holds(act))
  {
    hide Holds;
    var h, h2 := Holders(acts, c), Holders(acts[a := act], c);
    assert h - {a} == h2 - {a};
    SizeChange(h, h2, a);
  }

  ghost predicate Freer(acts: map<nat, Act>, c: nat) { exists a :: a in acts && c in Frees(acts[a]) }

  lemma FreerPut(acts: map<nat, Act>, a: nat, act: Act, c: nat)
    ensures c in Frees(act) ==> Freer(acts[a := act], c)
    ensures c !in FreesOf(acts, a) && Freer(acts, c) ==> Freer(acts[a := act], c)
  {
    hide Frees;
    var acts2 := acts[a := act];
    if c in Frees(act) { assert a in acts2 && c in Frees(acts2[a]); }
    if c !in FreesOf(acts, a) && Freer(acts, c) {
      var b :| b in acts && c in Frees(acts[b]);
      assert b in acts2 && c in Frees(acts2[b]);
    }
  }

  /** The activity keeps its references. */
  lemma CountedSame(ctxs: map<nat, Ctx>, table: set<nat>, acts: map<nat, Act>, a: nat, act: Act)
    requires Counted(ctxs, table, acts) && Holds(act) == HoldsOf(acts, a) && Frees(act) == FreesOf(acts, a)
    ensures Counted(ctxs, table, acts[a := act])
  {
    hide Holds, Frees, Holders;
    var acts2 := acts[a := act];
    forall c | c in ctxs ensures ctxs[c].refs == |Holders(acts2, c)| + One(c in table) { HoldersPut(acts, a, act, c); }
    forall c | c in ctxs && ctxs[c].refs == 0 ensures exists b :: b in acts2 && c in Frees(acts2[b]) {
      var b :| b in acts && c in Frees(acts[b]);
      assert b in acts2 && c in Frees(acts2[b]);
    }
  }

  /** A reference is taken of a context in the table, or moves out of the table. */
  lemma CountedGrab(ctxs: map<nat, Ctx>, table: set<nat>, acts: map<nat, Act>, a: nat, act: Act, c0: nat, moved: bool)
    requires Counted(ctxs, table, acts) && c0 in ctxs && c0 in table
    requires HoldsOf(acts, a) == {} && Holds(act) == {c0} && Frees(act) == FreesOf(acts, a) == {}
    ensures Counted(if moved then ctxs else ctxs[c0 := ctxs[c0].(refs := ctxs[c0].refs + 1)],
                    if moved then table - {c0} else table, acts[a := act])
  {
    hide Holds, Frees, Holders;
    var acts2 := acts[a := act];
    forall c | c in ctxs ensures |Holders(acts2, c)| == |Holders(acts, c)| + One(c == c0) { HoldersPut(acts, a, act, c); }
    forall c | c in ctxs && ctxs[c].refs == 0 ensures exists b :: b in acts2 && c in Frees(acts2[b]) {
      var b :| b in acts && c in Frees(acts[b]);
      assert b in acts2 && c in Frees(acts2[b]);
    }
  }

  /** A reference is given up; the last one obliges to free the context. */
  lemma CountedLeave(ctxs: map<nat, Ctx>, table: set<nat>, acts: map<nat, Act>, a: nat, act: Act, c0: nat)
    requires Counted(ctxs, table, acts) && c0 in ctxs && HoldsOf(acts, a) == {c0} && FreesOf(acts, a) == {}
    requires Holds(act) == {} && Frees(act) == if ctxs[c0].refs == 1 then {c0} else {}
    ensures Counted(ctxs[c0 := ctxs[c0].(refs := ctxs[c0].refs - 1)], table, acts[a := act])
    ensures ctxs[c0].refs >= 1 && (ctxs[c0].refs == 1 ==> c0 !in table)
  {
    hide Holds, Frees, Holders;
    var acts2 := acts[a := act];
    HolderCounts(acts, a, c0);
    forall c | c in ctxs ensures |Holders(acts2, c)| + One(c == c0) == |Holders(acts, c)| { HoldersPut(acts, a, act, c); }
    forall c | c in ctxs && (if c == c0 then ctxs[c].refs == 1 else ctxs[c].refs == 0) ensures exists b :: b in acts2 && c in Frees(acts2[b]) {
      if c == c0 { assert a in acts2 && c in Frees(acts2[a]); }
      else {
        var b :| b in acts && c in Frees(acts[b]);
        assert b in acts2 && c in Frees(acts2[b]);
      }
    }
  }

  lemma HolderCounts(acts: map<nat, Act>, a: nat, c: nat)
    requires c in HoldsOf(acts, a)
    ensures |Holders(acts, c)| >= 1
  {
    hide Holds;
    assert a in Holders(acts, c);
  }

  lemma NoHolders(acts: map<nat, Act>, c: nat)
    requires |Holders(acts, c)| == 0
    ensures forall a :: a in acts ==> c !in Holds(acts[a])
  {
    hide Holds;
    forall a | a in acts ensures c !in Holds(acts[a]) { assert a !in Holders(acts, c); }
  }

  /** The context is freed by the one activity that has to. */
  lemma CountedFree(ctxs: map<nat, Ctx>, table: set<nat>, acts: map<nat, Act>, a: nat, act: Act, c0: nat)
    requires Counted(ctxs, table, acts) && FreesOf(acts, a) == {c0} && HoldsOf(acts, a) == {}
    requires Holds(act) == {} && Frees(act) == {}
    ensures Counted(ctxs - {c0}, table, acts[a := act])
    ensures c0 in ctxs && c0 !in table
  {
    hide Holds, Frees, Holders;
    var acts2 := acts[a := act];
    NoHolders(acts, c0);
    forall c | c in ctxs ensures |Holders(acts2, c)| == |Holders(acts, c)| { HoldersPut(acts, a, act, c); }
    forall c | c in ctxs && c != c0 && ctxs[c].refs == 0 ensures exists b :: b in acts2 && c in Frees(acts2[b]) {
      var b :| b in acts && c in Frees(acts[b]);
      assert b in acts2 && c in Frees(acts2[b]);
    }
  }

  /** A new context: one reference in the table, one with its creator. */
  lemma CountedNew(ctxs: map<nat, Ctx>, table: set<nat>, acts: map<nat, Act>, a: nat, act: Act, h: nat)
    requires Counted(ctxs, table, acts) && h !in ctxs && h !in table && a !in acts && Holds(act) == {h} && Frees(act) == {}
    ensures Counted(ctxs[h := Ctx(2, false, false)], table + {h}, acts[a := act])
  {
    hide Holds, Frees, Holders;
    var acts2, ctxs2 := acts[a := act], ctxs[h := Ctx(2, false, false)];
    forall c ensures |Holders(acts2, c)| == |Holders(acts, c)| + One(c == h) { HoldersPut(acts, a, act, c); }
    assert |Holders(acts, h)| == 0 by { NobodyHolds(acts, h); }
    forall c | c in ctxs && ctxs[c].refs == 0 ensures exists b :: b in acts2 && c in Frees(acts2[b]) {
      var b :| b in acts && c in Frees(acts[b]);
      assert b in acts2 && c in Frees(acts2[b]);
    }
  }

  lemma NobodyHolds(acts: map<nat, Act>, c: nat)
    requires forall a :: a in acts ==> c !in Holds(acts[a])
    ensures |Holders(acts, c)| == 0
  {
    hide Holds;
    assert Holders(acts, c) == {};
  }

  /** Other fields of a context do not matter. */
  lemma CountedUpdate(ctxs: map<nat, Ctx>, table: set<nat>, acts: map<nat, Act>, c: nat, x: Ctx)
    requires Counted(ctxs, table, acts) && c in ctxs && x.refs == ctxs[c].refs
    ensures Counted(ctxs[c := x], table, acts)
  {
    hide Holds, Frees, Holders;
  }

  // ---------------------------------------------------------------- history

  lemma MessagesAppend(l: seq<(Msg, Fate)>, m: Msg, f: Fate)
    ensures Messages(l + [(m, f)]) == Messages(l) + [m]
  {
  }

  /** The activity holds the same message, of the same queues, or fewer queues and nothing taken out. */
  lemma ConservedPut(queues: map<nat, Queue>, acts: map<nat, Act>, logs: map<nat, Log>, next: nat, a: nat, act: Act)
    requires Conserved(queues, acts, logs, next)
    requires forall q :: q in Owns(act) && q in logs ==> logs[q].busy == Taken(act)
    requires forall q :: q in OwnsOf(acts, a) && q in logs && q !in Owns(act) ==> logs[q].busy == []
    ensures Conserved(queues, acts[a := act], logs, next)
  {
    hide Owns, Owned, Taken, Messages;
    var acts2 := acts[a := act];
    forall q | q in logs && !Owned(acts2, q) ensures logs[q].busy == [] {
      OwnedPut(acts, a, act, q);
    }
  }

  /** One queue changes, along with its history, and the activity goes on with the same queues. */
  lemma ConservedQueue(queues: map<nat, Queue>, list: seq<nat>, acts: map<nat, Act>, logs: map<nat, Log>, next: nat,
                       a: nat, act: Act, q0: nat, x: Queue, lg: Log)
    requires Exclusive(queues, list, acts) && Conserved(queues, acts, logs, next) && q0 in queues
    requires Owns(act) == OwnsOf(acts, a)
    requires lg.accepted == Messages(lg.handled) + lg.busy + x.msgs
    requires forall q :: q in Owns(act) && q in logs ==> Taken(act) == if q == q0 then lg.busy else logs[q].busy
    requires q0 !in Owns(act) ==> q0 in logs && lg.busy == logs[q0].busy
    ensures Conserved(queues[q0 := x], acts[a := act], logs[q0 := lg], next)
  {
    hide Owns, Owned, Taken, Messages, Distinct;
    var acts2, logs2 := acts[a := act], logs[q0 := lg];
    forall q | q in logs2 && !Owned(acts2, q) ensures logs2[q].busy == [] {
      OwnedPut(acts, a, act, q);
    }
    forall b, q | b in acts2 && q in Owns(acts2[b]) && q in logs2 ensures logs2[q].busy == Taken(acts2[b]) {
      if b != a {
        if q == q0 { assert q0 !in Owns(act); }
        assert logs[q].busy == Taken(acts[b]);
      }
    }
  }

  // ---------------------------------------------------------------- each step keeps the invariant

  /** Nothing that other activities rely on goes away. */
  ghost predicate Grows(s: Sys, s2: Sys, a: nat) {
    && (forall c :: c in s.ctxs ==> (c in s2.ctxs && (s.ctxs[c].init ==> s2.ctxs[c].init)) || forall b :: b in s.acts ==> c !in Holds(s.acts[b]))
    && (forall h :: h in s2.table ==> h in s.table || h !in s.queues)
    && (forall q :: q in s.queues && s.queues[q].release ==> (q in s2.queues && s2.queues[q].release) || q in OwnsOf(s.acts, a))
  }

  /** Other activities can still rely on what they relied on. */
  lemma SoundOthers(s: Sys, s2: Sys, a: nat, b: nat)
    requires Inv(s) && Grows(s, s2, a) && b in s.acts && b != a
    ensures Sound(s2.queues, s2.ctxs, s2.table, s.acts[b])
  {
    hide Flags, Counted, Paired, Started, Conserved, Distinct;
    var act := s.acts[b];
    assert Sound(s.queues, s.ctxs, s.table, act);
    forall q | q in Owns(act) ensures q in s.queues && q !in OwnsOf(s.acts, a) {
    }
  }

  ghost predicate AllSound(s: Sys, acts: map<nat, Act>) {
    forall a :: a in acts ==> Sound(s.queues, s.ctxs, s.table, acts[a])
  }

  /** The activity's own new position is sound, and those of all others still are. */
  lemma SoundPut(s: Sys, s2: Sys, a: nat, act: Act)
    requires Inv(s) && Grows(s, s2, a) && Sound(s2.queues, s2.ctxs, s2.table, act)
    requires s2.acts == s.acts[a := act]
    ensures AllSound(s2, s2.acts)
  {
    hide Sound, Exclusive, Flags, Counted, Paired, Started, Conserved, Grows, Owns, Holds;
    forall b | b in s2.acts ensures Sound(s2.queues, s2.ctxs, s2.table, s2.acts[b]) {
      if b != a { SoundOthers(s, s2, a, b); }
    }
  }

  function CreatesOf(acts: map<nat, Act>, a: nat): set<nat> { if a in acts then Creates(acts[a]) else {} }

  /** Started, when activity `a` goes on and no context appears. */
  lemma StartedPut(s: Sys, s2: Sys, a: nat, act: Act)
    requires Inv(s) && s2.acts == s.acts[a := act]
    requires forall c :: c in s2.ctxs && c in s2.table ==> c in s.ctxs && c in s.table && (s.ctxs[c].init ==> s2.ctxs[c].init)
    requires forall c :: c in CreatesOf(s.acts, a) && c !in Creates(act) ==> !(c in s2.ctxs && c in s2.table && !s2.ctxs[c].init)
    ensures Started(s2.ctxs, s2.table, s2.acts)
  {
    hide Creates, Exclusive, Flags, Counted, Paired, Conserved, Sound;
    forall c | c in s2.ctxs && c in s2.table && !s2.ctxs[c].init ensures exists b :: b in s2.acts && c in Creates(s2.acts[b]) {
      var b :| b in s.acts && c in Creates(s.acts[b]);
      assert b in s2.acts && c in Creates(s2.acts[b]);
    }
  }

  /** A step that moves only activity `a`, which keeps its queues, its reference and its message. */
  lemma StepQuiet(s: Sys, a: nat, act: Act)
    requires Inv(s) && a in s.acts && Sound(s.queues, s.ctxs, s.table, act)
    requires Owns(act) == Owns(s.acts[a]) && Holds(act) == Holds(s.acts[a]) && Frees(act) == Frees(s.acts[a])
    requires Taken(act) == Taken(s.acts[a]) && forall c :: c in Creates(s.acts[a]) && c !in Creates(act) ==> c !in s.table
    ensures Inv(Put(s, a, act))
  {
    hide Owns, Holds, Frees, Creates, Taken, Sound, Exclusive, Flags, Counted, Conserved, Started;
    var s2 := Put(s, a, act);
    PlacesSame(s.queues, s.list, s.acts, a, act);
    CountedSame(s.ctxs, s.table, s.acts, a, act);
    BusyIs(s, a);
    ConservedPut(s.queues, s.acts, s.logs, s.next, a, act);
    SoundPut(s, s2, a, act);
    StartedPut(s, s2, a, act);
  }

  lemma BusyIs(s: Sys, a: nat)
    requires Conserved(s.queues, s.acts, s.logs, s.next) && a in s.acts
    ensures forall q :: q in Owns(s.acts[a]) && q in s.logs ==> s.logs[q].busy == Taken(s.acts[a])
  {
    hide Owns, Taken;
  }
}
