/** Every step of the scheduler keeps its invariant. */
module SchedulerSteps {
  import opened MessageQueue
  import opened Scheduler
  import opened SchedulerSafety

  /** The parts of the invariant make the whole. */
  lemma Assemble(s: Sys, s2: Sys, a: nat, act: Act)
    requires Inv(s) && s2.acts == s.acts[a := act]
    requires Places(s2.queues, s2.list, s2.acts) && Counted(s2.ctxs, s2.table, s2.acts)
    requires Paired(s2.queues, s2.ctxs, s2.table, s2.next) && Conserved(s2.queues, s2.acts, s2.logs, s2.next)
    requires Grows(s, s2, a) && Sound(s2.queues, s2.ctxs, s2.table, act)
    requires forall c :: c in s2.ctxs && c in s2.table ==> c in s.ctxs && c in s.table && (s.ctxs[c].init ==> s2.ctxs[c].init)
    requires forall c :: c in CreatesOf(s.acts, a) && c !in Creates(act) ==> !(c in s2.ctxs && c in s2.table && !s2.ctxs[c].init)
    ensures Inv(s2)
  {
    hide Creates, Sound, Exclusive, Flags, Counted, Conserved, Started, Grows, Paired;
    SoundPut(s, s2, a, act);
    StartedPut(s, s2, a, act);
  }

  /** Worker(Null) and More: the head of the global list is taken. */
  lemma StepTake(s: Sys, a: nat, act: Act)
    requires Inv(s) && a in s.acts && s.list != []
    requires (s.acts[a] == Worker(Null) && act == Worker(Some(s.list[0]))) || (s.acts[a].More? && act == PutBack(s.acts[a].q, s.list[0]))
    ensures Inv(Put(s.(list := s.list[1..]), a, act))
  {
    hide Exclusive, Flags, Counted, Conserved, Started;
    var s2 := Put(s.(list := s.list[1..]), a, act);
    PlacesTake(s.queues, s.list, s.acts, a, act);
    CountedSame(s.ctxs, s.table, s.acts, a, act);
    BusyIs(s, a);
    ListedIdle(s, s.list[0]);
    ConservedPut(s.queues, s.acts, s.logs, s.next, a, act);
    assert s2.queues == s.queues;
    assert Grows(s, s2, a);
    Assemble(s, s2, a, act);
  }

  /** A listed queue has no message taken out. */
  lemma ListedIdle(s: Sys, q: nat)
    requires Inv(s) && q in s.list
    ensures q in s.queues && q in s.logs && s.logs[q].busy == []
  {
    hide Owned, Distinct, Flags, Counted, Started, Sound, Messages;
  }

  /** PutBack, Push and MqRelease: a queue goes to the end of the global list. */
  lemma StepGive(s: Sys, a: nat, q0: nat, act: Act)
    requires Inv(s) && a in s.acts && q0 in Owns(s.acts[a]) && Owns(act) == Owns(s.acts[a]) - {q0}
    requires Holds(act) == Holds(s.acts[a]) && Frees(act) == Frees(s.acts[a]) && Taken(act) == Taken(s.acts[a]) == []
    requires Creates(s.acts[a]) == {} && Sound(s.queues, s.ctxs, s.table, act)
    ensures Inv(Put(s.(list := s.list + [q0]), a, act))
  {
    hide Exclusive, Flags, Counted, Conserved, Started, Owns, Holds, Frees, Creates, Taken, Sound;
    var s2 := Put(s.(list := s.list + [q0]), a, act);
    PlacesGive(s.queues, s.list, s.acts, a, act, q0);
    CountedSame(s.ctxs, s.table, s.acts, a, act);
    BusyIs(s, a);
    ConservedPut(s.queues, s.acts, s.logs, s.next, a, act);
    assert Grows(s, s2, a);
    Assemble(s, s2, a, act);
  }

  /** Lookup and SendGrab, when the handle is found. */
  lemma StepGrab(s: Sys, a: nat, h: nat, act: Act)
    requires Inv(s) && a in s.acts && h in s.table && h in s.ctxs
    requires Holds(s.acts[a]) == {} == Frees(s.acts[a]) == Frees(act) && Holds(act) == {h}
    requires Owns(act) == Owns(s.acts[a]) && Taken(act) == Taken(s.acts[a]) == [] && Creates(s.acts[a]) == {}
    requires Sound(s.queues, s.ctxs[h := s.ctxs[h].(refs := s.ctxs[h].refs + 1)], s.table, act)
    ensures Inv(Put(s.(ctxs := s.ctxs[h := s.ctxs[h].(refs := s.ctxs[h].refs + 1)]), a, act))
  {
    hide Exclusive, Flags, Counted, Conserved, Started, Owns, Holds, Frees, Creates, Taken, Sound;
    var s2 := Put(s.(ctxs := s.ctxs[h := s.ctxs[h].(refs := s.ctxs[h].refs + 1)]), a, act);
    PlacesSame(s.queues, s.list, s.acts, a, act);
    CountedGrab(s.ctxs, s.table, s.acts, a, act, h, false);
    BusyIs(s, a);
    ConservedPut(s.queues, s.acts, s.logs, s.next, a, act);
    assert Grows(s, s2, a);
    Assemble(s, s2, a, act);
  }

  /** A queue that a worker holds is one of a service that has started. */
  lemma WorkerStarted(s: Sys, a: nat, q: nat)
    requires Inv(s) && a in s.acts && s.acts[a] == Lookup(q) && q in s.table && q in s.ctxs
    ensures s.ctxs[q].init
  {
    hide Distinct, Flags, Counted, Paired, Conserved, Sound, Owned;
    if !s.ctxs[q].init {
      var b :| b in s.acts && q in Creates(s.acts[b]);
      CreatorOwns(s.acts[b], q);
      assert false;
    }
  }

  lemma CreatorOwns(act: Act, q: nat)
    requires q in Creates(act)
    ensures q in Owns(act) && !act.Lookup?
  {
  }

  /** Pop of an empty queue: the queue is idle and the reference is about to be given up. */
  lemma StepPopEmpty(s: Sys, a: nat)
    requires Inv(s) && a in s.acts && s.acts[a].Pop? && s.acts[a].q in s.queues && s.queues[s.acts[a].q].msgs == []
    ensures Inv(Put(s.(queues := s.queues[s.acts[a].q := Popped(s.queues[s.acts[a].q])]), a, Leave(s.acts[a].q, PopNext)))
  {
    hide Exclusive, Flags, Counted, Conserved, Started;
    var q, act := s.acts[a].q, Leave(s.acts[a].q, PopNext);
    var s2 := Put(s.(queues := s.queues[q := Popped(s.queues[q])]), a, act);
    assert Sound(s.queues, s.ctxs, s.table, s.acts[a]);
    PlacesIdle(s.queues, s.list, s.acts, a, act, q);
    CountedSame(s.ctxs, s.table, s.acts, a, act);
    BusyIs(s, a);
    ConservedPut(s.queues, s.acts, s.logs, s.next, a, act);
    SameContents(s.queues, s2.queues, s2.acts, s.logs, s.next);
    assert Grows(s, s2, a);
    Assemble(s, s2, a, act);
  }

  lemma SameContents(queues: map<nat, Queue>, queues2: map<nat, Queue>, acts: map<nat, Act>, logs: map<nat, Log>, next: nat)
    requires Conserved(queues, acts, logs, next) && queues2.Keys == queues.Keys
    requires forall q :: q in queues ==> queues2[q].msgs == queues[q].msgs
    ensures Conserved(queues2, acts, logs, next)
  {
    hide Owned, Owns, Taken, Messages;
  }

  /** Pop of a message: it is out of the queue, in the hands of the owner. */
  lemma StepPopMessage(s: Sys, a: nat, act: Act)
    requires Inv(s) && a in s.acts && s.acts[a].Pop? && s.acts[a].q in s.queues && s.acts[a].q in s.logs && s.queues[s.acts[a].q].msgs != []
    requires var q, m := s.acts[a].q, s.queues[s.acts[a].q].msgs[0]; act == Measure(q, m) || act == Handle(q, m, s.acts[a].i, s.acts[a].n)
    ensures var q, m := s.acts[a].q, s.queues[s.acts[a].q].msgs[0];
      Inv(Put(s.(queues := s.queues[q := Popped(s.queues[q])], logs := s.logs[q := s.logs[q].(busy := [m])]), a, act))
  {
    hide Exclusive, Flags, Counted, Conserved, Started;
    var q, m := s.acts[a].q, s.queues[s.acts[a].q].msgs[0];
    var s2 := Put(s.(queues := s.queues[q := Popped(s.queues[q])], logs := s.logs[q := s.logs[q].(busy := [m])]), a, act);
    assert Sound(s.queues, s.ctxs, s.table, s.acts[a]);
    PlacesSame(s.queues, s.list, s.acts, a, act);
    assert Owned(s2.acts, q) by { assert a in s2.acts && q in Owns(s2.acts[a]); }
    PlacesUpdate(s.queues, s.list, s2.acts, q, Popped(s.queues[q]));
    CountedSame(s.ctxs, s.table, s.acts, a, act);
    ConservedPop(s, a, act);
    assert Grows(s, s2, a);
    Assemble(s, s2, a, act);
  }

  lemma ConservedPop(s: Sys, a: nat, act: Act)
    requires Inv(s) && a in s.acts && s.acts[a].Pop? && s.acts[a].q in s.queues && s.acts[a].q in s.logs && s.queues[s.acts[a].q].msgs != []
    requires var q, m := s.acts[a].q, s.queues[s.acts[a].q].msgs[0]; Owns(act) == {q} && Taken(act) == [m]
    ensures var q, m := s.acts[a].q, s.queues[s.acts[a].q].msgs[0];
      Conserved(s.queues[q := Popped(s.queues[q])], s.acts[a := act], s.logs[q := s.logs[q].(busy := [m])], s.next)
  {
    hide Flags, Counted, Started, Sound, Messages, Owned, Exclusive, Conserved;
    var q, m := s.acts[a].q, s.queues[s.acts[a].q].msgs[0];
    var l, t := s.logs[q], s.queues[q].msgs[1..];
    BusyIs(s, a);
    AllAccounted(s, q);
    assert s.queues[q].msgs == [m] + t;
    assert Messages(l.handled) + [] + ([m] + t) == Messages(l.handled) + [m] + t;
    ConservedQueue(s.queues, s.list, s.acts, s.logs, s.next, a, act, q, Popped(s.queues[q]), l.(busy := [m]));
  }

  lemma AllAccounted(s: Sys, q: nat)
    requires Inv(s) && q in s.queues && q in s.logs
    ensures s.logs[q].accepted == Messages(s.logs[q].handled) + s.logs[q].busy + s.queues[q].msgs
  {
    hide Flags, Counted, Started, Sound, Messages, Owned, Exclusive;
  }

  /** The message is handled. */
  lemma StepHandle(s: Sys, a: nat, fate: Fate, act: Act)
    requires Inv(s) && a in s.acts && s.acts[a].Handle? && s.acts[a].q in s.queues && s.acts[a].q in s.logs
    requires var h := s.acts[a]; act == (if h.i + 1 < h.n then Pop(h.q, h.i + 1, h.n) else More(h.q))
    ensures var h := s.acts[a];
      Inv(Put(s.(logs := s.logs[h.q := s.logs[h.q].(busy := [], handled := s.logs[h.q].handled + [(h.m, fate)])]), a, act))
  {
    hide Exclusive, Flags, Counted, Conserved, Started;
    var h := s.acts[a];
    var s2 := Put(s.(logs := s.logs[h.q := s.logs[h.q].(busy := [], handled := s.logs[h.q].handled + [(h.m, fate)])]), a, act);
    assert Sound(s.queues, s.ctxs, s.table, s.acts[a]);
    PlacesSame(s.queues, s.list, s.acts, a, act);
    CountedSame(s.ctxs, s.table, s.acts, a, act);
    ConservedHandle(s, a, fate, act);
    assert Grows(s, s2, a);
    Assemble(s, s2, a, act);
  }

  lemma ConservedHandle(s: Sys, a: nat, fate: Fate, act: Act)
    requires Inv(s) && a in s.acts && s.acts[a].Handle? && s.acts[a].q in s.queues && s.acts[a].q in s.logs
    requires Owns(act) == {s.acts[a].q} && Taken(act) == []
    ensures var h := s.acts[a];
      Conserved(s.queues, s.acts[a := act], s.logs[h.q := s.logs[h.q].(busy := [], handled := s.logs[h.q].handled + [(h.m, fate)])], s.next)
  {
    hide Flags, Counted, Started, Sound, Messages, Owned, Exclusive, Conserved;
    var h := s.acts[a];
    var l := s.logs[h.q];
    BusyIs(s, a);
    AllAccounted(s, h.q);
    MessagesAppend(l.handled, h.m, fate);
    assert Messages(l.handled) + [h.m] + s.queues[h.q].msgs == (Messages(l.handled) + [h.m]) + [] + s.queues[h.q].msgs;
    ConservedQueue(s.queues, s.list, s.acts, s.logs, s.next, a, act, h.q, s.queues[h.q], l.(busy := [], handled := l.handled + [(h.m, fate)]));
    assert s.queues[h.q := s.queues[h.q]] == s.queues;
  }

  /** A reference is given up. */
  lemma StepLeave(s: Sys, a: nat)
    requires Inv(s) && a in s.acts && s.acts[a].Leave? && s.acts[a].c in s.ctxs
    ensures var l, x := s.acts[a], s.ctxs[s.acts[a].c];
      Inv(Put(s.(ctxs := s.ctxs[l.c := x.(refs := x.refs - 1)]), a, if x.refs == 1 then Mark(l.c, l.k) else Resume(l.k, true)))
  {
    hide Exclusive, Flags, Counted, Conserved, Started;
    var l, x := s.acts[a], s.ctxs[s.acts[a].c];
    var act := if x.refs == 1 then Mark(l.c, l.k) else Resume(l.k, true);
    var s2 := Put(s.(ctxs := s.ctxs[l.c := x.(refs := x.refs - 1)]), a, act);
    assert Sound(s.queues, s.ctxs, s.table, s.acts[a]);
    PlacesSame(s.queues, s.list, s.acts, a, act);
    CountedLeave(s.ctxs, s.table, s.acts, a, act, l.c);
    BusyIs(s, a);
    ConservedPut(s.queues, s.acts, s.logs, s.next, a, act);
    assert Grows(s, s2, a);
    Assemble(s, s2, a, act);
  }

  /** delete_context: the queue is marked released, and the context freed. */
  lemma StepMark(s: Sys, a: nat)
    requires Inv(s) && a in s.acts && s.acts[a].Mark? && s.acts[a].c in s.queues
    ensures var c, x := s.acts[a].c, s.queues[s.acts[a].c];
      Inv(Put(s.(queues := s.queues[c := x.(release := true)], list := if x.inGlobal then s.list else s.list + [c], ctxs := s.ctxs - {c}),
              a, Resume(s.acts[a].k, false)))
  {
    hide Exclusive, Flags, Counted, Conserved, Started;
    var c, x, act := s.acts[a].c, s.queues[s.acts[a].c], Resume(s.acts[a].k, false);
    var s2 := Put(s.(queues := s.queues[c := x.(release := true)], list := if x.inGlobal then s.list else s.list + [c], ctxs := s.ctxs - {c}), a, act);
    assert Sound(s.queues, s.ctxs, s.table, s.acts[a]);
    FreerIsLive(s, a);
    PlacesSame(s.queues, s.list, s.acts, a, act);
    PlacesWake(s.queues, s.list, s2.acts, c, x.(release := true));
    CountedFree(s.ctxs, s.table, s.acts, a, act, c);
    BusyIs(s, a);
    ConservedPut(s.queues, s.acts, s.logs, s.next, a, act);
    SameContents(s.queues, s2.queues, s2.acts, s.logs, s.next);
    assert Grows(s, s2, a);
    Assemble(s, s2, a, act);
  }

  /** The context about to be freed is there, without references, its queue not yet released. */
  lemma FreerIsLive(s: Sys, a: nat)
    requires Inv(s) && a in s.acts && s.acts[a].Mark?
    ensures var c := s.acts[a].c; c in s.ctxs && c in s.queues && !s.queues[c].release
    ensures forall b :: b in s.acts ==> s.acts[a].c !in Holds(s.acts[b])
  {
    hide Exclusive, Flags, Conserved, Started, Sound, Holders, Holds;
    NoHolders(s.acts, s.acts[a].c);
  }

  /** skynet_mq_push by the holder of a reference. */
  lemma StepSendPush(s: Sys, a: nat)
    requires Inv(s) && a in s.acts && s.acts[a].SendPush? && s.acts[a].c in s.queues && s.acts[a].c in s.logs
    ensures var c, m, x := s.acts[a].c, s.acts[a].m, s.queues[s.acts[a].c];
      Inv(Put(s.(queues := s.queues[c := Pushed(x, m)], list := if x.inGlobal then s.list else s.list + [c],
                 logs := s.logs[c := s.logs[c].(accepted := s.logs[c].accepted + [m])]), a, Leave(c, Stop)))
  {
    hide Exclusive, Flags, Counted, Conserved, Started;
    var c, m, x, act := s.acts[a].c, s.acts[a].m, s.queues[s.acts[a].c], Leave(s.acts[a].c, Stop);
    var s2 := Put(s.(queues := s.queues[c := Pushed(x, m)], list := if x.inGlobal then s.list else s.list + [c],
                 logs := s.logs[c := s.logs[c].(accepted := s.logs[c].accepted + [m])]), a, act);
    HeldIsLive(s, a, c);
    PlacesSame(s.queues, s.list, s.acts, a, act);
    PlacesWake(s.queues, s.list, s2.acts, c, Pushed(x, m));
    CountedSame(s.ctxs, s.table, s.acts, a, act);
    ConservedPush(s, a);
    assert Grows(s, s2, a);
    Assemble(s, s2, a, act);
  }

  lemma ConservedPush(s: Sys, a: nat)
    requires Inv(s) && a in s.acts && s.acts[a].SendPush? && s.acts[a].c in s.queues && s.acts[a].c in s.logs
    ensures var c, m := s.acts[a].c, s.acts[a].m;
      Conserved(s.queues[c := Pushed(s.queues[c], m)], s.acts[a := Leave(c, Stop)],
                s.logs[c := s.logs[c].(accepted := s.logs[c].accepted + [m])], s.next)
  {
    hide Flags, Counted, Started, Sound, Messages, Owned, Exclusive, Conserved;
    var c, m, act := s.acts[a].c, s.acts[a].m, Leave(s.acts[a].c, Stop);
    var l := s.logs[c];
    AllAccounted(s, c);
    assert (Messages(l.handled) + l.busy + s.queues[c].msgs) + [m] == Messages(l.handled) + l.busy + (s.queues[c].msgs + [m]);
    ConservedQueue(s.queues, s.list, s.acts, s.logs, s.next, a, act, c, Pushed(s.queues[c], m), l.(accepted := l.accepted + [m]));
  }

  lemma HeldIsLive(s: Sys, a: nat, c: nat)
    requires Inv(s) && a in s.acts && c in Holds(s.acts[a])
    ensures c in s.ctxs && c in s.queues && !s.queues[c].release && c in s.logs
  {
    hide Exclusive, Flags, Started, Sound, Holders, Holds, Messages, Owned;
  }

  /** The creator sets the init flag, if the context is still there. */
  lemma StepSetInit(s: Sys, a: nat)
    requires Inv(s) && a in s.acts && s.acts[a].SetInit?
    ensures var q := s.acts[a].q; Inv(Put(if q in s.ctxs then s.(ctxs := s.ctxs[q := s.ctxs[q].(init := true)]) else s, a, Push(q)))
  {
    hide Exclusive, Flags, Counted, Conserved, Started;
    var q, act := s.acts[a].q, Push(s.acts[a].q);
    var s2 := Put(if q in s.ctxs then s.(ctxs := s.ctxs[q := s.ctxs[q].(init := true)]) else s, a, act);
    PlacesSame(s.queues, s.list, s.acts, a, act);
    CountedSame(s.ctxs, s.table, s.acts, a, act);
    if q in s.ctxs { CountedUpdate(s.ctxs, s.table, s2.acts, q, s.ctxs[q].(init := true)); }
    BusyIs(s, a);
    ConservedPut(s.queues, s.acts, s.logs, s.next, a, act);
    assert Grows(s, s2, a);
    Assemble(s, s2, a, act);
  }

  /** skynet_handle_retire takes the context out of the table and its reference along. */
  lemma StepRetire(s: Sys, a: nat)
    requires Inv(s) && a in s.acts && s.acts[a].Retire? && s.acts[a].h in s.table
    ensures Inv(Put(s.(table := s.table - {s.acts[a].h}), a, Leave(s.acts[a].h, s.acts[a].k)))
  {
    hide Exclusive, Flags, Counted, Conserved, Started;
    var h, act := s.acts[a].h, Leave(s.acts[a].h, s.acts[a].k);
    var s2 := Put(s.(table := s.table - {h}), a, act);
    assert Sound(s.queues, s.ctxs, s.table, s.acts[a]);
    PlacesSame(s.queues, s.list, s.acts, a, act);
    CountedGrab(s.ctxs, s.table, s.acts, a, act, h, true);
    BusyIs(s, a);
    ConservedPut(s.queues, s.acts, s.logs, s.next, a, act);
    assert Grows(s, s2, a);
    Assemble(s, s2, a, act);
  }

  /** _drop_queue has emptied the queue: it is freed. */
  lemma StepFree(s: Sys, a: nat)
    requires Inv(s) && a in s.acts && s.acts[a].Drop? && s.acts[a].q in s.queues && s.queues[s.acts[a].q].msgs == []
    ensures Inv(Put(s.(queues := s.queues - {s.acts[a].q}), a, Resume(s.acts[a].k, true)))
  {
    hide Exclusive, Flags, Counted, Conserved, Started;
    var q, act := s.acts[a].q, Resume(s.acts[a].k, true);
    var s2 := Put(s.(queues := s.queues - {q}), a, act);
    assert Sound(s.queues, s.ctxs, s.table, s.acts[a]);
    PlacesFree(s.queues, s.list, s.acts, a, act, q);
    CountedSame(s.ctxs, s.table, s.acts, a, act);
    BusyIs(s, a);
    ConservedPut(s.queues, s.acts, s.logs, s.next, a, act);
    EmptyGone(s.queues, s2.acts, s.logs, s.next, q);
    assert Grows(s, s2, a);
    Assemble(s, s2, a, act);
  }

  lemma EmptyGone(queues: map<nat, Queue>, acts: map<nat, Act>, logs: map<nat, Log>, next: nat, q: nat)
    requires Conserved(queues, acts, logs, next) && q in queues && queues[q].msgs == []
    ensures Conserved(queues - {q}, acts, logs, next)
  {
    hide Owned, Owns, Taken, Messages;
  }

  /** _drop_queue drops a message and replies with an error. */
  lemma StepDrop(s: Sys, a: nat, reply: nat)
    requires Inv(s) && a in s.acts && s.acts[a].Drop? && s.acts[a].q in s.queues && s.acts[a].q in s.logs
    requires s.queues[s.acts[a].q].msgs != [] && reply !in s.acts
    ensures var q, m := s.acts[a].q, s.queues[s.acts[a].q].msgs[0];
      Inv(Put(s.(queues := s.queues[q := Popped(s.queues[q])],
                 logs := s.logs[q := s.logs[q].(handled := s.logs[q].handled + [(m, Dropped)])]), reply, SendGrab(m.source, Msg(q, 0))))
  {
    hide Exclusive, Flags, Counted, Conserved, Started;
    var q, m := s.acts[a].q, s.queues[s.acts[a].q].msgs[0];
    var act := SendGrab(m.source, Msg(q, 0));
    var s2 := Put(s.(queues := s.queues[q := Popped(s.queues[q])],
                 logs := s.logs[q := s.logs[q].(handled := s.logs[q].handled + [(m, Dropped)])]), reply, act);
    assert Sound(s.queues, s.ctxs, s.table, s.acts[a]);
    PlacesSame(s.queues, s.list, s.acts, reply, act);
    assert Owned(s2.acts, q) by { assert a in s2.acts && q in Owns(s2.acts[a]); }
    PlacesUpdate(s.queues, s.list, s2.acts, q, Popped(s.queues[q]));
    CountedSame(s.ctxs, s.table, s.acts, reply, act);
    ConservedDrop(s, a, reply);
    assert Grows(s, s2, reply);
    Assemble(s, s2, reply, act);
  }

  lemma ConservedDrop(s: Sys, a: nat, reply: nat)
    requires Inv(s) && a in s.acts && s.acts[a].Drop? && s.acts[a].q in s.queues && s.acts[a].q in s.logs
    requires s.queues[s.acts[a].q].msgs != [] && reply !in s.acts
    ensures var q, m := s.acts[a].q, s.queues[s.acts[a].q].msgs[0];
      Conserved(s.queues[q := Popped(s.queues[q])], s.acts[reply := SendGrab(m.source, Msg(q, 0))],
                s.logs[q := s.logs[q].(handled := s.logs[q].handled + [(m, Dropped)])], s.next)
  {
    hide Flags, Counted, Started, Sound, Messages, Owned, Exclusive, Conserved;
    var q, m := s.acts[a].q, s.queues[s.acts[a].q].msgs[0];
    var act, l, t := SendGrab(m.source, Msg(q, 0)), s.logs[q], s.queues[q].msgs[1..];
    BusyIs(s, a);
    AllAccounted(s, q);
    MessagesAppend(l.handled, m, Dropped);
    assert s.queues[q].msgs == [m] + t;
    assert Messages(l.handled) + [] + ([m] + t) == (Messages(l.handled) + [m]) + [] + t;
    ConservedQueue(s.queues, s.list, s.acts, s.logs, s.next, reply, act, q, Popped(s.queues[q]), l.(handled := l.handled + [(m, Dropped)]));
  }

  /** A new service: its queue flagged and owned by the creator, its context in the table. */
  lemma StepRegister(s: Sys, a: nat)
    requires Inv(s) && a !in s.acts
    ensures Inv(Register(s, a))
  {
    hide Exclusive, Flags, Counted, Conserved, Started;
    var h, act := s.next, Init(s.next);
    var s2 := Register(s, a);
    PlacesNew(s.queues, s.list, s.acts, a, act, h);
    CountedNew(s.ctxs, s.table, s.acts, a, act, h);
    ConservedNew(s, a);
    assert Sound(s2.queues, s2.ctxs, s2.table, act);
    assert Grows(s, s2, a);
    SoundPut(s, s2, a, act);
    StartedNew(s, a);
  }

  lemma ConservedNew(s: Sys, a: nat)
    requires Inv(s) && a !in s.acts
    ensures Conserved(s.queues[s.next := Queue(s.next, [], true, false)], s.acts[a := Init(s.next)], s.logs[s.next := Log([], [], [])], s.next + 1)
  {
    hide Flags, Counted, Started, Sound, Owned, Distinct, Messages, Owns;
    var h, act := s.next, Init(s.next);
    var acts2, logs2 := s.acts[a := act], s.logs[h := Log([], [], [])];
    assert Messages([]) == [] && Owns(act) == {h} by { NothingYet(h); }
    assert h !in s.queues && h !in s.logs;
    forall b, q | b in acts2 && q in Owns(acts2[b]) && q in logs2 ensures logs2[q].busy == Taken(acts2[b]) {
      if b != a { assert q in s.queues && logs2[q] == s.logs[q]; }
    }
    forall q | q in logs2 && !Owned(acts2, q) ensures logs2[q].busy == [] {
      OwnedPut(s.acts, a, act, q);
    }
  }

  lemma NothingYet(h: nat)
    ensures Messages([]) == [] && Owns(Init(h)) == {h}
  {
  }

  lemma StartedNew(s: Sys, a: nat)
    requires Inv(s) && a !in s.acts
    ensures var s2 := Register(s, a); Started(s2.ctxs, s2.table, s2.acts)
  {
    hide Exclusive, Flags, Counted, Conserved, Sound;
    var s2 := Register(s, a);
    forall c | c in s2.ctxs && c in s2.table && !s2.ctxs[c].init ensures exists b :: b in s2.acts && c in Creates(s2.acts[b]) {
      if c == s.next { assert a in s2.acts && c in Creates(s2.acts[a]); }
      else {
        var b :| b in s.acts && c in Creates(s.acts[b]);
        assert b in s2.acts && c in Creates(s2.acts[b]);
      }
    }
  }

  /** skynet_callback */
  lemma StepCallback(s: Sys, c: nat, cb: bool)
    requires Inv(s) && c in s.ctxs
    ensures Inv(s.(ctxs := s.ctxs[c := s.ctxs[c].(cb := cb)]))
  {
    hide Exclusive, Flags, Conserved, Counted;
    CountedUpdate(s.ctxs, s.table, s.acts, c, s.ctxs[c].(cb := cb));
  }

  /** An activity that begins with nothing in its hands. */
  lemma StepBegin(s: Sys, a: nat, act: Act)
    requires Inv(s) && a !in s.acts
    requires act == Worker(Null) || act.SendGrab? || (act.Retire? && act.k.Stop?)
    ensures Inv(Put(s, a, act))
  {
    hide Exclusive, Flags, Counted, Conserved, Started;
    var s2 := Put(s, a, act);
    PlacesSame(s.queues, s.list, s.acts, a, act);
    CountedSame(s.ctxs, s.table, s.acts, a, act);
    ConservedPut(s.queues, s.acts, s.logs, s.next, a, act);
    assert Grows(s, s2, a);
    Assemble(s, s2, a, act);
  }

  /** Memory safety and the source's assertions: what the next step touches is there, and it asserts nothing false. */
  lemma InvSafe(s: Sys, a: nat)
    requires Inv(s) && a in s.acts
    ensures Touches(s, s.acts[a]) && Asserts(s, s.acts[a])
  {
    var act := s.acts[a];
    assert Sound(s.queues, s.ctxs, s.table, act);
    match act {
      case SendPush(c, m) => HeldIsLive(s, a, c); PushSafe(s, c);
      case Mark(c, k) => FreerIsLive(s, a); PushSafe(s, c);
      case Leave(c, _) => HeldIsLive(s, a, c);
      case _ => OwnedSafe(s, a);
    }
  }

  lemma PushSafe(s: Sys, c: nat)
    requires Inv(s) && c in s.queues && !s.queues[c].release
    ensures !s.queues[c].inGlobal ==> c !in s.list
  {
    hide Exclusive, Counted, Conserved, Started, Sound, Paired, Owned;
  }

  lemma OwnedSafe(s: Sys, a: nat)
    requires Inv(s) && a in s.acts
    ensures forall q :: q in Owns(s.acts[a]) ==> q in s.queues && q !in s.list && q in s.logs
    ensures forall q :: q in Holds(s.acts[a]) ==> q in s.ctxs && q in s.queues
  {
    hide Flags, Started, Sound, Messages, Distinct;
    forall q | q in Owns(s.acts[a]) ensures q !in s.list {
      assert Owned(s.acts, q);
    }
  }

  /** A step of a worker that serves a queue keeps the invariant. */
  lemma ServeInv(s: Sys, a: nat, choice: bool, reply: nat)
    requires Inv(s) && a in s.acts && Touches(s, s.acts[a])
    requires var x := s.acts[a]; x.Worker? || x.Lookup? || x.Pop? || x.Measure? || x.Handle? || x.More? || x.PutBack?
    ensures Inv(StepAct(s, a, choice, reply))
  {
    hide Inv, Popped, Pushed;
    SoundOf(s, a);
    match s.acts[a] {
      case Worker(Null) => if s.list != [] { StepTake(s, a, Worker(Some(s.list[0]))); }
      case Worker(Some(q)) => StepQuiet(s, a, Lookup(q));
      case Lookup(q) =>
        if q in s.table && q in s.ctxs { WorkerStarted(s, a, q); StepGrab(s, a, q, Pop(q, 0, 1)); }
        else { TableIn(s); StepQuiet(s, a, MqRelease(q, PopNext)); }
      case Pop(q, i, n) =>
        if s.queues[q].msgs == [] { StepPopEmpty(s, a); }
        else { StepPopMessage(s, a, if i == 0 then Measure(q, s.queues[q].msgs[0]) else Handle(q, s.queues[q].msgs[0], i, n)); }
      case Measure(q, m) => StepQuiet(s, a, Handle(q, m, 0, if choice then |s.queues[q].msgs| else 1));
      case Handle(q, m, i, n) => StepHandle(s, a, if s.ctxs[q].cb then Dispatched else Discarded, if i + 1 < n then Pop(q, i + 1, n) else More(q));
      case More(q) =>
        if s.list == [] { StepQuiet(s, a, Leave(q, Keep(q))); }
        else { NotOwnHead(s, a); StepTake(s, a, PutBack(q, s.list[0])); }
      case PutBack(q, nq) => StepGive(s, a, q, Leave(q, Keep(nq)));
    }
  }

  /** So does a step of anything else. */
  lemma OtherInv(s: Sys, a: nat, choice: bool, reply: nat)
    requires Inv(s) && a in s.acts && Touches(s, s.acts[a])
    requires var x := s.acts[a]; !(x.Worker? || x.Lookup? || x.Pop? || x.Measure? || x.Handle? || x.More? || x.PutBack?)
    ensures Inv(StepAct(s, a, choice, reply))
  {
    hide Inv, Popped, Pushed;
    SoundOf(s, a);
    match s.acts[a] {
      case Leave(c, k) => StepLeave(s, a);
      case Mark(c, k) => StepMark(s, a);
      case MqRelease(q, k) =>
        if s.queues[q].release { StepQuiet(s, a, Drop(q, k)); } else { StepGive(s, a, q, Resume(k, true)); }
      case Drop(q, k) =>
        if s.queues[q].msgs == [] { StepFree(s, a); } else if reply !in s.acts { StepDrop(s, a, reply); }
      case SendGrab(h, m) =>
        if h in s.table && h in s.ctxs { StepGrab(s, a, h, SendPush(h, m)); } else { StepQuiet(s, a, Done); }
      case SendPush(c, m) => StepSendPush(s, a);
      case Init(q) => StepQuiet(s, a, Leave(q, if choice then Launched(q) else Quit(q)));
      case SetInit(q) => StepSetInit(s, a);
      case Push(q) => StepGive(s, a, q, Done);
      case Retire(h, k) =>
        if h in s.table { StepRetire(s, a); } else { StepQuiet(s, a, Resume(k, true)); }
      case Done =>
    }
  }

  /** A step of an activity keeps the invariant. */
  lemma StepActInv(s: Sys, a: nat, choice: bool, reply: nat)
    requires Inv(s) && a in s.acts && Touches(s, s.acts[a])
    ensures Inv(StepAct(s, a, choice, reply))
  {
    hide Inv, StepAct;
    var x := s.acts[a];
    if x.Worker? || x.Lookup? || x.Pop? || x.Measure? || x.Handle? || x.More? || x.PutBack? { ServeInv(s, a, choice, reply); }
    else { OtherInv(s, a, choice, reply); }
  }

  lemma SoundOf(s: Sys, a: nat)
    requires Inv(s) && a in s.acts
    ensures Sound(s.queues, s.ctxs, s.table, s.acts[a])
  {
  }

  lemma TableIn(s: Sys)
    requires Inv(s)
    ensures forall h :: h in s.table ==> h in s.ctxs
  {
    hide Exclusive, Flags, Counted, Conserved, Started, Sound;
  }

  lemma NotOwnHead(s: Sys, a: nat)
    requires Inv(s) && a in s.acts && s.list != []
    ensures s.list[0] !in Owns(s.acts[a])
  {
    hide Flags, Counted, Conserved, Started, Sound, Paired;
    assert s.list[0] in s.list;
    PlacesHead(s, a);
  }

  lemma PlacesHead(s: Sys, a: nat)
    requires Exclusive(s.queues, s.list, s.acts) && a in s.acts && s.list != []
    ensures s.list[0] !in Owns(s.acts[a])
  {
    NotElse(s.queues, s.list, s.acts, a, s.list[0]);
  }

  lemma StepInv(s: Sys, l: Label)
    requires Inv(s)
    ensures Inv(Step(s, l))
  {
    hide Inv, StepAct, Register;
    match l
    case NewWorker(a) => if a !in s.acts { StepBegin(s, a, Worker(Null)); }
    case NewSend(a, h, m) => if a !in s.acts { StepBegin(s, a, SendGrab(h, m)); }
    case NewRetire(a, h) => if a !in s.acts { StepBegin(s, a, Retire(h, Stop)); }
    case NewService(a) => if a !in s.acts { StepRegister(s, a); }
    case SetCallback(c, cb) => if c in s.ctxs { StepCallback(s, c, cb); }
    case Go(a, choice, reply) => if a in s.acts && Touches(s, s.acts[a]) { StepActInv(s, a, choice, reply); }
  }

  // ---------------------------------------------------------------- runs

  lemma StartInv()
    ensures Inv(START)
  {
  }

  /** The invariant holds after every run. */
  lemma {:induction false} RunInv(s: Sys, run: seq<Label>)
    requires Inv(s)
    ensures Inv(Run(s, run))
    decreases |run|
  {
    hide Inv, Step;
    if run != [] {
      StepInv(s, run[0]);
      RunInv(Step(s, run[0]), run[1..]);
    }
  }

  /** In every run each queue is once in the global list, or has one owner, or is idle, empty and unflagged. */
  lemma OnePlace(run: seq<Label>, q: nat)
    requires q in Run(START, run).queues
    ensures var s := Run(START, run);
      var listed, owned := q in s.list, Owned(s.acts, q);
      && !(listed && owned)
      && (listed ==> multiset(s.list)[q] == 1)
      && (forall a, b :: a in s.acts && b in s.acts && q in Owns(s.acts[a]) && q in Owns(s.acts[b]) ==> a == b)
      && (!listed && !owned ==> s.queues[q].msgs == [] && !s.queues[q].inGlobal && !s.queues[q].release)
  {
    hide Owns, Owned;
    StartInv();
    RunInv(START, run);
    var s := Run(START, run);
    if q in s.list { OnceInList(s.list, q); }
  }

  lemma {:induction false} OnceInList(l: seq<nat>, q: nat)
    requires Distinct(l)
    ensures multiset(l)[q] == if q in l then 1 else 0
  {
    if l != [] {
      assert l == [l[0]] + l[1..];
      assert forall i, j :: 0 <= i < j < |l[1..]| ==> l[1..][i] == l[i + 1] && l[1..][j] == l[j + 1];
      OnceInList(l[1..], q);
      assert l[0] !in l[1..];
    }
  }

  /** A queue with messages is in the global list or in somebody's hands: it is never stranded. */
  lemma NeverStranded(run: seq<Label>, q: nat)
    requires q in Run(START, run).queues && Run(START, run).queues[q].msgs != []
    ensures var s := Run(START, run); q in s.list || exists a :: a in s.acts && q in Owns(s.acts[a])
  {
    StartInv();
    RunInv(START, run);
  }

  /** No two workers serve the same service at once, and nobody serves one that has not started. */
  lemma OneServer(run: seq<Label>, a: nat, b: nat)
    requires var s := Run(START, run); a in s.acts && b in s.acts && s.acts[a].Handle? && s.acts[b].Handle? && s.acts[a].q == s.acts[b].q
    ensures a == b && (var s := Run(START, run); s.acts[a].q in s.ctxs && s.ctxs[s.acts[a].q].init)
  {
    StartInv();
    RunInv(START, run);
    var s := Run(START, run);
    assert s.acts[a].q in Owns(s.acts[a]) && s.acts[b].q in Owns(s.acts[b]);
    InvSafe(s, a);
  }

  /**
   * Every message accepted is dispatched, discarded or dropped once, in the order of the pushes;
   * of a freed queue nothing is left.
   */
  lemma OnceInOrder(run: seq<Label>, q: nat)
    requires q in Run(START, run).logs
    ensures var s := Run(START, run);
      && Messages(s.logs[q].handled) <= s.logs[q].accepted
      && (q !in s.queues && !Owned(s.acts, q) ==> Messages(s.logs[q].handled) == s.logs[q].accepted)
      && (q in s.queues && q !in s.list && !Owned(s.acts, q) ==> Messages(s.logs[q].handled) == s.logs[q].accepted)
  {
    hide Owns, Owned, Counted, Started, Sound;
    StartInv();
    RunInv(START, run);
    var s := Run(START, run);
    var l := s.logs[q];
    var rest := l.busy + (if q in s.queues then s.queues[q].msgs else []);
    assert l.accepted == Messages(l.handled) + rest;
    if rest == [] { assert Messages(l.handled) + [] == Messages(l.handled); }
  }

  /** A freed queue is in nobody's hands, and no context, table entry or listed place leads to it. */
  lemma FreedIsUnreachable(run: seq<Label>, q: nat)
    requires q !in Run(START, run).queues
    ensures var s := Run(START, run);
      q !in s.list && !Owned(s.acts, q) && q !in s.ctxs && q !in s.table && forall a :: a in s.acts ==> q !in Holds(s.acts[a])
  {
    hide Flags, Started, Conserved, Sound, Distinct, Owns, Holds;
    StartInv();
    RunInv(START, run);
  }

  /** When all activities are at rest and the global list is empty, everything accepted has been handled. */
  lemma Quiescent(run: seq<Label>, q: nat)
    requires var s := Run(START, run); s.list == [] && (forall a :: a in s.acts ==> s.acts[a] == Done || s.acts[a] == Worker(Null))
    requires q in Run(START, run).logs
    ensures var s := Run(START, run); Messages(s.logs[q].handled) == s.logs[q].accepted
    ensures var s := Run(START, run); forall c :: c in s.ctxs ==> s.ctxs[c].refs == 1 && c in s.table
  {
    hide Inv, Owns, Holds, Run;
    StartInv();
    RunInv(START, run);
    var s := Run(START, run);
    OnceInOrder(run, q);
    NothingOwned(s.acts, q);
    RestingRefs(s);
  }

  lemma NothingOwned(acts: map<nat, Act>, q: nat)
    requires forall a :: a in acts ==> acts[a] == Done || acts[a] == Worker(Null)
    ensures !Owned(acts, q)
  {
  }

  lemma RestingRefs(s: Sys)
    requires Inv(s) && forall a :: a in s.acts ==> s.acts[a] == Done || s.acts[a] == Worker(Null)
    ensures forall c :: c in s.ctxs ==> s.ctxs[c].refs == 1 && c in s.table
  {
    hide Started, Sound, Exclusive, Flags, Conserved, Holders;
    forall c | c in s.ctxs ensures s.ctxs[c].refs == 1 && c in s.table {
      assert forall a :: a in s.acts ==> c !in Holds(s.acts[a]) && c !in Frees(s.acts[a]);
      NobodyHolds(s.acts, c);
    }
  }

  /**
   * The creator sets the init flag after it gave its reference back. Nothing but the table keeps
   * the context then: another thread that retires the handle in between has it freed first.
   */
  lemma InitMayBeLate()
    ensures var s := Run(START, LAUNCH + RETIRE); 0 in s.acts && s.acts[0] == SetInit(1) && 1 !in s.ctxs
  {
    hide Run;
    RunAppend(START, LAUNCH, RETIRE);
    LaunchRun();
    RetireRun();
  }

  const LAUNCH: seq<Label> := [NewService(0)] + ([Go(0, true, 9)] + ([Go(0, true, 9)] + []))

  const RETIRE: seq<Label> := [NewRetire(1, 1)] + ([Go(1, true, 9)] + ([Go(1, true, 9)] + ([Go(1, true, 9)] + [])))

  const LAUNCHED: Sys := Sys(map[1 := Queue(1, [], true, false)], [], map[1 := Ctx(1, false, false)], {1}, 2, map[0 := SetInit(1)], map[1 := Log([], [], [])])

  lemma LaunchRun()
    ensures Run(START, LAUNCH) == LAUNCHED
  {
    hide Run;
    var s1 := Step(START, NewService(0));
    var s2 := Step(s1, Go(0, true, 9));
    assert s2 == s1.(acts := map[0 := Leave(1, Launched(1))]);
    assert Step(s2, Go(0, true, 9)) == LAUNCHED;
    Unroll(START, NewService(0), [Go(0, true, 9)] + ([Go(0, true, 9)] + []));
    Unroll(s1, Go(0, true, 9), [Go(0, true, 9)] + []);
    Unroll(s2, Go(0, true, 9), []);
    RunNone(LAUNCHED);
  }

  lemma RetireRun()
    ensures var s := Run(LAUNCHED, RETIRE); 0 in s.acts && s.acts[0] == SetInit(1) && 1 !in s.ctxs
  {
    hide Run;
    var s4 := Step(LAUNCHED, NewRetire(1, 1));
    var s5 := Step(s4, Go(1, true, 9));
    assert s5 == LAUNCHED.(acts := map[0 := SetInit(1), 1 := Leave(1, Stop)], table := {});
    var s6 := Step(s5, Go(1, true, 9));
    assert s6 == s5.(acts := map[0 := SetInit(1), 1 := Mark(1, Stop)], ctxs := map[1 := Ctx(0, false, false)]);
    var s7 := Step(s6, Go(1, true, 9));
    Unroll(LAUNCHED, NewRetire(1, 1), [Go(1, true, 9)] + ([Go(1, true, 9)] + ([Go(1, true, 9)] + [])));
    Unroll(s4, Go(1, true, 9), [Go(1, true, 9)] + ([Go(1, true, 9)] + []));
    Unroll(s5, Go(1, true, 9), [Go(1, true, 9)] + []);
    Unroll(s6, Go(1, true, 9), []);
    RunNone(s7);
  }

  lemma RunNone(s: Sys)
    ensures Run(s, []) == s
  {
  }

  lemma {:induction false} RunAppend(s: Sys, r: seq<Label>, r2: seq<Label>)
    ensures Run(s, r + r2) == Run(Run(s, r), r2)
    decreases |r|
  {
    hide Step;
    if r == [] { assert r + r2 == r2; }
    else { assert (r + r2)[1..] == r[1..] + r2; RunAppend(Step(s, r[0]), r[1..], r2); }
  }

  lemma Unroll(s: Sys, l: Label, run: seq<Label>)
    ensures Run(s, [l] + run) == Run(Step(s, l), run)
  {
    assert ([l] + run)[1..] == run;
  }

  /** Somebody has a reference to the context, or is about to free it. */
  ghost predicate InHand(acts: map<nat, Act>, c: nat) { exists b :: b in acts && (c in Holds(acts[b]) || c in Frees(acts[b])) }

  /** A context is there exactly while its handle is registered or it is in somebody's hands. */
  lemma ContextLives(s: Sys, c: nat)
    requires Inv(s)
    ensures c in s.ctxs <==> c in s.table || InHand(s.acts, c)
  {
    hide Exclusive, Flags, Conserved, Started, Sound, Holds, Frees;
    if c in s.ctxs && c !in s.table {
      if s.ctxs[c].refs == 0 {
        var b :| b in s.acts && c in Frees(s.acts[b]);
      } else {
        assert Holders(s.acts, c) != {};
        var b :| b in Holders(s.acts, c);
      }
    }
  }

  /** The creator's flag is set in time exactly if the handle is still registered or somebody has the context in hand. */
  lemma InitInTime(run: seq<Label>, a: nat)
    requires var s := Run(START, run); a in s.acts && s.acts[a].SetInit?
    ensures var s := Run(START, run); s.acts[a].q in s.ctxs <==> s.acts[a].q in s.table || InHand(s.acts, s.acts[a].q)
  {
    StartInv();
    RunInv(START, run);
    hide Run, Inv;
    ContextLives(Run(START, run), Run(START, run).acts[a].q);
  }
}
