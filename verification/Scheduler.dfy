/**
 * The scheduler (skynet-src/skynet_server.c over skynet-src/skynet_mq.c) as interleaved atomic
 * steps of any number of workers, senders, creators and retirers. A step is one critical section
 * or one atomic operation. A context and its queue are named by their handle, as no handle is
 * given out twice.
 */
module Scheduler {
  import opened MessageQueue

  datatype Ctx = Ctx(refs: int, cb: bool, init: bool)

  datatype Fate = Dispatched | Discarded | Dropped

  /** History of a queue: what was pushed, what was taken out and not yet handled, what became of the rest. */
  datatype Log = Log(accepted: seq<Msg>, busy: seq<Msg>, handled: seq<(Msg, Fate)>)

  datatype Maybe = Null | Some(q: nat)

  /** What an activity goes on with after giving up a reference or a queue. */
  datatype After =
    | Stop
    | PopNext              // return skynet_globalmq_pop()
    | Keep(q: nat)         // return q
    | Launched(q: nat)     // the service's init function succeeded
    | Quit(q: nat)         // it failed: retire the handle
    | FreeNew(q: nat)      // and release the queue

  datatype Act =
    | Worker(mine: Maybe)                          // between two calls of skynet_context_message_dispatch
    | Lookup(q: nat)                               // skynet_handle_grab
    | Pop(q: nat, i: nat, n: nat)                  // skynet_mq_pop, in the loop
    | Measure(q: nat, m: Msg)                      // skynet_mq_length, after the first message
    | Handle(q: nat, m: Msg, i: nat, n: nat)       // dispatch or discard the message
    | More(q: nat)                                 // skynet_globalmq_pop, after the loop
    | PutBack(q: nat, nq: nat)                     // skynet_globalmq_push of the old queue
    | Leave(c: nat, k: After)                   // skynet_context_release
    | Mark(c: nat, k: After)                    // delete_context: skynet_mq_mark_release and free
    | MqRelease(q: nat, k: After)               // skynet_mq_release
    | Drop(q: nat, k: After)                    // the loop of _drop_queue
    | SendGrab(h: nat, m: Msg)                     // skynet_context_push: grab
    | SendPush(c: nat, m: Msg)                     // skynet_mq_push
    | Init(q: nat)                                 // a new service's init function runs
    | SetInit(q: nat)                              // ctx->init = true
    | Push(q: nat)                                 // the creator's skynet_globalmq_push
    | Retire(h: nat, k: After)                  // skynet_handle_retire
    | Done

  datatype Sys = Sys(queues: map<nat, Queue>, list: seq<nat>, ctxs: map<nat, Ctx>, table: set<nat>,
                     next: nat, acts: map<nat, Act>, logs: map<nat, Log>)

  const START := Sys(map[], [], map[], {}, 1, map[], map[])

  /** The next thing that happens: a new activity `a`, or a step of one. */
  datatype Label =
    | NewWorker(a: nat)
    | NewSend(a: nat, h: nat, m: Msg)
    | NewRetire(a: nat, h: nat)
    | NewService(a: nat)
    | SetCallback(c: nat, cb: bool)
    | Go(a: nat, choice: bool, reply: nat)  // choice: init's outcome, or weight >= 0; reply: names the activity that sends an error reply

  // ---------------------------------------------------------------- steps

  function Resume(k: After, alive: bool): Act {
    match k
    case Stop => Done
    case PopNext => Worker(Null)
    case Keep(q) => Worker(Some(q))
    case Launched(q) => if alive then SetInit(q) else Push(q)
    case Quit(q) => Retire(q, FreeNew(q))
    case FreeNew(q) => MqRelease(q, Stop)
  }

  function Put(s: Sys, a: nat, act: Act): Sys { s.(acts := s.acts[a := act]) }

  /** skynet_handle_grab by activity `a`. */
  function Grab(s: Sys, a: nat, h: nat, found: Act, missing: Act): Sys {
    if h in s.table && h in s.ctxs then
      Put(s.(ctxs := s.ctxs[h := s.ctxs[h].(refs := s.ctxs[h].refs + 1)]), a, found)
    else Put(s, a, missing)
  }

  /** What an activity touches in its next step is there. SetInit is left aside: it alone may come too late. */
  predicate Touches(s: Sys, act: Act) {
    match act
    case Pop(q, _, _) => q in s.queues && q in s.logs && q in s.ctxs
    case Measure(q, _) => q in s.queues && q in s.ctxs
    case Handle(q, _, _, _) => q in s.ctxs && q in s.logs && q in s.queues
    case Leave(c, _) => c in s.ctxs
    case Mark(c, _) => c in s.ctxs && c in s.queues
    case MqRelease(q, _) => q in s.queues
    case Drop(q, _) => q in s.queues && q in s.logs
    case SendPush(c, _) => c in s.queues && c in s.ctxs && c in s.logs
    case Init(q) => q in s.ctxs && q in s.queues
    case PutBack(q, _) => q in s.queues
    case Push(q) => q in s.queues
    case _ => true
  }

  /** The assertions of the source. */
  predicate Asserts(s: Sys, act: Act) {
    match act
    case Handle(q, _, _, _) => q in s.ctxs && s.ctxs[q].init
    case PutBack(q, _) => q !in s.list
    case Push(q) => q !in s.list
    case MqRelease(q, _) => q !in s.list
    case SendPush(c, _) => c in s.queues && (!s.queues[c].inGlobal ==> c !in s.list)
    case Mark(c, _) => c in s.queues && !s.queues[c].release && (!s.queues[c].inGlobal ==> c !in s.list)
    case Drop(q, _) => q !in s.list
    case _ => true
  }

  function StepAct(s: Sys, a: nat, choice: bool, reply: nat): Sys
    requires a in s.acts && Touches(s, s.acts[a])
  {
    match s.acts[a]
    case Worker(Null) => if s.list == [] then s else Put(s.(list := s.list[1..]), a, Worker(Some(s.list[0])))
    case Worker(Some(q)) => Put(s, a, Lookup(q))
    case Lookup(q) => Grab(s, a, q, Pop(q, 0, 1), MqRelease(q, PopNext))
    case Pop(q, i, n) =>
      var s1 := s.(queues := s.queues[q := Popped(s.queues[q])]);
      if s.queues[q].msgs == [] then Put(s1, a, Leave(q, PopNext))
      else
        var m := s.queues[q].msgs[0];
        Put(s1.(logs := s.logs[q := s.logs[q].(busy := [m])]), a, if i == 0 then Measure(q, m) else Handle(q, m, i, n))
    case Measure(q, m) => Put(s, a, Handle(q, m, 0, if choice then |s.queues[q].msgs| else 1))
    case Handle(q, m, i, n) =>
      var fate := if s.ctxs[q].cb then Dispatched else Discarded;
      Put(s.(logs := s.logs[q := s.logs[q].(busy := [], handled := s.logs[q].handled + [(m, fate)])]), a,
          if i + 1 < n then Pop(q, i + 1, n) else More(q))
    case More(q) =>
      if s.list == [] then Put(s, a, Leave(q, Keep(q)))
      else Put(s.(list := s.list[1..]), a, PutBack(q, s.list[0]))
    case PutBack(q, nq) => Put(s.(list := s.list + [q]), a, Leave(q, Keep(nq)))
    case Leave(c, k) =>
      var x := s.ctxs[c];
      Put(s.(ctxs := s.ctxs[c := x.(refs := x.refs - 1)]), a, if x.refs == 1 then Mark(c, k) else Resume(k, true))
    case Mark(c, k) =>
      Put(s.(queues := s.queues[c := s.queues[c].(release := true)],
             list := if s.queues[c].inGlobal then s.list else s.list + [c],
             ctxs := s.ctxs - {c}), a, Resume(k, false))
    case MqRelease(q, k) =>
      if s.queues[q].release then Put(s, a, Drop(q, k))
      else Put(s.(list := s.list + [q]), a, Resume(k, true))
    case Drop(q, k) =>
      if s.queues[q].msgs == [] then Put(s.(queues := s.queues - {q}), a, Resume(k, true))
      else if reply in s.acts then s
      else
        var m := s.queues[q].msgs[0];
        Put(s.(queues := s.queues[q := Popped(s.queues[q])],
               logs := s.logs[q := s.logs[q].(handled := s.logs[q].handled + [(m, Dropped)])]),
            reply, SendGrab(m.source, Msg(q, 0)))
    case SendGrab(h, m) => Grab(s, a, h, SendPush(h, m), Done)
    case SendPush(c, m) =>
      Put(s.(queues := s.queues[c := Pushed(s.queues[c], m)],
             list := if s.queues[c].inGlobal then s.list else s.list + [c],
             logs := s.logs[c := s.logs[c].(accepted := s.logs[c].accepted + [m])]), a, Leave(c, Stop))
    case Init(q) => Put(s, a, Leave(q, if choice then Launched(q) else Quit(q)))
    case SetInit(q) =>
      // the creator holds no reference any more: the context may be gone
      Put(if q in s.ctxs then s.(ctxs := s.ctxs[q := s.ctxs[q].(init := true)]) else s, a, Push(q))
    case Push(q) => Put(s.(list := s.list + [q]), a, Done)
    case Retire(h, k) =>
      if h in s.table then Put(s.(table := s.table - {h}), a, Leave(h, k))
      else Put(s, a, Resume(k, true))
    case Done => s
  }

  /** skynet_context_new up to the call of the init function. */
  function Register(s: Sys, a: nat): Sys {
    var h := s.next;
    Put(s.(queues := s.queues[h := Queue(h, [], true, false)], ctxs := s.ctxs[h := Ctx(2, false, false)],
           table := s.table + {h}, next := h + 1, logs := s.logs[h := Log([], [], [])]), a, Init(h))
  }

  /** A label that is not enabled changes nothing. */
  function Step(s: Sys, l: Label): Sys {
    match l
    case NewWorker(a) => if a in s.acts then s else Put(s, a, Worker(Null))
    case NewSend(a, h, m) => if a in s.acts then s else Put(s, a, SendGrab(h, m))
    case NewRetire(a, h) => if a in s.acts then s else Put(s, a, Retire(h, Stop))
    case NewService(a) => if a in s.acts then s else Register(s, a)
    case SetCallback(c, cb) => if c in s.ctxs then s.(ctxs := s.ctxs[c := s.ctxs[c].(cb := cb)]) else s
    case Go(a, choice, reply) => if a in s.acts && Touches(s, s.acts[a]) then StepAct(s, a, choice, reply) else s
  }

  function Run(s: Sys, run: seq<Label>): Sys
    decreases |run|
  {
    if run == [] then s else Run(Step(s, run[0]), run[1..])
  }

  // ---------------------------------------------------------------- the invariant

  function OwnsAfter(k: After): set<nat> {
    match k
    case Stop => {}
    case PopNext => {}
    case Keep(q) => {q}
    case Launched(q) => {q}
    case Quit(q) => {q}
    case FreeNew(q) => {q}
  }

  /** The queues that an activity alone may touch: popped from the global list, or new. */
  function Owns(act: Act): set<nat> {
    match act
    case Worker(Null) => {}
    case Worker(Some(q)) => {q}
    case Lookup(q) => {q}
    case Pop(q, _, _) => {q}
    case Measure(q, _) => {q}
    case Handle(q, _, _, _) => {q}
    case More(q) => {q}
    case PutBack(q, nq) => {q, nq}
    case Leave(_, k) => OwnsAfter(k)
    case Mark(_, k) => OwnsAfter(k)
    case MqRelease(q, k) => {q} + OwnsAfter(k)
    case Drop(q, k) => {q} + OwnsAfter(k)
    case Init(q) => {q}
    case SetInit(q) => {q}
    case Push(q) => {q}
    case Retire(_, k) => OwnsAfter(k)
    case _ => {}
  }

  /** The context an activity holds a reference to. */
  function Holds(act: Act): set<nat> {
    match act
    case Pop(q, _, _) => {q}
    case Measure(q, _) => {q}
    case Handle(q, _, _, _) => {q}
    case More(q) => {q}
    case PutBack(q, _) => {q}
    case Leave(c, _) => {c}
    case SendPush(c, _) => {c}
    case Init(q) => {q}
    case _ => {}
  }

  /** The context an activity is about to free. */
  function Frees(act: Act): set<nat> { if act.Mark? then {act.c} else {} }

  /** The new service an activity has not yet handed over. */
  function Creates(act: Act): set<nat> {
    match act
    case Leave(_, k) => CreatesAfter(k)
    case Mark(_, k) => CreatesAfter(k)
    case Retire(_, k) => CreatesAfter(k)
    case Init(q) => {q}
    case SetInit(q) => {q}
    case _ => {}
  }

  function CreatesAfter(k: After): set<nat> {
    match k case Launched(q) => {q} case Quit(q) => {q} case FreeNew(q) => {q} case _ => {}
  }

  /** The message an activity has taken out of queue `q`. */
  function Taken(act: Act): seq<Msg> {
    match act case Measure(_, m) => [m] case Handle(_, m, _, _) => [m] case _ => []
  }

  ghost predicate Owned(acts: map<nat, Act>, q: nat) { exists a :: a in acts && q in Owns(acts[a]) }

  ghost predicate Distinct(l: seq<nat>) { forall i, j :: 0 <= i < j < |l| ==> l[i] != l[j] }

  /** No queue has two owners, or an owner and a place in the global list. */
  ghost predicate Exclusive(queues: map<nat, Queue>, list: seq<nat>, acts: map<nat, Act>) {
    && Distinct(list)
    && (forall q :: q in list ==> q in queues && !Owned(acts, q))
    && (forall a, q :: a in acts && q in Owns(acts[a]) ==> q in queues)
    && (forall a, b, q :: a in acts && b in acts && q in Owns(acts[a]) && q in Owns(acts[b]) ==> a == b)
  }

  /** A queue neither listed nor owned is empty, unflagged and not released; the flag tells which. */
  ghost predicate Flags(queues: map<nat, Queue>, list: seq<nat>, acts: map<nat, Act>) {
    forall q :: q in queues ==>
      if q in list || Owned(acts, q) then queues[q].inGlobal || queues[q].release
      else queues[q].msgs == [] && !queues[q].inGlobal && !queues[q].release
  }

  function Holders(acts: map<nat, Act>, c: nat): set<nat> { set a | a in acts && c in Holds(acts[a]) }

  /** The count of references is exact; a context without references is about to be freed, by one activity. */
  ghost predicate Counted(ctxs: map<nat, Ctx>, table: set<nat>, acts: map<nat, Act>) {
    && (forall c :: c in ctxs ==> ctxs[c].refs == |Holders(acts, c)| + (if c in table then 1 else 0))
    && (forall a, c :: a in acts && c in Holds(acts[a]) ==> c in ctxs)
    && (forall a, c :: a in acts && c in Frees(acts[a]) ==> c in ctxs && ctxs[c].refs == 0)
    && (forall a, b, c :: a in acts && b in acts && c in Frees(acts[a]) && c in Frees(acts[b]) ==> a == b)
    && (forall c :: c in ctxs && ctxs[c].refs == 0 ==> exists a :: a in acts && c in Frees(acts[a]))
  }

  /** Contexts and their queues: a queue is released when its context is freed. */
  ghost predicate Paired(queues: map<nat, Queue>, ctxs: map<nat, Ctx>, table: set<nat>, next: nat) {
    && (forall c :: c in ctxs <==> c in queues && !queues[c].release)
    && (forall q :: q in queues ==> q < next)
    && (forall h :: h in table ==> h in ctxs)
  }

  /** What each activity relies on. */
  ghost predicate Sound(queues: map<nat, Queue>, ctxs: map<nat, Ctx>, table: set<nat>, act: Act) {
    match act
    case Worker(_) => true
    case Pop(q, i, n) => i < n && q in ctxs && ctxs[q].init
    case Measure(q, _) => q in ctxs && ctxs[q].init
    case Handle(q, _, _, _) => q in ctxs && ctxs[q].init
    case More(q) => q in ctxs && ctxs[q].init
    case PutBack(q, nq) => q != nq
    case Leave(c, k) => SoundAfter(c, table, k)
    case Mark(c, k) => SoundAfter(c, table, k)
    case MqRelease(q, k) => q !in table && (k.PopNext? || k.Stop?)
    case Drop(q, k) => q in queues && queues[q].release && (k.PopNext? || k.Stop?)
    case Retire(h, k) => k.Stop? || (k.FreeNew? && k.q == h)
    case _ => true
  }

  ghost predicate SoundAfter(c: nat, table: set<nat>, k: After) {
    match k
    case Launched(q) => q == c
    case Quit(q) => q == c
    case FreeNew(q) => q == c && q !in table
    case _ => true
  }

  /** A context whose init function has not succeeded is still its creator's, or out of the table. */
  ghost predicate Started(ctxs: map<nat, Ctx>, table: set<nat>, acts: map<nat, Act>) {
    forall c :: c in ctxs && c in table && !ctxs[c].init ==> exists a :: a in acts && c in Creates(acts[a])
  }

  function Messages(l: seq<(Msg, Fate)>): seq<Msg> { seq(|l|, i requires 0 <= i < |l| => l[i].0) }

  /** Everything accepted is handled, being handled, or waiting, in this order. */
  ghost predicate Conserved(queues: map<nat, Queue>, acts: map<nat, Act>, logs: map<nat, Log>, next: nat) {
    && (forall q :: q in queues ==> q in logs)
    && (forall q :: q in logs ==> q < next && logs[q].accepted == Messages(logs[q].handled) + logs[q].busy + (if q in queues then queues[q].msgs else []))
    && (forall a, q :: a in acts && q in Owns(acts[a]) && q in logs ==> logs[q].busy == Taken(acts[a]))
    && (forall q :: q in logs && !Owned(acts, q) ==> logs[q].busy == [])
  }

  ghost predicate Inv(s: Sys) {
    && Exclusive(s.queues, s.list, s.acts)
    && Flags(s.queues, s.list, s.acts)
    && Counted(s.ctxs, s.table, s.acts)
    && Paired(s.queues, s.ctxs, s.table, s.next)
    && (forall a :: a in s.acts ==> Sound(s.queues, s.ctxs, s.table, s.acts[a]))
    && Started(s.ctxs, s.table, s.acts)
    && Conserved(s.queues, s.acts, s.logs, s.next)
  }
}
