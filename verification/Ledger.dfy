// The push and pop ledger of sim/harness/probes/linux_llist_probe.cpp, kept over any run of any
// number of cross-call queues, including runs in which committed pushes get lost.
module Ledger {
  import C = CrossCall
  import CrossCallCounts

  // ---------------------------------------------------------------- the ledger

  // A committed instruction after the store-conditional of a push, with its success, or after the
  // swap of a pop, with the chain it took.
  datatype Sighting = Push(queue: nat, ok: bool) | Pop(queue: nat, node: nat)

  // A queue without an entry counts zero.
  datatype Book = Book(
    pushes: map<nat, nat>, pops: map<nat, nat>, popsNull: map<nat, nat>, live: map<nat, nat>,
    totalPush: nat, totalPop: nat)

  function Get(m: map<nat, nat>, q: nat): nat { if q in m then m[q] else 0 }

  function Bump(m: map<nat, nat>, q: nat): map<nat, nat> { m[q := Get(m, q) + 1] }

  function Record(b: Book, e: Sighting): Book {
    match e
    case Push(q, ok) =>
      if ok then b.(pushes := Bump(b.pushes, q), live := Bump(b.live, q), totalPush := b.totalPush + 1) else b
    case Pop(q, node) =>
      if node != 0 then b.(pops := Bump(b.pops, q), live := b.live[q := 0], totalPop := b.totalPop + 1)
      else b.(popsNull := Bump(b.popsNull, q))
  }

  const EMPTY := Book(map[], map[], map[], map[], 0, 0)

  class LedgerProbe {
    var pushes: map<nat, nat>
    var pops: map<nat, nat>
    var popsNull: map<nat, nat>
    var live: map<nat, nat>
    var totalPush: nat
    var totalPop: nat

    function State(): Book
      reads this
    {
      Book(pushes, pops, popsNull, live, totalPush, totalPop)
    }

    constructor ()
      ensures State() == EMPTY
    {
      pushes, pops, popsNull, live, totalPush, totalPop := map[], map[], map[], map[], 0, 0;
    }

    method Observe(e: Sighting)
      modifies this
      ensures State() == Record(old(State()), e)
    {
      match e {
        case Push(q, ok) =>
          if ok {
            pushes := pushes[q := (if q in pushes then pushes[q] else 0) + 1];
            live := live[q := (if q in live then live[q] else 0) + 1];
            totalPush := totalPush + 1;
          }
        case Pop(q, node) =>
          if node != 0 {
            pops := pops[q := (if q in pops then pops[q] else 0) + 1];
            live := live[q := 0];
            totalPop := totalPop + 1;
          } else {
            popsNull := popsNull[q := (if q in popsNull then popsNull[q] else 0) + 1];
          }
      }
    }
  }

  // ---------------------------------------------------------------- the machine it watches

  // A protocol step on one queue, or sender p's compare-and-swap on it succeeding without the list
  // head keeping the new entry.
  datatype Event = Good(queue: nat, step: C.Event) | Lost(queue: nat, p: nat)

  // `lost` counts, per queue, the entries dropped since its last pop that took a chain.
  datatype State = State(queues: seq<C.State>, lost: seq<nat>, book: Book)

  predicate Shape(s: State) { |s.queues| == |s.lost| && forall q | 0 <= q < |s.queues| :: C.Shape(s.queues[q]) }

  // The sender is at its compare-and-swap.
  predicate Swapping(c: C.State, p: nat) {
    p < |c.senders| && c.senders[p].Chained? && C.Shape(c) && C.Node(c, c.senders[p].n)
  }

  predicate Succeeds(c: C.State, p: nat) { Swapping(c, p) && c.first == c.senders[p].head }

  // The target takes a chain.
  predicate Takes(c: C.State, e: C.Event) { e.Receive? && c.target.Cleared? && c.first != 0 }

  // What the probe sees of a step.
  function See(c: C.State, q: nat, e: C.Event): seq<Sighting> {
    match e
    case Send(p) => if Swapping(c, p) then [Push(q, Succeeds(c, p))] else []
    case Receive => if c.target.Cleared? then [Pop(q, c.first)] else []
    case Reuse(_, _) => []
  }

  function Note(b: Book, seen: seq<Sighting>): Book { if seen == [] then b else Record(b, seen[0]) }

  function Step(s: State, e: Event): State
    requires Shape(s)
  {
    if e.queue >= |s.queues| then s else
    var q, c := e.queue, s.queues[e.queue];
    match e
    case Good(_, step) =>
      State(s.queues[q := C.Step(c, step)],
            if Takes(c, step) then s.lost[q := 0] else s.lost,
            Note(s.book, See(c, q, step)))
    case Lost(_, p) =>
      if !Succeeds(c, p) then s
      else State(s.queues[q := C.SetSender(c, p, C.Ringing(c.senders[p].n))], s.lost[q := s.lost[q] + 1],
          Record(s.book, Push(q, true)))
  }

  lemma StepShape(s: State, e: Event)
    requires Shape(s)
    ensures Shape(Step(s, e)) && |Step(s, e).queues| == |s.queues|
  {
    if e.queue < |s.queues| && e.Good? { C.StepShape(s.queues[e.queue], e.step); }
  }

  // Any number of queues; queue q has its own senders and descriptors.
  function Init(senders: nat, owners: seq<seq<nat>>): (s: State)
    ensures Shape(s)
  {
    State(seq(|owners|, q requires 0 <= q < |owners| => C.Init(senders, owners[q])), seq(|owners|, q => 0), EMPTY)
  }

  function Exec(s: State, es: seq<Event>): (t: State)
    requires Shape(s)
    ensures Shape(t) && |t.queues| == |s.queues|
    decreases |es|
  {
    if es == [] then s else
    StepShape(s, es[0]);
    Exec(Step(s, es[0]), es[1..])
  }

  // ---------------------------------------------------------------- what the ledger says

  ghost predicate QueueInv(s: State, q: nat)
    requires Shape(s) && q < |s.queues|
  {
    && (s.queues[q].first == 0 <==> s.queues[q].stack == [])
    && Get(s.book.live, q) == |s.queues[q].stack| + s.lost[q]
  }

  ghost predicate Inv(s: State) { Shape(s) && forall q: nat | q < |s.queues| :: QueueInv(s, q) }

  lemma BookLive(b: Book, c: C.State, q: nat, e: C.Event)
    requires C.Shape(c)
    ensures var live, after := Get(b.live, q), Get(Note(b, See(c, q, e)).live, q);
            after == if e.Send? && Succeeds(c, e.p) then live + 1 else if Takes(c, e) then 0 else live
    ensures forall m: nat | m != q :: Get(Note(b, See(c, q, e)).live, m) == Get(b.live, m)
  {
  }

  lemma StackStep(c: C.State, e: C.Event)
    requires C.Shape(c) && (c.first == 0 <==> c.stack == [])
    ensures var d := C.Step(c, e);
            && (d.first == 0 <==> d.stack == [])
            && |d.stack| == if e.Send? && Succeeds(c, e.p) then |c.stack| + 1 else if Takes(c, e) then 0 else |c.stack|
  {
  }

  lemma GoodInv(s: State, e: Event, q: nat)
    requires Inv(s) && e.Good? && q < |s.queues| && e.queue < |s.queues|
    ensures Shape(Step(s, e)) && QueueInv(Step(s, e), q)
  {
    StepShape(s, e);
    assert QueueInv(s, q) && QueueInv(s, e.queue);
    BookLive(s.book, s.queues[e.queue], e.queue, e.step);
    StackStep(s.queues[e.queue], e.step);
  }

  lemma StepInv(s: State, e: Event)
    requires Inv(s)
    ensures Inv(Step(s, e))
  {
    StepShape(s, e);
    forall q: nat | q < |s.queues| ensures QueueInv(Step(s, e), q) {
      assert QueueInv(s, q);
      if e.Good? && e.queue < |s.queues| { GoodInv(s, e, q); }
    }
  }

  lemma {:induction false} ExecInv(s: State, es: seq<Event>)
    requires Inv(s)
    ensures Inv(Exec(s, es))
    decreases |es|
  {
    if es != [] {
      StepInv(s, es[0]);
      ExecInv(Step(s, es[0]), es[1..]);
    }
  }

  lemma InitInv(senders: nat, owners: seq<seq<nat>>)
    ensures Inv(Init(senders, owners))
  {
    var s := Init(senders, owners);
    forall q: nat | q < |s.queues| ensures QueueInv(s, q) { assert s.queues[q] == C.Init(senders, owners[q]); }
  }

  // In every reachable state a queue's `live` is the length of its list plus the entries lost since
  // a pop last took a chain from it: so it is the length exactly when none was, and an empty queue
  // with a positive `live` betrays a loss.
  lemma LiveIs(senders: nat, owners: seq<seq<nat>>, es: seq<Event>, q: nat)
    requires q < |owners|
    ensures var s := Exec(Init(senders, owners), es);
            && (Get(s.book.live, q) == |s.queues[q].stack| <==> s.lost[q] == 0)
            && (s.queues[q].first == 0 ==> (Get(s.book.live, q) > 0 <==> s.lost[q] > 0))
  {
    InitInv(senders, owners);
    ExecInv(Init(senders, owners), es);
    assert QueueInv(Exec(Init(senders, owners), es), q);
  }

  // ---------------------------------------------------------------- the other counters

  // A compare-and-swap that succeeds, whether the list keeps the entry or not; a swap that takes a
  // chain; one that finds the list empty.
  datatype Kind = Pushed | TookChain | TookNothing

  predicate Happens(s: State, e: Event, kind: Kind) {
    e.queue < |s.queues| &&
    var c := s.queues[e.queue];
    match kind
    case Pushed => if e.Lost? then Succeeds(c, e.p) else e.step.Send? && Succeeds(c, e.step.p)
    case TookChain => e.Good? && e.step == C.Receive && c.target.Cleared? && c.first != 0
    case TookNothing => e.Good? && e.step == C.Receive && c.target.Cleared? && c.first == 0
  }

  // How often it happens over a run: on queue q, and at all.
  function Times(s: State, es: seq<Event>, kind: Kind, q: nat): nat
    requires Shape(s)
    decreases |es|
  {
    if es == [] then 0 else
    StepShape(s, es[0]);
    (if Happens(s, es[0], kind) && es[0].queue == q then 1 else 0) + Times(Step(s, es[0]), es[1..], kind, q)
  }

  function TimesAtAll(s: State, es: seq<Event>, kind: Kind): nat
    requires Shape(s)
    decreases |es|
  {
    if es == [] then 0 else
    StepShape(s, es[0]);
    (if Happens(s, es[0], kind) then 1 else 0) + TimesAtAll(Step(s, es[0]), es[1..], kind)
  }

  // What one step notes about queue q itself, and about any other queue.
  lemma NoteTimes(b: Book, c: C.State, q: nat, e: C.Event)
    ensures var after := Note(b, See(c, q, e));
            && Get(after.pushes, q) == Get(b.pushes, q) + (if e.Send? && Succeeds(c, e.p) then 1 else 0)
            && Get(after.pops, q) == Get(b.pops, q) + (if Takes(c, e) then 1 else 0)
            && Get(after.popsNull, q)
               == Get(b.popsNull, q) + (if e.Receive? && c.target.Cleared? && c.first == 0 then 1 else 0)
  {
  }

  lemma NoteOther(b: Book, c: C.State, q: nat, e: C.Event, m: nat)
    requires m != q
    ensures var after := Note(b, See(c, q, e));
            && Get(after.pushes, m) == Get(b.pushes, m) && Get(after.pops, m) == Get(b.pops, m)
            && Get(after.popsNull, m) == Get(b.popsNull, m)
  {
  }

  lemma StepTimes(s: State, e: Event, q: nat)
    requires Shape(s)
    ensures var b, after, own := s.book, Step(s, e).book, e.queue == q;
            && Get(after.pushes, q) == Get(b.pushes, q) + (if Happens(s, e, Pushed) && own then 1 else 0)
            && Get(after.pops, q) == Get(b.pops, q) + (if Happens(s, e, TookChain) && own then 1 else 0)
            && Get(after.popsNull, q) == Get(b.popsNull, q) + (if Happens(s, e, TookNothing) && own then 1 else 0)
  {
    if e.queue < |s.queues| && e.Good? {
      if e.queue == q { NoteTimes(s.book, s.queues[q], q, e.step); }
      else { NoteOther(s.book, s.queues[e.queue], e.queue, e.step, q); }
    }
  }

  lemma NoteTotals(b: Book, c: C.State, q: nat, e: C.Event)
    ensures var after := Note(b, See(c, q, e));
            && after.totalPush == b.totalPush + (if e.Send? && Succeeds(c, e.p) then 1 else 0)
            && after.totalPop == b.totalPop + (if Takes(c, e) then 1 else 0)
  {
  }

  lemma StepTotals(s: State, e: Event)
    requires Shape(s)
    ensures var b, after := s.book, Step(s, e).book;
            && after.totalPush == b.totalPush + (if Happens(s, e, Pushed) then 1 else 0)
            && after.totalPop == b.totalPop + (if Happens(s, e, TookChain) then 1 else 0)
  {
    if e.queue < |s.queues| && e.Good? { NoteTotals(s.book, s.queues[e.queue], e.queue, e.step); }
  }

  lemma {:induction false} ExecTimes(s: State, es: seq<Event>, q: nat)
    requires Shape(s)
    ensures var b, after := s.book, Exec(s, es).book;
            && Get(after.pushes, q) == Get(b.pushes, q) + Times(s, es, Pushed, q)
            && Get(after.pops, q) == Get(b.pops, q) + Times(s, es, TookChain, q)
            && Get(after.popsNull, q) == Get(b.popsNull, q) + Times(s, es, TookNothing, q)
            && after.totalPush == b.totalPush + TimesAtAll(s, es, Pushed)
            && after.totalPop == b.totalPop + TimesAtAll(s, es, TookChain)
    decreases |es|
  {
    if es != [] {
      StepShape(s, es[0]);
      StepTimes(s, es[0], q);
      StepTotals(s, es[0]);
      ExecTimes(Step(s, es[0]), es[1..], q);
    }
  }

  // Over every run, losses included, the ledger's counters are what happened: successful pushes, swaps
  // that took a chain and swaps that found nothing, queue by queue and in all.
  lemma BookIsHistory(senders: nat, owners: seq<seq<nat>>, es: seq<Event>, q: nat)
    ensures var s, start := Exec(Init(senders, owners), es), Init(senders, owners);
            && Get(s.book.pushes, q) == Times(start, es, Pushed, q)
            && Get(s.book.pops, q) == Times(start, es, TookChain, q)
            && Get(s.book.popsNull, q) == Times(start, es, TookNothing, q)
            && s.book.totalPush == TimesAtAll(start, es, Pushed)
            && s.book.totalPop == TimesAtAll(start, es, TookChain)
  {
    ExecTimes(Init(senders, owners), es, q);
  }

  // ---------------------------------------------------------------- without losses

  predicate Lossless(es: seq<Event>) { forall e | e in es :: e.Good? }

  // One queue, seen alone.
  function Only(es: seq<Event>, q: nat): seq<C.Event> {
    if es == [] then [] else (if es[0].Good? && es[0].queue == q then [es[0].step] else []) + Only(es[1..], q)
  }

  // The queues do not disturb each other: each runs through its own events.
  lemma {:induction false} Independent(s: State, es: seq<Event>, q: nat)
    requires Shape(s) && Lossless(es) && q < |s.queues|
    ensures Exec(s, es).queues[q] == C.Exec(s.queues[q], Only(es, q))
    decreases |es|
  {
    if es != [] {
      assert es[0] in es && forall e | e in es[1..] :: e in es;
      StepShape(s, es[0]);
      Independent(Step(s, es[0]), es[1..], q);
      var rest := Only(es[1..], q);
      if es[0].queue == q {
        assert Only(es, q) == [es[0].step] + rest && Only(es, q)[1..] == rest;
        assert Step(s, es[0]).queues[q] == C.Step(s.queues[q], es[0].step);
      } else {
        assert Only(es, q) == [] + rest == rest;
        assert Step(s, es[0]).queues[q] == s.queues[q];
      }
    }
  }

  // Pushes are what the handler has released, what it still holds, and what is queued.
  ghost predicate CountInv(s: State, q: nat)
    requires Shape(s) && q < |s.queues|
  {
    var c := s.queues[q];
    && C.Inv(c)
    && Get(s.book.pushes, q) == Everything(c)
    && s.lost[q] == 0
  }

  function Everything(c: C.State): nat { C.Total(c.releases) + |c.held| + |c.stack| }

  // A step moves descriptors from the list to the handler to the released ones; only a push adds one.
  lemma SendCount(c: C.State, p: nat)
    requires C.Shape(c)
    ensures Everything(C.Step(c, C.Send(p))) == Everything(c) + if Succeeds(c, p) then 1 else 0
  {
  }

  lemma ReceiveCount(c: C.State)
    requires C.Shape(c) && C.TargetInv(c)
    ensures Everything(C.Step(c, C.Receive)) == Everything(c)
  {
    if c.target.Releasing? { C.TotalIncrement(c.releases, c.target.n); }
  }

  lemma StepCount(s: State, e: Event, q: nat)
    requires Shape(s) && e.Good? && q < |s.queues| && CountInv(s, q)
    ensures Shape(Step(s, e)) && CountInv(Step(s, e), q)
  {
    StepShape(s, e);
    if e.queue == q {
      var c := s.queues[q];
      C.StepInv(c, e.step);
      NoteTimes(s.book, c, q, e.step);
      match e.step {
        case Send(p) => SendCount(c, p);
        case Receive => ReceiveCount(c);
        case Reuse(_, _) => assert Everything(C.Step(c, e.step)) == Everything(c);
      }
    } else if e.queue < |s.queues| {
      NoteOther(s.book, s.queues[e.queue], e.queue, e.step, q);
    }
  }

  lemma {:induction false} ExecCount(s: State, es: seq<Event>, q: nat)
    requires Shape(s) && Lossless(es) && q < |s.queues| && CountInv(s, q)
    ensures CountInv(Exec(s, es), q)
    decreases |es|
  {
    if es != [] {
      assert es[0] in es && forall e | e in es[1..] :: e in es;
      StepShape(s, es[0]);
      StepCount(s, es[0], q);
      ExecCount(Step(s, es[0]), es[1..], q);
    }
  }

  // Conservation: over every lossless run, on every queue, what was pushed has been released, is
  // held by the handler, or is live, and live means queued.
  lemma Conservation(senders: nat, owners: seq<seq<nat>>, es: seq<Event>, q: nat)
    requires Lossless(es) && q < |owners|
    ensures var s := Exec(Init(senders, owners), es); var c := s.queues[q];
            && c == C.Exec(C.Init(senders, owners[q]), Only(es, q))
            && Get(s.book.pushes, q) == C.Total(c.releases) + |c.held| + Get(s.book.live, q)
            && C.IsChain(c.next, c.first, c.stack) && Get(s.book.live, q) == |c.stack|
  {
    var s := Init(senders, owners);
    C.InitInv(senders, owners[q]);
    CrossCallCounts.TotalZero(|owners[q]|);
    assert s.queues[q] == C.Init(senders, owners[q]);
    assert CountInv(s, q);
    ExecCount(s, es, q);
    Independent(s, es, q);
    LiveIs(senders, owners, es, q);
  }
}
