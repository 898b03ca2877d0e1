// The cross-call protocol of workloads/benchmarks/mt-crosscall/mt-crosscall.c around one
// target hart: any number of senders, each with any number of call descriptors of its own,
// push onto the target's list and ring its msip; the target drains the list in its
// software-interrupt handler.  One step is one load, one store or one atomic; memory is
// sequentially consistent and msip is a level that raises a trap whenever the target is
// outside the handler.
module CrossCall {

  // A descriptor is a positive number, 0 the null pointer.  A sender that may reuse
  // descriptor n has seen its flag clear (`Free`), has set it (`Locked`), has loaded the list
  // head (`Loaded`), has stored that head into the descriptor (`Chained`; the compare-and-swap
  // is next), or has published it and rings next (`Ringing`).
  datatype Sender =
    | Idle
    | Free(n: nat)
    | Locked(n: nat)
    | Loaded(n: nat, head: nat)
    | Chained(n: nat, head: nat)
    | Ringing(n: nat)

  // The target outside the handler, and inside it: before the msip clear, before the amoswap,
  // at the loop test with `n`, before the flag clear, before the `served` increment.
  datatype Target =
    | Running
    | Entered
    | Cleared
    | Walking(n: nat)
    | Releasing(n: nat, link: nat)
    | Counting(link: nat)

  // `stack`, `held`, `pushes` and `releases` are history that no step reads: the published
  // descriptors newest first, those the handler has taken and not yet released, and how often
  // each descriptor was published and released.
  datatype State = State(
    first: nat, next: seq<nat>, flag: seq<bool>, owner: seq<nat>,
    senders: seq<Sender>, target: Target, msip: bool, served: nat,
    stack: seq<nat>, held: seq<nat>, pushes: seq<nat>, releases: seq<nat>)

  // `Reuse(p, n)`: sender p reads the flag of its descriptor n.  `Send(p)`: sender p's next
  // access.  `Receive`: the target's next one.
  datatype Event = Reuse(p: nat, n: nat) | Send(p: nat) | Receive

  function Init(senders: nat, owner: seq<nat>): State {
    State(0, seq(|owner|, _ => 0), seq(|owner|, _ => false), owner,
          seq(senders, _ => Idle), Running, false, 0,
          [], [], seq(|owner|, _ => 0), seq(|owner|, _ => 0))
  }

  predicate Shape(s: State) {
    |s.next| == |s.flag| == |s.owner| == |s.pushes| == |s.releases|
  }

  predicate Node(s: State, n: nat) { 0 < n < |s.next| }

  function SetSender(s: State, p: nat, x: Sender): State
    requires p < |s.senders|
  {
    s.(senders := s.senders[p := x])
  }

  function SendStep(s: State, p: nat): State
    requires Shape(s)
  {
    if p >= |s.senders| then s else
    match s.senders[p]
    case Idle => s
    case Free(n) => if !Node(s, n) then s else SetSender(s, p, Locked(n)).(flag := s.flag[n := true])
    case Locked(n) => SetSender(s, p, Loaded(n, s.first))
    case Loaded(n, head) => if !Node(s, n) then s else SetSender(s, p, Chained(n, head)).(next := s.next[n := head])
    case Chained(n, head) =>
      if !Node(s, n) then s
      else if s.first == head then
        SetSender(s, p, Ringing(n)).(first := n, stack := [n] + s.stack, pushes := s.pushes[n := s.pushes[n] + 1])
      else SetSender(s, p, Locked(n))
    case Ringing(n) => SetSender(s, p, Idle).(msip := true)
  }

  function ReceiveStep(s: State): State
    requires Shape(s)
  {
    match s.target
    case Running => if s.msip then s.(target := Entered) else s
    case Entered => s.(target := Cleared, msip := false)
    case Cleared => s.(target := Walking(s.first), first := 0, held := s.stack, stack := [])
    case Walking(n) => if !Node(s, n) then s.(target := Running) else s.(target := Releasing(n, s.next[n]))
    case Releasing(n, link) =>
      if !Node(s, n) || s.held == [] then s
      else s.(target := Counting(link), flag := s.flag[n := false],
              held := s.held[1..], releases := s.releases[n := s.releases[n] + 1])
    case Counting(link) => s.(target := Walking(link), served := s.served + 1)
  }

  function Step(s: State, e: Event): State
    requires Shape(s)
  {
    match e
    case Reuse(p, n) =>
      if p < |s.senders| && s.senders[p].Idle? && Node(s, n) && s.owner[n] == p && !s.flag[n]
      then SetSender(s, p, Free(n)) else s
    case Send(p) => SendStep(s, p)
    case Receive => ReceiveStep(s)
  }

  lemma StepShape(s: State, e: Event)
    requires Shape(s)
    ensures Shape(Step(s, e)) && |Step(s, e).senders| == |s.senders| && |Step(s, e).next| == |s.next|
    ensures Step(s, e).owner == s.owner
  {
  }

  function Exec(s: State, es: seq<Event>): State
    requires Shape(s)
    decreases |es|
  {
    if es == [] then s else
    StepShape(s, es[0]);
    Exec(Step(s, es[0]), es[1..])
  }

  // ---------------------------------------------------------------- the invariant

  // Following `next` from `head` visits exactly `nodes`, in that order, and ends at null.
  ghost predicate IsChain(next: seq<nat>, head: nat, nodes: seq<nat>)
    decreases |nodes|
  {
    if nodes == [] then head == 0
    else head == nodes[0] && 0 < head < |next| && IsChain(next, next[head], nodes[1..])
  }

  predicate Preparing(x: Sender, n: nat) {
    (x.Locked? || x.Loaded? || x.Chained?) && x.n == n
  }

  // The owner is between its lock and its compare-and-swap on n.
  predicate InPreparation(s: State, n: nat)
    requires Shape(s) && Node(s, n)
  {
    s.owner[n] < |s.senders| && Preparing(s.senders[s.owner[n]], n)
  }

  function Copies(s: State, n: nat): nat { multiset(s.stack)[n] + multiset(s.held)[n] }

  ghost predicate SenderInv(s: State, p: nat, x: Sender)
    requires Shape(s)
  {
    && (!x.Idle? ==> Node(s, x.n) && s.owner[x.n] == p)
    && (x.Free? ==> !s.flag[x.n])
    && (x.Chained? ==> s.next[x.n] == x.head)
  }

  ghost predicate TargetInv(s: State)
    requires Shape(s)
  {
    match s.target
    case Walking(n) => IsChain(s.next, n, s.held)
    case Releasing(n, link) => IsChain(s.next, n, s.held) && s.held != [] && s.next[n] == link
    case Counting(link) => IsChain(s.next, link, s.held)
    case _ => s.held == []
  }

  ghost predicate NodeInv(s: State, n: nat)
    requires Shape(s) && Node(s, n)
  {
    && (InPreparation(s, n) ==> s.flag[n])
    && Copies(s, n) == (if s.flag[n] && !InPreparation(s, n) then 1 else 0)
    && s.pushes[n] == s.releases[n] + Copies(s, n)
  }

  // A published descriptor is always on its way to be drained.
  ghost predicate WakeupPending(s: State) {
    s.msip || s.target.Entered? || s.target.Cleared? || exists p | 0 <= p < |s.senders| :: s.senders[p].Ringing?
  }

  ghost predicate Inv(s: State) {
    && Shape(s)
    && IsChain(s.next, s.first, s.stack)
    && TargetInv(s)
    && (forall p | 0 <= p < |s.senders| :: SenderInv(s, p, s.senders[p]))
    && (forall n: nat | Node(s, n) :: NodeInv(s, n))
    && (s.stack != [] ==> WakeupPending(s))
  }

  // ---------------------------------------------------------------- chains

  lemma {:induction false} ChainFrame(next: seq<nat>, head: nat, nodes: seq<nat>, n: nat, v: nat)
    requires IsChain(next, head, nodes) && n < |next| && n !in nodes
    ensures IsChain(next[n := v], head, nodes)
    decreases |nodes|
  {
    if nodes != [] {
      ChainFrame(next, next[head], nodes[1..], n, v);
    }
  }

  lemma {:induction false} ChainNodes(next: seq<nat>, head: nat, nodes: seq<nat>)
    requires IsChain(next, head, nodes)
    ensures forall n | n in nodes :: 0 < n < |next|
    ensures nodes == [] <==> head == 0
    decreases |nodes|
  {
    if nodes != [] {
      assert nodes == [nodes[0]] + nodes[1..];
      ChainNodes(next, next[head], nodes[1..]);
    }
  }

  lemma PopCount(ns: seq<nat>)
    requires ns != []
    ensures multiset(ns) == multiset{ns[0]} + multiset(ns[1..])
  {
    assert ns == [ns[0]] + ns[1..];
  }

  // ---------------------------------------------------------------- preservation

  lemma InitInv(senders: nat, owner: seq<nat>)
    ensures Inv(Init(senders, owner))
  {
  }

  lemma ReuseInv(s: State, p: nat, n: nat)
    requires Inv(s)
    ensures Inv(Step(s, Reuse(p, n)))
  {
    var t := Step(s, Reuse(p, n));
    if t != s {
      SenderFrame(s, t, p);
    }
  }

  // A step that only moves sender p between two phases of the same kind keeps every node as it is.
  lemma SenderFrame(s: State, t: State, p: nat)
    requires Inv(s) && p < |s.senders| && |t.senders| == |s.senders|
    requires t == s.(senders := s.senders[p := t.senders[p]])
    requires SenderInv(t, p, t.senders[p])
    requires !s.senders[p].Ringing? && forall n :: Preparing(s.senders[p], n) == Preparing(t.senders[p], n)
    ensures Inv(t)
  {
    forall n: nat | Node(t, n) ensures NodeInv(t, n) {
      assert NodeInv(s, n);
      assert InPreparation(t, n) == InPreparation(s, n);
    }
    forall q | 0 <= q < |t.senders| ensures SenderInv(t, q, t.senders[q]) {
      assert SenderInv(s, q, s.senders[q]);
    }
    if t.stack != [] && !(t.msip || t.target.Entered? || t.target.Cleared?) {
      var q :| 0 <= q < |s.senders| && s.senders[q].Ringing?;
      assert t.senders[q].Ringing?;
    }
  }

  lemma LockInv(s: State, p: nat)
    requires Inv(s) && p < |s.senders| && s.senders[p].Free?
    ensures Inv(Step(s, Send(p)))
  {
    var t := Step(s, Send(p));
    var n := s.senders[p].n;
    assert SenderInv(s, p, s.senders[p]) && NodeInv(s, n);
    forall m: nat | Node(t, m) ensures NodeInv(t, m) {
      assert NodeInv(s, m);
      if m != n { assert InPreparation(t, m) == InPreparation(s, m); }
    }
    forall q | 0 <= q < |t.senders| ensures SenderInv(t, q, t.senders[q]) {
      assert SenderInv(s, q, s.senders[q]);
    }
    WakeupFrame(s, t, p);
  }

  lemma WakeupFrame(s: State, t: State, p: nat)
    requires Inv(s) && p < |s.senders| && |t.senders| == |s.senders| && !s.senders[p].Ringing?
    requires t.senders == s.senders[p := t.senders[p]] && t.msip == s.msip && t.target == s.target
    ensures s.stack != [] ==> WakeupPending(t)
  {
    if s.stack != [] && !(t.msip || t.target.Entered? || t.target.Cleared?) {
      var q :| 0 <= q < |s.senders| && s.senders[q].Ringing?;
      assert t.senders[q].Ringing?;
    }
  }

  lemma LinkInv(s: State, p: nat)
    requires Inv(s) && p < |s.senders| && s.senders[p].Loaded?
    ensures Inv(Step(s, Send(p)))
  {
    var t := Step(s, Send(p));
    var n, head := s.senders[p].n, s.senders[p].head;
    assert SenderInv(s, p, s.senders[p]) && NodeInv(s, n) && InPreparation(s, n);
    assert n !in multiset(s.stack) && n !in multiset(s.held);
    ChainFrame(s.next, s.first, s.stack, n, head);
    match s.target {
      case Walking(m) => ChainFrame(s.next, m, s.held, n, head);
      case Releasing(m, link) => ChainFrame(s.next, m, s.held, n, head);
      case Counting(link) => ChainFrame(s.next, link, s.held, n, head);
      case _ =>
    }
    forall m: nat | Node(t, m) ensures NodeInv(t, m) {
      assert NodeInv(s, m);
      assert InPreparation(t, m) == InPreparation(s, m);
    }
    forall q | 0 <= q < |t.senders| ensures SenderInv(t, q, t.senders[q]) {
      assert SenderInv(s, q, s.senders[q]);
    }
    WakeupFrame(s, t, p);
  }

  // The compare-and-swap that succeeds.  It compares only the head's value, so the head it
  // read may have been drained, released and pushed again in between: the chain is right anyway.
  lemma PublishInv(s: State, p: nat)
    requires Inv(s) && p < |s.senders| && s.senders[p].Chained? && s.first == s.senders[p].head
    ensures Inv(Step(s, Send(p)))
  {
    var t := Step(s, Send(p));
    var n := s.senders[p].n;
    assert SenderInv(s, p, s.senders[p]) && NodeInv(s, n) && InPreparation(s, n);
    assert t.stack[1..] == s.stack;
    assert multiset(t.stack) == multiset{n} + multiset(s.stack);
    assert t.senders[p].Ringing?;
    forall m: nat | Node(t, m) ensures NodeInv(t, m) {
      assert NodeInv(s, m);
      if m != n { assert InPreparation(t, m) == InPreparation(s, m); }
    }
    forall q | 0 <= q < |t.senders| ensures SenderInv(t, q, t.senders[q]) {
      assert SenderInv(s, q, s.senders[q]);
    }
  }

  lemma RingInv(s: State, p: nat)
    requires Inv(s) && p < |s.senders| && s.senders[p].Ringing?
    ensures Inv(Step(s, Send(p)))
  {
    var t := Step(s, Send(p));
    forall m: nat | Node(t, m) ensures NodeInv(t, m) {
      assert NodeInv(s, m);
      assert InPreparation(t, m) == InPreparation(s, m);
    }
    forall q | 0 <= q < |t.senders| ensures SenderInv(t, q, t.senders[q]) {
      assert SenderInv(s, q, s.senders[q]);
    }
  }

  lemma SendInv(s: State, p: nat)
    requires Inv(s) && p < |s.senders|
    ensures Inv(Step(s, Send(p)))
  {
    var t := Step(s, Send(p));
    assert SenderInv(s, p, s.senders[p]);
    match s.senders[p] {
      case Idle =>
      case Free(n) => LockInv(s, p);
      case Locked(n) => SenderFrame(s, t, p);
      case Loaded(n, head) => LinkInv(s, p);
      case Chained(n, head) => if s.first == head { PublishInv(s, p); } else { SenderFrame(s, t, p); }
      case Ringing(n) => RingInv(s, p);
    }
  }

  lemma ReleaseInv(s: State)
    requires Inv(s) && s.target.Releasing?
    ensures Inv(Step(s, Receive))
  {
    var t := Step(s, Receive);
    var n := s.target.n;
    PopCount(s.held);
    assert multiset(s.held)[n] > 0;
    assert NodeInv(s, n);
    forall m: nat | Node(t, m) ensures NodeInv(t, m) {
      assert NodeInv(s, m);
      assert InPreparation(t, m) == InPreparation(s, m);
    }
    forall q | 0 <= q < |t.senders| ensures SenderInv(t, q, t.senders[q]) {
      assert SenderInv(s, q, s.senders[q]);
    }
  }

  // A step of the handler that moves no descriptor out of its hands.
  lemma ReceiveFrame(s: State, t: State)
    requires Inv(s) && Shape(t) && t.senders == s.senders && t.owner == s.owner
    requires t.flag == s.flag && t.next == s.next && t.pushes == s.pushes && t.releases == s.releases
    requires multiset(t.stack) + multiset(t.held) == multiset(s.stack) + multiset(s.held)
    ensures forall p | 0 <= p < |t.senders| :: SenderInv(t, p, t.senders[p])
    ensures forall n: nat | Node(t, n) :: NodeInv(t, n)
  {
    forall n: nat | Node(t, n) ensures NodeInv(t, n) {
      assert NodeInv(s, n);
      assert InPreparation(t, n) == InPreparation(s, n);
      assert (multiset(t.stack) + multiset(t.held))[n] == (multiset(s.stack) + multiset(s.held))[n];
    }
    forall p | 0 <= p < |t.senders| ensures SenderInv(t, p, t.senders[p]) {
      assert SenderInv(s, p, s.senders[p]);
    }
  }

  lemma QuietReceiveInv(s: State)
    requires Inv(s) && !s.target.Releasing?
    ensures Inv(Step(s, Receive))
  {
    if s.target.Walking? { ChainNodes(s.next, s.target.n, s.held); }
    ReceiveFrame(s, Step(s, Receive));
  }

  lemma StepInv(s: State, e: Event)
    requires Inv(s)
    ensures Inv(Step(s, e))
  {
    match e
    case Reuse(p, n) => ReuseInv(s, p, n);
    case Send(p) => if p < |s.senders| { SendInv(s, p); }
    case Receive => if s.target.Releasing? { ReleaseInv(s); } else { QuietReceiveInv(s); }
  }

  lemma {:induction false} ExecInv(s: State, es: seq<Event>)
    requires Inv(s)
    ensures Inv(Exec(s, es))
    decreases |es|
  {
    if es != [] {
      StepInv(s, es[0]);
      ExecInv(Step(s, es[0]), es[1..]);
    }
  }

  // ---------------------------------------------------------------- theorems

  // In every reachable state a non-empty list has a sender about to ring, a raised msip, or a
  // handler that has not yet swapped the list out.
  lemma NoLostWakeup(senders: nat, owner: seq<nat>, es: seq<Event>)
    ensures var s := Exec(Init(senders, owner), es);
            s.first != 0 ==> WakeupPending(s)
  {
    InitInv(senders, owner);
    ExecInv(Init(senders, owner), es);
    var s := Exec(Init(senders, owner), es);
    ChainNodes(s.next, s.first, s.stack);
  }

  // In every reachable state the list reached from `first` is exactly the descriptors published
  // since the last swap, newest first and without repetition; a locked descriptor is in exactly
  // one place -- with its owner before publication, in the list, or in the handler's hands --
  // and a clear one is in none; publications are releases plus what is still queued or held.
  lemma Ownership(senders: nat, owner: seq<nat>, es: seq<Event>, n: nat)
    requires 0 < n < |owner|
    ensures var s := Exec(Init(senders, owner), es);
            && Shape(s) && Node(s, n)
            && IsChain(s.next, s.first, s.stack)
            && (s.flag[n] <==> InPreparation(s, n) || n in s.stack || n in s.held)
            && (InPreparation(s, n) ==> n !in s.stack && n !in s.held)
            && multiset(s.stack)[n] + multiset(s.held)[n] <= 1
            && s.pushes[n] == s.releases[n] + Copies(s, n)
  {
    InitInv(senders, owner);
    ExecInv(Init(senders, owner), es);
    ExecSize(Init(senders, owner), es);
    var s := Exec(Init(senders, owner), es);
    assert NodeInv(s, n);
    assert n in s.stack <==> n in multiset(s.stack);
    assert n in s.held <==> n in multiset(s.held);
  }

  lemma {:induction false} ExecSize(s: State, es: seq<Event>)
    requires Shape(s)
    ensures Shape(Exec(s, es)) && |Exec(s, es).next| == |s.next| && Exec(s, es).owner == s.owner
    decreases |es|
  {
    if es != [] {
      StepShape(s, es[0]);
      ExecSize(Step(s, es[0]), es[1..]);
    }
  }

  // The handler reads and clears only descriptors it holds and that are still locked: once it
  // has cleared a flag it does not touch that descriptor again, so the owner may reuse it at once.
  lemma HandlerTouchesOnlyHeld(senders: nat, owner: seq<nat>, es: seq<Event>)
    ensures var s := Exec(Init(senders, owner), es);
            && Shape(s)
            && (s.target.Releasing? || (s.target.Walking? && s.target.n != 0) ==>
                  Node(s, s.target.n) && s.target.n in s.held && s.flag[s.target.n] && !InPreparation(s, s.target.n))
  {
    InitInv(senders, owner);
    ExecInv(Init(senders, owner), es);
    var s := Exec(Init(senders, owner), es);
    if s.target.Releasing? || (s.target.Walking? && s.target.n != 0) {
      ChainNodes(s.next, s.target.n, s.held);
      assert NodeInv(s, s.target.n);
      assert s.target.n in multiset(s.held);
    }
  }

  // ---------------------------------------------------------------- accounting

  function Total(xs: seq<nat>): nat { if xs == [] then 0 else xs[0] + Total(xs[1..]) }

  lemma {:induction false} TotalIncrement(xs: seq<nat>, n: nat)
    requires n < |xs|
    ensures Total(xs[n := xs[n] + 1]) == Total(xs) + 1
  {
    if n > 0 {
      assert xs[n := xs[n] + 1][1..] == xs[1..][n - 1 := xs[n] + 1];
      TotalIncrement(xs[1..], n - 1);
    } else {
      assert xs[0 := xs[0] + 1][1..] == xs[1..];
    }
  }

  // `served` counts the releases, one step late: the flag is cleared before the increment.
  predicate ServedInv(s: State) {
    s.served + (if s.target.Counting? then 1 else 0) == Total(s.releases)
  }

  lemma StepServed(s: State, e: Event)
    requires Shape(s) && ServedInv(s)
    ensures ServedInv(Step(s, e))
  {
    if e.Receive? && s.target.Releasing? && Node(s, s.target.n) {
      TotalIncrement(s.releases, s.target.n);
    }
  }

  lemma {:induction false} ExecServed(s: State, es: seq<Event>)
    requires Shape(s) && ServedInv(s)
    ensures ServedInv(Exec(s, es))
    decreases |es|
  {
    if es != [] {
      StepServed(s, es[0]);
      StepShape(s, es[0]);
      ExecServed(Step(s, es[0]), es[1..]);
    }
  }

  // ---------------------------------------------------------------- no descriptor is stranded

  // Steps the target needs, alone, to be back outside the handler with msip low.
  function Cost(s: State): nat {
    var again := if s.msip then 4 + 3 * |s.stack| else 0;
    match s.target
    case Running => again
    case Entered => 3 + 3 * |s.stack|
    case Cleared => 2 + 3 * |s.stack| + (if s.msip then 4 else 0)
    case Walking(_) => 1 + 3 * |s.held| + again
    case Releasing(_, _) => 3 * |s.held| + again
    case Counting(_) => 2 + 3 * |s.held| + again
  }

  function Receives(k: nat): (es: seq<Event>)
    ensures |es| == k && forall e | e in es :: e == Receive
  {
    seq(k, _ => Receive)
  }

  ghost predicate Settled(s: State) { forall p | 0 <= p < |s.senders| :: s.senders[p].Idle? || s.senders[p].Free? }

  lemma CostStep(s: State)
    requires Inv(s) && Cost(s) > 0
    ensures Cost(Step(s, Receive)) == Cost(s) - 1 && Step(s, Receive).senders == s.senders
  {
    if s.target.Walking? { ChainNodes(s.next, s.target.n, s.held); }
  }

  lemma AllReleased(s: State)
    requires Inv(s) && Settled(s) && Cost(s) == 0
    ensures s.target == Running && s.first == 0 && !s.msip
    ensures forall n: nat | Node(s, n) :: !s.flag[n] && s.releases[n] == s.pushes[n]
  {
    assert s.stack == [] && s.held == [];
    forall n: nat | Node(s, n) ensures !s.flag[n] && s.releases[n] == s.pushes[n] {
      assert NodeInv(s, n) && !InPreparation(s, n);
    }
  }

  // Once the senders have finished their pushes and rung, the target alone, in a bounded number
  // of its own steps, clears every flag: no locked descriptor can be stranded.
  lemma {:induction false} DrainsAlone(s: State, es: seq<Event>)
    requires Inv(s) && Settled(s)
    requires |es| == Cost(s) && forall e | e in es :: e == Receive
    ensures var t := Exec(s, es);
            && Inv(t) && t.target == Running && t.first == 0 && !t.msip
            && forall n: nat | Node(t, n) :: !t.flag[n] && t.releases[n] == t.pushes[n]
    decreases |es|
  {
    if es == [] {
      AllReleased(s);
    } else {
      assert es[0] in es && forall e | e in es[1..] :: e in es;
      StepInv(s, Receive);
      CostStep(s);
      DrainsAlone(Step(s, Receive), es[1..]);
    }
  }

  lemma NeverStranded(senders: nat, owner: seq<nat>, es: seq<Event>)
    requires Settled(Exec(Init(senders, owner), es))
    ensures var s := Exec(Init(senders, owner), es);
            Shape(s) && var t := Exec(s, Receives(Cost(s)));
            t.first == 0 && forall n | 0 <= n < |t.flag| && n > 0 :: !t.flag[n]
  {
    InitInv(senders, owner);
    ExecInv(Init(senders, owner), es);
    var s := Exec(Init(senders, owner), es);
    DrainsAlone(s, Receives(Cost(s)));
  }
}
