// The arm and clear handshake of workloads/benchmarks/mt-csdwait/mt-csdwait.c between the barriers:
// hart 0 clears the flags that the other harts arm.  One step is one load or store of shared
// memory; giving up a wait may happen at any turn of a spin loop.
module CsdWait {
  import opened Common

  const ROUNDS: nat := 64

  // Hart 0, in round r: reading the flag of target t, about to clear it, about to store its count.
  datatype Observer = Watching(r: nat, t: nat) | Clearing(r: nat, t: nat) | Noting(r: nat) | Finished

  // Target t, in round r: about to arm, reading its flag, about to store its count.
  datatype Target = Arming(r: nat) | Waiting(r: nat) | Counting(r: nat) | Left

  // Target t is hart t + 1.  `arms`, `clears` and the two kinds of giving up are history.
  datatype State = State(
    observer: Observer, targets: seq<Target>, flag: seq<nat>, done0: nat, done: seq<nat>, fail: seq<bool>,
    arms: seq<nat>, clears: seq<nat>, observerQuit: bool, quit: seq<bool>)

  datatype Event = Move(hart: nat) | GiveUp(hart: nat)

  function Begin(r: nat, targets: nat): Observer {
    if r > ROUNDS then Finished else if targets == 0 then Noting(r) else Watching(r, 0)
  }

  function Init(targets: nat): State {
    State(Begin(1, targets), seq(targets, t => Arming(1)), seq(targets, t => 0), 0, seq(targets, t => 0),
        seq(targets, t => false),
          seq(targets, t => 0), seq(targets, t => 0), false, seq(targets, t => false))
  }

  predicate Shape(s: State) {
    && |s.targets| == |s.flag| == |s.done| == |s.fail| == |s.arms| == |s.clears| == |s.quit|
    && match s.observer
       case Watching(_, t) => t < |s.targets|
       case Clearing(_, t) => t < |s.targets|
       case _ => true
  }

  function Observe(s: State): State
    requires Shape(s)
  {
    match s.observer
    case Watching(r, t) => if s.flag[t] == 0 then s else s.(observer := Clearing(r, t))
    case Clearing(r, t) =>
      s.(flag := s.flag[t := 0], clears := s.clears[t := s.clears[t] + 1],
         observer := if t + 1 < |s.targets| then Watching(r, t + 1) else Noting(r))
    case Noting(r) => s.(done0 := r, observer := Begin(r + 1, |s.targets|))
    case Finished => s
  }

  function Serve(s: State, t: nat): State
    requires Shape(s) && t < |s.targets|
  {
    match s.targets[t]
    case Arming(r) => s.(flag := s.flag[t := 1], arms := s.arms[t := s.arms[t] + 1],
        targets := s.targets[t := Waiting(r)])
    case Waiting(r) => if s.flag[t] % 2 != 0 then s else s.(targets := s.targets[t := Counting(r)])
    case Counting(r) => s.(done := s.done[t := r],
        targets := s.targets[t := if r < ROUNDS then Arming(r + 1) else Left])
    case Left => s
  }

  // The spin count passed the cap while the flag still had the wrong value.
  function Quit(s: State, hart: nat): State
    requires Shape(s)
  {
    if hart == 0 then
      if s.observer.Watching? && s.flag[s.observer.t] == 0
      then s.(fail := s.fail[s.observer.t := true], observer := Finished, observerQuit := true) else s
    else if hart <= |s.targets| && s.targets[hart - 1].Waiting? && s.flag[hart - 1] % 2 != 0
    then s.(fail := s.fail[hart - 1 := true], targets := s.targets[hart - 1 := Left], quit := s.quit[hart - 1 := true])
    else s
  }

  function Step(s: State, e: Event): State
    requires Shape(s)
  {
    match e
    case Move(h) => if h == 0 then Observe(s) else if h <= |s.targets| then Serve(s, h - 1) else s
    case GiveUp(h) => Quit(s, h)
  }

  lemma StepShape(s: State, e: Event)
    requires Shape(s)
    ensures Shape(Step(s, e)) && |Step(s, e).targets| == |s.targets|
  {
  }

  function Exec(s: State, es: seq<Event>): (t: State)
    requires Shape(s)
    ensures Shape(t) && |t.targets| == |s.targets|
    decreases |es|
  {
    if es == [] then s else
    StepShape(s, es[0]);
    Exec(Step(s, es[0]), es[1..])
  }

  // ---------------------------------------------------------------- the invariant

  // How often hart 0 has cleared target t's flag.
  predicate ObserverInv(s: State, t: nat)
    requires Shape(s) && t < |s.targets|
  {
    match s.observer
    case Watching(r, u) => s.clears[t] == if t < u then r else r - 1
    case Clearing(r, u) => s.clears[t] == (if t < u then r else r - 1) && s.flag[u] == 1
    case Noting(r) => s.clears[t] == r
    case Finished => s.done0 <= s.clears[t] <= s.done0 + 1 && s.clears[t] <= ROUNDS
  }

  predicate RoundInv(s: State) {
    match s.observer
    case Finished => s.done0 <= ROUNDS && (!s.observerQuit ==> s.done0 == ROUNDS)
    case _ => 1 <= s.observer.r <= ROUNDS && s.done0 == s.observer.r - 1
  }

  predicate TargetInv(s: State, t: nat)
    requires Shape(s) && t < |s.targets|
  {
    && s.flag[t] <= 1 && s.arms[t] == s.clears[t] + s.flag[t]
    && (s.quit[t] ==> s.fail[t] && s.targets[t].Left?)
    && match s.targets[t]
       case Arming(r) => 1 <= r <= ROUNDS && s.arms[t] == s.done[t] == r - 1 && s.flag[t] == 0
       case Waiting(r) => 1 <= r <= ROUNDS && s.arms[t] == r == s.done[t] + 1
       case Counting(r) => 1 <= r <= ROUNDS && s.arms[t] == r == s.done[t] + 1 && s.flag[t] == 0
       case Left =>
         if s.quit[t] then s.arms[t] == s.done[t] + 1 <= ROUNDS
         else s.arms[t] == s.done[t] == ROUNDS && s.flag[t] == 0
  }

  ghost predicate Inv(s: State) {
    && Shape(s) && RoundInv(s)
    && (s.observerQuit ==> s.observer.Finished? && exists t | 0 <= t < |s.targets| :: s.fail[t])
    && (forall t: nat | t < |s.targets| :: ObserverInv(s, t) && TargetInv(s, t))
    && (forall t | 0 <= t < |s.targets| :: s.fail[t] ==> s.observerQuit || s.quit[t])
  }

  lemma ObserveAt(s: State, t: nat)
    requires Inv(s) && t < |s.targets|
    ensures ObserverInv(Observe(s), t) && TargetInv(Observe(s), t)
  {
    assert ObserverInv(s, t) && TargetInv(s, t);
    match s.observer {
      case Watching(_, u) => assert TargetInv(s, u);
      case Clearing(_, u) => assert TargetInv(s, u);
      case _ =>
    }
  }

  lemma ObserveInv(s: State)
    requires Inv(s)
    ensures Inv(Observe(s))
  {
    forall t: nat | t < |s.targets| ensures ObserverInv(Observe(s), t) && TargetInv(Observe(s), t) {
      ObserveAt(s, t);
    }
  }

  lemma ServeOwn(s: State, t: nat)
    requires Shape(s) && t < |s.targets| && TargetInv(s, t)
    ensures TargetInv(Serve(s, t), t) && Shape(Serve(s, t))
  {
  }

  lemma ServeFrame(s: State, t: nat, u: nat)
    requires Shape(s) && t < |s.targets| && u < |s.targets|
    ensures Shape(Serve(s, t))
    ensures u != t && TargetInv(s, u) ==> TargetInv(Serve(s, t), u)
  {
  }

  lemma ServeObserver(s: State, t: nat, u: nat)
    requires Shape(s) && t < |s.targets| && u < |s.targets| && ObserverInv(s, u) && TargetInv(s, t)
    ensures Shape(Serve(s, t)) && ObserverInv(Serve(s, t), u)
  {
  }

  lemma ServeInv(s: State, t: nat)
    requires Inv(s) && t < |s.targets|
    ensures Inv(Serve(s, t))
  {
    assert TargetInv(s, t);
    ServeOwn(s, t);
    forall u: nat | u < |s.targets| ensures ObserverInv(Serve(s, t), u) && TargetInv(Serve(s, t), u) {
      assert ObserverInv(s, u) && TargetInv(s, u);
      ServeFrame(s, t, u);
      ServeObserver(s, t, u);
    }
  }

  lemma QuitObserver(s: State, hart: nat, u: nat)
    requires Shape(s) && RoundInv(s) && u < |s.targets| && ObserverInv(s, u)
    ensures Shape(Quit(s, hart)) && ObserverInv(Quit(s, hart), u)
  {
  }

  lemma QuitTarget(s: State, hart: nat, u: nat)
    requires Shape(s) && u < |s.targets| && TargetInv(s, u)
    ensures Shape(Quit(s, hart)) && TargetInv(Quit(s, hart), u)
  {
  }

  lemma QuitInv(s: State, hart: nat)
    requires Inv(s)
    ensures Inv(Quit(s, hart))
  {
    var t := Quit(s, hart);
    forall u: nat | u < |s.targets| ensures ObserverInv(t, u) && TargetInv(t, u) {
      assert ObserverInv(s, u) && TargetInv(s, u);
      QuitObserver(s, hart, u);
      QuitTarget(s, hart, u);
    }
    if s.observerQuit {
      var u :| 0 <= u < |s.targets| && s.fail[u];
      assert t.fail[u];
    } else if t.observerQuit {
      assert t.fail[s.observer.t];
    }
  }

  lemma {:induction false} ExecInv(s: State, es: seq<Event>)
    requires Inv(s)
    ensures Inv(Exec(s, es))
    decreases |es|
  {
    if es != [] {
      match es[0] {
        case Move(h) => if h == 0 { ObserveInv(s); } else if h <= |s.targets| { ServeInv(s, h - 1); }
        case GiveUp(h) => QuitInv(s, h);
      }
      ExecInv(Step(s, es[0]), es[1..]);
    }
  }

  lemma InitInv(targets: nat)
    ensures Inv(Init(targets))
  {
  }

  // ---------------------------------------------------------------- theorems

  // Arms and clears alternate on every target, and no target's round count is further than one
  // from hart 0's, whatever the interleaving and whoever gives up.
  lemma Alternates(targets: nat, es: seq<Event>, t: nat)
    requires t < targets
    ensures var s := Exec(Init(targets), es);
            && (s.arms[t] == s.clears[t] || s.arms[t] == s.clears[t] + 1)
            && (s.flag[t] != 0 <==> s.arms[t] == s.clears[t] + 1)
            && s.done[t] <= s.done0 + 1 && s.done0 <= s.done[t] + 1
  {
    InitInv(targets);
    ExecInv(Init(targets), es);
    var s := Exec(Init(targets), es);
    assert ObserverInv(s, t) && TargetInv(s, t);
  }

  predicate AllDone(s: State) { s.observer.Finished? && forall t | 0 <= t < |s.targets| :: s.targets[t].Left? }

  // What hart 0 computes after the last barrier.
  predicate Ok(s: State)
    requires Shape(s)
  {
    forall t | 0 <= t < |s.targets| :: !s.fail[t] && s.done[t] == ROUNDS
  }

  // The benchmark passes exactly when nobody gave up a wait.
  lemma Verdict(targets: nat, es: seq<Event>)
    requires AllDone(Exec(Init(targets), es))
    ensures var s := Exec(Init(targets), es);
            && (Ok(s) <==> !s.observerQuit && forall t | 0 <= t < targets :: !s.quit[t])
            && (Ok(s) ==> s.done0 == ROUNDS)
  {
    InitInv(targets);
    ExecInv(Init(targets), es);
    var s := Exec(Init(targets), es);
    forall t: nat | t < targets ensures s.quit[t] ==> s.fail[t]
      ensures !s.quit[t] ==> s.done[t] == ROUNDS && (s.fail[t] ==> s.observerQuit)
    {
      assert TargetInv(s, t);
    }
  }

  // ---------------------------------------------------------------- completion

  predicate Enabled(s: State, hart: nat)
    requires Shape(s)
  {
    if hart == 0 then !s.observer.Finished? && (s.observer.Watching? ==> s.flag[s.observer.t] != 0)
    else if hart > |s.targets| then false
    else !s.targets[hart - 1].Left? && (s.targets[hart - 1].Waiting? ==> s.flag[hart - 1] % 2 == 0)
  }

  ghost predicate NobodyQuit(s: State) { !s.observerQuit && forall t | 0 <= t < |s.quit| :: !s.quit[t] }

  // No deadlock: unless somebody gave up, while somebody is not done, somebody can move.
  lemma NotStuck(s: State) returns (hart: nat)
    requires Inv(s) && NobodyQuit(s) && !AllDone(s)
    ensures hart <= |s.targets| && Enabled(s, hart)
  {
    if Enabled(s, 0) { return 0; }
    var t: nat;
    if s.observer.Watching? { t := s.observer.t; } else { t :| 0 <= t < |s.targets| && !s.targets[t].Left?; }
    assert ObserverInv(s, t) && TargetInv(s, t);
    hart := t + 1;
  }

  // Moves that are left: three a round for a target, two a round and target and one more for hart 0.
  function MovesLeft(x: Target): int {
    match x
    case Arming(r) => 3 * (ROUNDS - r) + 3
    case Waiting(r) => 3 * (ROUNDS - r) + 2
    case Counting(r) => 3 * (ROUNDS - r) + 1
    case Left => 0
  }

  function SumWork(targets: seq<Target>, clears: seq<nat>): int
    requires |targets| == |clears|
  {
    if targets == [] then 0 else MovesLeft(targets[0]) + 2 * (ROUNDS - clears[0]) + SumWork(targets[1..], clears[1..])
  }

  function Work(s: State): int
    requires Shape(s)
  {
    SumWork(s.targets, s.clears) + (ROUNDS - s.done0) - if s.observer.Clearing? then 1 else 0
  }

  lemma {:induction false} SumTarget(targets: seq<Target>, clears: seq<nat>, t: nat, x: Target)
    requires t < |targets| == |clears|
    ensures SumWork(targets[t := x], clears) == SumWork(targets, clears) + MovesLeft(x) - MovesLeft(targets[t])
  {
    if t == 0 { assert targets[0 := x][1..] == targets[1..]; } else {
      assert targets[t := x][1..] == targets[1..][t - 1 := x];
      SumTarget(targets[1..], clears[1..], t - 1, x);
    }
  }

  lemma {:induction false} SumClear(targets: seq<Target>, clears: seq<nat>, t: nat)
    requires t < |targets| == |clears|
    ensures SumWork(targets, clears[t := clears[t] + 1]) == SumWork(targets, clears) - 2
  {
    if t == 0 { assert clears[0 := clears[0] + 1][1..] == clears[1..]; } else {
      assert clears[t := clears[t] + 1][1..] == clears[1..][t - 1 := clears[t] + 1];
      SumClear(targets[1..], clears[1..], t - 1);
    }
  }

  lemma {:induction false} SumPositive(targets: seq<Target>, clears: seq<nat>)
    requires |targets| == |clears|
    requires forall t | 0 <= t < |targets| :: MovesLeft(targets[t]) >= 0 && clears[t] <= ROUNDS
    ensures SumWork(targets, clears) >= 0
    ensures forall t | 0 <= t < |targets| :: SumWork(targets, clears) >= 2 * (ROUNDS - clears[t])
  {
    if targets != [] {
      SumPositive(targets[1..], clears[1..]);
      forall t | 0 <= t < |targets| ensures SumWork(targets, clears) >= 2 * (ROUNDS - clears[t]) {
        if t > 0 {
          assert clears[t] == clears[1..][t - 1];
          assert SumWork(targets[1..], clears[1..]) >= 2 * (ROUNDS - clears[1..][t - 1]);
        }
      }
    }
  }

  lemma WorkBound(s: State)
    requires Inv(s)
    ensures Work(s) >= 0
  {
    forall t: nat | t < |s.targets| ensures MovesLeft(s.targets[t]) >= 0 && s.clears[t] <= ROUNDS {
      assert ObserverInv(s, t) && TargetInv(s, t);
    }
    SumPositive(s.targets, s.clears);
    if s.observer.Clearing? { assert ObserverInv(s, s.observer.t); }
  }

  lemma ObserveWork(s: State)
    requires Shape(s) && RoundInv(s)
    ensures Shape(Observe(s)) && (if Enabled(s, 0) then Work(Observe(s)) == Work(s) - 1 else Observe(s) == s)
  {
    if s.observer.Clearing? { SumClear(s.targets, s.clears, s.observer.t); }
  }

  lemma ServeWork(s: State, t: nat)
    requires Shape(s) && t < |s.targets| && TargetInv(s, t)
    ensures Shape(Serve(s, t)) && (if Enabled(s, t + 1) then Work(Serve(s, t)) == Work(s) - 1 else Serve(s, t) == s)
  {
    var x := Serve(s, t).targets[t];
    SumTarget(s.targets, s.clears, t, x);
    assert Enabled(s, t + 1)
        ==> MovesLeft(x) == MovesLeft(s.targets[t]) - 1 && Serve(s, t).targets == s.targets[t := x];
  }

  // A move by a hart that can move uses up one unit; any other changes nothing.
  lemma MoveWork(s: State, hart: nat)
    requires Inv(s)
    ensures Inv(Step(s, Move(hart)))
    ensures hart <= |s.targets| && Enabled(s, hart) ==> Work(Step(s, Move(hart))) == Work(s) - 1
    ensures !(hart <= |s.targets| && Enabled(s, hart)) ==> Step(s, Move(hart)) == s
  {
    if hart == 0 {
      ObserveInv(s);
      ObserveWork(s);
    } else if hart <= |s.targets| {
      assert TargetInv(s, hart - 1);
      ServeInv(s, hart - 1);
      ServeWork(s, hart - 1);
    }
  }

  predicate Moves(es: seq<Event>) { forall e | e in es :: e.Move? }

  lemma {:induction false} MovesWork(s: State, es: seq<Event>)
    requires Inv(s) && Moves(es) && NobodyQuit(s)
    ensures Inv(Exec(s, es)) && Work(Exec(s, es)) <= Work(s) && NobodyQuit(Exec(s, es))
    decreases |es|
  {
    if es != [] {
      assert es[0] in es && forall e | e in es[1..] :: e in es;
      MoveWork(s, es[0].hart);
      MovesWork(Step(s, es[0]), es[1..]);
    }
  }

  // A stretch of the schedule in which a hart that could move at its start moves.
  lemma {:induction false} StretchWork(s: State, es: seq<Event>, hart: nat)
    requires Inv(s) && Moves(es) && NobodyQuit(s) && hart <= |s.targets| && Enabled(s, hart) && Move(hart) in es
    ensures Work(Exec(s, es)) < Work(s)
    decreases |es|
  {
    assert es[0] in es && forall e | e in es[1..] :: e in es;
    var t := Step(s, es[0]);
    MoveWork(s, es[0].hart);
    if t == s { StretchWork(s, es[1..], hart); } else { MovesWork(t, es[1..]); }
  }

  // Every hart moves at least once.
  predicate Round(es: seq<Event>, harts: nat) { Moves(es) && forall h: nat | h < harts :: Move(h) in es }

  lemma {:induction false} ExecConcat(s: State, a: seq<Event>, b: seq<Event>)
    requires Shape(s)
    ensures Exec(s, a + b) == Exec(Exec(s, a), b)
    decreases |a|
  {
    if a == [] { assert a + b == b; } else {
      assert (a + b)[1..] == a[1..] + b;
      ExecConcat(Step(s, a[0]), a[1..], b);
    }
  }

  lemma {:induction false} FlattenMoves(rounds: seq<seq<Event>>, harts: nat)
    requires forall es | es in rounds :: Round(es, harts)
    ensures Moves(Flatten(rounds))
  {
    if rounds != [] {
      assert rounds[0] in rounds && forall es | es in rounds[1..] :: es in rounds;
      FlattenMoves(rounds[1..], harts);
    }
  }

  lemma {:induction false} DoneStays(s: State, es: seq<Event>)
    requires Shape(s) && AllDone(s) && Moves(es)
    ensures Exec(s, es) == s
    decreases |es|
  {
    if es != [] {
      assert es[0] in es && forall e | e in es[1..] :: e in es;
      DoneStays(s, es[1..]);
    }
  }

  lemma NoWorkDone(s: State)
    requires Inv(s) && NobodyQuit(s) && Work(s) <= 0
    ensures AllDone(s)
  {
    if !AllDone(s) {
      var h := NotStuck(s);
      MoveWork(s, h);
      WorkBound(Step(s, Move(h)));
    }
  }

  lemma {:induction false} FairRun(s: State, rounds: seq<seq<Event>>)
    requires Inv(s) && NobodyQuit(s) && |rounds| >= Work(s) && forall es | es in rounds :: Round(es, |s.targets| + 1)
    ensures Inv(Exec(s, Flatten(rounds))) && NobodyQuit(Exec(s, Flatten(rounds))) && AllDone(Exec(s, Flatten(rounds)))
    decreases |rounds|
  {
    if AllDone(s) {
      FlattenMoves(rounds, |s.targets| + 1);
      DoneStays(s, Flatten(rounds));
    } else if rounds == [] {
      NoWorkDone(s);
    } else {
      assert rounds[0] in rounds && forall es | es in rounds[1..] :: es in rounds;
      var h := NotStuck(s);
      MovesWork(s, rounds[0]);
      StretchWork(s, rounds[0], h);
      ExecConcat(s, rounds[0], Flatten(rounds[1..]));
      FairRun(Exec(s, rounds[0]), rounds[1..]);
    }
  }

  // If every hart keeps moving and nobody gives up, every hart finishes all its rounds.
  lemma Completes(targets: nat, rounds: seq<seq<Event>>)
    requires |rounds| >= Work(Init(targets)) && forall es | es in rounds :: Round(es, targets + 1)
    ensures var s := Exec(Init(targets), Flatten(rounds));
            && AllDone(s) && Ok(s) && s.done0 == ROUNDS
            && forall t | 0 <= t < targets :: s.arms[t] == s.clears[t] == ROUNDS
  {
    InitInv(targets);
    FairRun(Init(targets), rounds);
    Verdict(targets, Flatten(rounds));
    var s := Exec(Init(targets), Flatten(rounds));
    forall t: nat | t < targets ensures s.arms[t] == s.clears[t] == ROUNDS {
      assert ObserverInv(s, t) && TargetInv(s, t);
    }
  }

  // ---------------------------------------------------------------- whom giving up blames

  // Hart 0 gives up on target t, whose flag it waits to see armed, or target t on its own, which it waits
  // to see cleared.
  predicate GivesUpOn(s: State, e: Event, t: nat)
    requires Shape(s) && t < |s.targets|
  {
    || (e == GiveUp(0) && s.observer.Watching? && s.observer.t == t && s.flag[t] == 0)
    || (e == GiveUp(t + 1) && s.targets[t].Waiting? && s.flag[t] % 2 != 0)
  }

  ghost predicate GaveUpOn(s: State, es: seq<Event>, t: nat)
    requires Shape(s) && t < |s.targets|
  {
    exists k: nat :: k < |es| && GivesUpOn(Exec(s, es[..k]), es[k], t)
  }

  lemma ExecCons(s: State, es: seq<Event>, k: nat)
    requires Shape(s) && k + 1 <= |es| && Shape(Step(s, es[0]))
    ensures Exec(s, es[..k + 1]) == Exec(Step(s, es[0]), es[1..][..k])
  {
    assert es[..k + 1][1..] == es[1..][..k];
  }

  lemma GaveUpLater(s: State, es: seq<Event>, t: nat)
    requires Shape(s) && es != [] && t < |s.targets| && Shape(Step(s, es[0])) && |Step(s, es[0]).targets| == |s.targets|
    ensures GaveUpOn(Step(s, es[0]), es[1..], t) ==> GaveUpOn(s, es, t)
  {
    var u := Step(s, es[0]);
    if GaveUpOn(u, es[1..], t) {
      var k: nat :| k < |es[1..]| && GivesUpOn(Exec(u, es[1..][..k]), es[1..][k], t);
      ExecCons(s, es, k);
      assert GivesUpOn(Exec(s, es[..k + 1]), es[k + 1], t);
    }
  }

  lemma GaveUpCons(s: State, es: seq<Event>, t: nat)
    requires Shape(s) && es != [] && t < |s.targets| && Shape(Step(s, es[0])) && |Step(s, es[0]).targets| == |s.targets|
    ensures GaveUpOn(s, es, t) <==> GivesUpOn(s, es[0], t) || GaveUpOn(Step(s, es[0]), es[1..], t)
  {
    assert es[..0] == [];
    if GivesUpOn(s, es[0], t) { assert GivesUpOn(Exec(s, es[..0]), es[0], t); }
    GaveUpLater(s, es, t);
    if GaveUpOn(s, es, t) && !GivesUpOn(s, es[0], t) {
      var k: nat :| k < |es| && GivesUpOn(Exec(s, es[..k]), es[k], t);
      ExecCons(s, es, k - 1);
      assert GivesUpOn(Exec(Step(s, es[0]), es[1..][..k - 1]), es[1..][k - 1], t);
    }
  }

  lemma {:induction false} BlamedFrom(s: State, es: seq<Event>, t: nat)
    requires Shape(s) && t < |s.targets|
    ensures Exec(s, es).fail[t] <==> s.fail[t] || GaveUpOn(s, es, t)
    decreases |es|
  {
    if es != [] {
      StepShape(s, es[0]);
      assert Step(s, es[0]).fail[t] <==> s.fail[t] || GivesUpOn(s, es[0], t);
      GaveUpCons(s, es, t);
      BlamedFrom(Step(s, es[0]), es[1..], t);
    }
  }

  // Over every run a target is blamed if and only if hart 0 gave up waiting for it to arm its flag or it
  // gave up waiting for its flag to be cleared.
  lemma Blamed(targets: nat, es: seq<Event>, t: nat)
    requires t < targets
    ensures Exec(Init(targets), es).fail[t] <==> GaveUpOn(Init(targets), es, t)
  {
    BlamedFrom(Init(targets), es, t);
  }
}
