// The sense-reversing barrier of workloads/benchmarks/common/util.h, as a transition
// system over `nc` harts that call it without end.  One step is one load, one store or
// one atomic; memory is sequentially consistent.
module Barrier {
  import opened Common

  // Where a hart stands in `barrier`.  `Out`: not in the call.  `Toggled`: threadsense has
  // been flipped, the amoadd is next.  `Resetting`: last to arrive, `count = 0` is next.
  // `Flipping`: `sense = threadsense` is next.  `Spinning`: re-reading `sense`.
  datatype Pc = Out | Toggled | Resetting | Flipping | Spinning

  // `arrived` and `returned` count the amoadds and the returns of this hart.  The program
  // has no such variables; no step reads them.
  datatype Hart = Hart(pc: Pc, threadsense: bool, arrived: nat, returned: nat)

  // `flips` counts the stores to `sense`; no step reads it either.
  datatype State = State(count: int, sense: bool, harts: seq<Hart>, flips: nat)

  // The state the barrier starts from: `initialize_count_asm(0)` done by every hart.
  function Init(nc: nat): State {
    State(0, false, seq(nc, _ => Hart(Out, false, 0, 0)), 0)
  }

  function With(s: State, h: nat, hart: Hart): State
    requires h < |s.harts|
  {
    s.(harts := s.harts[h := hart])
  }

  // The next memory access of hart `h`.
  function Step(s: State, h: nat): State {
    if h >= |s.harts| then s else
    var me := s.harts[h];
    match me.pc
    case Out => With(s, h, me.(pc := Toggled, threadsense := !me.threadsense))
    case Toggled =>
      With(s, h, me.(pc := if s.count == |s.harts| - 1 then Resetting else Spinning,
                     arrived := me.arrived + 1)).(count := s.count + 1)
    case Resetting => With(s, h, me.(pc := Flipping)).(count := 0)
    case Flipping =>
      With(s, h, me.(pc := Out, returned := me.returned + 1)).(sense := me.threadsense, flips := s.flips + 1)
    case Spinning =>
      if s.sense != me.threadsense then s
      else With(s, h, me.(pc := Out, returned := me.returned + 1))
  }

  lemma StepSize(s: State, h: nat)
    ensures |Step(s, h).harts| == |s.harts|
  {
  }

  // A run is the order in which the harts take their steps.
  function Exec(s: State, schedule: seq<nat>): State
    decreases |schedule|
  {
    if schedule == [] then s else Exec(Step(s, schedule[0]), schedule[1..])
  }

  // ---------------------------------------------------------------- invariant

  predicate Odd(n: nat) { n % 2 == 1 }

  predicate Leading(hart: Hart) { hart.pc.Resetting? || hart.pc.Flipping? }

  // How many harts have arrived for the episode that ends with flip number `flips + 1`.
  function Arrivals(harts: seq<Hart>, flips: nat): nat {
    if harts == [] then 0
    else Arrivals(harts[1..], flips) + if harts[0].arrived == flips + 1 then 1 else 0
  }

  ghost predicate HartInv(s: State, h: Hart) {
    && h.threadsense == Odd(h.arrived + if h.pc.Toggled? then 1 else 0)
    && match h.pc
       case Out => h.arrived == h.returned == s.flips
       case Toggled => h.arrived == h.returned == s.flips
       case Resetting => h.arrived == s.flips + 1 && h.returned == s.flips && s.count == |s.harts|
       case Flipping => h.arrived == s.flips + 1 && h.returned == s.flips && s.count == 0
       case Spinning => h.arrived == h.returned + 1 && (h.arrived == s.flips || h.arrived == s.flips + 1)
  }

  ghost predicate HasLeader(harts: seq<Hart>) {
    exists i | 0 <= i < |harts| :: Leading(harts[i])
  }

  ghost predicate Inv(s: State) {
    && s.sense == Odd(s.flips)
    && (forall i | 0 <= i < |s.harts| :: HartInv(s, s.harts[i]))
    && (forall i, j | 0 <= i < |s.harts| && 0 <= j < |s.harts| && Leading(s.harts[i]) && Leading(s.harts[j]) :: i == j)
    && (HasLeader(s.harts) ==> Arrivals(s.harts, s.flips) == |s.harts|)
    && (!HasLeader(s.harts) ==> s.count == Arrivals(s.harts, s.flips) && (s.harts != [] ==> s.count < |s.harts|))
  }

  // ---------------------------------------------------------------- counting

  lemma {:induction false} ArrivalsUpdate(harts: seq<Hart>, h: nat, hart: Hart, flips: nat)
    requires h < |harts|
    ensures Arrivals(harts[h := hart], flips)
         == Arrivals(harts, flips) - (if harts[h].arrived == flips + 1 then 1 else 0)
             + (if hart.arrived == flips + 1 then 1 else 0)
  {
    if h == 0 {
      assert harts[0 := hart][1..] == harts[1..];
    } else {
      assert harts[h := hart][1..] == harts[1..][h - 1 := hart];
      ArrivalsUpdate(harts[1..], h - 1, hart, flips);
    }
  }

  lemma {:induction false} ArrivalsBounds(harts: seq<Hart>, flips: nat)
    ensures Arrivals(harts, flips) <= |harts|
    ensures Arrivals(harts, flips) == |harts| <==> forall i | 0 <= i < |harts| :: harts[i].arrived == flips + 1
    ensures Arrivals(harts, flips) == 0 <==> forall i | 0 <= i < |harts| :: harts[i].arrived != flips + 1
  {
    if harts != [] {
      ArrivalsBounds(harts[1..], flips);
      assert harts == [harts[0]] + harts[1..];
    }
  }

  // ---------------------------------------------------------------- preservation

  lemma InitInv(nc: nat)
    ensures Inv(Init(nc))
  {
    ArrivalsBounds(Init(nc).harts, 0);
  }

  // An arrival finds no leader, and counts itself.
  lemma ArrivalFacts(s: State, h: nat)
    requires Inv(s) && h < |s.harts| && s.harts[h].pc.Toggled?
    ensures var t := Step(s, h);
            && !HasLeader(s.harts) && Arrivals(t.harts, s.flips) == s.count + 1
            && forall i | 0 <= i < |t.harts| && i != h :: HartInv(t, t.harts[i]) && !Leading(t.harts[i])
  {
    var t := Step(s, h);
    ArrivalsUpdate(s.harts, h, t.harts[h], s.flips);
    ArrivalsBounds(s.harts, s.flips);
    assert HartInv(s, s.harts[h]);
    forall i | 0 <= i < |t.harts| && i != h ensures HartInv(t, t.harts[i]) && !Leading(t.harts[i]) {
      assert HartInv(s, s.harts[i]);
    }
  }

  lemma ToggledInv(s: State, h: nat)
    requires Inv(s) && h < |s.harts| && s.harts[h].pc.Toggled?
    ensures Inv(Step(s, h))
  {
    var t := Step(s, h);
    ArrivalFacts(s, h);
    ArrivalsBounds(t.harts, s.flips);
    assert HartInv(s, s.harts[h]);
    assert t.harts[h].pc.Resetting? ==> Leading(t.harts[h]);
  }

  lemma FlippingInv(s: State, h: nat)
    requires Inv(s) && h < |s.harts| && s.harts[h].pc.Flipping?
    ensures Inv(Step(s, h))
  {
    var t := Step(s, h);
    assert HasLeader(s.harts);
    ArrivalsBounds(s.harts, s.flips);
    forall i | 0 <= i < |t.harts|
      ensures HartInv(t, t.harts[i]) && !Leading(t.harts[i]) && t.harts[i].arrived == t.flips
    {
      assert HartInv(s, s.harts[i]);
      assert Leading(s.harts[h]);
    }
    ArrivalsBounds(t.harts, t.flips);
  }

  lemma ResettingInv(s: State, h: nat)
    requires Inv(s) && h < |s.harts| && s.harts[h].pc.Resetting?
    ensures Inv(Step(s, h))
  {
    var t := Step(s, h);
    assert Leading(s.harts[h]) && Leading(t.harts[h]);
    ArrivalsUpdate(s.harts, h, t.harts[h], s.flips);
    forall i | 0 <= i < |t.harts| && i != h ensures HartInv(t, t.harts[i]) && !Leading(t.harts[i]) {
      assert HartInv(s, s.harts[i]);
    }
  }

  lemma SameLeaders(a: seq<Hart>, b: seq<Hart>)
    requires |a| == |b| && forall i | 0 <= i < |a| :: Leading(a[i]) == Leading(b[i])
    ensures HasLeader(a) == HasLeader(b)
  {
    if i :| 0 <= i < |a| && Leading(a[i]) { assert Leading(b[i]); }
    if i :| 0 <= i < |b| && Leading(b[i]) { assert Leading(a[i]); }
  }

  // A change of one hart that neither arrives, nor leads, nor leads no more.
  lemma QuietFrame(s: State, h: nat, hart: Hart)
    requires Inv(s) && h < |s.harts| && !Leading(s.harts[h]) && !Leading(hart)
    requires hart.arrived == s.harts[h].arrived && HartInv(s, hart)
    ensures Inv(With(s, h, hart))
  {
    var t := With(s, h, hart);
    ArrivalsUpdate(s.harts, h, hart, s.flips);
    SameLeaders(s.harts, t.harts);
    forall i | 0 <= i < |t.harts| ensures HartInv(t, t.harts[i]) && Leading(t.harts[i]) == Leading(s.harts[i]) {
      assert i != h ==> t.harts[i] == s.harts[i] && HartInv(s, s.harts[i]);
    }
  }

  lemma QuietInv(s: State, h: nat)
    requires Inv(s) && h < |s.harts| && (s.harts[h].pc.Out? || s.harts[h].pc.Spinning?)
    ensures Inv(Step(s, h))
  {
    assert HartInv(s, s.harts[h]);
    if Step(s, h) != s {
      QuietFrame(s, h, Step(s, h).harts[h]);
    }
  }

  lemma StepInv(s: State, h: nat)
    requires Inv(s)
    ensures Inv(Step(s, h)) && |Step(s, h).harts| == |s.harts|
  {
    if h < |s.harts| {
      match s.harts[h].pc
      case Toggled => ToggledInv(s, h);
      case Flipping => FlippingInv(s, h);
      case Resetting => ResettingInv(s, h);
      case Out => QuietInv(s, h);
      case Spinning => QuietInv(s, h);
    }
  }

  lemma {:induction false} ExecInv(s: State, schedule: seq<nat>)
    requires Inv(s)
    ensures Inv(Exec(s, schedule)) && |Exec(s, schedule).harts| == |s.harts|
    decreases |schedule|
  {
    if schedule != [] {
      StepInv(s, schedule[0]);
      ExecInv(Step(s, schedule[0]), schedule[1..]);
    }
  }

  // ---------------------------------------------------------------- safety

  function Calls(h: Hart): nat { h.arrived + if h.pc.Toggled? then 1 else 0 }

  lemma SafeState(s: State, i: nat, j: nat)
    requires Inv(s) && i < |s.harts| && j < |s.harts|
    ensures s.harts[i].returned <= s.harts[j].arrived
    ensures Calls(s.harts[i]) <= Calls(s.harts[j]) + 1
  {
    assert HartInv(s, s.harts[i]) && HartInv(s, s.harts[j]);
    if s.harts[i].pc.Toggled? { assert !HasLeader(s.harts) by { ArrivalsBounds(s.harts, s.flips); } }
  }

  // For every number of harts and every interleaving: a hart that has returned from its k-th
  // call does so only when every hart has arrived at its own k-th, the numbers of calls of two
  // harts never differ by more than one, and the counter stays within 0..nc.
  lemma Safety(nc: nat, schedule: seq<nat>, i: nat, j: nat)
    requires i < nc && j < nc
    ensures var s := Exec(Init(nc), schedule);
            && |s.harts| == nc
            && s.harts[i].returned <= s.harts[j].arrived
            && Calls(s.harts[i]) <= Calls(s.harts[j]) + 1
            && 0 <= s.count <= nc
  {
    InitInv(nc);
    ExecInv(Init(nc), schedule);
    var s := Exec(Init(nc), schedule);
    SafeState(s, i, j);
    ArrivalsBounds(s.harts, s.flips);
    if k :| 0 <= k < |s.harts| && Leading(s.harts[k]) {
      assert HartInv(s, s.harts[k]);
    }
  }

  // ---------------------------------------------------------------- progress

  // A hart whose next step changes the state.
  predicate Enabled(s: State, h: nat)
    requires h < |s.harts|
  {
    s.harts[h].pc.Spinning? ==> s.sense == s.harts[h].threadsense
  }

  // A spinner whose release has come cannot miss it: whatever the other harts do, and for
  // however long, the sense it waits for stays in place until it takes its own next step.
  lemma {:induction false} NoMissedRelease(s: State, h: nat, others: seq<nat>)
    requires Inv(s) && h < |s.harts| && s.harts[h].pc.Spinning? && Enabled(s, h)
    requires h !in others
    ensures var t := Exec(s, others);
            h < |t.harts| && t.harts[h] == s.harts[h] && Enabled(t, h)
    decreases |others|
  {
    if others != [] {
      var g := others[0];
      assert HartInv(s, s.harts[h]);
      if g < |s.harts| && s.harts[g].pc.Flipping? {
        assert Leading(s.harts[g]);
        ArrivalsBounds(s.harts, s.flips);
        assert false;
      }
      StepInv(s, g);
      NoMissedRelease(Step(s, g), h, others[1..]);
    }
  }

  // Steps hart `h` still needs, at most, before its k-th return.
  function Remaining(h: Hart, k: nat): nat {
    if h.returned >= k then 0 else
    4 * (k - h.returned) - match h.pc
                           case Out => 0
                           case Toggled => 1
                           case Resetting => 2
                           case Flipping => 3
                           case Spinning => 3
  }

  function TotalRemaining(harts: seq<Hart>, k: nat): nat {
    if harts == [] then 0 else Remaining(harts[0], k) + TotalRemaining(harts[1..], k)
  }

  lemma {:induction false} TotalUpdate(harts: seq<Hart>, h: nat, hart: Hart, k: nat)
    requires h < |harts|
    ensures TotalRemaining(harts[h := hart], k)
            == TotalRemaining(harts, k) - Remaining(harts[h], k) + Remaining(hart, k)
  {
    if h == 0 {
      assert harts[0 := hart][1..] == harts[1..];
    } else {
      assert harts[h := hart][1..] == harts[1..][h - 1 := hart];
      TotalUpdate(harts[1..], h - 1, hart, k);
    }
  }

  lemma {:induction false} TotalZero(harts: seq<Hart>, k: nat)
    ensures TotalRemaining(harts, k) == 0 <==> forall i | 0 <= i < |harts| :: harts[i].returned >= k
  {
    if harts != [] {
      TotalZero(harts[1..], k);
      assert harts == [harts[0]] + harts[1..];
    }
  }

  // A program that calls the barrier exactly k times: a hart back from its k-th call stops.
  function StepUpTo(s: State, h: nat, k: nat): State {
    if h < |s.harts| && s.harts[h].pc.Out? && s.harts[h].returned >= k then s else Step(s, h)
  }

  function ExecUpTo(s: State, schedule: seq<nat>, k: nat): State
    decreases |schedule|
  {
    if schedule == [] then s else ExecUpTo(StepUpTo(s, schedule[0], k), schedule[1..], k)
  }

  ghost predicate InvUpTo(s: State, k: nat) {
    Inv(s) && forall i | 0 <= i < |s.harts| :: Calls(s.harts[i]) <= k
  }

  lemma StepUpToInv(s: State, h: nat, k: nat)
    requires InvUpTo(s, k)
    ensures InvUpTo(StepUpTo(s, h, k), k) && |StepUpTo(s, h, k).harts| == |s.harts|
    ensures var t := StepUpTo(s, h, k);
            t == s || TotalRemaining(t.harts, k) < TotalRemaining(s.harts, k)
  {
    StepInv(s, h);
    var t := StepUpTo(s, h, k);
    if t != s {
      assert HartInv(s, s.harts[h]);
      assert t.harts == s.harts[h := t.harts[h]];
      TotalUpdate(s.harts, h, t.harts[h], k);
    }
  }

  // No reachable state is stuck: as long as some hart still owes its k-th return, one that
  // owes it can move.
  lemma NotStuck(s: State, k: nat) returns (h: nat)
    requires InvUpTo(s, k) && TotalRemaining(s.harts, k) > 0
    ensures h < |s.harts| && s.harts[h].returned < k && StepUpTo(s, h, k) != s
  {
    TotalZero(s.harts, k);
    h :| h < |s.harts| && s.harts[h].returned < k;
    if !Enabled(s, h) {
      h := SomeoneElse(s, h);
    }
    Moves(s, h, k);
  }

  // A hart waiting in the current episode waits for the leader, or for a hart still to arrive.
  lemma SomeoneElse(s: State, i: nat) returns (h: nat)
    requires Inv(s) && i < |s.harts| && !Enabled(s, i)
    ensures h < |s.harts| && Enabled(s, h) && s.harts[h].returned <= s.harts[i].returned
  {
    assert HartInv(s, s.harts[i]);
    if HasLeader(s.harts) {
      h :| h < |s.harts| && Leading(s.harts[h]);
    } else {
      ArrivalsBounds(s.harts, s.flips);
      h :| h < |s.harts| && s.harts[h].arrived != s.flips + 1;
    }
    assert HartInv(s, s.harts[h]);
  }

  lemma Moves(s: State, h: nat, k: nat)
    requires Inv(s) && h < |s.harts| && s.harts[h].returned < k && Enabled(s, h)
    ensures StepUpTo(s, h, k) != s
  {
    assert Step(s, h).harts[h].pc != s.harts[h].pc;
  }

  // A round is any list of steps in which every hart occurs.
  predicate Round(nc: nat, round: seq<nat>) { forall h: nat | h < nc :: h in round }

  lemma {:induction false} ExecUpToConcat(s: State, a: seq<nat>, b: seq<nat>, k: nat)
    ensures ExecUpTo(s, a + b, k) == ExecUpTo(ExecUpTo(s, a, k), b, k)
    decreases |a|
  {
    if a == [] {
      assert a + b == b;
    } else {
      assert (a + b)[1..] == a[1..] + b;
      ExecUpToConcat(StepUpTo(s, a[0], k), a[1..], b, k);
    }
  }

  lemma {:induction false} ExecUpToInv(s: State, schedule: seq<nat>, k: nat)
    requires InvUpTo(s, k)
    ensures var t := ExecUpTo(s, schedule, k);
            && InvUpTo(t, k) && |t.harts| == |s.harts|
            && (t == s || TotalRemaining(t.harts, k) < TotalRemaining(s.harts, k))
            && (t == s ==> forall h | h in schedule :: StepUpTo(s, h, k) == s)
    decreases |schedule|
  {
    if schedule != [] {
      StepUpToInv(s, schedule[0], k);
      ExecUpToInv(StepUpTo(s, schedule[0], k), schedule[1..], k);
    }
  }

  // Every fair run completes: after as many rounds as there are steps remaining, every hart
  // has returned from its k-th call.
  lemma {:induction false} FairCompletion(s: State, rounds: seq<seq<nat>>, k: nat)
    requires InvUpTo(s, k)
    requires forall r | r in rounds :: Round(|s.harts|, r)
    requires |rounds| >= TotalRemaining(s.harts, k)
    ensures var t := ExecUpTo(s, Flatten(rounds), k);
            |t.harts| == |s.harts| && forall i | 0 <= i < |t.harts| :: t.harts[i].returned == k
    decreases |rounds|
  {
    TotalZero(s.harts, k);
    if TotalRemaining(s.harts, k) == 0 {
      AllDone(s, k);
      ExecUpToInv(s, Flatten(rounds), k);
    } else {
      var h := NotStuck(s, k);
      assert Round(|s.harts|, rounds[0]) && h in rounds[0];
      ExecUpToInv(s, rounds[0], k);
      var m := ExecUpTo(s, rounds[0], k);
      ExecUpToConcat(s, rounds[0], Flatten(rounds[1..]), k);
      FairCompletion(m, rounds[1..], k);
    }
  }

  lemma AllDone(s: State, k: nat)
    requires InvUpTo(s, k) && forall i | 0 <= i < |s.harts| :: s.harts[i].returned >= k
    ensures forall i | 0 <= i < |s.harts| :: s.harts[i].returned == k && s.harts[i].pc.Out?
  {
    forall i | 0 <= i < |s.harts| ensures s.harts[i].returned == k && s.harts[i].pc.Out? {
      assert HartInv(s, s.harts[i]) && Calls(s.harts[i]) <= k;
    }
  }

  // From the start, k fair calls of the barrier by nc harts finish within 4*k*nc rounds.
  lemma Termination(nc: nat, k: nat, rounds: seq<seq<nat>>)
    requires forall r | r in rounds :: Round(nc, r)
    requires |rounds| >= 4 * k * nc
    ensures var t := ExecUpTo(Init(nc), Flatten(rounds), k);
            |t.harts| == nc && forall i | 0 <= i < nc :: t.harts[i].returned == k
  {
    InitInv(nc);
    InitRemaining(nc, k);
    FairCompletion(Init(nc), rounds, k);
  }

  lemma {:induction false} InitRemaining(nc: nat, k: nat)
    ensures TotalRemaining(Init(nc).harts, k) == 4 * k * nc
  {
    if nc > 0 {
      assert Init(nc).harts[1..] == Init(nc - 1).harts;
      InitRemaining(nc - 1, k);
    }
  }

  // ---------------------------------------------------------------- the order of the two stores

  // The barrier with `sense = threadsense` before `count = 0`.
  function SwappedStep(s: State, h: nat): State {
    if h >= |s.harts| then s else
    var me := s.harts[h];
    match me.pc
    case Toggled =>
      With(s, h, me.(pc := if s.count == |s.harts| - 1 then Flipping else Spinning,
                     arrived := me.arrived + 1)).(count := s.count + 1)
    case Flipping => With(s, h, me.(pc := Resetting)).(sense := me.threadsense, flips := s.flips + 1)
    case Resetting => With(s, h, me.(pc := Out, returned := me.returned + 1)).(count := 0)
    case _ => Step(s, h)
  }

  function SwappedExec(s: State, schedule: seq<nat>): State
    decreases |schedule|
  {
    if schedule == [] then s else SwappedExec(SwappedStep(s, schedule[0]), schedule[1..])
  }

  lemma {:induction false} SwappedConcat(s: State, a: seq<nat>, b: seq<nat>)
    ensures SwappedExec(s, a + b) == SwappedExec(SwappedExec(s, a), b)
    decreases |a|
  {
    if a == [] { assert a + b == b; } else {
      assert (a + b)[1..] == a[1..] + b;
      SwappedConcat(SwappedStep(s, a[0]), a[1..], b);
    }
  }

  function Two(count: int, sense: bool, a: Hart, b: Hart, flips: nat): State { State(count, sense, [a, b], flips) }

  lemma SwappedTurn(s: State, h: nat, t: State)
    requires SwappedStep(s, h) == t
    ensures SwappedExec(s, [h]) == t
  {
    assert SwappedExec(t, []) == t;
    assert [h][1..] == [];
  }

  lemma SwappedTwo(s: State, g: nat, h: nat, t: State)
    requires SwappedStep(SwappedStep(s, g), h) == t
    ensures SwappedExec(s, [g, h]) == t
  {
    SwappedTurn(SwappedStep(s, g), h, t);
    assert [g, h][1..] == [h];
  }

  // Hart 0 waits, hart 1 arrives last and opens the barrier.
  lemma SwappedOpens()
    ensures SwappedExec(Init(2), [0, 0] + [1, 1])
         == Two(2, false, Hart(Spinning, true, 1, 0), Hart(Flipping, true, 1, 0), 0)
  {
    var out := Hart(Out, false, 0, 0);
    var spin := Hart(Spinning, true, 1, 0);
    assert Init(2) == Two(0, false, out, out, 0);
    SwappedTwo(Init(2), 0, 0, Two(1, false, spin, out, 0));
    SwappedTwo(Two(1, false, spin, out, 0), 1, 1, Two(2, false, spin, Hart(Flipping, true, 1, 0), 0));
    SwappedConcat(Init(2), [0, 0], [1, 1]);
  }

  // Hart 0 leaves and arrives again before hart 1 resets the counter.
  lemma SwappedOvertakes()
    ensures SwappedExec(Two(2, false, Hart(Spinning, true, 1, 0), Hart(Flipping, true, 1, 0), 0), [1, 0] + [0, 0])
         == Two(3, true, Hart(Spinning, false, 2, 1), Hart(Resetting, true, 1, 0), 1)
  {
    var s := Two(2, false, Hart(Spinning, true, 1, 0), Hart(Flipping, true, 1, 0), 0);
    var t := Two(2, true, Hart(Out, true, 1, 1), Hart(Resetting, true, 1, 0), 1);
    SwappedTwo(s, 1, 0, t);
    SwappedTwo(t, 0, 0, Two(3, true, Hart(Spinning, false, 2, 1), Hart(Resetting, true, 1, 0), 1));
    SwappedConcat(s, [1, 0], [0, 0]);
  }

  // With the two stores swapped there is a run of two harts after which neither can ever move again,
  // each waiting in its second call for the other; with the source's order NotStuck rules that out.
  lemma SwappedStoresStick(more: seq<nat>)
    ensures var s := SwappedExec(Init(2), ([0, 0] + [1, 1]) + (([1, 0] + [0, 0]) + ([1, 1] + [1])));
            && |s.harts| == 2 && SwappedExec(s, more) == s
            && forall h | 0 <= h < 2 :: s.harts[h].pc.Spinning? && s.harts[h].arrived == 2 && s.harts[h].returned == 1
  {
    var a := Two(2, false, Hart(Spinning, true, 1, 0), Hart(Flipping, true, 1, 0), 0);
    var b := Two(3, true, Hart(Spinning, false, 2, 1), Hart(Resetting, true, 1, 0), 1);
    var c := Two(0, true, Hart(Spinning, false, 2, 1), Hart(Toggled, false, 1, 1), 1);
    var d := Two(1, true, Hart(Spinning, false, 2, 1), Hart(Spinning, false, 2, 1), 1);
    SwappedOpens();
    SwappedOvertakes();
    SwappedTwo(b, 1, 1, c);
    SwappedTurn(c, 1, d);
    SwappedConcat(b, [1, 1], [1]);
    SwappedConcat(a, [1, 0] + [0, 0], [1, 1] + [1]);
    SwappedConcat(Init(2), [0, 0] + [1, 1], ([1, 0] + [0, 0]) + ([1, 1] + [1]));
    SwappedStays(d, more);
  }

  lemma {:induction false} SwappedStays(s: State, more: seq<nat>)
    requires forall h | 0 <= h < |s.harts| :: s.harts[h].pc.Spinning? && s.sense != s.harts[h].threadsense
    ensures SwappedExec(s, more) == s
    decreases |more|
  {
    if more != [] { SwappedStays(s, more[1..]); }
  }
}
