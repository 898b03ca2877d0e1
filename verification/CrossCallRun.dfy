// The whole program of workloads/benchmarks/mt-crosscall/mt-crosscall.c from `ipi_arm` on:
// hart 0 calls every other hart `rounds` times, then all harts meet in a barrier and hart 0
// judges the run.  Each target's queue is an instance of module CrossCall with one sender and
// one descriptor, number 1; the final barrier is an instance of module Barrier that has already
// completed some episodes.
module CrossCallRun {
  import B = Barrier
  import C = CrossCall

  // Hart 0: publishing to target t in round r, waiting for target t in round r, about to set
  // `stop`, inside the final barrier, past it.
  datatype Caller = Publishing(r: nat, t: nat) | Waiting(r: nat, t: nat) | Stopping | Finishing | Judging

  // Hart t outside its handler: in the work loop, past it, inside the final barrier, past it.
  datatype Main = Working | Leaving | Meeting | Exited

  // `timedOut` is history: hart 0 has taken the timeout exit.
  datatype State = State(
    rounds: nat, calls: seq<C.State>, mains: seq<Main>, caller: Caller,
    roundsDone: seq<nat>, failHart: seq<bool>, stop: bool, bar: B.State, timedOut: bool)

  // `Call`: hart 0's next access.  `Timeout`: hart 0, finding a flag still set, gives up.
  // `Work(t)`: hart t's next access outside the handler.  `Interrupt(t)`: its next one inside, or
  // the trap itself.
  datatype Event = Call | Timeout | Work(t: nat) | Interrupt(t: nat)

  function NewCall(): C.State { C.Step(C.Init(1, [0, 0]), C.Reuse(0, 1)) }

  function Init(nc: nat, rounds: nat, bar: B.State): State {
    State(rounds, seq(nc, _ => NewCall()), seq(nc, _ => Working), Publishing(1, 1),
          seq(nc, _ => 0), seq(nc, _ => false), false, bar, false)
  }

  predicate CallShape(c: C.State) {
    C.Shape(c) && |c.next| == 2 && c.owner == [0, 0] && |c.senders| == 1 && c.releases[0] == 0
  }

  predicate Shape(s: State) {
    && |s.calls| == |s.mains| == |s.roundsDone| == |s.failHart| == |s.bar.harts| >= 1
    && forall t | 0 <= t < |s.calls| :: CallShape(s.calls[t])
  }

  function Nc(s: State): nat { |s.calls| }

  function InCall(s: State, t: nat, e: C.Event): State
    requires Shape(s) && t < Nc(s)
  {
    s.(calls := s.calls[t := C.Step(s.calls[t], e)])
  }

  // A hart's step inside the final barrier; `Back` tells that it was the return.
  function MeetStep(s: State, h: nat): State { s.(bar := B.Step(s.bar, h)) }

  predicate Back(s: State, h: nat)
    requires Shape(s) && h < Nc(s)
  {
    B.StepSize(s.bar, h);
    B.Step(s.bar, h).harts[h].returned > s.bar.harts[h].returned
  }

  function CallStep(s: State): State
    requires Shape(s)
  {
    match s.caller
    case Publishing(r, t) =>
      if t < Nc(s) then
        InCall(s, t, C.Send(0)).(caller := if s.calls[t].senders[0].Ringing? then Publishing(r, t + 1) else s.caller)
      else s.(caller := Waiting(r, 1))
    case Waiting(r, t) =>
      if t < Nc(s) then
        if s.calls[t].flag[1] then s else InCall(s, t, C.Reuse(0, 1)).(caller := Waiting(r, t + 1))
      else
        s.(roundsDone := s.roundsDone[0 := r], caller := if r < s.rounds then Publishing(r + 1, 1) else Stopping)
    case Stopping => s.(stop := true, caller := Finishing)
    case Finishing => MeetStep(s, 0).(caller := if Back(s, 0) then Judging else Finishing)
    case Judging => s
  }

  function WorkStep(s: State, t: nat): State
    requires Shape(s)
  {
    if !(0 < t < Nc(s)) || !s.calls[t].target.Running? then s else
    match s.mains[t]
    case Working => if s.stop then s.(mains := s.mains[t := Leaving]) else s
    case Leaving => s.(roundsDone := s.roundsDone[t := s.calls[t].served], mains := s.mains[t := Meeting])
    case Meeting => MeetStep(s, t).(mains := if Back(s, t) then s.mains[t := Exited] else s.mains)
    case Exited => s
  }

  function Step(s: State, e: Event): State
    requires Shape(s)
  {
    match e
    case Call => CallStep(s)
    case Timeout =>
      if s.caller.Waiting? && 0 < s.caller.t < Nc(s) && s.calls[s.caller.t].flag[1]
      then s.(failHart := s.failHart[s.caller.t := true], caller := Stopping, timedOut := true)
      else s
    case Work(t) => WorkStep(s, t)
    case Interrupt(t) => if 0 < t < Nc(s) then InCall(s, t, C.Receive) else s
  }

  lemma CallStepShape(c: C.State, e: C.Event)
    requires CallShape(c)
    ensures CallShape(C.Step(c, e))
  {
    C.StepShape(c, e);
  }

  lemma InCallShape(s: State, t: nat, e: C.Event)
    requires Shape(s) && t < Nc(s)
    ensures Shape(InCall(s, t, e)) && Nc(InCall(s, t, e)) == Nc(s)
  {
    CallStepShape(s.calls[t], e);
  }

  lemma CallStateShape(s: State)
    requires Shape(s)
    ensures Shape(CallStep(s)) && Nc(CallStep(s)) == Nc(s)
  {
    B.StepSize(s.bar, 0);
    if s.caller.Publishing? && s.caller.t < Nc(s) { InCallShape(s, s.caller.t, C.Send(0)); }
    if s.caller.Waiting? && s.caller.t < Nc(s) { InCallShape(s, s.caller.t, C.Reuse(0, 1)); }
  }

  lemma StepShape(s: State, e: Event)
    requires Shape(s)
    ensures Shape(Step(s, e)) && Nc(Step(s, e)) == Nc(s)
  {
    match e
    case Call => CallStateShape(s);
    case Work(t) => B.StepSize(s.bar, t);
    case Interrupt(t) => if t < Nc(s) { InCallShape(s, t, C.Receive); }
    case Timeout =>
  }

  function Exec(s: State, es: seq<Event>): State
    requires Shape(s)
    decreases |es|
  {
    if es == [] then s else
    StepShape(s, es[0]);
    Exec(Step(s, es[0]), es[1..])
  }

  // What hart 0 computes at the end.
  predicate Ok(s: State)
    requires Shape(s)
  {
    && s.roundsDone[0] == s.rounds
    && forall t | 1 <= t < Nc(s) :: !s.failHart[t] && s.calls[t].served == s.rounds
  }

  // ---------------------------------------------------------------- the invariant

  ghost predicate CallInv(c: C.State) { CallShape(c) && C.Inv(c) && C.ServedInv(c) }

  // Where hart t's descriptor stands, given hart 0's position.
  predicate Stage(s: State, t: nat, c: C.State)
    requires CallShape(c)
  {
    match s.caller
    case Publishing(r, u) =>
      if t < u then c.senders[0].Idle? && c.pushes[1] == r
      else if t == u then
        !c.senders[0].Idle? && c.pushes[1] == (if c.senders[0].Ringing? then r else r - 1)
      else c.senders[0].Free? && c.pushes[1] == r - 1
    case Waiting(r, u) => c.pushes[1] == r && if t < u then c.senders[0].Free? else c.senders[0].Idle?
    case _ => !s.timedOut ==> c.senders[0].Free? && c.pushes[1] == s.rounds
  }

  predicate CallerInv(s: State)
    requires Shape(s)
  {
    match s.caller
    case Publishing(r, u) => 1 <= r <= s.rounds && 1 <= u && !s.stop && !s.timedOut && s.roundsDone[0] == r - 1
    case Waiting(r, u) => 1 <= r <= s.rounds && 1 <= u && !s.stop && !s.timedOut && s.roundsDone[0] == r - 1
    case Stopping => !s.stop && (s.roundsDone[0] == s.rounds <==> !s.timedOut)
    case _ => s.stop && (s.roundsDone[0] == s.rounds <==> !s.timedOut)
  }

  predicate MainInv(s: State, t: nat)
    requires Shape(s) && 0 < t < Nc(s)
  {
    && (!s.mains[t].Working? ==> s.stop)
    && (!s.mains[t].Working? && !s.timedOut ==> s.calls[t].served == s.rounds)
    && (s.mains[t].Meeting? || s.mains[t].Exited? ==> !s.timedOut ==> s.roundsDone[t] == s.rounds)
    && (s.failHart[t] ==> s.timedOut)
  }

  predicate Met(s: State, h: nat, base: nat, inside: bool, past: bool)
    requires Shape(s) && h < Nc(s)
  {
    var hart := s.bar.harts[h];
    && (past ==> hart.pc.Out? && hart.returned == base + 1)
    && (inside ==> hart.returned == base)
    && (!past && !inside ==> hart.pc.Out? && hart.arrived == base)
  }

  ghost predicate Inv(s: State, base: nat) {
    && Shape(s)
    && (forall t | 0 < t < Nc(s) :: CallInv(s.calls[t]) && Stage(s, t, s.calls[t]) && MainInv(s, t))
    && CallerInv(s)
    && B.Inv(s.bar)
    && Met(s, 0, base, s.caller.Finishing?, s.caller.Judging?)
    && (forall t | 0 < t < Nc(s) :: Met(s, t, base, s.mains[t].Meeting?, s.mains[t].Exited?))
  }

  // ---------------------------------------------------------------- one call

  // A descriptor its sender found free has been released as often as it was published.
  lemma FreeIsReleased(c: C.State)
    requires CallInv(c) && c.senders[0].Free?
    ensures c.held == [] && c.pushes[1] == c.releases[1] && !c.flag[1]
    ensures c.served + (if c.target.Counting? then 1 else 0) == c.pushes[1]
  {
    assert C.Node(c, 1);
    assert C.SenderInv(c, 0, c.senders[0]) && C.NodeInv(c, 1);
    OnlyOne(c);
    assert C.Total(c.releases) == c.releases[1] by { TotalTwo(c); }
  }

  lemma TotalTwo(c: C.State)
    requires CallInv(c)
    ensures C.Total(c.releases) == c.releases[0] + c.releases[1] == c.releases[1]
  {
    assert c.releases == [c.releases[0]] + [c.releases[1]];
    assert c.releases[1..] == [c.releases[1]] && C.Total([c.releases[1]]) == c.releases[1] + C.Total([]);
  }

  // The only descriptor is number 1.
  lemma OnlyOne(c: C.State)
    requires CallInv(c)
    ensures c.held != [] ==> c.held[0] == 1 && C.Copies(c, 1) >= 1
  {
  }

  lemma CallStepInv(c: C.State, e: C.Event)
    requires CallInv(c)
    ensures CallInv(C.Step(c, e))
  {
    CallStepShape(c, e);
    C.StepInv(c, e);
    C.StepServed(c, e);
  }

  lemma SendFacts(c: C.State)
    requires CallInv(c) && !c.senders[0].Idle?
    ensures var d := C.Step(c, C.Send(0));
            && CallInv(d) && d.served == c.served
            && (c.senders[0].Ringing? <==> d.senders[0].Idle?)
            && d.pushes[1] == c.pushes[1] + if d.senders[0].Ringing? then 1 else 0
  {
    CallStepInv(c, C.Send(0));
    assert C.SenderInv(c, 0, c.senders[0]);
  }

  lemma ReuseFacts(c: C.State)
    requires CallInv(c) && c.senders[0].Idle? && !c.flag[1]
    ensures var d := C.Step(c, C.Reuse(0, 1));
            CallInv(d) && d.served == c.served && d.senders[0].Free? && d.pushes[1] == c.pushes[1]
  {
    CallStepInv(c, C.Reuse(0, 1));
  }

  lemma ReceiveFacts(c: C.State)
    requires CallInv(c)
    ensures var d := C.Step(c, C.Receive);
            && CallInv(d) && d.senders == c.senders && d.pushes == c.pushes
            && d.served == c.served + if c.target.Counting? then 1 else 0
  {
    CallStepInv(c, C.Receive);
  }

  // ---------------------------------------------------------------- preservation

  lemma InitInv(nc: nat, rounds: nat, bar: B.State, base: nat)
    requires nc >= 1 && rounds >= 1
    requires B.Inv(bar) && |bar.harts| == nc
    requires forall h | 0 <= h < nc :: bar.harts[h].pc.Out? && bar.harts[h].arrived == base
    ensures Inv(Init(nc, rounds, bar), base)
  {
    var s := Init(nc, rounds, bar);
    C.InitInv(1, [0, 0]);
    assert C.Init(1, [0, 0]).releases[0] == 0;
    assert C.Total([0]) == 0 + C.Total([]);
    assert C.Init(1, [0, 0]).releases == [0, 0] && [0, 0][1..] == [0];
    assert CallInv(C.Init(1, [0, 0]));
    ReuseFacts(C.Init(1, [0, 0]));
    forall h | 0 <= h < nc ensures B.HartInv(bar, bar.harts[h]) {}
  }

  // Replacing one queue, and hart 0's position, by ones that fit together.
  lemma CallFrame(s: State, t: State, u: nat, base: nat)
    requires Inv(s, base) && 0 < u < Nc(s) && Nc(t) == Nc(s) && !s.stop
    requires t == s.(calls := s.calls[u := t.calls[u]], caller := t.caller)
    requires CallInv(t.calls[u]) && CallerInv(t) && !t.caller.Finishing? && !t.caller.Judging?
    requires forall i | 0 < i < Nc(s) :: Stage(t, i, t.calls[i])
    ensures Inv(t, base)
  {
    assert Shape(t) by { assert CallShape(t.calls[u]); }
    forall i | 0 < i < Nc(t) ensures CallInv(t.calls[i]) && MainInv(t, i) {
      assert CallInv(s.calls[i]) && MainInv(s, i);
    }
  }

  lemma PublishInv(s: State, base: nat)
    requires Inv(s, base) && s.caller.Publishing?
    ensures Inv(Step(s, Call), base)
  {
    StepShape(s, Call);
    var t, u := Step(s, Call), s.caller.t;
    if u < Nc(s) {
      assert Stage(s, u, s.calls[u]);
      SendFacts(s.calls[u]);
      forall i | 0 < i < Nc(s) ensures Stage(t, i, t.calls[i]) {
        assert Stage(s, i, s.calls[i]);
      }
      CallFrame(s, t, u, base);
    } else {
      forall i | 0 < i < Nc(s) ensures Stage(t, i, t.calls[i]) && MainInv(t, i) {
        assert Stage(s, i, s.calls[i]) && MainInv(s, i);
      }
    }
  }

  lemma WaitMoveInv(s: State, base: nat)
    requires Inv(s, base) && s.caller.Waiting? && s.caller.t < Nc(s) && !s.calls[s.caller.t].flag[1]
    ensures Inv(Step(s, Call), base)
  {
    StepShape(s, Call);
    var t, u := Step(s, Call), s.caller.t;
    assert Stage(s, u, s.calls[u]);
    ReuseFacts(s.calls[u]);
    forall i | 0 < i < Nc(s) ensures Stage(t, i, t.calls[i]) {
      assert Stage(s, i, s.calls[i]);
    }
    CallFrame(s, t, u, base);
  }

  lemma WaitInv(s: State, base: nat)
    requires Inv(s, base) && s.caller.Waiting?
    ensures Inv(Step(s, Call), base)
  {
    if s.caller.t < Nc(s) {
      if !s.calls[s.caller.t].flag[1] { WaitMoveInv(s, base); }
    } else {
      StepShape(s, Call);
      var t := Step(s, Call);
      forall i | 0 < i < Nc(s) ensures Stage(t, i, t.calls[i]) && MainInv(t, i) {
        assert Stage(s, i, s.calls[i]) && MainInv(s, i);
      }
    }
  }

  lemma TimeoutInv(s: State, base: nat)
    requires Inv(s, base)
    ensures Inv(Step(s, Timeout), base)
  {
    StepShape(s, Timeout);
    var t := Step(s, Timeout);
    if t != s {
      forall i | 0 < i < Nc(s) ensures Stage(t, i, t.calls[i]) && MainInv(t, i) {
        assert Stage(s, i, s.calls[i]) && MainInv(s, i);
      }
    }
  }

  // What one step of hart h in the barrier does to the bookkeeping of all harts.
  lemma MeetFacts(s: State, h: nat, base: nat)
    requires Shape(s) && B.Inv(s.bar) && h < Nc(s) && s.bar.harts[h].returned == base
    ensures var b := B.Step(s.bar, h);
            && B.Inv(b) && |b.harts| == |s.bar.harts|
            && (forall i | 0 <= i < Nc(s) && i != h :: b.harts[i] == s.bar.harts[i])
            && (Back(s, h) ==> b.harts[h].pc.Out? && b.harts[h].returned == base + 1)
            && (!Back(s, h) ==> b.harts[h].returned == base)
  {
    B.StepInv(s.bar, h);
  }

  lemma FinishInv(s: State, base: nat)
    requires Inv(s, base) && (s.caller.Stopping? || s.caller.Finishing? || s.caller.Judging?)
    ensures Inv(Step(s, Call), base)
  {
    StepShape(s, Call);
    var t := Step(s, Call);
    assert B.HartInv(s.bar, s.bar.harts[0]);
    if s.caller.Finishing? { MeetFacts(s, 0, base); }
    forall i | 0 < i < Nc(s) ensures Stage(t, i, t.calls[i]) && MainInv(t, i) {
      assert Stage(s, i, s.calls[i]) && MainInv(s, i);
    }
    forall i | 0 < i < Nc(s) ensures Met(t, i, base, t.mains[i].Meeting?, t.mains[i].Exited?) {
      assert Met(s, i, base, s.mains[i].Meeting?, s.mains[i].Exited?);
    }
  }

  // Replacing what hart h, outside its handler, may change: its position and its count.
  lemma WorkFrame(s: State, t: State, h: nat, base: nat)
    requires Inv(s, base) && 0 < h < Nc(s) && |t.mains| == |t.roundsDone| == Nc(s)
    requires t == s.(mains := s.mains[h := t.mains[h]], roundsDone := s.roundsDone[h := t.roundsDone[h]])
    requires MainInv(t, h) && Met(t, h, base, t.mains[h].Meeting?, t.mains[h].Exited?)
    ensures Inv(t, base)
  {
    forall i | 0 < i < Nc(s) ensures Stage(t, i, t.calls[i]) && MainInv(t, i) {
      assert Stage(s, i, s.calls[i]) && MainInv(s, i);
    }
    forall i | 0 < i < Nc(s) ensures Met(t, i, base, t.mains[i].Meeting?, t.mains[i].Exited?) {
      assert Met(s, i, base, s.mains[i].Meeting?, s.mains[i].Exited?);
    }
  }

  // A target's step in the barrier leaves every queue and every other hart alone.
  lemma MeetQueues(s: State, h: nat, base: nat)
    requires Inv(s, base) && 0 < h < Nc(s) && s.mains[h].Meeting? && s.calls[h].target.Running?
    ensures var t := Step(s, Work(h));
            && Shape(t) && Nc(t) == Nc(s) && CallerInv(t)
            && forall i | 0 < i < Nc(t) :: CallInv(t.calls[i]) && Stage(t, i, t.calls[i]) && MainInv(t, i)
  {
    StepShape(s, Work(h));
    var t := Step(s, Work(h));
    forall i | 0 < i < Nc(s) ensures Stage(t, i, t.calls[i]) && MainInv(t, i) {
      assert Stage(s, i, s.calls[i]) && MainInv(s, i);
    }
  }

  lemma TargetMeetInv(s: State, h: nat, base: nat)
    requires Inv(s, base) && 0 < h < Nc(s) && s.mains[h].Meeting? && s.calls[h].target.Running?
    ensures Inv(Step(s, Work(h)), base)
  {
    var t := Step(s, Work(h));
    MeetQueues(s, h, base);
    MeetFacts(s, h, base);
    forall i | 0 < i < Nc(s) ensures Met(t, i, base, t.mains[i].Meeting?, t.mains[i].Exited?) {
      assert Met(s, i, base, s.mains[i].Meeting?, s.mains[i].Exited?);
    }
  }

  lemma WorkInv(s: State, h: nat, base: nat)
    requires Inv(s, base)
    ensures Inv(Step(s, Work(h)), base)
  {
    var t := Step(s, Work(h));
    if t != s {
      if s.mains[h].Meeting? {
        TargetMeetInv(s, h, base);
      } else {
        assert Met(s, h, base, s.mains[h].Meeting?, s.mains[h].Exited?);
        assert B.HartInv(s.bar, s.bar.harts[h]);
        assert Stage(s, h, s.calls[h]) && MainInv(s, h);
        if !s.timedOut { FreeIsReleased(s.calls[h]); }
        WorkFrame(s, t, h, base);
      }
    }
  }

  // Replacing one queue by one that fits hart 0's position and the target's own.
  lemma QueueFrame(s: State, t: State, h: nat, base: nat)
    requires Inv(s, base) && 0 < h < Nc(s) && Nc(t) == Nc(s) && t == s.(calls := s.calls[h := t.calls[h]])
    requires CallInv(t.calls[h]) && Stage(t, h, t.calls[h]) && Shape(t) && MainInv(t, h)
    ensures Inv(t, base)
  {
    forall i | 0 < i < Nc(s) ensures CallInv(t.calls[i]) && Stage(t, i, t.calls[i]) && MainInv(t, i) {
      assert CallInv(s.calls[i]) && Stage(s, i, s.calls[i]) && MainInv(s, i);
    }
    forall i | 0 < i < Nc(s) ensures Met(t, i, base, t.mains[i].Meeting?, t.mains[i].Exited?) {
      assert Met(s, i, base, s.mains[i].Meeting?, s.mains[i].Exited?);
    }
  }

  lemma InterruptInv(s: State, h: nat, base: nat)
    requires Inv(s, base)
    ensures Inv(Step(s, Interrupt(h)), base)
  {
    StepShape(s, Interrupt(h));
    var t := Step(s, Interrupt(h));
    if 0 < h < Nc(s) {
      ReceiveFacts(s.calls[h]);
      assert Stage(s, h, s.calls[h]) && MainInv(s, h);
      if s.stop && !s.timedOut { FreeIsReleased(s.calls[h]); }
      QueueFrame(s, t, h, base);
    }
  }

  lemma StepInv(s: State, e: Event, base: nat)
    requires Inv(s, base)
    ensures Inv(Step(s, e), base)
  {
    match e
    case Call =>
      if s.caller.Publishing? { PublishInv(s, base); }
      else if s.caller.Waiting? { WaitInv(s, base); }
      else { FinishInv(s, base); }
    case Timeout => TimeoutInv(s, base);
    case Work(t) => WorkInv(s, t, base);
    case Interrupt(t) => InterruptInv(s, t, base);
  }

  lemma {:induction false} ExecInv(s: State, es: seq<Event>, base: nat)
    requires Inv(s, base)
    ensures Inv(Exec(s, es), base)
    decreases |es|
  {
    if es != [] {
      StepInv(s, es[0], base);
      ExecInv(Step(s, es[0]), es[1..], base);
    }
  }

  // ---------------------------------------------------------------- theorems

  // The state in which every hart is out of the barrier after the same number of episodes.
  ghost predicate Gathered(bar: B.State, nc: nat, base: nat) {
    B.Inv(bar) && |bar.harts| == nc && forall h | 0 <= h < nc :: bar.harts[h].pc.Out? && bar.harts[h].arrived == base
  }

  // For every number of harts and rounds and every interleaving: when hart 0 is past the final
  // barrier its verdict is positive exactly when it never timed out.
  lemma Verdict(nc: nat, rounds: nat, bar: B.State, base: nat, es: seq<Event>)
    requires nc >= 1 && rounds >= 1 && Gathered(bar, nc, base)
    ensures Shape(Init(nc, rounds, bar))
    ensures var s := Exec(Init(nc, rounds, bar), es);
            && Shape(s)
            && (s.caller.Judging? ==> (Ok(s) <==> !s.timedOut))
            && (s.caller.Judging? && !s.timedOut ==> forall t | 1 <= t < Nc(s) :: s.roundsDone[t] == rounds)
  {
    InitInv(nc, rounds, bar, base);
    ExecInv(Init(nc, rounds, bar), es, base);
    ExecRounds(Init(nc, rounds, bar), es);
    var s := Exec(Init(nc, rounds, bar), es);
    if s.caller.Judging? {
      forall t | 1 <= t < Nc(s) ensures s.mains[t].Meeting? || s.mains[t].Exited? {
        B.SafeState(s.bar, 0, t);
        assert Met(s, t, base, s.mains[t].Meeting?, s.mains[t].Exited?);
      }
      forall t | 1 <= t < Nc(s) && !s.timedOut
        ensures s.calls[t].served == s.rounds && !s.failHart[t] && s.roundsDone[t] == s.rounds
      {
        assert MainInv(s, t);
      }
    }
  }

  lemma {:induction false} ExecRounds(s: State, es: seq<Event>)
    requires Shape(s)
    ensures Exec(s, es).rounds == s.rounds
    decreases |es|
  {
    if es != [] {
      StepShape(s, es[0]);
      ExecRounds(Step(s, es[0]), es[1..]);
    }
  }

  // While hart 0 waits in round r, a target whose flag it has seen clear has served r calls, or
  // r-1 with the increment still to come.
  lemma ServedDuringWait(nc: nat, rounds: nat, bar: B.State, base: nat, es: seq<Event>, t: nat)
    requires nc >= 1 && rounds >= 1 && Gathered(bar, nc, base) && 0 < t < nc
    ensures Shape(Init(nc, rounds, bar))
    ensures var s := Exec(Init(nc, rounds, bar), es);
            && Shape(s) && Nc(s) == nc
            && (s.caller.Waiting? && t < s.caller.t ==>
                  s.calls[t].served + (if s.calls[t].target.Counting? then 1 else 0) == s.caller.r)
  {
    InitInv(nc, rounds, bar, base);
    ExecInv(Init(nc, rounds, bar), es, base);
    ExecNc(Init(nc, rounds, bar), es);
    var s := Exec(Init(nc, rounds, bar), es);
    if s.caller.Waiting? && t < s.caller.t {
      assert Stage(s, t, s.calls[t]);
      FreeIsReleased(s.calls[t]);
    }
  }

  lemma {:induction false} ExecNc(s: State, es: seq<Event>)
    requires Shape(s)
    ensures Shape(Exec(s, es)) && Nc(Exec(s, es)) == Nc(s)
    decreases |es|
  {
    if es != [] {
      StepShape(s, es[0]);
      ExecNc(Step(s, es[0]), es[1..]);
    }
  }

  // ---------------------------------------------------------------- whom a timeout blames

  // Hart 0, waiting for hart t and finding its flag set, gives up.
  predicate GivesUpOn(s: State, e: Event, t: nat)
    requires Shape(s)
  {
    e == Timeout && 0 < t < Nc(s) && s.caller.Waiting? && s.caller.t == t && s.calls[t].flag[1]
  }

  ghost predicate GaveUpOn(s: State, es: seq<Event>, t: nat)
    requires Shape(s)
  {
    exists k: nat :: k < |es| && Shape(Exec(s, es[..k])) && GivesUpOn(Exec(s, es[..k]), es[k], t)
  }

  lemma StepBlames(s: State, e: Event, t: nat)
    requires Shape(s) && 0 < t < Nc(s)
    ensures Shape(Step(s, e)) && Nc(Step(s, e)) == Nc(s)
    ensures Step(s, e).failHart[t] <==> s.failHart[t] || GivesUpOn(s, e, t)
  {
    StepShape(s, e);
  }

  lemma GaveUpLater(s: State, es: seq<Event>, t: nat)
    requires Shape(s) && es != [] && Shape(Step(s, es[0]))
    ensures GaveUpOn(Step(s, es[0]), es[1..], t) ==> GaveUpOn(s, es, t)
  {
    var u, rest := Step(s, es[0]), es[1..];
    if GaveUpOn(u, rest, t) {
      var k: nat :| k < |rest| && Shape(Exec(u, rest[..k])) && GivesUpOn(Exec(u, rest[..k]), rest[k], t);
      ExecCons(s, es, k);
      assert GivesUpOn(Exec(s, es[..k + 1]), es[k + 1], t);
    }
  }

  lemma GaveUpCons(s: State, es: seq<Event>, t: nat)
    requires Shape(s) && es != [] && Shape(Step(s, es[0]))
    ensures GaveUpOn(s, es, t) <==> GivesUpOn(s, es[0], t) || GaveUpOn(Step(s, es[0]), es[1..], t)
  {
    assert es[..0] == [];
    if GivesUpOn(s, es[0], t) { assert GivesUpOn(Exec(s, es[..0]), es[0], t); }
    GaveUpLater(s, es, t);
    if GaveUpOn(s, es, t) && !GivesUpOn(s, es[0], t) {
      var k: nat :| k < |es| && Shape(Exec(s, es[..k])) && GivesUpOn(Exec(s, es[..k]), es[k], t);
      ExecCons(s, es, k - 1);
      assert GivesUpOn(Exec(Step(s, es[0]), es[1..][..k - 1]), es[1..][k - 1], t);
    }
  }

  lemma ExecCons(s: State, es: seq<Event>, k: nat)
    requires Shape(s) && k + 1 <= |es| && Shape(Step(s, es[0]))
    ensures Exec(s, es[..k + 1]) == Exec(Step(s, es[0]), es[1..][..k])
  {
    assert es[..k + 1][1..] == es[1..][..k];
  }

  lemma {:induction false} BlamedFrom(s: State, es: seq<Event>, t: nat)
    requires Shape(s) && 0 < t < Nc(s)
    ensures Shape(Exec(s, es)) && Nc(Exec(s, es)) == Nc(s)
    ensures Exec(s, es).failHart[t] <==> s.failHart[t] || GaveUpOn(s, es, t)
    decreases |es|
  {
    if es != [] {
      StepBlames(s, es[0], t);
      GaveUpCons(s, es, t);
      BlamedFrom(Step(s, es[0]), es[1..], t);
    }
  }

  // Before hart 0 leaves its rounds nobody is blamed; afterwards one hart is, if it timed out.
  predicate BlameInv(s: State)
    requires Shape(s)
  {
    && (s.caller.Publishing? || s.caller.Waiting? ==> !s.timedOut)
    && (s.timedOut <==> exists t | 0 < t < Nc(s) :: s.failHart[t])
    && (forall t, u | 0 < t < Nc(s) && 0 < u < Nc(s) && s.failHart[t] && s.failHart[u] :: t == u)
  }

  lemma StepBlameInv(s: State, e: Event)
    requires Shape(s) && BlameInv(s)
    ensures Shape(Step(s, e)) && BlameInv(Step(s, e))
  {
    StepShape(s, e);
    var v := Step(s, e);
    if e == Timeout && v != s {
      assert v.failHart[s.caller.t];
    } else {
      assert v.failHart == s.failHart && v.timedOut == s.timedOut;
    }
  }

  lemma {:induction false} ExecBlameInv(s: State, es: seq<Event>)
    requires Shape(s) && BlameInv(s)
    ensures Shape(Exec(s, es)) && BlameInv(Exec(s, es))
    decreases |es|
  {
    if es != [] {
      StepBlameInv(s, es[0]);
      ExecBlameInv(Step(s, es[0]), es[1..]);
    }
  }

  // Over every run the hart that is blamed is the one hart 0 was waiting for, with its flag still set,
  // when it gave up; nobody else is, and somebody is if and only if hart 0 gave up.
  lemma Blamed(nc: nat, rounds: nat, bar: B.State, es: seq<Event>, t: nat)
    requires Shape(Init(nc, rounds, bar)) && 0 < t < nc
    ensures var start := Init(nc, rounds, bar);
            var s := Exec(start, es);
            && Shape(s) && Nc(s) == nc
            && (s.failHart[t] <==> GaveUpOn(start, es, t))
            && (s.failHart[t] ==> s.timedOut && forall u | 0 < u < nc && s.failHart[u] :: u == t)
            && (s.timedOut ==> exists u | 0 < u < nc :: s.failHart[u])
  {
    BlamedFrom(Init(nc, rounds, bar), es, t);
    ExecBlameInv(Init(nc, rounds, bar), es);
  }
}
