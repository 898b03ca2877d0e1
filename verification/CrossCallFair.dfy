// Every fair run of the cross-call program ends, and ends well: a ranking function over the
// caller, the handlers, the work loops and the final barrier together.
module CrossCallFair {
  import B = Barrier
  import C = CrossCall
  import opened Common
  import opened CrossCallRun

  // ---------------------------------------------------------------- the only descriptor

  // With one descriptor per queue the head a sender loads is null, so its swap never fails.
  predicate HeadNull(c: C.State)
    requires CallShape(c)
  {
    c.senders[0].Loaded? || c.senders[0].Chained? ==> c.senders[0].head == 0
  }

  lemma EmptyWhilePreparing(c: C.State)
    requires CallInv(c) && (c.senders[0].Locked? || c.senders[0].Loaded? || c.senders[0].Chained?)
    ensures c.first == 0
  {
    assert c.stack != [] ==> c.stack[0] in multiset(c.stack) && c.stack[0] == 1;
    assert C.SenderInv(c, 0, c.senders[0]) && C.Node(c, 1) && C.NodeInv(c, 1);
  }

  lemma SendNeverFails(c: C.State)
    requires CallInv(c) && HeadNull(c) && !c.senders[0].Idle?
    ensures var d := C.Step(c, C.Send(0));
            CallShape(d) && HeadNull(d) && SendLeft(d.senders[0]) == SendLeft(c.senders[0]) - 1
    ensures C.Cost(C.Step(c, C.Send(0))) <= C.Cost(c) + 8
  {
    CallStepShape(c, C.Send(0));
    assert C.SenderInv(c, 0, c.senders[0]);
    assert C.Node(c, 1);
    if c.senders[0].Locked? || c.senders[0].Loaded? || c.senders[0].Chained? { EmptyWhilePreparing(c); }
    StackShort(c);
  }

  lemma StackShort(c: C.State)
    requires CallInv(c)
    ensures |c.stack| <= 1
  {
    C.ChainNodes(c.next, c.first, c.stack);
    AllOnes(c.stack);
    assert C.Node(c, 1) && C.NodeInv(c, 1);
  }

  lemma {:induction false} AllOnes(ns: seq<nat>)
    requires forall n | n in ns :: n == 1
    ensures multiset(ns)[1] == |ns|
  {
    if ns != [] {
      C.PopCount(ns);
      assert ns[0] in ns && forall n | n in ns[1..] :: n in ns;
      AllOnes(ns[1..]);
    }
  }

  // Accesses a sender still makes before its ring is done.
  function SendLeft(x: C.Sender): nat {
    match x
    case Free(_) => 5
    case Locked(_) => 4
    case Loaded(_, _) => 3
    case Chained(_, _) => 2
    case Ringing(_) => 1
    case Idle => 0
  }

  // ---------------------------------------------------------------- ranking

  // Accesses hart 0 still makes before the final barrier, spinning not counted.
  function CallerLeft(s: State): nat
    requires Shape(s)
  {
    var n := Nc(s) - 1;
    match s.caller
    case Publishing(r, u) =>
      RoundsLeft(s, r) + n + 3 + if u < Nc(s) then SendLeft(s.calls[u].senders[0]) + 5 * (n - u) else 0
    case Waiting(r, u) => RoundsLeft(s, r) + 2 + if u < Nc(s) then Nc(s) - u else 0
    case Stopping => 1
    case _ => 0
  }

  function RoundsLeft(s: State, r: nat): nat
    requires Shape(s)
  {
    if r < s.rounds then RoundsCost(s.rounds - r, Nc(s)) else 0
  }

  function RoundsCost(k: nat, nc: nat): nat
    requires nc >= 1
  {
    if k == 0 then 0 else 6 * (nc - 1) + 2 + RoundsCost(k - 1, nc)
  }

  // Hart 0's share depends on its own position and on how far each push has come.
  lemma CallerLeftSame(s: State, t: State)
    requires Shape(s) && Shape(t) && Nc(s) == Nc(t) && s.caller == t.caller && s.rounds == t.rounds
    requires forall i | 0 <= i < Nc(s) :: t.calls[i].senders == s.calls[i].senders
    ensures CallerLeft(t) == CallerLeft(s)
  {
  }

  function MainLeft(m: Main): nat { match m case Working => 2 case Leaving => 1 case _ => 0 }

  function TargetsLeft(calls: seq<C.State>, mains: seq<Main>): nat
    requires |calls| == |mains|
  {
    if calls == [] then 0 else C.Cost(calls[0]) + MainLeft(mains[0]) + TargetsLeft(calls[1..], mains[1..])
  }

  function Rank(s: State, base: nat): nat
    requires Shape(s)
  {
    10 * CallerLeft(s) + TargetsLeft(s.calls, s.mains) + B.TotalRemaining(s.bar.harts, base + 1)
  }

  lemma {:induction false} TargetsUpdate(calls: seq<C.State>, mains: seq<Main>, t: nat, c: C.State, m: Main)
    requires |calls| == |mains| && t < |calls|
    ensures TargetsLeft(calls[t := c], mains[t := m])
         == TargetsLeft(calls, mains) - C.Cost(calls[t]) - MainLeft(mains[t]) + C.Cost(c) + MainLeft(m)
  {
    if t == 0 {
      assert calls[0 := c][1..] == calls[1..] && mains[0 := m][1..] == mains[1..];
    } else {
      assert calls[t := c][1..] == calls[1..][t - 1 := c] && mains[t := m][1..] == mains[1..][t - 1 := m];
      TargetsUpdate(calls[1..], mains[1..], t - 1, c, m);
    }
  }

  // ---------------------------------------------------------------- every step counts

  ghost predicate FairInv(s: State, base: nat) {
    Inv(s, base) && !s.timedOut && forall t | 0 < t < Nc(s) :: HeadNull(s.calls[t])
  }

  // The rank after a change at hart h only, and of hart 0's position and the barrier.
  lemma RankAt(s: State, t: State, h: nat, base: nat)
    requires Shape(s) && Shape(t) && h < Nc(s) && Nc(t) == Nc(s)
    requires t.calls == s.calls[h := t.calls[h]] && t.mains == s.mains[h := t.mains[h]]
    ensures TargetsLeft(t.calls, t.mains) - TargetsLeft(s.calls, s.mains)
         == C.Cost(t.calls[h]) + MainLeft(t.mains[h]) - C.Cost(s.calls[h]) - MainLeft(s.mains[h])
  {
    TargetsUpdate(s.calls, s.mains, h, t.calls[h], t.mains[h]);
  }

  lemma ReceiveCost(c: C.State)
    requires CallInv(c)
    ensures var d := C.Step(c, C.Receive);
            CallShape(d) && d.senders == c.senders && if C.Cost(c) > 0 then C.Cost(d) == C.Cost(c) - 1 else d == c
  {
    CallStepShape(c, C.Receive);
    if C.Cost(c) > 0 { C.CostStep(c); }
  }

  lemma InterruptRank(s: State, h: nat, base: nat)
    requires Shape(s) && 0 < h < Nc(s) && CallInv(s.calls[h])
    ensures var t := Step(s, Interrupt(h));
            && Shape(t) && Nc(t) == Nc(s)
            && if C.Cost(s.calls[h]) > 0 then Rank(t, base) < Rank(s, base) else t == s
  {
    InCallShape(s, h, C.Receive);
    ReceiveCost(s.calls[h]);
    var t := InCall(s, h, C.Receive);
    RankAt(s, t, h, base);
    CallerLeftSame(s, t);
    if C.Cost(s.calls[h]) == 0 { assert t.calls == s.calls; }
  }

  lemma WorkRank(s: State, h: nat, base: nat)
    requires Shape(s) && 0 < h < Nc(s) && B.Inv(s.bar) && (s.mains[h].Meeting? ==> s.bar.harts[h].returned == base)
    ensures var t := Step(s, Work(h));
            Shape(t) && Nc(t) == Nc(s) && (t == s || Rank(t, base) < Rank(s, base))
  {
    StepShape(s, Work(h));
    var t := Step(s, Work(h));
    if t != s {
      WorkShape(s, h);
      RankAt(s, t, h, base);
      CallerLeftSame(s, t);
      if s.mains[h].Meeting? { MeetRank(s.bar, h, base); }
    }
  }

  lemma WorkShape(s: State, h: nat)
    requires Shape(s) && 0 < h < Nc(s) && Step(s, Work(h)) != s
    ensures var t := Step(s, Work(h));
            && t.calls == s.calls[h := s.calls[h]] && |t.mains| == |s.mains| && t.mains == s.mains[h := t.mains[h]]
            && t.caller == s.caller && t.rounds == s.rounds
            && (if s.mains[h].Meeting? then t.bar == B.Step(s.bar, h) && MainLeft(t.mains[h]) == 0
                else t.bar == s.bar && MainLeft(t.mains[h]) == MainLeft(s.mains[h]) - 1)
  {
  }

  lemma MeetRank(bar: B.State, h: nat, base: nat)
    requires B.Inv(bar) && h < |bar.harts| && bar.harts[h].returned == base
    ensures var b := B.Step(bar, h);
            b == bar || B.TotalRemaining(b.harts, base + 1) < B.TotalRemaining(bar.harts, base + 1)
  {
    var b := B.Step(bar, h);
    if b != bar {
      assert b.harts == bar.harts[h := b.harts[h]];
      B.TotalUpdate(bar.harts, h, b.harts[h], base + 1);
    }
  }

  lemma PublishRank(s: State, base: nat)
    requires Shape(s) && s.caller.Publishing? && CallerInv(s)
    requires s.caller.t < Nc(s) ==> CallInv(s.calls[s.caller.t]) && HeadNull(s.calls[s.caller.t])
    requires s.caller.t < Nc(s) ==> !s.calls[s.caller.t].senders[0].Idle?
    requires s.caller.t + 1 < Nc(s) ==> s.calls[s.caller.t + 1].senders[0].Free?
    ensures var t := Step(s, Call);
            Shape(t) && Nc(t) == Nc(s) && Rank(t, base) < Rank(s, base)
  {
    StepShape(s, Call);
    var t, u := Step(s, Call), s.caller.t;
    if u < Nc(s) {
      SendNeverFails(s.calls[u]);
      RankAt(s, t, u, base);
      PublishLeft(s);
    }
  }

  lemma PublishLeft(s: State)
    requires Shape(s) && s.caller.Publishing? && s.caller.t < Nc(s) && CallShape(CallStep(s).calls[s.caller.t])
    requires SendLeft(CallStep(s).calls[s.caller.t].senders[0]) == SendLeft(s.calls[s.caller.t].senders[0]) - 1
    requires s.caller.t + 1 < Nc(s) ==> s.calls[s.caller.t + 1].senders[0].Free?
    ensures Shape(CallStep(s)) && CallerLeft(CallStep(s)) == CallerLeft(s) - 1
  {
  }

  lemma WaitRank(s: State, base: nat)
    requires Shape(s) && s.caller.Waiting? && CallerInv(s)
    requires s.caller.t < Nc(s) ==> CallInv(s.calls[s.caller.t]) && s.calls[s.caller.t].senders[0].Idle?
    requires s.caller.t >= Nc(s) > 1 ==> s.calls[1].senders[0].Free?
    ensures var t := Step(s, Call);
            Shape(t) && Nc(t) == Nc(s) && (t == s || Rank(t, base) < Rank(s, base))
  {
    StepShape(s, Call);
    if s.caller.t < Nc(s) { WaitMoveRank(s, base); } else { WaitRoundRank(s, base); }
  }

  lemma WaitMoveRank(s: State, base: nat)
    requires Shape(s) && s.caller.Waiting? && CallerInv(s) && s.caller.t < Nc(s)
    requires CallInv(s.calls[s.caller.t]) && s.calls[s.caller.t].senders[0].Idle?
    ensures var t := CallStep(s);
            Shape(t) && Nc(t) == Nc(s) && (t == s || Rank(t, base) < Rank(s, base))
  {
    var t, u := CallStep(s), s.caller.t;
    if !s.calls[u].flag[1] {
      InCallShape(s, u, C.Reuse(0, 1));
      assert C.Cost(t.calls[u]) == C.Cost(s.calls[u]);
      RankAt(s, t, u, base);
      assert CallerLeft(t) == CallerLeft(s) - 1;
    }
  }

  lemma WaitRoundRank(s: State, base: nat)
    requires Shape(s) && s.caller.Waiting? && CallerInv(s) && s.caller.t >= Nc(s)
    requires Nc(s) > 1 ==> s.calls[1].senders[0].Free?
    ensures var t := CallStep(s);
            Shape(t) && Nc(t) == Nc(s) && Rank(t, base) < Rank(s, base)
  {
    var t, r := CallStep(s), s.caller.r;
    if r < s.rounds {
      assert RoundsCost(s.rounds - r, Nc(s)) == 6 * (Nc(s) - 1) + 2 + RoundsCost(s.rounds - r - 1, Nc(s));
    }
    assert CallerLeft(t) < CallerLeft(s);
  }

  ghost predicate Progress(s: State, t: State, base: nat)
    requires Shape(s)
  {
    FairInv(t, base) && Nc(t) == Nc(s) && t.rounds == s.rounds && (t == s || Rank(t, base) < Rank(s, base))
  }

  lemma CallProgress(s: State, base: nat)
    requires FairInv(s, base)
    ensures Progress(s, Step(s, Call), base)
  {
    StepInv(s, Call, base);
    CallHeads(s, base);
    match s.caller
    case Publishing(r, t) => PublishReady(s, base); PublishRank(s, base);
    case Waiting(r, t) => WaitReady(s, base); WaitRank(s, base);
    case _ => FinishRank(s, base);
  }

  lemma CallHeads(s: State, base: nat)
    requires FairInv(s, base)
    ensures var t := Step(s, Call);
            Shape(t) && Nc(t) == Nc(s) && forall i | 0 < i < Nc(t) :: HeadNull(t.calls[i])
  {
    StepShape(s, Call);
    if s.caller.Publishing? && s.caller.t < Nc(s) {
      assert Stage(s, s.caller.t, s.calls[s.caller.t]);
      SendNeverFails(s.calls[s.caller.t]);
    }
  }

  lemma PublishReady(s: State, base: nat)
    requires FairInv(s, base) && s.caller.Publishing?
    ensures s.caller.t < Nc(s) ==> CallInv(s.calls[s.caller.t]) && HeadNull(s.calls[s.caller.t])
    ensures s.caller.t < Nc(s) ==> !s.calls[s.caller.t].senders[0].Idle?
    ensures s.caller.t + 1 < Nc(s) ==> s.calls[s.caller.t + 1].senders[0].Free?
  {
    if s.caller.t < Nc(s) { assert Stage(s, s.caller.t, s.calls[s.caller.t]); }
    if s.caller.t + 1 < Nc(s) { assert Stage(s, s.caller.t + 1, s.calls[s.caller.t + 1]); }
  }

  lemma WaitReady(s: State, base: nat)
    requires FairInv(s, base) && s.caller.Waiting?
    ensures s.caller.t < Nc(s) ==> CallInv(s.calls[s.caller.t]) && s.calls[s.caller.t].senders[0].Idle?
    ensures s.caller.t >= Nc(s) > 1 ==> s.calls[1].senders[0].Free?
  {
    if s.caller.t < Nc(s) { assert Stage(s, s.caller.t, s.calls[s.caller.t]); }
    if 1 < Nc(s) { assert Stage(s, 1, s.calls[1]); }
  }

  lemma FinishRank(s: State, base: nat)
    requires Shape(s) && B.Inv(s.bar) && !s.caller.Publishing? && !s.caller.Waiting?
    requires s.caller.Finishing? ==> s.bar.harts[0].returned == base
    ensures var t := Step(s, Call);
            Shape(t) && Nc(t) == Nc(s) && (t == s || Rank(t, base) < Rank(s, base))
  {
    StepShape(s, Call);
    if s.caller.Finishing? { MeetRank(s.bar, 0, base); }
  }

  lemma InterruptProgress(s: State, h: nat, base: nat)
    requires FairInv(s, base) && 0 < h < Nc(s)
    ensures Progress(s, Step(s, Interrupt(h)), base)
  {
    StepInv(s, Interrupt(h), base);
    InterruptRank(s, h, base);
    ReceiveCost(s.calls[h]);
    HeadsKept(s, h, C.Step(s.calls[h], C.Receive), base);
  }

  lemma HeadsKept(s: State, h: nat, d: C.State, base: nat)
    requires FairInv(s, base) && 0 < h < Nc(s) && CallShape(d) && d.senders == s.calls[h].senders
    ensures var calls := s.calls[h := d];
            forall i | 0 < i < |calls| :: CallShape(calls[i]) && HeadNull(calls[i])
  {
  }

  lemma WorkProgress(s: State, h: nat, base: nat)
    requires FairInv(s, base) && 0 < h < Nc(s)
    ensures Progress(s, Step(s, Work(h)), base)
  {
    StepInv(s, Work(h), base);
    assert Met(s, h, base, s.mains[h].Meeting?, s.mains[h].Exited?);
    WorkRank(s, h, base);
  }

  lemma StepProgress(s: State, e: Event, base: nat)
    requires FairInv(s, base) && e != Timeout
    ensures Progress(s, Step(s, e), base)
  {
    match e
    case Call => CallProgress(s, base);
    case Work(t) => if 0 < t < Nc(s) { WorkProgress(s, t, base); }
    case Interrupt(t) => if 0 < t < Nc(s) { InterruptProgress(s, t, base); }
  }

  // ---------------------------------------------------------------- never stuck

  predicate Done(s: State)
    requires Shape(s)
  {
    s.caller.Judging? && forall t | 0 < t < Nc(s) :: s.mains[t].Exited?
  }

  // The events of which every fair round has one.
  predicate Due(nc: nat, e: Event) {
    e.Call? || (e.Work? && 0 < e.t < nc) || (e.Interrupt? && 0 < e.t < nc)
  }

  lemma NotStuck(s: State, base: nat) returns (e: Event)
    requires FairInv(s, base) && !Done(s)
    ensures Due(Nc(s), e) && Step(s, e) != s
  {
    if t: nat :| 0 < t < Nc(s) && C.Cost(s.calls[t]) > 0 {
      InterruptRank(s, t, base);
      return Interrupt(t);
    }
    match s.caller {
      case Publishing(r, u) => CallerMoves(s, base); return Call;
      case Waiting(r, u) => CallerMoves(s, base); return Call;
      case Stopping => return Call;
      case _ => e := EndMoves(s, base);
    }
  }

  lemma CallerMoves(s: State, base: nat)
    requires FairInv(s, base) && (s.caller.Publishing? || s.caller.Waiting?)
    requires forall t | 0 < t < Nc(s) :: C.Cost(s.calls[t]) == 0
    ensures Step(s, Call) != s
  {
    var u := s.caller.t;
    if u < Nc(s) {
      var c := s.calls[u];
      assert Stage(s, u, c);
      if s.caller.Publishing? {
        SendNeverFails(c);
        assert Step(s, Call).calls[u] != c;
      } else {
        // Nothing left to drain: the flag is clear.
        assert C.Node(c, 1) && C.NodeInv(c, 1) && c.stack == [] && c.held == [];
      }
    }
  }

  // From `stop` on: a hart outside the barrier walks in, and one inside it can always move.
  lemma EndMoves(s: State, base: nat) returns (e: Event)
    requires FairInv(s, base) && !Done(s) && (s.caller.Finishing? || s.caller.Judging?)
    requires forall t | 0 < t < Nc(s) :: C.Cost(s.calls[t]) == 0
    ensures Due(Nc(s), e) && Step(s, e) != s
  {
    forall t | 0 < t < Nc(s) ensures s.calls[t].target.Running? {
      CostRunning(s.calls[t]);
    }
    if t: nat :| 0 < t < Nc(s) && (s.mains[t].Working? || s.mains[t].Leaving?) {
      assert MainInv(s, t);
      StrayMoves(s, t);
      return Work(t);
    }
    e := BarrierMoves(s, base);
  }

  lemma CostRunning(c: C.State)
    requires C.Shape(c) && C.TargetInv(c) && C.Cost(c) == 0
    ensures c.target.Running?
  {
  }

  lemma StrayMoves(s: State, t: nat)
    requires Shape(s) && 0 < t < Nc(s) && s.calls[t].target.Running? && s.stop
    requires s.mains[t].Working? || s.mains[t].Leaving?
    ensures Step(s, Work(t)) != s
  {
    assert Step(s, Work(t)).mains[t] != s.mains[t];
  }

  lemma BarrierMoves(s: State, base: nat) returns (e: Event)
    requires Inv(s, base) && !Done(s) && (s.caller.Finishing? || s.caller.Judging?)
    requires forall t | 0 < t < Nc(s) :: s.calls[t].target.Running? && (s.mains[t].Meeting? || s.mains[t].Exited?)
    ensures Due(Nc(s), e) && Step(s, e) != s
  {
    var h: nat := MeetingHart(s, base);
    if !B.Enabled(s.bar, h) {
      h := B.SomeoneElse(s.bar, h);
    }
    B.Moves(s.bar, h, base + 1);
    if h == 0 {
      FinishMoves(s, base);
      return Call;
    }
    MeetMoves(s, h, base);
    return Work(h);
  }

  lemma FinishMoves(s: State, base: nat)
    requires Shape(s) && B.Step(s.bar, 0) != s.bar && s.bar.harts[0].returned <= base
    requires s.caller.Finishing? || s.caller.Judging?
    requires Met(s, 0, base, s.caller.Finishing?, s.caller.Judging?)
    ensures Step(s, Call) != s
  {
    assert s.caller.Finishing?;
  }

  lemma MeetMoves(s: State, h: nat, base: nat)
    requires Shape(s) && 0 < h < Nc(s) && B.Step(s.bar, h) != s.bar && s.bar.harts[h].returned <= base
    requires Met(s, h, base, s.mains[h].Meeting?, s.mains[h].Exited?) && s.calls[h].target.Running?
    requires s.mains[h].Meeting? || s.mains[h].Exited?
    ensures Step(s, Work(h)) != s
  {
    assert s.mains[h].Meeting?;
  }

  lemma MeetingHart(s: State, base: nat) returns (h: nat)
    requires Inv(s, base) && !Done(s) && (s.caller.Finishing? || s.caller.Judging?)
    requires forall t | 0 < t < Nc(s) :: s.mains[t].Meeting? || s.mains[t].Exited?
    ensures h < Nc(s) && s.bar.harts[h].returned == base
  {
    if s.caller.Finishing? {
      h := 0;
    } else {
      h :| 0 < h < Nc(s) && !s.mains[h].Exited?;
      assert Met(s, h, base, s.mains[h].Meeting?, s.mains[h].Exited?);
    }
  }

  // ---------------------------------------------------------------- fair runs

  // A round: no timeout, and every hart gets a step outside its handler and one inside.
  predicate Round(nc: nat, es: seq<Event>) {
    && Timeout !in es
    && Call in es
    && forall t | 0 < t < nc :: Work(t) in es && Interrupt(t) in es
  }

  lemma {:induction false} ExecConcat(s: State, a: seq<Event>, b: seq<Event>)
    requires Shape(s)
    ensures Shape(Exec(s, a)) && Exec(s, a + b) == Exec(Exec(s, a), b)
    decreases |a|
  {
    if a == [] {
      assert a + b == b;
    } else {
      assert (a + b)[1..] == a[1..] + b;
      StepShape(s, a[0]);
      ExecConcat(Step(s, a[0]), a[1..], b);
    }
  }

  lemma ProgressChain(s: State, t: State, u: State, base: nat)
    requires Shape(s) && Shape(t) && Progress(s, t, base) && Progress(t, u, base)
    ensures Progress(s, u, base) && (u == s ==> t == s)
  {
  }

  lemma StepKeepsDone(s: State, e: Event, base: nat)
    requires FairInv(s, base) && e != Timeout
    ensures Shape(Step(s, e)) && (Done(s) ==> Done(Step(s, e)))
  {
    StepShape(s, e);
  }

  lemma {:induction false} ExecProgress(s: State, es: seq<Event>, base: nat)
    requires FairInv(s, base) && Timeout !in es
    ensures Progress(s, Exec(s, es), base)
    ensures Exec(s, es) == s ==> forall e | e in es :: Step(s, e) == s
    ensures Done(s) ==> Done(Exec(s, es))
    decreases |es|
  {
    if es != [] {
      var e, rest := es[0], es[1..];
      var t := Step(s, e);
      StepProgress(s, e, base);
      StepKeepsDone(s, e, base);
      assert forall x | x in es :: x == e || x in rest;
      ExecProgress(t, rest, base);
      ProgressChain(s, t, Exec(t, rest), base);
    }
  }

  lemma {:induction false} FairCompletion(s: State, rounds: seq<seq<Event>>, base: nat)
    requires FairInv(s, base)
    requires forall r | r in rounds :: Round(Nc(s), r)
    requires |rounds| >= Rank(s, base)
    ensures FairInv(Exec(s, Flatten(rounds)), base) && Done(Exec(s, Flatten(rounds)))
    decreases |rounds|
  {
    if Done(s) {
      FlattenFair(Nc(s), rounds);
      ExecProgress(s, Flatten(rounds), base);
    } else {
      var e := NotStuck(s, base);
      StepProgress(s, e, base);
      assert Round(Nc(s), rounds[0]) && e in rounds[0];
      ExecProgress(s, rounds[0], base);
      ExecConcat(s, rounds[0], Flatten(rounds[1..]));
      FairCompletion(Exec(s, rounds[0]), rounds[1..], base);
    }
  }

  lemma {:induction false} FlattenFair(nc: nat, rounds: seq<seq<Event>>)
    requires forall r | r in rounds :: Round(nc, r)
    ensures Timeout !in Flatten(rounds)
  {
    if rounds != [] {
      assert Round(nc, rounds[0]);
      FlattenFair(nc, rounds[1..]);
    }
  }

  // For every number of harts and rounds, every run that treats all harts fairly and in which
  // hart 0 never gives up ends with every hart out of the final barrier and a positive verdict.
  lemma Completion(nc: nat, rounds: nat, bar: B.State, base: nat, schedule: seq<seq<Event>>)
    requires nc >= 1 && rounds >= 1 && Gathered(bar, nc, base)
    requires Shape(Init(nc, rounds, bar)) && |schedule| >= Rank(Init(nc, rounds, bar), base)
    requires forall r | r in schedule :: Round(nc, r)
    ensures var t := Exec(Init(nc, rounds, bar), Flatten(schedule));
            Shape(t) && Done(t) && Ok(t)
  {
    var s := Init(nc, rounds, bar);
    InitInv(nc, rounds, bar, base);
    FairCompletion(s, schedule, base);
    Verdict(nc, rounds, bar, base, Flatten(schedule));
  }
}
