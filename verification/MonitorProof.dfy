// What the monitor's counters mean over every run of the reorder buffer.
module MonitorProof {
  import opened Common
  import opened Rob
  import opened Monitor

  // ---------------------------------------------------------------- the watched buffer

  // The instruction FIFO and, slot by slot, the ready bit of the results FIFO.  History: the slot's
  // branch has resolved since its allocation (`resolved`); the branch port, of a resolution or of a
  // squash, has named the slot since its allocation (`named`).
  datatype Env = Env(fifo: Fifo<bv32>, ready: seq<bool>, resolved: seq<bool>, named: seq<bool>)

  datatype Alloc = Alloc(insn: bv32, isReady: bool)

  // One cycle: an offered allocation, the retirement, a branch resolution, the three result
  // ports, the squash of a coherent load, and the reset an exception causes.
  datatype Cycle = Cycle(
    alloc: Option<Alloc>, retire: bool, branch: Port, passed: bool,
    alu: Port, mext: Port, load: Port, flushAll: bool, reset: bool)

  function Wires(c: Cycle): Inputs<bv32> {
    Inputs(if c.alloc.Some? then Some(c.alloc.value.insn) else None, c.retire,
           c.branch.valid && !c.passed, c.branch.rob, c.flushAll)
  }

  predicate Shape(e: Env, depth: nat) {
    2 <= depth <= NEVER && |e.fifo.mem| == |e.ready| == |e.resolved| == |e.named| == depth && Valid(e.fifo)
  }

  predicate InRange(c: Cycle, depth: nat) {
    c.branch.rob < depth && c.alu.rob < depth && c.mext.rob < depth && c.load.rob < depth
  }

  predicate Fires(e: Env, c: Cycle)
    requires e.fifo.rd < |e.fifo.mem|
  {
    EnqFire(e.fifo, Wires(c), true)
  }

  function SetIf(xs: seq<bool>, p: Port): seq<bool>
    requires p.rob < |xs|
  {
    if p.valid then xs[p.rob := true] else xs
  }

  // The slot before the head.
  function BeforeHead<T>(f: Fifo<T>): nat
    requires |f.mem| > 0
  {
    if f.rd == 0 then |f.mem| - 1 else f.rd - 1
  }

  // The cycle in which a coherent load at the head is squashed: the flush comes with a failed
  // resolution of the slot before the head.
  predicate Squash(e: Env, c: Cycle)
    requires |e.fifo.mem| > 0
  {
    c.flushAll && !c.passed && c.branch == Port(true, BeforeHead(e.fifo))
  }

  function Allocate(xs: seq<bool>, fires: bool, slot: nat): seq<bool>
    requires slot < |xs|
  {
    if fires then xs[slot := false] else xs
  }

  // The clock edge: an allocation clears or sets the ready bit it is given, the ports and the
  // resolution set theirs, and a reset overrides the pointers.
  function Edge(e: Env, c: Cycle, depth: nat): Env
    requires Shape(e, depth) && InRange(c, depth)
  {
    var f := ClockEdge(e.fifo, Wires(c), true);
    var fires := Fires(e, c);
    var given := if fires then e.ready[e.fifo.wr := c.alloc.value.isReady] else e.ready;
    Env(if c.reset then Fifo(0, 0, true, false, f.mem) else f,
        SetIf(SetIf(SetIf(SetIf(given, c.alu), c.mext), c.load), c.branch),
        Allocate(if Squash(e, c) then e.resolved else SetIf(e.resolved, c.branch), fires, e.fifo.wr),
        Allocate(SetIf(e.named, c.branch), fires, e.fifo.wr))
  }

  function See(e: Env, c: Cycle): Sample
    requires e.fifo.rd < |e.fifo.mem|
  {
    Sample(e.fifo.rd, e.fifo.wr, Fires(e, c), c.branch, c.alu, c.mext, e.ready, e.fifo.mem)
  }

  // Slot i holds an entry.
  predicate Live<T>(f: Fifo<T>, i: nat)
    requires f.rd < |f.mem|
  {
    Distance(i, f.rd, |f.mem|) < Occupancy(f)
  }

  // A squash or a reset does not hide a pointer mix-up (see Rob.FlushWithDequeue).
  predicate CleanPointers(e: Env, c: Cycle)
    requires e.fifo.rd < |e.fifo.mem|
  {
    c.reset || !(c.flushAll && DeqFire(e.fifo, Wires(c), true))
  }

  predicate PortLegal(e: Env, p: Port)
    requires e.fifo.rd < |e.fifo.mem|
  {
    p.valid ==> p.rob < |e.fifo.mem| && Live(e.fifo, p.rob) && !IsBranch(e.fifo.mem[p.rob])
  }

  // The discipline the monitor checks: a port readies only an allocated slot, a conditional branch
  // is readied only by its resolution or its allocation, and an allocation resolves at most once.  A
  // squash uses the branch port without resolving anything.
  predicate Legal(e: Env, c: Cycle, depth: nat)
    requires Shape(e, depth) && InRange(c, depth)
  {
    && CleanPointers(e, c)
    && PortLegal(e, c.alu) && PortLegal(e, c.mext) && PortLegal(e, c.load)
    && (c.branch.valid ==> Squash(e, c) || (Live(e.fifo, c.branch.rob) && !e.resolved[c.branch.rob]))
  }

  // ---------------------------------------------------------------- the coupling

  // What the monitor remembers of a cycle it has checked.
  predicate Remembers(m: St, e: Env, c: Cycle, depth: nat)
    requires Shape(e, depth) && InRange(c, depth)
  {
    && m.prevReady == e.ready && m.prevRead == e.fifo.rd && m.pWrite == e.fifo.wr
    && m.pAlloc == Fires(e, c) && m.pBev == c.branch && m.pAlu == c.alu && m.pMext == c.mext
    && m.pendingResolve == Edge(e, c, depth).named
  }

  lemma EdgeShape(e: Env, c: Cycle, depth: nat)
    requires Shape(e, depth) && InRange(c, depth) && CleanPointers(e, c)
    ensures Shape(Edge(e, c, depth), depth)
  {
    if !c.reset { EdgeRefines(e.fifo, Wires(c)); }
  }

  lemma CheckRemembers(m: St, e: Env, c: Cycle, depth: nat, cyc: nat, limit: nat)
    requires Shape(e, depth) && InRange(c, depth) && WellSized(m, See(e, c), depth)
    requires m.pendingResolve == e.named
    ensures Remembers(Checked(m, See(e, c), depth, cyc, limit), e, c, depth)
  {
  }

  // ---------------------------------------------------------------- soundness

  // A slot that became ready was written by one of these.
  lemma RisingWriter(e: Env, c: Cycle, depth: nat, i: nat)
    requires Shape(e, depth) && InRange(c, depth) && i < depth
    requires Edge(e, c, depth).ready[i] && !e.ready[i]
    ensures (Fires(e, c) && e.fifo.wr == i) || Hit(c.alu, i) || Hit(c.mext, i) || Hit(c.load, i) || Hit(c.branch, i)
  {
  }

  lemma LiveInWindow<T>(f: Fifo<T>, i: nat)
    requires Valid(f)
    ensures Live(f, i) ==> InWindow(i, f.rd, f.wr, |f.mem|)
    ensures f.rd != f.wr ==> (Live(f, i) <==> InWindow(i, f.rd, f.wr, |f.mem|))
  {
  }

  // The entry a slot holds changes only when the slot is allocated.
  lemma InsnKept(e: Env, c: Cycle, depth: nat, i: nat)
    requires Shape(e, depth) && InRange(c, depth) && i < depth && !(Fires(e, c) && e.fifo.wr == i)
    ensures |Edge(e, c, depth).fifo.mem| == depth && Edge(e, c, depth).fifo.mem[i] == e.fifo.mem[i]
  {
  }

  lemma SlotSound(m: St, e: Env, c: Cycle, d: Cycle, depth: nat, i: nat)
    requires Shape(e, depth) && InRange(c, depth) && InRange(d, depth) && Legal(e, c, depth)
    requires Remembers(m, e, c, depth) && i < depth
    requires Shape(Edge(e, c, depth), depth) && WellSized(m, See(Edge(e, c, depth), d), depth)
    ensures SlotCount(m, See(Edge(e, c, depth), d), depth, i) == Counts(0, 0, 0, 0, 0)
  {
    var s := See(Edge(e, c, depth), d);
    if Rising(m, s, i) && !Allocated(m, i) {
      RisingWriter(e, c, depth, i);
      InsnKept(e, c, depth, i);
      LiveInWindow(e.fifo, i);
    }
  }

  lemma {:induction false} SlotsSound(m: St, e: Env, c: Cycle, d: Cycle, depth: nat, n: nat)
    requires Shape(e, depth) && InRange(c, depth) && InRange(d, depth) && Legal(e, c, depth)
    requires Remembers(m, e, c, depth) && n <= depth
    requires Shape(Edge(e, c, depth), depth) && WellSized(m, See(Edge(e, c, depth), d), depth)
    ensures SlotCounts(m, See(Edge(e, c, depth), d), depth, n) == Counts(0, 0, 0, 0, 0)
  {
    if n > 0 {
      SlotsSound(m, e, c, d, depth, n - 1);
      SlotSound(m, e, c, d, depth, n - 1);
    }
  }

  predicate Silent(m: St) {
    m.noResolve == 0 && m.outside == 0 && m.byAlu == 0 && m.byMext == 0 && m.byOther == 0
  }

  // A squash whose slot before the head the branch port has named since its allocation.
  predicate FalseAlarm(e: Env, c: Cycle, depth: nat)
    requires Shape(e, depth)
  {
    Squash(e, c) && e.named[BeforeHead(e.fifo)]
  }

  // The false alarms of a run.
  function FalseAlarms(e: Env, cs: seq<Cycle>, depth: nat): nat
    requires Disciplined(e, cs, depth)
    decreases |cs|
  {
    if cs == [] then 0 else
    (if FalseAlarm(e, cs[0], depth) then 1 else 0) + FalseAlarms(Edge(e, cs[0], depth), cs[1..], depth)
  }

  // A resolution uses the branch port, and on live slots nothing else has.
  predicate NamedInv(e: Env, depth: nat)
    requires Shape(e, depth)
  {
    forall i | 0 <= i < depth :: (e.resolved[i] ==> e.named[i]) && (Live(e.fifo, i) && e.named[i] ==> e.resolved[i])
  }

  // A squash names a slot of a buffer that the same edge empties.
  lemma NamedKept(e: Env, c: Cycle, depth: nat)
    requires Shape(e, depth) && InRange(c, depth) && CleanPointers(e, c) && NamedInv(e, depth)
    ensures Shape(Edge(e, c, depth), depth) && NamedInv(Edge(e, c, depth), depth)
  {
    EdgeShape(e, c, depth);
    var f := Edge(e, c, depth);
    forall i: nat | i < depth
      ensures (f.resolved[i] ==> f.named[i]) && (Live(f.fifo, i) && f.named[i] ==> f.resolved[i])
    {
      if Squash(e, c) || c.reset {
        FlushKills(e, c, depth, i);
      } else if !Live(e.fifo, i) && !(Fires(e, c) && e.fifo.wr == i) {
        NotRevived(e, c, depth, i);
      }
    }
  }

  lemma FlushKills(e: Env, c: Cycle, depth: nat, i: nat)
    requires Shape(e, depth) && InRange(c, depth) && (c.flushAll || c.reset)
    ensures Edge(e, c, depth).fifo.rd < |Edge(e, c, depth).fifo.mem| && !Live(Edge(e, c, depth).fifo, i)
  {
  }

  // In a disciplined cycle the monitor counts a second resolution if and only if it is a false alarm.
  lemma ResolutionSound(m: St, e: Env, c: Cycle, depth: nat, cyc: nat, limit: nat)
    requires Shape(e, depth) && InRange(c, depth) && Legal(e, c, depth) && NamedInv(e, depth)
    requires WellSized(m, See(e, c), depth) && m.pendingResolve == e.named
    ensures Checked(m, See(e, c), depth, cyc, limit).doubleResolve
         == m.doubleResolve + if FalseAlarm(e, c, depth) then 1 else 0
  {
  }

  // The monitor over a run: cycle k is checked with the number start + k.
  function Watched(m: St, e: Env, cs: seq<Cycle>, depth: nat, start: nat, limit: nat): St
    requires Disciplined(e, cs, depth) && (cs != [] ==> WellSized(m, See(e, cs[0]), depth))
    decreases |cs|
  {
    if cs == [] then m else
    var n := Checked(m, See(e, cs[0]), depth, start, limit);
    SizesKept(m, e, cs, depth, start, limit);
    Watched(n, Edge(e, cs[0], depth), cs[1..], depth, start + 1, limit)
  }

  // Every cycle of the run keeps to the discipline.
  predicate Disciplined(e: Env, cs: seq<Cycle>, depth: nat)
    decreases |cs|
  {
    Shape(e, depth) && (cs != [] ==>
      && InRange(cs[0], depth) && Legal(e, cs[0], depth)
      && Shape(Edge(e, cs[0], depth), depth) && Disciplined(Edge(e, cs[0], depth), cs[1..], depth))
  }

  lemma SizesKept(m: St, e: Env, cs: seq<Cycle>, depth: nat, start: nat, limit: nat)
    requires Disciplined(e, cs, depth) && cs != [] && WellSized(m, See(e, cs[0]), depth)
    ensures |cs| > 1 ==>
              WellSized(Checked(m, See(e, cs[0]), depth, start, limit), See(Edge(e, cs[0], depth), cs[1]), depth)
  {
    if |cs| > 1 { assert cs[1..][0] == cs[1]; }
  }

  // One check after a disciplined cycle, in another one.
  lemma SoundStep(m: St, e: Env, c: Cycle, d: Cycle, depth: nat, cyc: nat, limit: nat)
    requires Shape(e, depth) && InRange(c, depth) && Legal(e, c, depth) && NamedInv(e, depth)
    requires Remembers(m, e, c, depth) && Silent(m) && Shape(Edge(e, c, depth), depth)
    requires InRange(d, depth) && Legal(Edge(e, c, depth), d, depth)
    ensures var f := Edge(e, c, depth);
            && WellSized(m, See(f, d), depth) && NamedInv(f, depth)
            && var n := Checked(m, See(f, d), depth, cyc, limit);
               && Remembers(n, f, d, depth) && Silent(n)
               && n.doubleResolve == m.doubleResolve + if FalseAlarm(f, d, depth) then 1 else 0
  {
    SlotsSound(m, e, c, d, depth, depth);
    CheckRemembers(m, Edge(e, c, depth), d, depth, cyc, limit);
    NamedKept(e, c, depth);
    ResolutionSound(m, Edge(e, c, depth), d, depth, cyc, limit);
  }

  lemma {:induction false} SoundFrom(
    m: St, e: Env, c: Cycle, cs: seq<Cycle>, depth: nat, start: nat, limit: nat)
    requires Shape(e, depth) && InRange(c, depth) && Legal(e, c, depth) && NamedInv(e, depth)
    requires Remembers(m, e, c, depth) && Silent(m)
    requires Shape(Edge(e, c, depth), depth) && Disciplined(Edge(e, c, depth), cs, depth)
    ensures cs != [] ==> WellSized(m, See(Edge(e, c, depth), cs[0]), depth)
    ensures var n := Watched(m, Edge(e, c, depth), cs, depth, start, limit);
            Silent(n) && n.doubleResolve == m.doubleResolve + FalseAlarms(Edge(e, c, depth), cs, depth)
    decreases |cs|
  {
    if cs != [] {
      var f, d := Edge(e, c, depth), cs[0];
      SoundStep(m, e, c, d, depth, start, limit);
      SoundFrom(Checked(m, See(f, d), depth, start, limit), f, d, cs[1..], depth, start + 1, limit);
    }
  }

  // Reset: nothing allocated, nothing ready, nothing resolved.
  predicate AtReset(e: Env, depth: nat) {
    && Shape(e, depth) && e.fifo.empty && e.fifo.rd == 0
    && forall i | 0 <= i < depth :: !e.ready[i] && !e.resolved[i] && !e.named[i]
  }

  // Over every run from reset that keeps to the discipline, squashes included, the monitor reports no
  // branch readied without its resolution and no slot readied outside the window, and the double
  // resolutions it reports are exactly the squashes whose slot before the head the branch port had
  // already named: none if and only if there was no such squash.
  lemma Soundness(e: Env, cs: seq<Cycle>, depth: nat, start: nat, limit: nat)
    requires AtReset(e, depth) && Disciplined(e, cs, depth) && cs != []
    ensures WellSized(Fresh(depth), See(e, cs[0]), depth)
    ensures var n := Watched(Fresh(depth), e, cs, depth, start, limit);
            Silent(n) && n.doubleResolve == FalseAlarms(e, cs, depth)
  {
    FirstCheck(e, cs[0], depth, start, limit);
    SoundFrom(Checked(Fresh(depth), See(e, cs[0]), depth, start, limit), e, cs[0], cs[1..], depth, start + 1, limit);
  }

  lemma FirstCheck(e: Env, c: Cycle, depth: nat, cyc: nat, limit: nat)
    requires AtReset(e, depth) && InRange(c, depth) && Legal(e, c, depth)
    ensures WellSized(Fresh(depth), See(e, c), depth) && NamedInv(e, depth)
    ensures var m := Checked(Fresh(depth), See(e, c), depth, cyc, limit);
            Remembers(m, e, c, depth) && Silent(m) && m.doubleResolve == if FalseAlarm(e, c, depth) then 1 else 0
  {
    var m, s := Fresh(depth), See(e, c);
    assert m.pendingResolve == e.named;
    NothingRises(m, s, depth, depth);
    CheckRemembers(m, e, c, depth, cyc, limit);
    ResolutionSound(m, e, c, depth, cyc, limit);
  }

  // A branch is allocated and resolves, a load is allocated behind it, the branch retires while the
  // load's result arrives, and after a cycle the load is squashed.
  const NO_PORT := Port(false, 0)
  const IDLE := Cycle(None, false, NO_PORT, false, NO_PORT, NO_PORT, NO_PORT, false, false)
  const BEQ: bv32 := BFormat(8, 2, 1, 0)
  const LW: bv32 := 0xa183
  const BRANCH_IN := IDLE.(alloc := Some(Alloc(BEQ, false)))
  const LOAD_IN := IDLE.(alloc := Some(Alloc(LW, false)), branch := Port(true, 0), passed := true)
  const BRANCH_OUT := IDLE.(retire := true, load := Port(true, 1))
  const LOAD_SQUASHED := IDLE.(branch := Port(true, 0), flushAll := true)

  function FourSlots(rd: nat, wr: nat, first: bv32, second: bv32, ready: seq<bool>, named: bool): Env {
    var history := [named, false, false, false];
    Env(Fifo(rd, wr, rd == wr, false, [first, second, 0, 0]), ready, history, history)
  }

  const EMPTY := FourSlots(0, 0, 0, 0, [false, false, false, false], false)
  const ONE := FourSlots(0, 1, BEQ, 0, [false, false, false, false], false)
  const TWO := FourSlots(0, 2, BEQ, LW, [true, false, false, false], true)
  const LOAD_HEAD := FourSlots(1, 2, BEQ, LW, [true, true, false, false], true)

  // One cycle of a run, from its effect.
  lemma RunCons(e: Env, c: Cycle, f: Env, cs: seq<Cycle>, depth: nat)
    requires Shape(e, depth) && InRange(c, depth) && Legal(e, c, depth) && Edge(e, c, depth) == f
    requires Shape(f, depth) && Disciplined(f, cs, depth)
    ensures Disciplined(e, [c] + cs, depth)
    ensures FalseAlarms(e, [c] + cs, depth)
         == FalseAlarms(f, cs, depth) + if FalseAlarm(e, c, depth) then 1 else 0
  {
    assert ([c] + cs)[1..] == cs;
  }

  // A legal cycle without a squash.
  predicate Calm(e: Env, c: Cycle, f: Env, depth: nat) {
    && Shape(e, depth) && InRange(c, depth) && Legal(e, c, depth)
    && Edge(e, c, depth) == f && Shape(f, depth) && !Squash(e, c)
  }

  // A legal cycle that raises a false alarm.
  predicate Alarming(e: Env, c: Cycle, depth: nat) {
    && Shape(e, depth) && InRange(c, depth) && Legal(e, c, depth)
    && Shape(Edge(e, c, depth), depth) && FalseAlarm(e, c, depth)
  }

  lemma CalmCons(e: Env, c: Cycle, f: Env, cs: seq<Cycle>, depth: nat)
    requires Calm(e, c, f, depth) && Disciplined(f, cs, depth)
    ensures Disciplined(e, [c] + cs, depth) && FalseAlarms(e, [c] + cs, depth) == FalseAlarms(f, cs, depth)
  {
    RunCons(e, c, f, cs, depth);
  }

  lemma TwoCalm(a: Env, w: Cycle, b: Env, x: Cycle, c: Env, cs: seq<Cycle>, depth: nat)
    requires Calm(a, w, b, depth) && Calm(b, x, c, depth) && Disciplined(c, cs, depth)
    ensures Disciplined(a, [w, x] + cs, depth) && FalseAlarms(a, [w, x] + cs, depth) == FalseAlarms(c, cs, depth)
  {
    CalmCons(b, x, c, cs, depth);
    CalmCons(a, w, b, [x] + cs, depth);
    assert [w, x] + cs == [w] + ([x] + cs);
  }

  lemma AlarmEnds(e: Env, c: Cycle, depth: nat)
    requires Alarming(e, c, depth)
    ensures Disciplined(e, [c], depth) && FalseAlarms(e, [c], depth) == 1
  {
    RunCons(e, c, Edge(e, c, depth), [], depth);
    assert [c] + [] == [c];
  }

  const SQUASHED_LOAD := [BRANCH_IN, LOAD_IN] + ([BRANCH_OUT, IDLE] + [LOAD_SQUASHED])

  lemma FirstCycles()
    ensures Calm(EMPTY, BRANCH_IN, ONE, 4) && Calm(ONE, LOAD_IN, TWO, 4)
  {
  }

  lemma LastCycles()
    ensures Calm(TWO, BRANCH_OUT, LOAD_HEAD, 4) && Calm(LOAD_HEAD, IDLE, LOAD_HEAD, 4)
    ensures Alarming(LOAD_HEAD, LOAD_SQUASHED, 4)
  {
  }

  lemma SquashedLoadRun()
    ensures Disciplined(EMPTY, SQUASHED_LOAD, 4) && FalseAlarms(EMPTY, SQUASHED_LOAD, 4) == 1
  {
    FirstCycles();
    LastCycles();
    AlarmEnds(LOAD_HEAD, LOAD_SQUASHED, 4);
    TwoCalm(TWO, BRANCH_OUT, LOAD_HEAD, IDLE, LOAD_HEAD, [LOAD_SQUASHED], 4);
    TwoCalm(EMPTY, BRANCH_IN, ONE, LOAD_IN, TWO, [BRANCH_OUT, IDLE] + [LOAD_SQUASHED], 4);
  }

  lemma Alarmed(e: Env, cs: seq<Cycle>, depth: nat, limit: nat)
    requires AtReset(e, depth) && Disciplined(e, cs, depth) && cs != [] && FalseAlarms(e, cs, depth) == 1
    ensures WellSized(Fresh(depth), See(e, cs[0]), depth)
    ensures Watched(Fresh(depth), e, cs, depth, 0, limit).doubleResolve == 1
  {
    Soundness(e, cs, depth, 0, limit);
  }

  // No port misbehaves in that run, and the monitor reports a double resolution.
  lemma SquashReportsDouble(limit: nat)
    ensures SQUASHED_LOAD[0].alloc == Some(Alloc(BFormat(8, 2, 1, 0), false)) && SQUASHED_LOAD[4].flushAll
    ensures AtReset(EMPTY, 4) && Disciplined(EMPTY, SQUASHED_LOAD, 4)
    ensures WellSized(Fresh(4), See(EMPTY, SQUASHED_LOAD[0]), 4)
    ensures Watched(Fresh(4), EMPTY, SQUASHED_LOAD, 4, 0, limit).doubleResolve == 1
  {
    SquashedLoadRun();
    Alarmed(EMPTY, SQUASHED_LOAD, 4, limit);
  }

  lemma {:induction false} NothingRises(m: St, s: Sample, depth: nat, n: nat)
    requires WellSized(m, s, depth) && n <= depth && forall i | 0 <= i < depth :: !s.ready[i]
    ensures SlotCounts(m, s, depth, n) == Counts(0, 0, 0, 0, 0)
  {
    if n > 0 { NothingRises(m, s, depth, n - 1); }
  }

  // ---------------------------------------------------------------- sensitivity

  // The window only loses slots, except the one just allocated.
  lemma NotRevived(e: Env, c: Cycle, depth: nat, i: nat)
    requires Shape(e, depth) && InRange(c, depth) && CleanPointers(e, c) && i < depth
    requires !Live(e.fifo, i) && !(Fires(e, c) && e.fifo.wr == i)
    ensures Shape(Edge(e, c, depth), depth) && !Live(Edge(e, c, depth).fifo, i)
  {
    EdgeShape(e, c, depth);
    if !c.reset { EdgeOccupancy(e.fifo, Wires(c)); }
  }

  // A port that readies a slot nobody has allocated is counted in the next cycle, whatever that
  // cycle does, unless the pointers are equal in one of the two cycles -- and not if they are.
  lemma StaleWriteCounted(m: St, e: Env, c: Cycle, d: Cycle, depth: nat, i: nat)
    requires Shape(e, depth) && InRange(c, depth) && InRange(d, depth) && CleanPointers(e, c)
    requires Remembers(m, e, c, depth) && i < depth
    requires !Live(e.fifo, i) && !(Fires(e, c) && e.fifo.wr == i) && !e.ready[i]
    requires Hit(c.alu, i) || Hit(c.mext, i) || Hit(c.load, i) || Hit(c.branch, i)
    ensures var f := Edge(e, c, depth);
            && Shape(f, depth) && WellSized(m, See(f, d), depth)
            && (Outside(m, See(f, d), depth, i) <==> e.fifo.rd != e.fifo.wr && f.fifo.rd != f.fifo.wr)
  {
    NotRevived(e, c, depth, i);
    var f := Edge(e, c, depth);
    LiveInWindow(e.fifo, i);
    LiveInWindow(f.fifo, i);
    PortSets(e, c, depth, i);
    if e.fifo.rd == e.fifo.wr { EqualPointersOpen(e.fifo, i); }
    if f.fifo.rd == f.fifo.wr { EqualPointersOpen(f.fifo, i); }
  }

  lemma PortSets(e: Env, c: Cycle, depth: nat, i: nat)
    requires Shape(e, depth) && InRange(c, depth) && i < depth
    requires Hit(c.alu, i) || Hit(c.mext, i) || Hit(c.load, i) || Hit(c.branch, i)
    ensures Edge(e, c, depth).ready[i]
  {
  }

  lemma EqualPointersOpen<T>(f: Fifo<T>, i: nat)
    requires Valid(f) && f.rd == f.wr
    ensures InWindow(i, f.rd, f.wr, |f.mem|)
  {
  }

  // A port that readies a slot holding a conditional branch, live or not, is counted in the next cycle
  // if and only if the branch did not resolve and the slot was not allocated in the same cycle.
  lemma BranchWriteCounted(
    m: St, e: Env, c: Cycle, d: Cycle, depth: nat, i: nat, offset: bv32, rs2: bv32, rs1: bv32, funct3: bv32)
    requires Shape(e, depth) && InRange(c, depth) && InRange(d, depth) && CleanPointers(e, c)
    requires Remembers(m, e, c, depth) && i < depth && !e.ready[i]
    requires e.fifo.mem[i] == BFormat(offset, rs2, rs1, funct3)
    requires Hit(c.alu, i) || Hit(c.mext, i) || Hit(c.load, i)
    ensures var f := Edge(e, c, depth);
            && Shape(f, depth) && WellSized(m, See(f, d), depth)
            && (!(Fires(e, c) && e.fifo.wr == i) ==>
                  (NoResolve(m, See(f, d), depth, i) <==> !(c.branch.valid && c.branch.rob == i)))
            && (Fires(e, c) && e.fifo.wr == i ==> !NoResolve(m, See(f, d), depth, i))
  {
    EdgeShape(e, c, depth);
    BranchesAreBFormat(e.fifo.mem[i], offset, rs2, rs1, funct3);
    PortSets(e, c, depth, i);
    if !(Fires(e, c) && e.fifo.wr == i) { InsnKept(e, c, depth, i); }
  }

  // A use of the branch port is counted at once if and only if the port had named the slot since its
  // allocation: on a live slot, if and only if the slot's branch had resolved.
  lemma SecondResolutionCounted(m: St, e: Env, c: Cycle, d: Cycle, depth: nat, cyc: nat, limit: nat)
    requires Shape(e, depth) && InRange(c, depth) && InRange(d, depth) && CleanPointers(e, c)
    requires Remembers(m, e, c, depth) && d.branch.valid
    ensures var f := Edge(e, c, depth);
            && Shape(f, depth) && WellSized(m, See(f, d), depth)
            && (Checked(m, See(f, d), depth, cyc, limit).doubleResolve > m.doubleResolve <==> f.named[d.branch.rob])
            && (NamedInv(e, depth) && Live(f.fifo, d.branch.rob) ==>
                  (f.named[d.branch.rob] <==> f.resolved[d.branch.rob]))
  {
    EdgeShape(e, c, depth);
    if NamedInv(e, depth) { NamedKept(e, c, depth); }
  }

  ghost function OutsideSlots(m: St, s: Sample, depth: nat, n: nat): set<nat>
    requires WellSized(m, s, depth) && n <= depth
  {
    set i: nat | i < n && Outside(m, s, depth, i)
  }

  ghost function NoResolveSlots(m: St, s: Sample, depth: nat, n: nat): set<nat>
    requires WellSized(m, s, depth) && n <= depth
  {
    set i: nat | i < n && NoResolve(m, s, depth, i)
  }

  // The first check, whenever the monitor is attached, takes every ready bit it sees for a new one and
  // knows of no port, no allocation and no resolution.
  lemma FirstCheckJudges(s: Sample, depth: nat, i: nat, cyc: nat, limit: nat)
    requires Sized(s, depth) && i < depth
    ensures WellSized(Fresh(depth), s, depth)
    ensures NoResolve(Fresh(depth), s, depth, i) <==> s.ready[i] && IsBranch(s.insn[i])
    ensures Outside(Fresh(depth), s, depth, i) <==> s.ready[i] && !InWindow(i, s.readPtr, s.writePtr, depth)
    ensures var m := Checked(Fresh(depth), s, depth, cyc, limit);
            m.doubleResolve == 0 && m.wedged == 0 && m.byAlu == 0 && m.byMext == 0
  {
    Attributed(Fresh(depth), s, depth, depth);
  }

  // Every slot that breaks a rule is counted once and nothing else is, and each branch readied
  // without its resolution is attributed to one port.
  lemma {:induction false} CountedOnce(m: St, s: Sample, depth: nat, n: nat)
    requires WellSized(m, s, depth) && n <= depth
    ensures SlotCounts(m, s, depth, n).outside == |OutsideSlots(m, s, depth, n)|
    ensures SlotCounts(m, s, depth, n).noResolve == |NoResolveSlots(m, s, depth, n)|
    ensures var c := SlotCounts(m, s, depth, n); c.byAlu + c.byMext + c.byOther == c.noResolve
  {
    if n > 0 {
      CountedOnce(m, s, depth, n - 1);
      OutsideGrows(m, s, depth, n - 1);
      NoResolveGrows(m, s, depth, n - 1);
    }
  }

  // The attribution: the ALU port answers for the slot it named, the multiplier's for the slot it named
  // unless the ALU named it too.
  lemma {:induction false} Attributed(m: St, s: Sample, depth: nat, n: nat)
    requires WellSized(m, s, depth) && n <= depth
    ensures var c, alu, mext := SlotCounts(m, s, depth, n), m.pAlu, m.pMext;
            && (c.byAlu == if alu.valid && alu.rob < n && NoResolve(m, s, depth, alu.rob) then 1 else 0)
            && (c.byMext == if mext.valid && mext.rob < n && NoResolve(m, s, depth, mext.rob)
                             && !(alu.valid && alu.rob == mext.rob) then 1 else 0)
  {
    if n > 0 { Attributed(m, s, depth, n - 1); }
  }

  lemma OutsideGrows(m: St, s: Sample, depth: nat, i: nat)
    requires WellSized(m, s, depth) && i < depth
    ensures |OutsideSlots(m, s, depth, i + 1)|
         == |OutsideSlots(m, s, depth, i)| + if Outside(m, s, depth, i) then 1 else 0
  {
    var a, b := OutsideSlots(m, s, depth, i), OutsideSlots(m, s, depth, i + 1);
    assert b == if Outside(m, s, depth, i) then a + {i} else a;
  }

  lemma NoResolveGrows(m: St, s: Sample, depth: nat, i: nat)
    requires WellSized(m, s, depth) && i < depth
    ensures |NoResolveSlots(m, s, depth, i + 1)|
            == |NoResolveSlots(m, s, depth, i)| + if NoResolve(m, s, depth, i) then 1 else 0
  {
    var a, b := NoResolveSlots(m, s, depth, i), NoResolveSlots(m, s, depth, i + 1);
    assert b == if NoResolve(m, s, depth, i) then a + {i} else a;
  }

  // ---------------------------------------------------------------- stalls

  datatype Tick = Tick(cyc: nat, readPtr: nat)

  // The first sample of the stretch of equal read pointers that sample k belongs to.
  function Start(ts: seq<Tick>, k: nat): (j: nat)
    requires k < |ts|
    ensures j <= k && ts[j].readPtr == ts[k].readPtr
  {
    if k == 0 || ts[k - 1].readPtr != ts[k].readPtr then k else Start(ts, k - 1)
  }

  predicate Stalled(ts: seq<Tick>, k: nat, limit: nat)
    requires k < |ts|
  {
    ts[k].cyc > ts[Start(ts, k)].cyc + limit
  }

  // The stretches that outlast the limit, each named by its first sample.
  ghost function Episodes(ts: seq<Tick>, limit: nat): set<nat> {
    set k: nat | k < |ts| && Stalled(ts, k, limit) :: Start(ts, k)
  }

  lemma {:induction false} StartPrefix(ts: seq<Tick>, t: Tick, k: nat)
    requires k < |ts|
    ensures Start(ts + [t], k) == Start(ts, k)
  {
    if k > 0 && ts[k - 1].readPtr == ts[k].readPtr { StartPrefix(ts, t, k - 1); }
  }

  lemma StalledPrefix(ts: seq<Tick>, t: Tick, limit: nat)
    ensures forall k: nat | k < |ts| ::
              Start(ts + [t], k) == Start(ts, k) && Stalled(ts + [t], k, limit) == Stalled(ts, k, limit)
  {
    forall k: nat | k < |ts|
      ensures Start(ts + [t], k) == Start(ts, k) && Stalled(ts + [t], k, limit) == Stalled(ts, k, limit)
    {
      StartPrefix(ts, t, k);
    }
  }

  lemma EpisodesAppend(ts: seq<Tick>, t: Tick, limit: nat)
    ensures var us := ts + [t];
            Episodes(us, limit) == Episodes(ts, limit) + if Stalled(us, |ts|, limit) then {Start(us, |ts|)} else {}
  {
    var us := ts + [t];
    StalledPrefix(ts, t, limit);
    var more := if Stalled(us, |ts|, limit) then {Start(us, |ts|)} else {};
    forall j | j in Episodes(us, limit) ensures j in Episodes(ts, limit) + more {
      var k: nat :| k < |us| && Stalled(us, k, limit) && j == Start(us, k);
      assert k < |ts| || k == |ts|;
    }
    forall j | j in Episodes(ts, limit) ensures j in Episodes(us, limit) {
      var k: nat :| k < |ts| && Stalled(ts, k, limit) && j == Start(ts, k);
      assert Stalled(us, k, limit) && j == Start(us, k);
    }
  }

  ghost predicate StallInv(m: St, ts: seq<Tick>, limit: nat) {
    if ts == [] then m.prevRead == NEVER && m.wedged == 0 && !m.wedgeReported else
    var j := Start(ts, |ts| - 1);
    && m.prevRead == ts[|ts| - 1].readPtr
    && m.lastCommitCyc == ts[j].cyc
    && (m.wedgeReported <==> j in Episodes(ts, limit))
    && m.wedged == |Episodes(ts, limit)|
  }

  lemma StartFresh(ts: seq<Tick>, t: Tick, limit: nat)
    requires ts == [] || ts[|ts| - 1].readPtr != t.readPtr
    ensures Start(ts + [t], |ts|) == |ts| && |ts| !in Episodes(ts, limit)
  {
  }

  lemma StallStep(m: St, ts: seq<Tick>, s: Sample, depth: nat, cyc: nat, limit: nat)
    requires StallInv(m, ts, limit) && WellSized(m, s, depth) && (forall t | t in ts :: t.readPtr != NEVER)
    ensures StallInv(Checked(m, s, depth, cyc, limit), ts + [Tick(cyc, s.readPtr)], limit)
  {
    var t := Tick(cyc, s.readPtr);
    var us := ts + [t];
    EpisodesAppend(ts, t, limit);
    if ts == [] || ts[|ts| - 1].readPtr != t.readPtr {
      StartFresh(ts, t, limit);
    } else {
      StartPrefix(ts, t, |ts| - 1);
      assert Start(us, |ts|) == Start(ts, |ts| - 1);
    }
  }

  datatype Reading = Reading(cyc: nat, sample: Sample)

  predicate Sized(s: Sample, depth: nat) {
    2 <= depth <= NEVER && |s.ready| == |s.insn| == depth && s.readPtr < depth && s.writePtr < depth
        && s.bev.rob < depth
  }

  function Observe(m: St, rs: seq<Reading>, depth: nat, limit: nat): St
    requires forall k | 0 <= k < |rs| :: Sized(rs[k].sample, depth)
    requires rs != [] ==> WellSized(m, rs[0].sample, depth)
    decreases |rs|
  {
    if rs == [] then m else
    assert |rs| > 1 ==> rs[1..][0] == rs[1];
    Observe(Checked(m, rs[0].sample, depth, rs[0].cyc, limit), rs[1..], depth, limit)
  }

  function Ticks(rs: seq<Reading>): (ts: seq<Tick>)
    ensures |ts| == |rs|
  {
    seq(|rs|, k requires 0 <= k < |rs| => Tick(rs[k].cyc, rs[k].sample.readPtr))
  }

  lemma TicksCons(ts: seq<Tick>, rs: seq<Reading>)
    ensures rs == [] ==> ts + Ticks(rs) == ts
    ensures rs != [] ==> ts + Ticks(rs) == ts + [Tick(rs[0].cyc, rs[0].sample.readPtr)] + Ticks(rs[1..])
  {
  }

  lemma ReadingsCons(m: St, rs: seq<Reading>, depth: nat, limit: nat)
    requires rs != [] && forall k | 0 <= k < |rs| :: Sized(rs[k].sample, depth)
    requires WellSized(m, rs[0].sample, depth)
    ensures var n := Checked(m, rs[0].sample, depth, rs[0].cyc, limit);
            && (forall k | 0 <= k < |rs[1..]| :: Sized(rs[1..][k].sample, depth))
            && (rs[1..] != [] ==> WellSized(n, rs[1..][0].sample, depth))
            && Observe(m, rs, depth, limit) == Observe(n, rs[1..], depth, limit)
  {
    assert |rs| > 1 ==> rs[1..][0] == rs[1];
  }

  lemma {:induction false} StallRun(m: St, ts: seq<Tick>, rs: seq<Reading>, depth: nat, limit: nat)
    requires forall k | 0 <= k < |rs| :: Sized(rs[k].sample, depth)
    requires rs != [] ==> WellSized(m, rs[0].sample, depth)
    requires StallInv(m, ts, limit) && 2 <= depth <= NEVER && forall t | t in ts :: t.readPtr != NEVER
    ensures StallInv(Observe(m, rs, depth, limit), ts + Ticks(rs), limit)
    decreases |rs|
  {
    TicksCons(ts, rs);
    if rs != [] {
      var s, cyc := rs[0].sample, rs[0].cyc;
      StallStep(m, ts, s, depth, cyc, limit);
      ReadingsCons(m, rs, depth, limit);
      StallRun(Checked(m, s, depth, cyc, limit), ts + [Tick(cyc, s.readPtr)], rs[1..], depth, limit);
    }
  }

  // A stall is reported exactly once: whatever the samples and their cycle numbers, the counter is
  // the number of stretches of equal read pointers that outlast the limit.
  lemma StallsReportedOnce(rs: seq<Reading>, depth: nat, limit: nat)
    requires 2 <= depth <= NEVER && forall k | 0 <= k < |rs| :: Sized(rs[k].sample, depth)
    ensures rs != [] ==> WellSized(Fresh(depth), rs[0].sample, depth)
    ensures Observe(Fresh(depth), rs, depth, limit).wedged == |Episodes(Ticks(rs), limit)|
  {
    StallRun(Fresh(depth), [], rs, depth, limit);
    assert [] + Ticks(rs) == Ticks(rs);
  }
}
