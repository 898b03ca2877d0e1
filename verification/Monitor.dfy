// The always-on monitor of sim/harness/invariants.h for one hart, and the reorder buffer it
// watches (src/main/scala/Backend/Rob/rob.scala).
module Monitor {
  import opened Rob

  // ---------------------------------------------------------------- what a cycle shows

  datatype Port = Port(valid: bool, rob: nat)

  // The sample taken before the clock edge.
  datatype Sample = Sample(
    readPtr: nat, writePtr: nat, allocFired: bool, bev: Port, alu: Port, mext: Port,
    ready: seq<bool>, insn: seq<bv32>)

  const NEVER: nat := 0xffff

  // The history the monitor keeps (struct st), its four counters and the three attributions.
  datatype St = St(
    prevReady: seq<bool>, pendingResolve: seq<bool>, prevRead: nat, lastCommitCyc: nat, wedgeReported: bool,
    pBev: Port, pAlloc: bool, pWrite: nat, pAlu: Port, pMext: Port,
    noResolve: nat, outside: nat, doubleResolve: nat, wedged: nat, byAlu: nat, byMext: nat, byOther: nat)

  function Fresh(depth: nat): St {
    St(seq(depth, _ => false), seq(depth, _ => false), NEVER, 0, false,
       Port(false, 0), false, 0, Port(false, 0), Port(false, 0), 0, 0, 0, 0, 0, 0, 0)
  }

  // `insn & 0x7f == 0x63`.
  predicate IsBranch(insn: bv32) { insn & 0x7f == 0x63 }

  // The conditional branches of the RISC-V Unprivileged ISA (section 2.5): the bits of the offset
  // around two registers and funct3, opcode BRANCH.
  function BFormat(offset: bv32, rs2: bv32, rs1: bv32, funct3: bv32): bv32 {
    (((offset >> 12) & 0x1) << 31) | (((offset >> 5) & 0x3f) << 25)
    | ((rs2 & 0x1f) << 20) | ((rs1 & 0x1f) << 15) | ((funct3 & 0x7) << 12)
    | (((offset >> 1) & 0xf) << 8) | (((offset >> 11) & 0x1) << 7) | 0x63
  }

  // The offset of a word in that format, up to its sign.
  function BOffset(insn: bv32): bv32 {
    ((insn >> 31) << 12) | (((insn >> 7) & 0x1) << 11) | (((insn >> 25) & 0x3f) << 5) | (((insn >> 8) & 0xf) << 1)
  }

  // The test accepts exactly the words of that format,
  lemma BranchesAreBFormat(insn: bv32, offset: bv32, rs2: bv32, rs1: bv32, funct3: bv32)
    ensures IsBranch(BFormat(offset, rs2, rs1, funct3))
    ensures IsBranch(insn) ==> insn == BFormat(BOffset(insn), insn >> 20, insn >> 15, insn >> 12)
  {
  }

  // and of all words, whatever their format, those whose opcode it is.
  lemma BranchesByOpcode(upper: bv32, opcode: bv32)
    requires opcode < 0x80
    ensures IsBranch((upper << 7) | opcode) <==> opcode == 0x63
  {
  }

  // The monitor's own window test: equal pointers are not judged.
  predicate InWindow(i: nat, rd: nat, wr: nat, depth: nat)
    requires rd < depth
  {
    var occ := Distance(wr, rd, depth);
    occ == 0 || Distance(i, rd, depth) < occ
  }

  predicate WellSized(m: St, s: Sample, depth: nat) {
    && 2 <= depth <= NEVER && |m.prevReady| == |m.pendingResolve| == |s.ready| == |s.insn| == depth
    && s.readPtr < depth && s.writePtr < depth && s.bev.rob < depth
    && (m.prevRead < depth || m.prevRead == NEVER) && m.pWrite < depth
  }

  predicate Hit(p: Port, i: nat) { p.valid && p.rob == i }

  predicate Rising(m: St, s: Sample, i: nat)
    requires i < |m.prevReady| && i < |s.ready|
  {
    s.ready[i] && !m.prevReady[i]
  }

  predicate Allocated(m: St, i: nat) { m.pAlloc && m.pWrite == i }

  // Slot i: a conditional branch became ready by neither its resolution nor its allocation.
  predicate NoResolve(m: St, s: Sample, depth: nat, i: nat)
    requires WellSized(m, s, depth) && i < depth
  {
    Rising(m, s, i) && IsBranch(s.insn[i]) && !Hit(m.pBev, i) && !Allocated(m, i)
  }

  // Slot i became ready while outside the window both now and when the port fired.
  predicate Outside(m: St, s: Sample, depth: nat, i: nat)
    requires WellSized(m, s, depth) && i < depth
  {
    && Rising(m, s, i) && !Allocated(m, i)
    && !InWindow(i, s.readPtr, s.writePtr, depth)
    && !(m.prevRead != NEVER && InWindow(i, m.prevRead, m.pWrite, depth))
  }

  datatype Counts = Counts(noResolve: nat, outside: nat, byAlu: nat, byMext: nat, byOther: nat)

  function Add(a: Counts, b: Counts): Counts {
    Counts(a.noResolve + b.noResolve, a.outside + b.outside,
           a.byAlu + b.byAlu, a.byMext + b.byMext, a.byOther + b.byOther)
  }

  // What slot i adds to the counters.
  function SlotCount(m: St, s: Sample, depth: nat, i: nat): Counts
    requires WellSized(m, s, depth) && i < depth
  {
    var bad := NoResolve(m, s, depth, i);
    Counts(if bad then 1 else 0,
           if Outside(m, s, depth, i) then 1 else 0,
           if bad && Hit(m.pAlu, i) then 1 else 0,
           if bad && !Hit(m.pAlu, i) && Hit(m.pMext, i) then 1 else 0,
           if bad && !Hit(m.pAlu, i) && !Hit(m.pMext, i) then 1 else 0)
  }

  // What slots 0..n-1 add.
  function SlotCounts(m: St, s: Sample, depth: nat, n: nat): Counts
    requires WellSized(m, s, depth) && n <= depth
  {
    if n == 0 then Counts(0, 0, 0, 0, 0) else Add(SlotCounts(m, s, depth, n - 1), SlotCount(m, s, depth, n - 1))
  }

  lemma CountsNext(start: Counts, m: St, s: Sample, depth: nat, i: nat)
    requires WellSized(m, s, depth) && i < depth
    ensures Add(Add(start, SlotCounts(m, s, depth, i)), SlotCount(m, s, depth, i))
            == Add(start, SlotCounts(m, s, depth, i + 1))
  {
  }

  // The ready bits remembered after i slots of the walk.
  function Walked(before: seq<bool>, now: seq<bool>, i: nat): (r: seq<bool>)
    requires i <= |before| == |now|
    ensures |r| == |before|
  {
    now[..i] + before[i..]
  }

  lemma WalkedEnds(before: seq<bool>, now: seq<bool>)
    requires |before| == |now|
    ensures Walked(before, now, 0) == before && Walked(before, now, |now|) == now
  {
  }

  lemma CountsZero(start: Counts, m: St, s: Sample, depth: nat)
    requires WellSized(m, s, depth)
    ensures Add(start, SlotCounts(m, s, depth, 0)) == start
  {
  }

  lemma WalkedNext(before: seq<bool>, now: seq<bool>, i: nat)
    requires i < |before| == |now|
    ensures Walked(before, now, i)[i] == before[i] && Walked(before, now, i)[i := now[i]] == Walked(before, now, i + 1)
  {
  }

  predicate Moved(m: St, s: Sample) { m.prevRead != NEVER && s.readPtr != m.prevRead }

  function LastCommit(m: St, s: Sample, cyc: nat): nat {
    if Moved(m, s) || m.prevRead == NEVER then cyc else m.lastCommitCyc
  }

  predicate Wedge(m: St, s: Sample, cyc: nat, limit: nat) {
    !m.wedgeReported && cyc > LastCommit(m, s, cyc) + limit
  }

  // Slots resolved since their last allocation.
  function Resolved(m: St, s: Sample): seq<bool>
    requires s.bev.rob < |m.pendingResolve| && s.writePtr < |m.pendingResolve|
  {
    var resolved := if s.bev.valid then m.pendingResolve[s.bev.rob := true] else m.pendingResolve;
    if s.allocFired then resolved[s.writePtr := false] else resolved
  }

  // The history after a cycle that adds c to the counters.
  function Recorded(m: St, s: Sample, cyc: nat, limit: nat, c: Counts): St
    requires s.bev.rob < |m.pendingResolve| && s.writePtr < |m.pendingResolve|
  {
    St(s.ready, Resolved(m, s), s.readPtr,
       LastCommit(m, s, cyc), if s.readPtr != m.prevRead then false else m.wedgeReported || Wedge(m, s, cyc, limit),
       s.bev, s.allocFired, s.writePtr, s.alu, s.mext,
       m.noResolve + c.noResolve, m.outside + c.outside,
       m.doubleResolve + (if s.bev.valid && m.pendingResolve[s.bev.rob] then 1 else 0),
       m.wedged + (if Wedge(m, s, cyc, limit) then 1 else 0),
       m.byAlu + c.byAlu, m.byMext + c.byMext, m.byOther + c.byOther)
  }

  // One call of `check`.
  function Checked(m: St, s: Sample, depth: nat, cyc: nat, limit: nat): St
    requires WellSized(m, s, depth)
  {
    Recorded(m, s, cyc, limit, SlotCounts(m, s, depth, depth))
  }

  // The monitor with its arrays and counters updated in place.
  class HartMonitor {
    const limit: nat
    var prevReady: array<bool>
    var pendingResolve: array<bool>
    var prevRead: nat
    var lastCommitCyc: nat
    var wedgeReported: bool
    var pBev: Port
    var pAlloc: bool
    var pWrite: nat
    var pAlu: Port
    var pMext: Port
    var noResolve: nat
    var outside: nat
    var doubleResolve: nat
    var wedged: nat
    var byAlu: nat
    var byMext: nat
    var byOther: nat

    ghost function State(): St
      reads this, prevReady, pendingResolve
    {
      St(prevReady[..], pendingResolve[..], prevRead, lastCommitCyc, wedgeReported, pBev, pAlloc, pWrite, pAlu, pMext,
         noResolve, outside, doubleResolve, wedged, byAlu, byMext, byOther)
    }

    ghost predicate Wf()
      reads this, prevReady, pendingResolve
    {
      prevReady != pendingResolve && prevReady.Length == pendingResolve.Length
    }

    constructor (depth: nat, limit: nat)
      ensures Wf() && State() == Fresh(depth) && this.limit == limit
      ensures fresh(prevReady) && fresh(pendingResolve)
    {
      this.limit := limit;
      prevReady := new bool[depth](_ => false);
      pendingResolve := new bool[depth](_ => false);
      prevRead, lastCommitCyc, wedgeReported := NEVER, 0, false;
      pBev, pAlloc, pWrite, pAlu, pMext := Port(false, 0), false, 0, Port(false, 0), Port(false, 0);
      noResolve, outside, doubleResolve, wedged, byAlu, byMext, byOther := 0, 0, 0, 0, 0, 0, 0;
      new;
      assert prevReady[..] == Fresh(depth).prevReady;
      assert pendingResolve[..] == Fresh(depth).pendingResolve;
    }

    ghost predicate SameHistory(m: St)
      reads this
    {
      && prevRead == m.prevRead && pBev == m.pBev && pAlloc == m.pAlloc && pWrite == m.pWrite
      && pAlu == m.pAlu && pMext == m.pMext
    }

    // Forward progress.
    method CheckProgress(ghost m: St, s: Sample, cyc: nat)
      requires SameHistory(m) && lastCommitCyc == m.lastCommitCyc
      requires wedgeReported == m.wedgeReported && wedged == m.wedged
      modifies this`lastCommitCyc, this`wedgeReported, this`wedged
      ensures lastCommitCyc == LastCommit(m, s, cyc)
      ensures wedged == m.wedged + if Wedge(m, s, cyc, limit) then 1 else 0
      ensures wedgeReported == if s.readPtr != m.prevRead then false else m.wedgeReported || Wedge(m, s, cyc, limit)
    {
      if prevRead != NEVER && s.readPtr != prevRead { lastCommitCyc := cyc; }
      if prevRead == NEVER { lastCommitCyc := cyc; }
      if !wedgeReported && cyc > lastCommitCyc + limit {
        wedgeReported, wedged := true, wedged + 1;
      }
      if s.readPtr != prevRead { wedgeReported := false; }
    }

    // A branch resolved twice without an allocation in between.
    method CheckResolution(s: Sample)
      requires s.bev.rob < pendingResolve.Length && s.writePtr < pendingResolve.Length
      modifies this`doubleResolve, pendingResolve
      ensures doubleResolve == old(doubleResolve) + if s.bev.valid && old(pendingResolve[s.bev.rob]) then 1 else 0
      ensures var r := if s.bev.valid then old(pendingResolve[..])[s.bev.rob := true] else old(pendingResolve[..]);
              pendingResolve[..] == if s.allocFired then r[s.writePtr := false] else r
    {
      if s.bev.valid {
        if pendingResolve[s.bev.rob] { doubleResolve := doubleResolve + 1; }
        pendingResolve[s.bev.rob] := true;
      }
      if s.allocFired { pendingResolve[s.writePtr] := false; }
    }

    function Counters(): Counts
      reads this
    {
      Counts(noResolve, outside, byAlu, byMext, byOther)
    }

    // A conditional branch that became ready, and by which port.
    method CheckBranch(ghost m: St, s: Sample, i: nat)
      requires WellSized(m, s, prevReady.Length) && SameHistory(m) && i < prevReady.Length && Rising(m, s, i)
      modifies this`noResolve, this`byAlu, this`byMext, this`byOther
      ensures var c := SlotCount(m, s, prevReady.Length, i);
              && noResolve == old(noResolve) + c.noResolve && byAlu == old(byAlu) + c.byAlu
              && byMext == old(byMext) + c.byMext && byOther == old(byOther) + c.byOther
    {
      var named := pBev.valid && pBev.rob == i;
      var alloc := pAlloc && pWrite == i;
      var aluHit := pAlu.valid && pAlu.rob == i;
      var mHit := pMext.valid && pMext.rob == i;
      if s.insn[i] & 0x7f == 0x63 && !named && !alloc {
        noResolve := noResolve + 1;
        if aluHit { byAlu := byAlu + 1; } else if mHit { byMext := byMext + 1; } else { byOther := byOther + 1; }
      }
    }

    // A slot outside the window that became ready.
    method CheckWindow(ghost m: St, s: Sample, i: nat)
      requires WellSized(m, s, prevReady.Length) && SameHistory(m) && i < prevReady.Length && Rising(m, s, i)
      modifies this`outside
      ensures outside == old(outside) + SlotCount(m, s, prevReady.Length, i).outside
    {
      var alloc := pAlloc && pWrite == i;
      if !alloc && !InWindow(i, s.readPtr, s.writePtr, prevReady.Length) {
        var wasIn := prevRead != NEVER && InWindow(i, prevRead, pWrite, prevReady.Length);
        if !wasIn { outside := outside + 1; }
      }
    }

    method CheckSlot(ghost m: St, s: Sample, i: nat)
      requires WellSized(m, s, prevReady.Length) && SameHistory(m)
      requires i < prevReady.Length && prevReady[i] == m.prevReady[i]
      modifies this`noResolve, this`outside, this`byAlu, this`byMext, this`byOther, prevReady
      ensures Counters() == Add(old(Counters()), SlotCount(m, s, prevReady.Length, i))
      ensures prevReady[..] == old(prevReady[..])[i := s.ready[i]]
    {
      if s.ready[i] && !prevReady[i] {
        CheckBranch(m, s, i);
        CheckWindow(m, s, i);
      }
      prevReady[i] := s.ready[i];
    }

    // The walk has come to slot i, with these counters at its start.
    ghost predicate Walking(m: St, s: Sample, depth: nat, start: Counts, i: nat)
      reads this, prevReady
    {
      && prevReady.Length == depth && WellSized(m, s, depth) && SameHistory(m) && i <= depth
      && prevReady[..] == Walked(m.prevReady, s.ready, i)
      && Counters() == Add(start, SlotCounts(m, s, depth, i))
    }

    // One turn of the walk.
    method CheckNext(ghost m: St, s: Sample, ghost depth: nat, ghost start: Counts, i: nat)
      requires i < depth && Walking(m, s, depth, start, i)
      modifies this`noResolve, this`outside, this`byAlu, this`byMext, this`byOther, prevReady
      ensures Walking(m, s, depth, start, i + 1)
    {
      WalkedNext(m.prevReady, s.ready, i);
      CountsNext(start, m, s, depth, i);
      CheckSlot(m, s, i);
    }

    // The walk over all slots.
    method CheckSlots(ghost m: St, s: Sample)
      requires WellSized(m, s, prevReady.Length) && SameHistory(m) && prevReady[..] == m.prevReady
      modifies this`noResolve, this`outside, this`byAlu, this`byMext, this`byOther, prevReady
      ensures prevReady[..] == s.ready
      ensures Counters() == Add(old(Counters()), SlotCounts(m, s, prevReady.Length, prevReady.Length))
    {
      ghost var start := Counters();
      var depth, i := prevReady.Length, 0;
      CountsZero(start, m, s, depth);
      WalkedEnds(m.prevReady, s.ready);
      while i < depth
        invariant i <= depth && Walking(m, s, depth, start, i)
      {
        CheckNext(m, s, depth, start, i);
        i := i + 1;
      }
    }

    method Check(s: Sample, cyc: nat)
      requires Wf() && WellSized(State(), s, prevReady.Length)
      modifies this, prevReady, pendingResolve
      ensures prevReady == old(prevReady) && pendingResolve == old(pendingResolve)
      ensures State() == Checked(old(State()), s, prevReady.Length, cyc, limit)
    {
      ghost var m := State();
      var c := CheckAll(m, s, cyc);
      Record(s);
      assert State() == Recorded(m, s, cyc, limit, c);
    }

    // The three groups of checks, in the order of the source.
    method CheckAll(ghost m: St, s: Sample, cyc: nat) returns (ghost c: Counts)
      requires Wf() && WellSized(m, s, prevReady.Length) && m == State()
      modifies this`lastCommitCyc, this`wedgeReported, this`wedged, this`doubleResolve, pendingResolve
      modifies this`noResolve, this`outside, this`byAlu, this`byMext, this`byOther, prevReady
      ensures c == SlotCounts(m, s, prevReady.Length, prevReady.Length)
      ensures prevReady[..] == s.ready && pendingResolve[..] == Resolved(m, s)
      ensures lastCommitCyc == LastCommit(m, s, cyc)
      ensures wedged == m.wedged + if Wedge(m, s, cyc, limit) then 1 else 0
      ensures wedgeReported == if s.readPtr != m.prevRead then false else m.wedgeReported || Wedge(m, s, cyc, limit)
      ensures doubleResolve == m.doubleResolve + if s.bev.valid && m.pendingResolve[s.bev.rob] then 1 else 0
      ensures Counters() == Add(Counts(m.noResolve, m.outside, m.byAlu, m.byMext, m.byOther), c)
    {
      CheckProgress(m, s, cyc);
      CheckResolution(s);
      assert pendingResolve[..] == Resolved(m, s);
      CheckSlots(m, s);
      c := SlotCounts(m, s, prevReady.Length, prevReady.Length);
    }

    // This cycle's ports become the previous cycle's.
    method Record(s: Sample)
      modifies this`prevRead, this`pBev, this`pAlloc, this`pWrite, this`pAlu, this`pMext
      ensures prevRead == s.readPtr && pBev == s.bev && pAlloc == s.allocFired && pWrite == s.writePtr
      ensures pAlu == s.alu && pMext == s.mext
    {
      prevRead, pBev, pAlloc, pWrite, pAlu, pMext := s.readPtr, s.bev, s.allocFired, s.writePtr, s.alu, s.mext;
    }
  }
}
