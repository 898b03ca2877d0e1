// The reorder-buffer FIFO of src/main/scala/pipeline/Fifo.scala (class robFifo) at one clock
// edge, and the probe sim/harness/probes/robmodify_probe.cpp that watches its rollbacks.
module Rob {
  import opened Common

  // readReg, writeReg, emptyReg, fullReg and memReg; the depth is |mem|.
  datatype Fifo<T> = Fifo(rd: nat, wr: nat, empty: bool, full: bool, mem: seq<T>)

  // What is driven during the cycle: an offered entry, the consumer's ready, a mispredicted
  // branch and its slot, and the whole-buffer squash.
  datatype Inputs<T> = Inputs(enq: Option<T>, deqReady: bool, rollback: bool, modifyVal: nat, flushAll: bool)

  // ---------------------------------------------------------------- pointers

  function Next(p: nat, depth: nat): nat { if p + 1 == depth then 0 else p + 1 }

  // The slot k places after p.
  function Slot(p: nat, k: nat, depth: nat): nat { if p + k < depth then p + k else (p + k) - depth }

  // `(a - b) & (depth - 1)` on two pointers.
  function Distance(a: nat, b: nat, depth: nat): nat
    requires b < depth
  {
    if a >= b then a - b else a + depth - b
  }

  // The mask computes the distance whenever the depth divides the word size, as a power of two does.
  lemma DistanceIsMask(a: nat, b: nat, depth: nat, q: nat, word: nat)
    requires a < depth && b < depth && word == q * depth && q > 0
    ensures ((a - b) % word) % depth == Distance(a, b, depth)
  {
    assert word == (q - 1) * depth + depth >= depth;
    if a >= b {
      DivUnique(a - b, word, 0, a - b);
      DivUnique(a - b, depth, 0, a - b);
    } else {
      DivUnique(a - b, word, -1, word + a - b);
      DivUnique(word + a - b, depth, q - 1, a + depth - b);
    }
  }

  // ---------------------------------------------------------------- the FIFO

  predicate Valid<T>(f: Fifo<T>) {
    && |f.mem| >= 2 && f.rd < |f.mem| && f.wr < |f.mem|
    && !(f.empty && f.full)
    && (f.rd == f.wr <==> f.empty || f.full)
  }

  ghost predicate ValidInputs<T>(f: Fifo<T>, x: Inputs<T>) { x.modifyVal < |f.mem| }

  function Occupancy<T>(f: Fifo<T>): nat
    requires f.rd < |f.mem|
  {
    if f.empty then 0 else if f.full then |f.mem| else Distance(f.wr, f.rd, |f.mem|)
  }

  function Rel<T>(f: Fifo<T>, x: Inputs<T>): nat
    requires f.rd < |f.mem|
  {
    Distance(x.modifyVal, f.rd, |f.mem|)
  }

  // Fifo.scala drops a rollback whose target is not live (`guarded`); the rule that the probe
  // documents takes every one.
  predicate DoModify<T>(f: Fifo<T>, x: Inputs<T>, guarded: bool)
    requires f.rd < |f.mem|
  {
    x.rollback && (guarded ==> Rel(f, x) < Occupancy(f))
  }

  predicate DeqFire<T>(f: Fifo<T>, x: Inputs<T>, guarded: bool)
    requires f.rd < |f.mem|
  {
    x.deqReady && !f.empty && !DoModify(f, x, guarded)
  }

  predicate EnqFire<T>(f: Fifo<T>, x: Inputs<T>, guarded: bool)
    requires f.rd < |f.mem|
  {
    x.enq.Some? && (!f.full || DeqFire(f, x, guarded)) && !DoModify(f, x, guarded)
  }

  function ClockEdge<T>(f: Fifo<T>, x: Inputs<T>, guarded: bool): Fifo<T>
    requires f.rd < |f.mem| && f.wr < |f.mem|
  {
    var depth := |f.mem|;
    var undo, deq, enq := DoModify(f, x, guarded), DeqFire(f, x, guarded), EnqFire(f, x, guarded);
    var mem := if enq then f.mem[f.wr := x.enq.value] else f.mem;
    var rd := if deq then Next(f.rd, depth) else f.rd;
    if x.flushAll then Fifo(rd, f.rd, true, false, mem)
    else if undo then
      var nextval := Next(x.modifyVal, depth);
      Fifo(rd, nextval, false, nextval == f.rd, mem)
    else if deq && enq then Fifo(rd, Next(f.wr, depth), f.empty, f.full, mem)
    else if enq then Fifo(rd, Next(f.wr, depth), false, Next(f.wr, depth) == f.rd, mem)
    else if deq then Fifo(rd, f.wr, Next(f.rd, depth) == f.wr, false, mem)
    else f
  }

  // ---------------------------------------------------------------- what it implements

  // The live entries, oldest first.
  function Contents<T>(f: Fifo<T>): (c: seq<T>)
    requires f.rd < |f.mem| && f.wr < |f.mem|
    ensures |c| == Occupancy(f)
  {
    seq(Occupancy(f), (k: nat) requires k < Occupancy(f) && f.rd < |f.mem| && f.wr < |f.mem| =>
          f.mem[Slot(f.rd, k, |f.mem|)])
  }

  // A bounded queue and the slot number of its oldest entry.
  datatype Queue<T> = Queue(head: nat, entries: seq<T>)

  function Abstract<T>(f: Fifo<T>): Queue<T>
    requires f.rd < |f.mem| && f.wr < |f.mem|
  {
    Queue(f.rd, Contents(f))
  }

  // One cycle of the bounded queue: a flush drops everything, a rollback to a live entry keeps
  // the entries up to and including it, and otherwise the oldest entry may leave and a new one
  // may join if there is room.
  function QueueStep<T>(q: Queue<T>, depth: nat, x: Inputs<T>): Queue<T>
    requires q.head < depth
  {
    var rel := Distance(x.modifyVal, q.head, depth);
    if x.rollback && rel < |q.entries| then
      Queue(q.head, if x.flushAll then [] else q.entries[..rel + 1])
    else
      var left := if x.deqReady && q.entries != [] then Queue(Next(q.head, depth), q.entries[1..]) else q;
      if x.flushAll then Queue(left.head, [])
      else if x.enq.Some? && |left.entries| < depth then left.(entries := left.entries + [x.enq.value])
      else left
  }

  // The pointers and flags alone.
  lemma EdgeOccupancy<T>(f: Fifo<T>, x: Inputs<T>)
    requires Valid(f) && ValidInputs(f, x) && !(x.flushAll && DeqFire(f, x, true))
    ensures var g, q := ClockEdge(f, x, true), QueueStep(Abstract(f), |f.mem|, x);
            && Valid(g) && |g.mem| == |f.mem| && g.rd == q.head
            && Occupancy(g) == |q.entries|
  {
    QueueLength(f, x);
    EdgePointers(f, x);
  }

  // How many entries a cycle leaves.
  function Kept<T>(f: Fifo<T>, x: Inputs<T>): nat
    requires Valid(f)
  {
    if x.flushAll then 0
    else if DoModify(f, x, true) then Rel(f, x) + 1
    else Occupancy(f) + (if EnqFire(f, x, true) then 1 else 0) - if DeqFire(f, x, true) then 1 else 0
  }

  lemma QueueLength<T>(f: Fifo<T>, x: Inputs<T>)
    requires Valid(f) && ValidInputs(f, x)
    ensures |QueueStep(Abstract(f), |f.mem|, x).entries| == Kept(f, x)
    ensures QueueStep(Abstract(f), |f.mem|, x).head == ClockEdge(f, x, true).rd
  {
  }

  lemma EdgePointers<T>(f: Fifo<T>, x: Inputs<T>)
    requires Valid(f) && ValidInputs(f, x) && !(x.flushAll && DeqFire(f, x, true))
    ensures var g := ClockEdge(f, x, true); Valid(g) && |g.mem| == |f.mem| && Occupancy(g) == Kept(f, x)
  {
  }

  lemma EdgeEntry<T>(f: Fifo<T>, x: Inputs<T>, k: nat)
    requires Valid(f) && ValidInputs(f, x) && !(x.flushAll && DeqFire(f, x, true))
    requires k < |QueueStep(Abstract(f), |f.mem|, x).entries|
    ensures var g := ClockEdge(f, x, true);
            && g.rd < |g.mem| && |g.mem| == |f.mem|
            && g.mem[Slot(g.rd, k, |f.mem|)] == QueueStep(Abstract(f), |f.mem|, x).entries[k]
  {
    var g, c := ClockEdge(f, x, true), Contents(f);
    if DeqFire(f, x, true) {
      assert g.rd == Next(f.rd, |f.mem|) && Slot(g.rd, k, |f.mem|) == Slot(f.rd, k + 1, |f.mem|);
      assert k + 1 < |c| ==> c[1..][k] == f.mem[Slot(f.rd, k + 1, |f.mem|)];
    } else {
      assert g.rd == f.rd;
      assert k < |c| ==> c[k] == f.mem[Slot(f.rd, k, |f.mem|)];
    }
  }

  // The FIFO refines the queue in every cycle except one that flushes and dequeues at once.
  lemma EdgeRefines<T>(f: Fifo<T>, x: Inputs<T>)
    requires Valid(f) && ValidInputs(f, x) && !(x.flushAll && DeqFire(f, x, true))
    ensures var g := ClockEdge(f, x, true);
            Valid(g) && |g.mem| == |f.mem| && Abstract(g) == QueueStep(Abstract(f), |f.mem|, x)
  {
    EdgeOccupancy(f, x);
    var g, d := ClockEdge(f, x, true), QueueStep(Abstract(f), |f.mem|, x).entries;
    forall k: nat | k < |d| ensures Contents(g)[k] == d[k] {
      EdgeEntry(f, x, k);
    }
    assert Contents(g) == d;
  }

  // In a cycle that flushes, the entry enqueued next is the whole content exactly when nothing
  // was dequeued with the flush; otherwise that one entry makes the buffer full.
  lemma FlushWithDequeue<T>(f: Fifo<T>, x: Inputs<T>, e: T)
    requires Valid(f) && ValidInputs(f, x) && x.flushAll
    ensures var g := ClockEdge(f, x, true);
            var h := ClockEdge(g, Inputs(Some(e), false, false, 0, false), true);
            && (Contents(h) == [e] <==> !DeqFire(f, x, true))
            && (DeqFire(f, x, true) ==> Occupancy(h) == |f.mem|)
            && (Valid(g) <==> !DeqFire(f, x, true))
  {
  }

  // The comment at the squash relies on the simultaneous rollback to the slot before the head to
  // block the dequeue; that rollback is taken only when the buffer is full.
  lemma SquashTarget<T>(f: Fifo<T>, x: Inputs<T>)
    requires Valid(f) && x.rollback && x.modifyVal == (if f.rd == 0 then |f.mem| - 1 else f.rd - 1)
    ensures DoModify(f, x, true) <==> f.full
    ensures x.deqReady ==> (DeqFire(f, x, true) <==> !f.empty && !f.full)
  {
  }

  // ---------------------------------------------------------------- runs

  ghost function Exec<T>(f: Fifo<T>, xs: seq<Inputs<T>>): Fifo<T>
    requires f.rd < |f.mem| && f.wr < |f.mem|
    requires forall x | x in xs :: x.modifyVal < |f.mem|
    decreases |xs|
  {
    if xs == [] then f else Exec(ClockEdge(f, xs[0], true), xs[1..])
  }

  function QueueExec<T>(q: Queue<T>, depth: nat, xs: seq<Inputs<T>>): Queue<T>
    requires q.head < depth
    decreases |xs|
  {
    if xs == [] then q else QueueExec(QueueStep(q, depth, xs[0]), depth, xs[1..])
  }

  // No cycle of the run flushes and dequeues at once.
  ghost predicate Separate<T>(f: Fifo<T>, xs: seq<Inputs<T>>)
    requires f.rd < |f.mem| && f.wr < |f.mem|
    requires forall x | x in xs :: x.modifyVal < |f.mem|
    decreases |xs|
  {
    xs == [] || (!(xs[0].flushAll && DeqFire(f, xs[0], true)) && Separate(ClockEdge(f, xs[0], true), xs[1..]))
  }

  // Any number of cycles of the FIFO are as many cycles of the bounded queue, and the queue never
  // holds more than the depth.
  lemma {:induction false} RunRefines<T>(f: Fifo<T>, xs: seq<Inputs<T>>)
    requires Valid(f) && (forall x | x in xs :: x.modifyVal < |f.mem|) && Separate(f, xs)
    ensures var g := Exec(f, xs);
            && Valid(g) && |g.mem| == |f.mem|
            && Abstract(g) == QueueExec(Abstract(f), |f.mem|, xs) && |Contents(g)| <= |f.mem|
    decreases |xs|
  {
    if xs != [] {
      assert xs[0] in xs;
      EdgeRefines(f, xs[0]);
      RunRefines(ClockEdge(f, xs[0], true), xs[1..]);
    }
  }

  // ---------------------------------------------------------------- rollbacks

  // Without the guard a rollback leaves rel + 1 entries, so it grows the buffer exactly when its
  // target is no longer live; and no rollback can leave the buffer empty.
  lemma UnguardedRollback<T>(f: Fifo<T>, x: Inputs<T>)
    requires Valid(f) && ValidInputs(f, x) && x.rollback && !x.flushAll
    ensures var g := ClockEdge(f, x, false);
            && Valid(g) && Occupancy(g) == Rel(f, x) + 1 > 0
            && (Occupancy(g) > Occupancy(f) <==> Rel(f, x) >= Occupancy(f))
            && (Rel(f, x) < Occupancy(f) ==> g == ClockEdge(f, x, true) && Contents(g) == Contents(f)[..Rel(f, x) + 1])
  {
    var g := ClockEdge(f, x, false);
    if Rel(f, x) < Occupancy(f) {
      assert forall k | 0 <= k <= Rel(f, x) :: Contents(g)[k] == Contents(f)[k];
    }
  }

  // With the guard a rollback to a slot that is not live is as if it had not been asked for.
  lemma GuardedRollback<T>(f: Fifo<T>, x: Inputs<T>)
    requires Valid(f) && ValidInputs(f, x) && x.rollback && Rel(f, x) >= Occupancy(f)
    ensures ClockEdge(f, x, true) == ClockEdge(f, x.(rollback := false), true)
  {
  }

  // ---------------------------------------------------------------- the registers

  // The FIFO with its registers updated in place.  Later assignments win, as later connections
  // do in the hardware description.
  class RobFifo<T> {
    var readReg: nat
    var writeReg: nat
    var emptyReg: bool
    var fullReg: bool
    var memReg: array<T>

    ghost predicate Wf()
      reads this, memReg
    {
      Valid(State())
    }

    ghost function State(): Fifo<T>
      reads this, memReg
    {
      Fifo(readReg, writeReg, emptyReg, fullReg, memReg[..])
    }

    constructor (depth: nat, blank: T)
      requires depth >= 2
      ensures Wf() && fresh(memReg) && memReg.Length == depth && Contents(State()) == []
    {
      readReg, writeReg, emptyReg, fullReg := 0, 0, true, false;
      memReg := new T[depth](_ => blank);
    }

    // One clock edge; returns which handshakes fired.
    method Clock(x: Inputs<T>) returns (enqFire: bool, deqFire: bool)
      requires Wf() && x.modifyVal < memReg.Length
      modifies this`readReg, this`writeReg, this`emptyReg, this`fullReg, memReg
      ensures memReg == old(memReg) && State() == ClockEdge(old(State()), x, true)
      ensures enqFire == EnqFire(old(State()), x, true) && deqFire == DeqFire(old(State()), x, true)
      ensures !(x.flushAll && deqFire) ==>
                Wf() && Abstract(State()) == QueueStep(old(Abstract(State())), memReg.Length, x)
    {
      ghost var pre := State();
      enqFire, deqFire := Update(x);
      if !(x.flushAll && deqFire) { EdgeRefines(pre, x); }
    }

    // The register updates.
    method Update(x: Inputs<T>) returns (enqFire: bool, deqFire: bool)
      requires Wf() && x.modifyVal < memReg.Length
      modifies this`readReg, this`writeReg, this`emptyReg, this`fullReg, memReg
      ensures memReg == old(memReg) && State() == ClockEdge(old(State()), x, true)
      ensures enqFire == EnqFire(old(State()), x, true) && deqFire == DeqFire(old(State()), x, true)
    {
      ghost var pre := State();
      var depth := memReg.Length;
      var readPtr, writePtr := readReg, writeReg;
      var nextRead, nextWrite := Next(readPtr, depth), Next(writePtr, depth);
      var nextval := Next(x.modifyVal, depth);
      var occupancy := if emptyReg then 0 else if fullReg then depth else Distance(writePtr, readPtr, depth);
      var doModify := x.rollback && Distance(x.modifyVal, readPtr, depth) < occupancy;
      deqFire := x.deqReady && !emptyReg && !doModify;
      enqFire := x.enq.Some? && (!fullReg || deqFire) && !doModify;
      if deqFire { readReg := nextRead; }
      if doModify {
        writeReg, fullReg, emptyReg := nextval, nextval == readPtr, false;
      } else if enqFire {
        writeReg := nextWrite;
      }
      if enqFire { memReg[writePtr] := x.enq.value; }
      if enqFire && !deqFire {
        emptyReg, fullReg := false, nextWrite == readPtr;
      } else if deqFire && !enqFire {
        fullReg, emptyReg := false, nextRead == writePtr;
      }
      if x.flushAll {
        writeReg, fullReg, emptyReg := readPtr, false, true;
      }
      assert memReg[..] == ClockEdge(pre, x, true).mem;
    }
  }

  // ---------------------------------------------------------------- the probe

  // Cycles of the run in which a rollback is asked for, in which its target is not live, and in
  // which the buffer ends the cycle holding more entries than it began with.
  datatype Tally = Tally(rollbacks: nat, outOfWindow: nat, grew: nat)

  // Registers in range; the flags may say anything.
  predicate Ranged<T>(f: Fifo<T>) { |f.mem| >= 2 && f.rd < |f.mem| && f.wr < |f.mem| }

  ghost predicate GoodInputs<T>(f: Fifo<T>, xs: seq<Inputs<T>>) {
    forall x | x in xs :: x.modifyVal < |f.mem|
  }

  predicate Grew<T>(f: Fifo<T>, x: Inputs<T>, guarded: bool)
    requires Ranged(f) && x.modifyVal < |f.mem|
  {
    var g := ClockEdge(f, x, guarded);
    g.rd < |g.mem| && Occupancy(g) > Occupancy(f)
  }

  function Plus(a: Tally, b: Tally): Tally {
    Tally(a.rollbacks + b.rollbacks, a.outOfWindow + b.outOfWindow, a.grew + b.grew)
  }

  // What one cycle adds.
  function One<T>(f: Fifo<T>, x: Inputs<T>, guarded: bool): Tally
    requires Ranged(f) && x.modifyVal < |f.mem|
  {
    if !x.rollback then Tally(0, 0, 0)
    else Tally(1, if Rel(f, x) >= Occupancy(f) then 1 else 0, if Grew(f, x, guarded) then 1 else 0)
  }

  ghost function TallyOf<T>(f: Fifo<T>, xs: seq<Inputs<T>>, guarded: bool): Tally
    requires Ranged(f) && GoodInputs(f, xs)
    decreases |xs|
  {
    if xs == [] then Tally(0, 0, 0) else
    assert xs[0] in xs;
    Plus(One(f, xs[0], guarded), TallyOf(ClockEdge(f, xs[0], guarded), xs[1..], guarded))
  }

  // A rollback to a dead slot that comes with a flush, as a squash's does.
  predicate DeadSquash<T>(f: Fifo<T>, x: Inputs<T>)
    requires Ranged(f)
  {
    x.rollback && x.flushAll && Rel(f, x) >= Occupancy(f)
  }

  ghost function DeadSquashes<T>(f: Fifo<T>, xs: seq<Inputs<T>>, guarded: bool): nat
    requires Ranged(f) && GoodInputs(f, xs)
    decreases |xs|
  {
    if xs == [] then 0 else
    assert xs[0] in xs;
    (if DeadSquash(f, xs[0]) then 1 else 0) + DeadSquashes(ClockEdge(f, xs[0], guarded), xs[1..], guarded)
  }

  // Which cycles the probe counts as growing.  Unguarded, the rollbacks to a dead slot; guarded, those
  // in which a new entry joins while none leaves: the growth is an ordinary enqueue.  A flush never grows.
  lemma GrowthIs<T>(f: Fifo<T>, x: Inputs<T>)
    requires Ranged(f) && x.modifyVal < |f.mem| && x.rollback
    ensures Grew(f, x, false) <==> Rel(f, x) >= Occupancy(f) && !x.flushAll
    ensures Grew(f, x, true) ==> Rel(f, x) >= Occupancy(f) && !x.flushAll
  {
  }

  lemma GuardedGrowth<T>(f: Fifo<T>, x: Inputs<T>)
    requires Valid(f) && ValidInputs(f, x) && x.rollback
    ensures Grew(f, x, true)
            <==> Rel(f, x) >= Occupancy(f) && !x.flushAll && EnqFire(f, x, true) && !DeqFire(f, x, true)
  {
  }

  // A squash names the slot before the head, which is dead unless the buffer is full; unguarded it
  // leaves a valid, empty buffer.
  lemma SquashIsDead<T>(f: Fifo<T>, x: Inputs<T>)
    requires Valid(f) && x.rollback && x.flushAll && x.modifyVal == (if f.rd == 0 then |f.mem| - 1 else f.rd - 1)
    ensures DeadSquash(f, x) <==> !f.full
    ensures var g := ClockEdge(f, x, false); Valid(g) && Contents(g) == [] && g.rd == f.rd
  {
  }

  lemma OneVerdict<T>(f: Fifo<T>, x: Inputs<T>, guarded: bool)
    requires Ranged(f) && x.modifyVal < |f.mem|
    ensures Ranged(ClockEdge(f, x, guarded)) && |ClockEdge(f, x, guarded).mem| == |f.mem|
    ensures var t, dead := One(f, x, guarded), if DeadSquash(f, x) then 1 else 0;
            if guarded then t.outOfWindow >= t.grew + dead else t.outOfWindow == t.grew + dead
  {
    if x.rollback { GrowthIs(f, x); }
  }

  function Asked<T>(xs: seq<Inputs<T>>): nat {
    if xs == [] then 0 else (if xs[0].rollback then 1 else 0) + Asked(xs[1..])
  }

  // Every cycle that asks for a rollback is counted once.
  lemma {:induction false} RollbacksCounted<T>(f: Fifo<T>, xs: seq<Inputs<T>>, guarded: bool)
    requires Ranged(f) && GoodInputs(f, xs)
    ensures TallyOf(f, xs, guarded).rollbacks == Asked(xs) >= TallyOf(f, xs, guarded).outOfWindow
    decreases |xs|
  {
    if xs != [] {
      assert xs[0] in xs;
      RollbacksCounted(ClockEdge(f, xs[0], guarded), xs[1..], guarded);
    }
  }

  // Over every run, squashes included and whatever the registers hold at its start: unguarded, the
  // rollbacks out of the window are the growing ones and the dead squashes; guarded, there are at
  // least as many.
  lemma {:induction false} ProbeVerdict<T>(f: Fifo<T>, xs: seq<Inputs<T>>, guarded: bool)
    requires Ranged(f) && GoodInputs(f, xs)
    ensures var t, dead := TallyOf(f, xs, guarded), DeadSquashes(f, xs, guarded);
            if guarded then t.outOfWindow >= t.grew + dead else t.outOfWindow == t.grew + dead
    decreases |xs|
  {
    if xs != [] {
      assert xs[0] in xs;
      OneVerdict(f, xs[0], guarded);
      ProbeVerdict(ClockEdge(f, xs[0], guarded), xs[1..], guarded);
    }
  }

  lemma TallyUnfold<T>(f: Fifo<T>, xs: seq<Inputs<T>>, guarded: bool)
    requires Ranged(f) && GoodInputs(f, xs) && xs != []
    ensures xs[0].modifyVal < |f.mem|
    ensures var g := ClockEdge(f, xs[0], guarded);
            && Ranged(g) && |g.mem| == |f.mem| && GoodInputs(g, xs[1..])
            && TallyOf(f, xs, guarded) == Plus(One(f, xs[0], guarded), TallyOf(g, xs[1..], guarded))
  {
    assert xs[0] in xs;
    OneVerdict(f, xs[0], guarded);
  }

  lemma PlusShifts(a: Tally, b: Tally, c: Tally)
    ensures Plus(a, Plus(b, c)) == Plus(Plus(a, b), c)
  {
  }

  // One turn of the probe's loop: sample before the edge, clock, sample after it.
  method WatchTurn<T>(f: Fifo<T>, x: Inputs<T>, guarded: bool, before: Tally) returns (g: Fifo<T>, t: Tally)
    requires Ranged(f) && x.modifyVal < |f.mem|
    ensures g == ClockEdge(f, x, guarded) && Ranged(g) && t == Plus(before, One(f, x, guarded))
  {
    var occ, rel := Occupancy(f), Rel(f, x);
    OneVerdict(f, x, guarded);
    g, t := ClockEdge(f, x, guarded), before;
    if x.rollback {
      t := Tally(before.rollbacks + 1,
                 if rel >= occ then before.outOfWindow + 1 else before.outOfWindow,
                 if Occupancy(g) > occ then before.grew + 1 else before.grew);
    }
  }

  // The tally so far and that of the cycles left make up `all`.
  ghost predicate SoFar<T>(f: Fifo<T>, left: seq<Inputs<T>>, guarded: bool, t: Tally, all: Tally) {
    Ranged(f) && GoodInputs(f, left) && Plus(t, TallyOf(f, left, guarded)) == all
  }

  lemma SoFarNext<T>(f: Fifo<T>, left: seq<Inputs<T>>, guarded: bool, t: Tally, all: Tally)
    requires SoFar(f, left, guarded, t, all) && left != []
    ensures left[0].modifyVal < |f.mem|
    ensures SoFar(ClockEdge(f, left[0], guarded), left[1..], guarded, Plus(t, One(f, left[0], guarded)), all)
  {
    TallyUnfold(f, left, guarded);
    PlusShifts(t, One(f, left[0], guarded), TallyOf(ClockEdge(f, left[0], guarded), left[1..], guarded));
  }

  lemma SoFarEnds<T>(f: Fifo<T>, guarded: bool, t: Tally, all: Tally)
    ensures SoFar(f, [], guarded, t, all) ==> t == all
  {
  }

  // The whole run.
  method Watch<T>(start: Fifo<T>, xs: seq<Inputs<T>>, guarded: bool) returns (t: Tally)
    requires Ranged(start) && GoodInputs(start, xs)
    ensures t == TallyOf(start, xs, guarded)
  {
    var f, left := start, xs;
    t := Tally(0, 0, 0);
    ghost var all := TallyOf(start, xs, guarded);
    while left != []
      invariant SoFar(f, left, guarded, t, all)
      decreases |left|
    {
      SoFarNext(f, left, guarded, t, all);
      f, t := WatchTurn(f, left[0], guarded, t);
      left := left[1..];
    }
    SoFarEnds(f, guarded, t, all);
  }
}
