// The in-place blur of workloads/demos/mt-fire.c: one line through a three-cell ring buffer, and
// the two passes that the harts share line by line.
module Blur {

  type Cell = x: int | 0 <= x < 256

  // ---------------------------------------------------------------- one line

  // The average of a cell and its two neighbours, zero beyond the ends.
  function At(cells: seq<Cell>, k: int): Cell { if 0 <= k < |cells| then cells[k] else 0 }

  function Average(cells: seq<Cell>, k: int): Cell {
    (At(cells, k - 1) as int + At(cells, k) as int + At(cells, k + 1) as int) / 3
  }

  function Blurred(cells: seq<Cell>): (r: seq<Cell>)
    ensures |r| == |cells|
  {
    seq(|cells|, k requires 0 <= k < |cells| => Average(cells, k))
  }

  datatype Ring = Ring(circ: seq<Cell>, beg: nat)

  // The ring before the first cell: zero, the first cell, and whatever lies one step further.
  function Start(first: Cell, second: Cell): Ring { Ring([0, first, second], 1) }

  function Sum(r: Ring): nat
    requires |r.circ| == 3
  {
    r.circ[0] as int + r.circ[1] as int + r.circ[2] as int
  }

  function Out(r: Ring): Cell
    requires |r.circ| == 3
  {
    Sum(r) / 3
  }

  // `circ[(beg++ + 2) % 3] = ...` with `beg` a uint8_t.
  function Push(r: Ring, c: Cell): (s: Ring)
    requires |r.circ| == 3
    ensures |s.circ| == 3
  {
    Ring(r.circ[(r.beg + 2) % 3 := c], (r.beg + 1) % 256)
  }

  // The ring after i cells of the line have been written.
  function RingAfter(cells: seq<Cell>, second: Cell, i: nat): (r: Ring)
    requires cells != []
    ensures |r.circ| == 3
  {
    if i == 0 then Start(cells[0], second) else Push(RingAfter(cells, second, i - 1), At(cells, i + 1))
  }

  // The line as `line_blur` leaves it.
  function Written(cells: seq<Cell>, second: Cell): (r: seq<Cell>)
    ensures |r| == |cells|
  {
    seq(|cells|, i requires 0 <= i < |cells| => Out(RingAfter(cells, second, i)))
  }

  // Three values in a ring whose first is at position p.
  function Rotated(p: nat, a: Cell, b: Cell, c: Cell): seq<Cell> {
    if p == 0 then [a, b, c] else if p == 1 then [c, a, b] else [b, c, a]
  }

  lemma ModThree(i: nat)
    requires i > 0
    ensures (i + 2) % 3 == (i - 1) % 3 && i % 3 == (if (i - 1) % 3 == 2 then 0 else (i - 1) % 3 + 1)
  {
  }

  // The slot `(beg + 2) % 3` is the one of the oldest value.
  lemma PushRotates(p: nat, a: Cell, b: Cell, c: Cell, d: Cell, beg: nat)
    requires p < 3 && (beg + 2) % 3 == p
    ensures Push(Ring(Rotated(p, a, b, c), beg), d)
         == Ring(Rotated(if p == 2 then 0 else p + 1, b, c, d), (beg + 1) % 256)
  {
  }

  // Up to the 256th cell the ring holds the cell before, the cell itself and the cell after.
  lemma {:induction false} RingHolds(cells: seq<Cell>, i: nat)
    requires |cells| >= 2 && i <= 255
    ensures RingAfter(cells, cells[1], i)
         == Ring(Rotated(i % 3, At(cells, i - 1), At(cells, i), At(cells, i + 1)), (i + 1) % 256)
  {
    if i > 0 {
      RingHolds(cells, i - 1);
      ModThree(i);
      assert i % 256 == i;
      PushRotates((i - 1) % 3, At(cells, i - 2), At(cells, i - 1), At(cells, i), At(cells, i + 1), i);
    }
  }

  lemma RingAverage(cells: seq<Cell>, i: nat)
    requires |cells| >= 2 && i <= 255
    ensures Out(RingAfter(cells, cells[1], i)) == Average(cells, i)
  {
    RingHolds(cells, i);
  }

  // The cell one step past the start belongs to the line when the line has two cells.
  predicate Reads(cells: seq<Cell>, second: Cell) { |cells| >= 2 ==> second == cells[1] }

  // Where the ring's counter wraps, the wrong slot is overwritten.
  function Spike(n: nat): seq<Cell>
    requires n >= 257
  {
    seq(n, k => if k == 256 then 3 else 0)
  }

  lemma SpikeMissed(n: nat)
    requires n >= 257
    ensures Written(Spike(n), 0) != Blurred(Spike(n))
  {
    var c := Spike(n);
    RingHolds(c, 255);
    var r, s := RingAfter(c, c[1], 255), RingAfter(c, c[1], 256);
    assert 255 % 3 == 0 && 256 % 3 == 1 && 257 % 3 == 2;
    assert r.circ[0] == 0 && r.circ[1] == 0 && r.beg == 0;
    assert s == Push(r, At(c, 257)) && Sum(s) == 0;
    assert Written(c, c[1])[256] == 0 && Blurred(c)[256] == 1;
  }

  // In place, `line_blur` is the three-cell average with zero ends for every content exactly when
  // the line is empty or has 2 to 256 cells.
  lemma LineExact(n: nat)
    ensures (forall cells: seq<Cell>, second: Cell | |cells| == n && Reads(cells, second) ::
               Written(cells, second) == Blurred(cells))
            <==> n == 0 || 2 <= n <= 256
  {
    if n == 0 {
    } else if n == 1 {
      var cells: seq<Cell> := [0];
      assert Reads(cells, 3) && Written(cells, 3)[0] == 1 && Blurred(cells)[0] == 0;
    } else if n <= 256 {
      forall cells: seq<Cell>, second: Cell | |cells| == n && Reads(cells, second)
        ensures Written(cells, second) == Blurred(cells)
      {
        forall i | 0 <= i < n ensures Written(cells, second)[i] == Blurred(cells)[i] {
          RingAverage(cells, i);
        }
      }
    } else {
      SpikeMissed(n);
      assert Reads(Spike(n), 0) && |Spike(n)| == n;
    }
  }

  // ---------------------------------------------------------------- the loop

  // Cell x of the line, counted in steps from its start.
  function Index(offset: nat, step: nat, x: nat): nat { if x == 0 then offset else Index(offset, step, x - 1) + step }

  lemma {:induction false} IndexLess(offset: nat, step: nat, x: nat, y: nat)
    requires x < y && step > 0
    ensures Index(offset, step, x) < Index(offset, step, y)
  {
    if x < y - 1 { IndexLess(offset, step, x, y - 1); }
  }

  // The line fits the image: its last cell does.
  predicate Fits(size: nat, offset: nat, step: nat, n: nat) {
    step > 0 && (n > 0 ==> Index(offset, step, n - 1) < size)
  }

  // Where the cells of the line lie.
  function Places(offset: nat, step: nat, n: nat): (r: seq<nat>)
    ensures |r| == n
  {
    seq(n, x requires 0 <= x => Index(offset, step, x))
  }

  // The places lie in the image, and no two are the same.
  predicate Apt(size: nat, at: seq<nat>) {
    (forall x | 0 <= x < |at| :: at[x] < size) && (forall x, y | 0 <= x < y < |at| :: at[x] != at[y])
  }

  lemma PlacesApt(size: nat, offset: nat, step: nat, n: nat)
    requires Fits(size, offset, step, n)
    ensures Apt(size, Places(offset, step, n))
  {
    var at := Places(offset, step, n);
    forall x: nat | x < n ensures at[x] < size { if x < n - 1 { IndexLess(offset, step, x, n - 1); } }
    forall x: nat, y: nat | x < y < n ensures at[x] != at[y] { IndexLess(offset, step, x, y); }
  }

  lemma PlacesNext(offset: nat, step: nat, n: nat, x: nat)
    ensures x + 1 < n ==> Places(offset, step, n)[x + 1] == Places(offset, step, n)[x] + step
    ensures n > 0 ==> Places(offset, step, n)[0] == offset
  {
  }

  // The cells at the given places.
  function Line(fire: seq<Cell>, at: seq<nat>): (r: seq<Cell>)
    ensures |r| == |at|
  {
    seq(|at|, x requires 0 <= x < |at| => At(fire, at[x]))
  }

  function Put(fire: seq<Cell>, k: nat, c: Cell): (r: seq<Cell>)
    ensures |r| == |fire|
  {
    if k < |fire| then fire[k := c] else fire
  }

  // The image with the first i cells of the line replaced.
  function Spread(fire: seq<Cell>, at: seq<nat>, cells: seq<Cell>, i: nat): (r: seq<Cell>)
    requires i <= |cells| == |at|
    ensures |r| == |fire|
  {
    if i == 0 then fire else Put(Spread(fire, at, cells, i - 1), at[i - 1], cells[i - 1])
  }

  lemma {:induction false} SpreadAt(fire: seq<Cell>, at: seq<nat>, cells: seq<Cell>, i: nat, x: nat)
    requires Apt(|fire|, at) && i <= |cells| == |at| && x < |cells|
    ensures At(Spread(fire, at, cells, i), at[x]) == if x < i then cells[x] else At(fire, at[x])
  {
    if i > 0 { SpreadAt(fire, at, cells, i - 1, x); }
  }

  lemma {:induction false} SpreadElsewhere(fire: seq<Cell>, at: seq<nat>, cells: seq<Cell>, i: nat, j: nat)
    requires i <= |cells| == |at| && j < |fire| && j !in at
    ensures Spread(fire, at, cells, i)[j] == fire[j]
  {
    if i > 0 { SpreadElsewhere(fire, at, cells, i - 1, j); }
  }

  // What a turn reads two steps ahead, where the line goes on.
  function Ahead(fire: seq<Cell>, far: nat, more: bool): Cell { if more then At(fire, far) else 0 }

  // The line as the loop leaves it, when the ring's third slot starts with `second`.
  function Goal(was: seq<Cell>, at: seq<nat>, second: Cell): (r: seq<Cell>)
    ensures |r| == |at|
  {
    Written(Line(was, at), second)
  }

  // Image and ring after i turns.
  ghost predicate Progress(was: seq<Cell>, fire: seq<Cell>, at: seq<nat>, second: Cell, i: nat, ring: Ring) {
    && Apt(|was|, at) && |fire| == |was| && |ring.circ| == 3 && i <= |at|
    && fire == Spread(was, at, Goal(was, at, second), i)
    && (at != [] ==> ring == RingAfter(Line(was, at), second, i))
  }

  lemma RingNext(cells: seq<Cell>, second: Cell, i: nat)
    requires cells != []
    ensures RingAfter(cells, second, i + 1) == Push(RingAfter(cells, second, i), At(cells, i + 2))
  {
  }

  // The cell two steps ahead has not been written yet.
  lemma TurnAhead(was: seq<Cell>, at: seq<nat>, cells: seq<Cell>, i: nat, far: nat)
    requires Apt(|was|, at) && i < |cells| == |at| && (i + 2 < |at| ==> far == at[i + 2])
    ensures Ahead(Spread(was, at, cells, i), far, i + 2 < |at|) == At(Line(was, at), i + 2)
  {
    if i + 2 < |at| { SpreadAt(was, at, cells, i, i + 2); }
  }

  // It leaves the next image and ring.
  lemma TurnProgress(
    was: seq<Cell>, fire: seq<Cell>, at: seq<nat>, second: Cell, i: nat, ring: Ring, far: nat,
    after: seq<Cell>, next: Ring)
    requires Progress(was, fire, at, second, i, ring) && Turned(fire, ring, at, i, far, after, next)
    requires i + 2 < |at| ==> far == at[i + 2]
    ensures Progress(was, after, at, second, i + 1, next)
  {
    TurnAhead(was, at, Goal(was, at, second), i, far);
    RingNext(Line(was, at), second, i);
  }

  lemma StartProgress(was: seq<Cell>, start: nat, step: nat, n: nat)
    requires start + step < |was| && Fits(|was|, start, step, n)
    ensures var second := was[start + step];
            Progress(was, was, Places(start, step, n), second, 0, Start(was[start], second))
  {
    PlacesApt(|was|, start, step, n);
    PlacesNext(start, step, n, 0);
  }

  lemma IndexTwo(offset: nat, step: nat, i: nat)
    ensures Index(offset, step, i + 2) == Index(offset, step, i) + 2 * step
  {
    assert Index(offset, step, i + 1) == Index(offset, step, i) + step;
  }

  // Where the loop stands after i turns, and the cell two steps ahead.
  predicate Standing(at: seq<nat>, i: nat, offset: nat, far: nat) {
    i <= |at| && (i < |at| ==> offset == at[i]) && (i + 2 < |at| ==> far == at[i + 2])
  }

  lemma StandingNext(start: nat, step: nat, n: nat, i: nat)
    requires i <= n
    ensures Standing(Places(start, step, n), i, Index(start, step, i), Index(start, step, i) + 2 * step)
    ensures Index(start, step, i + 1) == Index(start, step, i) + step
  {
    IndexTwo(start, step, i);
  }

  // What a turn of the loop does: write the average, then take in the cell two steps ahead.
  ghost predicate Turned(
    before: seq<Cell>, ring: Ring, at: seq<nat>, i: nat, far: nat, after: seq<Cell>, next: Ring)
  {
    && i < |at| && |ring.circ| == 3
    && after == Put(before, at[i], Out(ring)) && next == Push(ring, Ahead(before, far, i + 2 < |at|))
  }

  method Turn(fire: array<Cell>, offset: nat, far: nat, i: nat, nsteps: nat, ring: Ring, ghost at: seq<nat>)
    returns (next: Ring)
    requires |ring.circ| == 3 && nsteps == |at| && i < nsteps
    requires Apt(fire.Length, at) && Standing(at, i, offset, far)
    modifies fire
    ensures Turned(old(fire[..]), ring, at, i, far, fire[..], next)
  {
    fire[offset] := (ring.circ[0] as int + ring.circ[1] as int + ring.circ[2] as int) / 3;
    var ahead := if i + 2 < nsteps then fire[far] else 0;
    next := Ring(ring.circ[(ring.beg + 2) % 3 := ahead], (ring.beg + 1) % 256);
  }

  // A turn of the loop keeps the progress.
  method Advance(
    fire: array<Cell>, offset: nat, far: nat, i: nat, nsteps: nat, ring: Ring,
    ghost was: seq<Cell>, ghost at: seq<nat>, ghost second: Cell) returns (next: Ring)
    requires nsteps == |at| && i < nsteps && fire.Length == |was|
    requires Standing(at, i, offset, far) && Progress(was, fire[..], at, second, i, ring)
    modifies fire
    ensures Progress(was, fire[..], at, second, i + 1, next)
  {
    ghost var image := fire[..];
    next := Turn(fire, offset, far, i, nsteps, ring, at);
    TurnProgress(was, image, at, second, i, ring, far, fire[..], next);
  }

  method LineBlur(fire: array<Cell>, start: nat, step: nat, nsteps: nat)
    requires start + step < fire.Length && Fits(fire.Length, start, step, nsteps)
    modifies fire
    ensures var was, at := old(fire[..]), Places(start, step, nsteps);
            fire[..] == Spread(was, at, Goal(was, at, was[start + step]), nsteps)
  {
    ghost var was, at := fire[..], Places(start, step, nsteps);
    ghost var second := was[start + step];
    var offset: nat, i: nat := start, 0;
    var ring := Ring([0, fire[offset], fire[offset + step]], 1);
    StartProgress(was, start, step, nsteps);
    while i < nsteps
      invariant i <= nsteps && |fire[..]| == |was| && offset == Index(start, step, i)
      invariant Progress(was, fire[..], at, second, i, ring)
    {
      StandingNext(start, step, nsteps, i);
      ring := Advance(fire, offset, offset + 2 * step, i, nsteps, ring, was, at, second);
      offset, i := offset + step, i + 1;
    }
  }

  // What the caller sees: for lines of 2 to 256 cells the line is blurred and nothing else changes.
  lemma LineBlurred(fire: seq<Cell>, start: nat, step: nat, n: nat)
    requires Fits(|fire|, start, step, n) && 2 <= n <= 256
    ensures start + step < |fire|
    ensures var at := Places(start, step, n);
            var after := Spread(fire, at, Goal(fire, at, fire[start + step]), n);
            && Line(after, at) == Blurred(Line(fire, at))
            && forall j: nat | j < |fire| && j !in at :: after[j] == fire[j]
  {
    var at := Places(start, step, n);
    PlacesApt(|fire|, start, step, n);
    PlacesNext(start, step, n, 0);
    assert at[1] == start + step;
    BlurredAt(fire, at, fire[start + step]);
  }

  lemma BlurredAt(fire: seq<Cell>, at: seq<nat>, second: Cell)
    requires Apt(|fire|, at) && 2 <= |at| <= 256 && second == At(fire, at[1])
    ensures var after := Spread(fire, at, Goal(fire, at, second), |at|);
            && Line(after, at) == Blurred(Line(fire, at))
            && forall j: nat | j < |fire| && j !in at :: after[j] == fire[j]
  {
    var cells := Goal(fire, at, second);
    LineExact(|at|);
    assert Reads(Line(fire, at), second);
    var after := Spread(fire, at, cells, |at|);
    forall x: nat | x < |at| ensures Line(after, at)[x] == cells[x] {
      SpreadAt(fire, at, cells, |at|, x);
    }
    assert Line(after, at) == cells;
    forall j: nat | j < |fire| && j !in at ensures after[j] == fire[j] {
      SpreadElsewhere(fire, at, cells, |at|, j);
    }
  }

  // ---------------------------------------------------------------- the harts

  // A pass over `count` lines of `length` cells: line l starts `gap` cells after line l - 1, and its
  // cells lie `step` apart.
  datatype Pass = Pass(gap: nat, count: nat, step: nat, length: nat)

  function Rows(width: nat, height: nat): Pass { Pass(width, height, 1, width) }

  function Cols(width: nat, height: nat): Pass { Pass(1, width, width, height) }

  function Pos(p: Pass, l: nat, x: nat): nat { Index(Index(0, p.gap, l), p.step, x) }

  // Lines do not leave the image and share no cell, neither with each other nor with themselves.
  ghost predicate Grid(p: Pass, size: nat) {
    && (forall l: nat, x: nat | l < p.count && x < p.length :: Pos(p, l, x) < size)
    && (forall l: nat, x: nat, m: nat, y: nat
          | l < p.count && x < p.length && m < p.count && y < p.length && Pos(p, l, x) == Pos(p, m, y) ::
          l == m && x == y)
  }

  lemma {:induction false} IndexShift(offset: nat, step: nat, x: nat)
    ensures Index(offset, step, x) == offset + Index(0, step, x)
  {
    if x > 0 { IndexShift(offset, step, x - 1); }
  }

  lemma {:induction false} IndexOne(x: nat)
    ensures Index(0, 1, x) == x
  {
    if x > 0 { IndexOne(x - 1); }
  }

  lemma {:induction false} IndexTimes(step: nat, x: nat)
    ensures Index(0, step, x) == step * x
  {
    if x > 0 { IndexTimes(step, x - 1); assert step * x == step * (x - 1) + step; }
  }

  // The cell in column x of row y.
  function Cell2(width: nat, y: nat, x: nat): nat { Index(0, width, y) + x }

  lemma BothWays(width: nat, height: nat, y: nat, x: nat)
    ensures Pos(Rows(width, height), y, x) == Cell2(width, y, x) == Pos(Cols(width, height), x, y)
  {
    IndexShift(Index(0, width, y), 1, x);
    IndexOne(x);
    IndexShift(x, width, y);
  }

  lemma RowBelow(width: nat, y: nat, x: nat, v: nat)
    requires x < width && y < v
    ensures Cell2(width, y, x) < Index(0, width, v)
  {
    assert Index(0, width, y + 1) == Index(0, width, y) + width;
    if y + 1 < v { IndexLess(0, width, y + 1, v); }
  }

  lemma Cell2Unique(width: nat, y: nat, x: nat, v: nat, u: nat)
    requires x < width && u < width && Cell2(width, y, x) == Cell2(width, v, u)
    ensures y == v && x == u
  {
    if y < v { RowBelow(width, y, x, v); } else if v < y { RowBelow(width, v, u, y); }
  }

  // Rows and columns both tile the image.
  lemma RowsAndColsTile(width: nat, height: nat)
    ensures Grid(Rows(width, height), width * height) && Grid(Cols(width, height), width * height)
  {
    IndexTimes(width, height);
    forall y: nat, x: nat | y < height && x < width
      ensures Pos(Rows(width, height), y, x) < width * height && Pos(Cols(width, height), x, y) < width * height
    {
      BothWays(width, height, y, x);
      RowBelow(width, y, x, height);
    }
    var rows, cols := Rows(width, height), Cols(width, height);
    forall y: nat, x: nat, v: nat, u: nat
      | y < height && x < width && v < height && u < width
        && (Pos(rows, y, x) == Pos(rows, v, u) || Pos(cols, x, y) == Pos(cols, u, v))
      ensures y == v && x == u
    {
      BothWays(width, height, y, x);
      BothWays(width, height, v, u);
      Cell2Unique(width, y, x, v, u);
    }
  }

  // How far the call of `line_blur` on one line has come: not begun, or in turn i, before or after
  // the turn's store.
  datatype Job = Waiting | Busy(i: nat, ring: Ring, stored: bool)

  datatype State = State(fire: seq<Cell>, jobs: seq<Job>)

  function Finished(p: Pass, j: Job): bool { j.Busy? && j.i >= p.length }

  // The next memory step of the call on line l.
  function Step(p: Pass, s: State, l: nat): State
    requires l < |s.jobs| && (s.jobs[l].Busy? ==> |s.jobs[l].ring.circ| == 3)
  {
    match s.jobs[l]
    case Waiting =>
      var first := Pos(p, l, 0);
      s.(jobs := s.jobs[l := Busy(0, Start(At(s.fire, first), At(s.fire, first + p.step)), false)])
    case Busy(i, ring, false) =>
      if i >= p.length then s
      else State(Put(s.fire, Pos(p, l, i), Out(ring)), s.jobs[l := Busy(i, ring, true)])
    case Busy(i, ring, true) =>
      var ahead := if i + 2 < p.length then At(s.fire, Pos(p, l, i) + 2 * p.step) else 0;
      s.(jobs := s.jobs[l := Busy(i + 1, Push(ring, ahead), false)])
  }

  function Initial(p: Pass, fire: seq<Cell>): State { State(fire, seq(p.count, l => Waiting)) }

  function LineOf(p: Pass, fire: seq<Cell>, l: nat): (r: seq<Cell>)
    ensures |r| == p.length
  {
    Line(fire, Places(Index(0, p.gap, l), p.step, p.length))
  }

  function Stored(j: Job): nat { if j.Waiting? then 0 else if j.stored then j.i + 1 else j.i }

  // The first `stored` cells of the line have reached their goal, the others are untouched.
  ghost predicate CellsInv(p: Pass, fire: seq<Cell>, l: nat, line: seq<Cell>, goal: seq<Cell>, stored: nat) {
    && |line| == |goal| == p.length && stored <= p.length
    && forall x: nat | x < p.length :: At(fire, Pos(p, l, x)) == if x < stored then goal[x] else line[x]
  }

  // The ring is the sequential loop's.
  predicate RingInv(line: seq<Cell>, j: Job) {
    j.Busy? ==> |line| >= 2 && j.ring == RingAfter(line, line[1], j.i)
  }

  // What one line looks like while its call runs.
  ghost predicate LineInv(p: Pass, s: State, l: nat, line: seq<Cell>, goal: seq<Cell>)
    requires l < |s.jobs|
  {
    RingInv(line, s.jobs[l]) && CellsInv(p, s.fire, l, line, goal, Stored(s.jobs[l]))
  }

  ghost predicate Inv(p: Pass, was: seq<Cell>, s: State) {
    && |s.jobs| == p.count && |s.fire| == |was|
    && forall l: nat | l < p.count :: LineInv(p, s, l, LineOf(p, was, l), Blurred(LineOf(p, was, l)))
  }

  // Only line l is touched, and only where its next cell lies.
  lemma StepFrame(p: Pass, s: State, l: nat, k: int)
    requires l < |s.jobs| && (s.jobs[l].Busy? ==> |s.jobs[l].ring.circ| == 3)
    requires s.jobs[l].Busy? && !s.jobs[l].stored && s.jobs[l].i < p.length ==> k != Pos(p, l, s.jobs[l].i)
    ensures At(Step(p, s, l).fire, k) == At(s.fire, k)
  {
  }

  lemma StepOther(p: Pass, s: State, l: nat, m: nat, line: seq<Cell>, goal: seq<Cell>)
    requires Grid(p, |s.fire|) && l < p.count == |s.jobs| && m < p.count && l != m && LineInv(p, s, m, line, goal)
    requires s.jobs[l].Busy? ==> |s.jobs[l].ring.circ| == 3
    ensures LineInv(p, Step(p, s, l), m, line, goal)
  {
    var s2 := Step(p, s, l);
    assert s2.jobs[m] == s.jobs[m];
    forall x: nat | x < p.length ensures At(s2.fire, Pos(p, m, x)) == At(s.fire, Pos(p, m, x)) {
      StepFrame(p, s, l, Pos(p, m, x));
    }
  }

  lemma StoreCell(p: Pass, fire: seq<Cell>, l: nat, line: seq<Cell>, goal: seq<Cell>, i: nat)
    requires Grid(p, |fire|) && CellsInv(p, fire, l, line, goal, i) && l < p.count && i < p.length
    ensures CellsInv(p, Put(fire, Pos(p, l, i), goal[i]), l, line, goal, i + 1)
  {
  }

  lemma StepStore(p: Pass, s: State, l: nat, line: seq<Cell>, goal: seq<Cell>)
    requires Grid(p, |s.fire|) && l < |s.jobs| == p.count && LineInv(p, s, l, line, goal)
    requires p.length <= 256 && goal == Blurred(line)
    requires s.jobs[l].Busy? && !s.jobs[l].stored && s.jobs[l].i < p.length && |s.jobs[l].ring.circ| == 3
    ensures LineInv(p, Step(p, s, l), l, line, goal)
  {
    RingAverage(line, s.jobs[l].i);
    StoreCell(p, s.fire, l, line, goal, s.jobs[l].i);
  }

  // The cell two steps ahead is still the old one.
  lemma AheadUnstored(p: Pass, fire: seq<Cell>, l: nat, line: seq<Cell>, goal: seq<Cell>, i: nat)
    requires CellsInv(p, fire, l, line, goal, i + 1) && i + 2 < p.length
    ensures At(fire, Pos(p, l, i) + 2 * p.step) == line[i + 2]
  {
    assert At(fire, Pos(p, l, i + 2)) == line[i + 2];
    IndexTwo(Index(0, p.gap, l), p.step, i);
  }

  lemma TakeRing(line: seq<Cell>, j: Job, ahead: Cell)
    requires RingInv(line, j) && j.Busy? && ahead == At(line, j.i + 2) && |j.ring.circ| == 3
    ensures RingInv(line, Busy(j.i + 1, Push(j.ring, ahead), false))
  {
    RingNext(line, line[1], j.i);
  }

  lemma StepTake(p: Pass, s: State, l: nat, line: seq<Cell>, goal: seq<Cell>)
    requires l < |s.jobs| == p.count && LineInv(p, s, l, line, goal)
    requires s.jobs[l].Busy? && s.jobs[l].stored && |s.jobs[l].ring.circ| == 3
    ensures LineInv(p, Step(p, s, l), l, line, goal)
  {
    var i := s.jobs[l].i;
    if i + 2 < p.length { AheadUnstored(p, s.fire, l, line, goal, i); }
    TakeRing(line, s.jobs[l], At(line, i + 2));
  }

  lemma StepBegin(p: Pass, s: State, l: nat, line: seq<Cell>, goal: seq<Cell>)
    requires l < |s.jobs| == p.count && LineInv(p, s, l, line, goal) && 2 <= p.length && s.jobs[l].Waiting?
    ensures LineInv(p, Step(p, s, l), l, line, goal)
  {
    assert Pos(p, l, 1) == Pos(p, l, 0) + p.step;
    assert At(s.fire, Pos(p, l, 0)) == line[0] && At(s.fire, Pos(p, l, 1)) == line[1];
  }

  lemma StepInv(p: Pass, was: seq<Cell>, s: State, l: nat)
    requires Grid(p, |was|) && Inv(p, was, s) && l < p.count && 2 <= p.length <= 256
    ensures s.jobs[l].Busy? ==> |s.jobs[l].ring.circ| == 3
    ensures Inv(p, was, Step(p, s, l))
  {
    var line := LineOf(p, was, l);
    assert LineInv(p, s, l, line, Blurred(line));
    match s.jobs[l] {
      case Waiting => StepBegin(p, s, l, line, Blurred(line));
      case Busy(i, _, stored) =>
        if stored { StepTake(p, s, l, line, Blurred(line)); }
        else if i < p.length { StepStore(p, s, l, line, Blurred(line)); }
    }
    forall m: nat | m < p.count ensures LineInv(p, Step(p, s, l), m, LineOf(p, was, m), Blurred(LineOf(p, was, m))) {
      if m != l { StepOther(p, s, l, m, LineOf(p, was, m), Blurred(LineOf(p, was, m))); }
    }
  }

  // ---------------------------------------------------------------- the split

  // The half-open range of lines that hart h of nc takes: equal shares, the last one takes the rest.
  function From(count: nat, nc: nat, h: nat): nat
    requires nc > 0
  {
    h * (count / nc)
  }

  function Upto(count: nat, nc: nat, h: nat): nat
    requires nc > 0
  {
    if h == nc - 1 then count else From(count, nc, h) + count / nc
  }

  lemma {:induction false} ShareOf(share: nat, nc: nat, l: nat) returns (h: nat)
    requires nc > 0
    ensures h < nc && h * share <= l && (h == nc - 1 || l < (h + 1) * share)
  {
    if nc == 1 || (nc - 1) * share <= l { h := nc - 1; } else { h := ShareOf(share, nc - 1, l); }
  }

  lemma Monotone(a: nat, b: nat, share: nat)
    requires a <= b
    ensures a * share <= b * share
  {
  }

  // Every line falls to exactly one hart, for any number of harts.
  lemma SplitOnce(count: nat, nc: nat, l: nat)
    requires nc > 0 && l < count
    ensures exists h: nat | h < nc :: From(count, nc, h) <= l < Upto(count, nc, h)
    ensures forall g: nat, h: nat
              | g < nc && h < nc
                && From(count, nc, g) <= l < Upto(count, nc, g) && From(count, nc, h) <= l < Upto(count, nc, h) ::
              g == h
  {
    var share := count / nc;
    var h := ShareOf(share, nc, l);
    assert From(count, nc, h) <= l < Upto(count, nc, h);
    forall g: nat, h: nat
      | g < nc && h < nc && From(count, nc, g) <= l < Upto(count, nc, g) && From(count, nc, h) <= l < Upto(count, nc, h)
      ensures g == h
    {
      if g < h { Apart(count, nc, g, h); } else if h < g { Apart(count, nc, h, g); }
    }
  }

  lemma Apart(count: nat, nc: nat, g: nat, h: nat)
    requires g < h < nc
    ensures Upto(count, nc, g) <= From(count, nc, h)
  {
    var share := count / nc;
    Monotone(g + 1, h, share);
    assert (g + 1) * share == g * share + share;
  }

  // The line a hart works on: the first of its lines that is not finished.
  function Current(p: Pass, jobs: seq<Job>, l: nat, upto: nat): (r: nat)
    ensures l <= upto ==> l <= r <= upto
    decreases upto - l
  {
    if l < upto && l < |jobs| && Finished(p, jobs[l]) then Current(p, jobs, l + 1, upto) else l
  }

  lemma {:induction false} CurrentDone(p: Pass, jobs: seq<Job>, l: nat, upto: nat, m: nat)
    requires Current(p, jobs, l, upto) >= upto && l <= m < upto <= |jobs|
    ensures Finished(p, jobs[m])
    decreases upto - l
  {
    if m > l { CurrentDone(p, jobs, l + 1, upto, m); }
  }

  function Working(p: Pass, nc: nat, s: State, h: nat): nat
    requires nc > 0
  {
    Current(p, s.jobs, From(p.count, nc, h), Upto(p.count, nc, h))
  }

  // Hart h takes one step, or waits at the barrier.
  function HartStep(p: Pass, nc: nat, s: State, h: nat): State
    requires nc > 0
  {
    var l := Working(p, nc, s, h);
    if h < nc && l < Upto(p.count, nc, h) && l < |s.jobs| && (s.jobs[l].Busy? ==> |s.jobs[l].ring.circ| == 3)
    then Step(p, s, l) else s
  }

  function Exec(p: Pass, nc: nat, s: State, schedule: seq<nat>): State
    requires nc > 0
  {
    if schedule == [] then s else HartStep(p, nc, Exec(p, nc, s, schedule[..|schedule| - 1]), schedule[|schedule| - 1])
  }

  predicate AllArrived(p: Pass, nc: nat, s: State)
    requires nc > 0
  {
    forall h: nat | h < nc :: Working(p, nc, s, h) >= Upto(p.count, nc, h)
  }

  lemma InitialInv(p: Pass, was: seq<Cell>)
    ensures Inv(p, was, Initial(p, was))
  {
  }

  lemma {:induction false} ExecInv(p: Pass, nc: nat, was: seq<Cell>, schedule: seq<nat>)
    requires nc > 0 && Grid(p, |was|) && 2 <= p.length <= 256
    ensures Inv(p, was, Exec(p, nc, Initial(p, was), schedule))
  {
    if schedule == [] { InitialInv(p, was); } else {
      var s, h := Exec(p, nc, Initial(p, was), schedule[..|schedule| - 1]), schedule[|schedule| - 1];
      ExecInv(p, nc, was, schedule[..|schedule| - 1]);
      var l := Working(p, nc, s, h);
      if l < p.count { StepInv(p, was, s, l); }
    }
  }

  lemma AllFinished(p: Pass, nc: nat, s: State, l: nat)
    requires nc > 0 && |s.jobs| == p.count && l < p.count && AllArrived(p, nc, s)
    ensures Finished(p, s.jobs[l])
  {
    SplitOnce(p.count, nc, l);
    var h: nat :| h < nc && From(p.count, nc, h) <= l < Upto(p.count, nc, h);
    UptoBound(p.count, nc, h);
    assert Working(p, nc, s, h) >= Upto(p.count, nc, h);
    CurrentDone(p, s.jobs, From(p.count, nc, h), Upto(p.count, nc, h), l);
  }

  lemma UptoBound(count: nat, nc: nat, h: nat)
    requires h < nc
    ensures Upto(count, nc, h) <= count
  {
    Monotone(h + 1, nc, count / nc);
    assert (h + 1) * (count / nc) == h * (count / nc) + count / nc;
    assert nc * (count / nc) <= count;
  }

  // What the harts leave from a given image.
  function AfterPass(p: Pass, nc: nat, was: seq<Cell>, schedule: seq<nat>): seq<Cell>
    requires nc > 0
  {
    Exec(p, nc, Initial(p, was), schedule).fire
  }

  predicate Complete(p: Pass, nc: nat, was: seq<Cell>, schedule: seq<nat>)
    requires nc > 0
  {
    AllArrived(p, nc, Exec(p, nc, Initial(p, was), schedule))
  }

  // ---------------------------------------------------------------- progress

  // Steps the call on one line still makes, and those on the first n lines.
  function Left(p: Pass, j: Job): int {
    if j.Waiting? then 2 * p.length + 1 else 2 * (p.length - j.i) - if j.stored then 1 else 0
  }

  function Work(p: Pass, jobs: seq<Job>): int {
    if jobs == [] then 0 else Left(p, jobs[0]) + Work(p, jobs[1..])
  }

  lemma {:induction false} WorkUpdate(p: Pass, jobs: seq<Job>, l: nat, j: Job)
    requires l < |jobs|
    ensures Work(p, jobs[l := j]) == Work(p, jobs) + Left(p, j) - Left(p, jobs[l])
  {
    if l == 0 { assert jobs[0 := j][1..] == jobs[1..]; } else {
      assert jobs[l := j][1..] == jobs[1..][l - 1 := j];
      WorkUpdate(p, jobs[1..], l - 1, j);
    }
  }

  lemma {:induction false} WorkPositive(p: Pass, jobs: seq<Job>)
    requires forall j | j in jobs :: Stored(j) <= p.length
    ensures Work(p, jobs) >= 0
  {
    if jobs != [] {
      assert jobs[0] in jobs && forall j | j in jobs[1..] :: j in jobs;
      WorkPositive(p, jobs[1..]);
    }
  }

  lemma InvStored(p: Pass, was: seq<Cell>, s: State)
    requires Inv(p, was, s)
    ensures forall j | j in s.jobs :: Stored(j) <= p.length && (j.Busy? ==> |j.ring.circ| == 3)
  {
    forall j | j in s.jobs ensures Stored(j) <= p.length && (j.Busy? ==> |j.ring.circ| == 3) {
      var l: nat :| l < |s.jobs| && s.jobs[l] == j;
      assert LineInv(p, s, l, LineOf(p, was, l), Blurred(LineOf(p, was, l)));
    }
  }

  lemma CurrentNotFinished(p: Pass, jobs: seq<Job>, l: nat, upto: nat)
    requires Current(p, jobs, l, upto) < upto <= |jobs|
    ensures !Finished(p, jobs[Current(p, jobs, l, upto)])
    decreases upto - l
  {
    if Finished(p, jobs[l]) { CurrentNotFinished(p, jobs, l + 1, upto); }
  }

  // A hart before the barrier uses up one unit with every step; one at the barrier changes nothing.
  lemma HartWork(p: Pass, nc: nat, was: seq<Cell>, s: State, h: nat)
    requires nc > 0 && Inv(p, was, s) && h < nc
    ensures if Working(p, nc, s, h) >= Upto(p.count, nc, h) then HartStep(p, nc, s, h) == s
            else Work(p, HartStep(p, nc, s, h).jobs) == Work(p, s.jobs) - 1
  {
    var l := Working(p, nc, s, h);
    if l < Upto(p.count, nc, h) {
      UptoBound(p.count, nc, h);
      CurrentNotFinished(p, s.jobs, From(p.count, nc, h), Upto(p.count, nc, h));
      InvStored(p, was, s);
      assert s.jobs[l] in s.jobs;
      WorkUpdate(p, s.jobs, l, Step(p, s, l).jobs[l]);
    }
  }

  // So every run can be carried on to the barrier.
  lemma {:induction false} Completes(p: Pass, nc: nat, was: seq<Cell>, schedule: seq<nat>) returns (all: seq<nat>)
    requires nc > 0 && Grid(p, |was|) && 2 <= p.length <= 256
    ensures schedule <= all && Complete(p, nc, was, all)
    decreases Work(p, Exec(p, nc, Initial(p, was), schedule).jobs)
  {
    var s := Exec(p, nc, Initial(p, was), schedule);
    ExecInv(p, nc, was, schedule);
    all := schedule;
    if h: nat :| h < nc && Working(p, nc, s, h) < Upto(p.count, nc, h) {
      var next := schedule + [h];
      assert next[..|next| - 1] == schedule;
      ExecInv(p, nc, was, next);
      HartWork(p, nc, was, s, h);
      InvStored(p, was, Exec(p, nc, Initial(p, was), next));
      WorkPositive(p, Exec(p, nc, Initial(p, was), next).jobs);
      all := Completes(p, nc, was, next);
    }
  }

  // One pass, any number of harts, any interleaving: every line is blurred as if alone.
  lemma PassExact(p: Pass, nc: nat, was: seq<Cell>, schedule: seq<nat>)
    requires nc > 0 && Grid(p, |was|) && 2 <= p.length <= 256
    requires Complete(p, nc, was, schedule)
    ensures var after := AfterPass(p, nc, was, schedule);
            |after| == |was| && forall l: nat | l < p.count :: LineOf(p, after, l) == Blurred(LineOf(p, was, l))
  {
    var s := Exec(p, nc, Initial(p, was), schedule);
    ExecInv(p, nc, was, schedule);
    forall l: nat | l < p.count ensures LineOf(p, s.fire, l) == Blurred(LineOf(p, was, l)) {
      AllFinished(p, nc, s, l);
      assert LineInv(p, s, l, LineOf(p, was, l), Blurred(LineOf(p, was, l)));
    }
  }

  // The two passes with the barrier between them give the sequential two-pass blur: rows first,
  // then columns of the result, whatever the harts' number and order.
  lemma TwoPasses(width: nat, height: nat, nc: nat, was: seq<Cell>, rowSchedule: seq<nat>, colSchedule: seq<nat>)
    requires nc > 0 && 2 <= width <= 256 && 2 <= height <= 256 && |was| == width * height
    requires Complete(Rows(width, height), nc, was, rowSchedule)
    requires Complete(Cols(width, height), nc, AfterPass(Rows(width, height), nc, was, rowSchedule), colSchedule)
    ensures var mid := AfterPass(Rows(width, height), nc, was, rowSchedule);
            var after := AfterPass(Cols(width, height), nc, mid, colSchedule);
            && |mid| == |after| == width * height
            && (forall y: nat | y < height ::
                 LineOf(Rows(width, height), mid, y) == Blurred(LineOf(Rows(width, height), was, y)))
            && (forall x: nat | x < width ::
                 LineOf(Cols(width, height), after, x) == Blurred(LineOf(Cols(width, height), mid, x)))
  {
    RowsAndColsTile(width, height);
    PassExact(Rows(width, height), nc, was, rowSchedule);
    var mid := AfterPass(Rows(width, height), nc, was, rowSchedule);
    PassExact(Cols(width, height), nc, mid, colSchedule);
  }

  // Every index of the image lies on a row.
  lemma OnSomeRow(width: nat, height: nat, j: nat)
    requires width > 0 && j < width * height
    ensures j / width < height && Pos(Rows(width, height), j / width, j % width) == j
  {
    BothWays(width, height, j / width, j % width);
    IndexTimes(width, j / width);
    if j / width >= height { Monotone(height, j / width, width); }
  }

  lemma SameRows(width: nat, height: nat, a: seq<Cell>, b: seq<Cell>)
    requires width > 0 && |a| == |b| == width * height
    requires forall y: nat | y < height :: LineOf(Rows(width, height), a, y) == LineOf(Rows(width, height), b, y)
    ensures a == b
  {
    forall j: nat | j < |a| ensures a[j] == b[j] {
      OnSomeRow(width, height, j);
      var y, x := j / width, j % width;
      assert LineOf(Rows(width, height), a, y)[x] == LineOf(Rows(width, height), b, y)[x];
    }
  }

  lemma SameCols(width: nat, height: nat, a: seq<Cell>, b: seq<Cell>)
    requires width > 0 && |a| == |b| == width * height
    requires forall x: nat | x < width :: LineOf(Cols(width, height), a, x) == LineOf(Cols(width, height), b, x)
    ensures a == b
  {
    forall j: nat | j < |a| ensures a[j] == b[j] {
      OnSomeRow(width, height, j);
      var y, x := j / width, j % width;
      BothWays(width, height, y, x);
      assert LineOf(Cols(width, height), a, x)[y] == LineOf(Cols(width, height), b, x)[y];
    }
  }

  // So the image does not depend on how many harts share the work nor on how their steps interleave.
  lemma OrderIrrelevant(
    width: nat, height: nat, nc: nat, nd: nat, was: seq<Cell>, r1: seq<nat>, c1: seq<nat>, r2: seq<nat>, c2: seq<nat>)
    requires nc > 0 && nd > 0 && 2 <= width <= 256 && 2 <= height <= 256 && |was| == width * height
    requires Complete(Rows(width, height), nc, was, r1) && Complete(Rows(width, height), nd, was, r2)
    requires Complete(Cols(width, height), nc, AfterPass(Rows(width, height), nc, was, r1), c1)
    requires Complete(Cols(width, height), nd, AfterPass(Rows(width, height), nd, was, r2), c2)
    ensures AfterPass(Cols(width, height), nc, AfterPass(Rows(width, height), nc, was, r1), c1)
         == AfterPass(Cols(width, height), nd, AfterPass(Rows(width, height), nd, was, r2), c2)
  {
    TwoPasses(width, height, nc, was, r1, c1);
    TwoPasses(width, height, nd, was, r2, c2);
    var m1, m2 := AfterPass(Rows(width, height), nc, was, r1), AfterPass(Rows(width, height), nd, was, r2);
    SameRows(width, height, m1, m2);
    SameCols(width, height, AfterPass(Cols(width, height), nc, m1, c1), AfterPass(Cols(width, height), nd, m2, c2));
  }
}
