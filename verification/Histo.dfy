// The parallel histogram of workloads/benchmarks/mt-histo/mt_histo.c: every hart counts its slice
// in private bins and merges them with amoadd.w, and `verify` of common/util.h judges the result.
module Histo {
  import opened Common

  const WORD := 0x1_0000_0000

  type Word = x: int | 0 <= x < WORD

  function Add(a: Word, b: Word): Word { (a + b) % WORD }

  // ---------------------------------------------------------------- counting

  function Count(data: seq<nat>, b: nat): (r: nat)
    ensures r <= |data|
  {
    if data == [] then 0 else Count(data[..|data| - 1], b) + if data[|data| - 1] == b then 1 else 0
  }

  lemma {:induction false} CountConcat(a: seq<nat>, c: seq<nat>, b: nat)
    ensures Count(a + c, b) == Count(a, b) + Count(c, b)
  {
    if c == [] { assert a + c == a; } else {
      assert (a + c)[..|a + c| - 1] == a + c[..|c| - 1];
      CountConcat(a, c[..|c| - 1], b);
    }
  }

  lemma CountNext(data: seq<nat>, lo: nat, i: nat, b: nat)
    requires lo <= i < |data|
    ensures Count(data[lo..i + 1], b) == Count(data[lo..i], b) + if data[i] == b then 1 else 0
  {
    assert data[lo..i + 1][..i - lo] == data[lo..i];
  }

  function SumBins(data: seq<nat>, nbins: nat): nat {
    if nbins == 0 then 0 else SumBins(data, nbins - 1) + Count(data, nbins - 1)
  }

  lemma {:induction false} SumBinsNext(data: seq<nat>, nbins: nat)
    requires data != []
    ensures SumBins(data, nbins) == SumBins(data[..|data| - 1], nbins) + if data[|data| - 1] < nbins then 1 else 0
  {
    if nbins > 0 { SumBinsNext(data, nbins - 1); }
  }

  // No datum is lost: the bins add up to the amount of data.
  lemma {:induction false} BinsConserve(data: seq<nat>, nbins: nat)
    requires forall k | 0 <= k < |data| :: data[k] < nbins
    ensures SumBins(data, nbins) == |data|
  {
    if data != [] { SumBinsNext(data, nbins); BinsConserve(data[..|data| - 1], nbins); } else { EmptyBins(nbins); }
  }

  lemma {:induction false} EmptyBins(nbins: nat)
    ensures SumBins([], nbins) == 0
  {
    if nbins > 0 { EmptyBins(nbins - 1); }
  }

  // ---------------------------------------------------------------- the slices

  function SliceSize(size: nat, nc: nat): (r: nat)
    requires size > 0 && nc > 0
    ensures r > 0
  {
    (size - 1) / nc + 1
  }

  // It is the least size whose slices reach the end.
  lemma SliceSizeLeast(size: nat, nc: nat, s: nat)
    requires size > 0 && nc > 0
    ensures nc * s >= size <==> s >= SliceSize(size, nc)
  {
    var q, r := (size - 1) / nc, (size - 1) % nc;
    assert size == nc * q + r + 1;
    if s >= q + 1 {
      MulUp(nc, q + 1, s);
      assert nc * (q + 1) == nc * q + nc;
    } else {
      MulUp(nc, s, q);
    }
  }

  lemma MulUp(a: nat, b: nat, c: nat)
    requires b <= c
    ensures a * b <= a * c
  {
  }

  function SliceStart(size: nat, nc: nat, h: nat): nat
    requires size > 0 && nc > 0
  {
    h * SliceSize(size, nc)
  }

  function SliceEnd(size: nat, nc: nat, h: nat): nat
    requires size > 0 && nc > 0
  {
    if SliceStart(size, nc, h) + SliceSize(size, nc) < size then SliceStart(size, nc, h) + SliceSize(size, nc) else size
  }

  // The length handed to the kernel; negative for a slice that starts past the end.
  function SliceLength(size: nat, nc: nat, h: nat): int
    requires size > 0 && nc > 0
  {
    SliceEnd(size, nc, h) - SliceStart(size, nc, h)
  }

  function Slice(data: seq<nat>, nc: nat, h: nat): seq<nat>
    requires data != [] && nc > 0
  {
    if SliceLength(|data|, nc, h) > 0 then data[SliceStart(|data|, nc, h)..SliceEnd(|data|, nc, h)] else []
  }

  // Rounding up leaves nothing beyond the last slice.
  lemma SlicesReach(size: nat, nc: nat)
    requires size > 0 && nc > 0
    ensures SliceStart(size, nc, nc) >= size
  {
    var q := (size - 1) / nc;
    assert size - 1 < q * nc + nc;
    assert nc * (q + 1) == q * nc + nc;
  }

  // Where the first h slices end.
  function Covered(size: nat, nc: nat, h: nat): nat
    requires size > 0 && nc > 0
  {
    if SliceStart(size, nc, h) < size then SliceStart(size, nc, h) else size
  }

  lemma NextSlice(size: nat, nc: nat, h: nat)
    requires size > 0 && nc > 0
    ensures SliceStart(size, nc, h + 1) == SliceStart(size, nc, h) + SliceSize(size, nc)
  {
  }

  lemma SliceCovers(data: seq<nat>, nc: nat, h: nat)
    requires data != [] && nc > 0
    ensures data[..Covered(|data|, nc, h + 1)] == data[..Covered(|data|, nc, h)] + Slice(data, nc, h)
  {
    NextSlice(|data|, nc, h);
  }

  lemma CoveredEnds(data: seq<nat>, nc: nat)
    requires data != [] && nc > 0
    ensures data[..Covered(|data|, nc, 0)] == [] && data[..Covered(|data|, nc, nc)] == data
  {
    SlicesReach(|data|, nc);
  }

  function Slices(data: seq<nat>, nc: nat): (r: seq<seq<nat>>)
    requires data != [] && nc > 0
    ensures |r| == nc
  {
    seq(nc, h requires 0 <= h < nc => Slice(data, nc, h))
  }

  lemma {:induction false} SlicesPrefix(data: seq<nat>, nc: nat, h: nat)
    requires data != [] && nc > 0 && h <= nc
    ensures Flatten(Slices(data, nc)[..h]) == data[..Covered(|data|, nc, h)]
  {
    if h == 0 { CoveredEnds(data, nc); } else {
      SlicesPrefix(data, nc, h - 1);
      SliceCovers(data, nc, h - 1);
      assert Slices(data, nc)[..h][..h - 1] == Slices(data, nc)[..h - 1];
      FlattenLast(Slices(data, nc)[..h]);
    }
  }

  // Laid end to end the slices are the data.
  lemma SlicesFlatten(data: seq<nat>, nc: nat)
    requires data != [] && nc > 0
    ensures Flatten(Slices(data, nc)) == data
  {
    SlicesPrefix(data, nc, nc);
    CoveredEnds(data, nc);
    assert Slices(data, nc)[..nc] == Slices(data, nc);
  }

  lemma {:induction false} Scaled(a: nat, b: nat, s: nat)
    requires a < b
    ensures a * s + s <= b * s
  {
    assert b * s == (b - 1) * s + s;
    if a + 1 < b { Scaled(a, b - 1, s); }
  }

  lemma {:induction false} HolderOf(s: nat, n: nat, k: nat) returns (h: nat)
    requires k < n * s
    ensures h < n && h * s <= k < h * s + s
  {
    assert n * s == (n - 1) * s + s;
    if (n - 1) * s <= k { h := n - 1; } else { h := HolderOf(s, n - 1, k); }
  }

  // Every index falls into exactly one hart's slice.
  lemma SliceOnce(size: nat, nc: nat, k: nat)
    requires nc > 0 && k < size
    ensures exists h: nat | h < nc :: SliceStart(size, nc, h) <= k < SliceEnd(size, nc, h)
    ensures forall g: nat, h: nat
              | SliceStart(size, nc, g) <= k < SliceEnd(size, nc, g)
                && SliceStart(size, nc, h) <= k < SliceEnd(size, nc, h) ::
              g == h
  {
    var s := SliceSize(size, nc);
    SlicesReach(size, nc);
    var h := HolderOf(s, nc, k);
    assert SliceStart(size, nc, h) <= k < SliceEnd(size, nc, h);
    forall g: nat, h: nat
      | SliceStart(size, nc, g) <= k < SliceEnd(size, nc, g) && SliceStart(size, nc, h) <= k < SliceEnd(size, nc, h)
      ensures g == h
    {
      if g < h { Scaled(g, h, s); } else if h < g { Scaled(h, g, s); }
    }
  }

  // ---------------------------------------------------------------- the kernel, one hart alone

  predicate ValuesBelow(data: seq<nat>, nbins: nat) { forall k | 0 <= k < |data| :: data[k] < nbins }

  // The data a kernel called with this start and length reads.
  function Taken(data: seq<nat>, start: nat, ndata: int): seq<nat> {
    if ndata > 0 && start + ndata <= |data| then data[start..start + ndata] else []
  }

  lemma TakenNext(data: seq<nat>, start: nat, i: nat, b: nat)
    requires start + i < |data|
    ensures Count(Taken(data, start, i + 1), b)
         == Count(Taken(data, start, i), b) + if data[start + i] == b then 1 else 0
  {
    CountNext(data, start, start + i, b);
  }

  // A private bin that held w, after the data in `slice` have been counted.
  function Counted(w: Word, slice: seq<nat>, b: nat): Word { (w + Count(slice, b)) % WORD }

  lemma CountedNext(w: Word, data: seq<nat>, start: nat, i: nat, b: nat)
    requires start + i < |data|
    ensures Counted(w, Taken(data, start, i + 1), b)
         == if data[start + i] == b then (Counted(w, Taken(data, start, i), b) + 1) % WORD
             else Counted(w, Taken(data, start, i), b)
  {
    TakenNext(data, start, i, b);
    if data[start + i] == b { Increment(w, Count(Taken(data, start, i), b)); }
  }

  lemma Increment(a: nat, c: nat)
    ensures ((a + c) % WORD + 1) % WORD == (a + (c + 1)) % WORD
  {
  }

  // The private bins are not cleared first: what they held is merged as well.
  method HistoKernel(data: array<nat>, start: nat, ndata: int, local: array<Word>, out: array<Word>, nbins: nat)
    requires ndata > 0 ==> start + ndata <= data.Length
    requires ValuesBelow(data[..], nbins) && local.Length >= nbins && out.Length >= nbins && local != out
    modifies local, out
    ensures forall b: nat | b < nbins :: local[b] == Counted(old(local[b]), Taken(data[..], start, ndata), b)
    ensures forall b: nat | b < nbins :: out[b] == Add(old(out[b]), local[b])
    ensures forall b: nat | nbins <= b < local.Length :: local[b] == old(local[b])
    ensures forall b: nat | nbins <= b < out.Length :: out[b] == old(out[b])
  {
    CountLocal(data, start, ndata, local, nbins);
    ghost var counted := local[..];
    var j := 0;
    while j < nbins
      invariant 0 <= j <= nbins && local[..] == counted
      invariant forall b: nat | b < j :: out[b] == Add(old(out[b]), local[b])
      invariant forall b: nat | j <= b < out.Length :: out[b] == old(out[b])
    {
      if local[j] != 0 {
        out[j] := Add(out[j], local[j]);
      }
      j := j + 1;
    }
  }

  method CountLocal(data: array<nat>, start: nat, ndata: int, local: array<Word>, nbins: nat)
    requires ndata > 0 ==> start + ndata <= data.Length
    requires ValuesBelow(data[..], nbins) && local.Length >= nbins
    modifies local
    ensures forall b: nat | b < nbins :: local[b] == Counted(old(local[b]), Taken(data[..], start, ndata), b)
    ensures forall b: nat | nbins <= b < local.Length :: local[b] == old(local[b])
  {
    var i := 0;
    while i < ndata
      invariant 0 <= i && (i <= ndata || i == 0)
      invariant forall b: nat | b < nbins :: local[b] == Counted(old(local[b]), Taken(data[..], start, i), b)
      invariant forall b: nat | nbins <= b < local.Length :: local[b] == old(local[b])
    {
      var pos := data[start + i];
      assert data[..][start + i] < nbins;
      forall b: nat | b < nbins
        ensures Counted(old(local[b]), Taken(data[..], start, i + 1), b)
             == if pos == b then (local[b] + 1) % WORD else local[b]
      {
        CountedNext(old(local[b]), data[..], start, i, b);
      }
      local[pos] := (local[pos] + 1) % WORD;
      i := i + 1;
    }
  }

  // ---------------------------------------------------------------- verify

  // One more than the first index at which the two differ, zero if they do not.
  function FirstDiff(n: nat, test: seq<Word>, expected: seq<Word>): (r: nat)
    requires n <= |test| && n <= |expected|
    ensures r == 0 <==> test[..n] == expected[..n]
    ensures r > 0 ==> r <= n && test[r - 1] != expected[r - 1] && test[..r - 1] == expected[..r - 1]
  {
    if n == 0 then 0 else
    var r := FirstDiff(n - 1, test, expected);
    assert test[..n] == test[..n - 1] + [test[n - 1]] && expected[..n] == expected[..n - 1] + [expected[n - 1]];
    if r > 0 then r else if test[n - 1] != expected[n - 1] then n else 0
  }

  lemma DiffUnique(n: nat, test: seq<Word>, expected: seq<Word>, k: nat)
    requires k < n <= |test| && n <= |expected| && test[..k] == expected[..k] && test[k] != expected[k]
    ensures FirstDiff(n, test, expected) == k + 1
  {
    var r := FirstDiff(n, test, expected);
    assert test[..n][k] != expected[..n][k];
    PrefixAt(test, expected, k);
    PrefixAt(test, expected, r - 1);
  }

  lemma PrefixAt(test: seq<Word>, expected: seq<Word>, k: nat)
    requires k <= |test| && k <= |expected| && test[..k] == expected[..k]
    ensures forall j | 0 <= j < k :: test[j] == expected[j]
  {
    forall j | 0 <= j < k ensures test[j] == expected[j] {
      assert test[..k][j] == expected[..k][j];
    }
  }

  lemma PrefixNext(test: seq<Word>, expected: seq<Word>, k: nat)
    requires k < |test| && k < |expected| && test[..k] == expected[..k] && test[k] == expected[k]
    ensures test[..k + 1] == expected[..k + 1]
  {
    assert test[..k + 1] == test[..k] + [test[k]] && expected[..k + 1] == expected[..k] + [expected[k]];
  }

  method Verify(n: nat, test: array<Word>, expected: array<Word>) returns (r: nat)
    requires n <= test.Length && n <= expected.Length
    ensures r == FirstDiff(n, test[..], expected[..])
  {
    var i := 0;
    while i < n / 2 * 2
      invariant 0 <= i <= n / 2 * 2 && i % 2 == 0
      invariant test[..][..i] == expected[..][..i]
    {
      var t0, t1 := test[i], test[i + 1];
      var v0, v1 := expected[i], expected[i + 1];
      if t0 != v0 { DiffUnique(n, test[..], expected[..], i); return i + 1; }
      PrefixNext(test[..], expected[..], i);
      if t1 != v1 { DiffUnique(n, test[..], expected[..], i + 1); return i + 2; }
      PrefixNext(test[..], expected[..], i + 1);
      i := i + 2;
    }
    if n % 2 != 0 && test[n - 1] != expected[n - 1] {
      DiffUnique(n, test[..], expected[..], n - 1);
      return n;
    }
    if n % 2 != 0 { PrefixNext(test[..], expected[..], n - 1); }
    return 0;
  }

  // ---------------------------------------------------------------- all harts

  // How far a hart is: data counted, bins merged.
  datatype Hart = Hart(counted: nat, merged: nat)

  // What each hart counts.
  datatype Program = Program(slices: seq<seq<nat>>, nbins: nat)

  datatype State = State(harts: seq<Hart>, temp: seq<Word>, out: seq<Word>)

  // The harts' bins lie one after the other in `temp_bins`, which has room for sixteen.
  predicate Ok(p: Program) {
    1 <= |p.slices| <= 16 && forall h | 0 <= h < |p.slices| :: |p.slices[h]| < WORD && ValuesBelow(p.slices[h], p.nbins)
  }

  function Local(p: Program, h: nat, b: nat): nat { h * p.nbins + b }

  lemma LocalUnique(p: Program, g: nat, h: nat, a: nat, b: nat)
    requires a < p.nbins && b < p.nbins
    ensures Local(p, g, a) == Local(p, h, b) ==> g == h && a == b
    ensures g < 16 ==> Local(p, g, a) < 16 * p.nbins
  {
    if g < h { Scaled(g, h, p.nbins); } else if h < g { Scaled(h, g, p.nbins); }
    if g < 16 { Scaled(g, 16, p.nbins); }
  }

  function Initial(p: Program): State {
    State(seq(|p.slices|, h => Hart(0, 0)), seq(16 * p.nbins, k => 0), seq(p.nbins, b => 0))
  }

  predicate Shape(p: Program, s: State) {
    |s.harts| == |p.slices| && |s.temp| == 16 * p.nbins && |s.out| == p.nbins
  }

  // Hart h takes its next step: count one datum, merge one bin, or wait at the barrier.
  function Step(p: Program, s: State, h: nat): State
    requires Ok(p) && Shape(p, s)
  {
    if h >= |p.slices| then s else
    var hart, slice := s.harts[h], p.slices[h];
    if hart.counted < |slice| then
      var k := Local(p, h, slice[hart.counted]);
      if k >= |s.temp| then s else
      s.(temp := s.temp[k := Add(s.temp[k], 1)], harts := s.harts[h := Hart(hart.counted + 1, hart.merged)])
    else if hart.merged < p.nbins then
      var k := Local(p, h, hart.merged);
      if k >= |s.temp| then s else
      s.(out := if s.temp[k] == 0 then s.out else s.out[hart.merged := Add(s.out[hart.merged], s.temp[k])],
         harts := s.harts[h := Hart(hart.counted, hart.merged + 1)])
    else s
  }

  lemma StepShape(p: Program, s: State, h: nat)
    requires Ok(p) && Shape(p, s)
    ensures Shape(p, Step(p, s, h))
  {
  }

  // One hart's part of bin b, once it has merged it.
  function Part(slice: seq<nat>, hart: Hart, b: nat): nat { if hart.merged > b then Count(slice, b) else 0 }

  // What the first n harts have merged into bin b.
  function Merged(slices: seq<seq<nat>>, harts: seq<Hart>, n: nat, b: nat): nat
    requires n <= |harts| && n <= |slices|
  {
    if n == 0 then 0 else Merged(slices, harts, n - 1, b) + Part(slices[n - 1], harts[n - 1], b)
  }

  lemma {:induction false} MergedUpdate(slices: seq<seq<nat>>, harts: seq<Hart>, n: nat, b: nat, h: nat, hart: Hart)
    requires n <= |harts| && n <= |slices| && h < |harts| && h < |slices|
    ensures Merged(slices, harts[h := hart], n, b)
         == Merged(slices, harts, n, b) + if h < n then Part(slices[h], hart, b) - Part(slices[h], harts[h], b) else 0
  {
    if n > 0 { MergedUpdate(slices, harts, n - 1, b, h, hart); }
  }

  lemma {:induction false} MergedAll(slices: seq<seq<nat>>, harts: seq<Hart>, n: nat, b: nat)
    requires n <= |harts| && n <= |slices| && (forall h | 0 <= h < n :: harts[h].merged > b)
    ensures Merged(slices, harts, n, b) == Count(Flatten(slices[..n]), b)
  {
    if n > 0 {
      MergedAll(slices, harts, n - 1, b);
      assert slices[..n][..n - 1] == slices[..n - 1];
      FlattenLast(slices[..n]);
      CountConcat(Flatten(slices[..n - 1]), slices[n - 1], b);
    }
  }

  lemma {:induction false} MergedNone(slices: seq<seq<nat>>, harts: seq<Hart>, n: nat, b: nat)
    requires n <= |harts| && n <= |slices| && (forall h | 0 <= h < n :: harts[h].merged <= b)
    ensures Merged(slices, harts, n, b) == 0
  {
    if n > 0 { MergedNone(slices, harts, n - 1, b); }
  }

  ghost predicate HartInv(p: Program, s: State, h: nat)
    requires Ok(p) && Shape(p, s) && h < |p.slices|
  {
    var hart, slice := s.harts[h], p.slices[h];
    && hart.counted <= |slice| && hart.merged <= p.nbins && (hart.merged > 0 ==> hart.counted == |slice|)
    && forall b: nat | b < p.nbins ::
         Local(p, h, b) < |s.temp| && s.temp[Local(p, h, b)] == Count(slice[..hart.counted], b)
  }

  ghost predicate OutInv(p: Program, s: State)
    requires Ok(p) && Shape(p, s)
  {
    forall b: nat | b < p.nbins :: s.out[b] == Merged(p.slices, s.harts, |p.slices|, b) % WORD
  }

  ghost predicate Inv(p: Program, s: State) {
    Ok(p) && Shape(p, s) && (forall h: nat | h < |p.slices| :: HartInv(p, s, h)) && OutInv(p, s)
  }

  // A count touches the hart's own bin only.
  lemma CountStep(p: Program, s: State, h: nat, m: nat)
    requires Inv(p, s) && h < |p.slices| && m < |p.slices| && s.harts[h].counted < |p.slices[h]|
    ensures Shape(p, Step(p, s, h)) && HartInv(p, Step(p, s, h), m)
  {
    var s2, slice, c := Step(p, s, h), p.slices[h], s.harts[h].counted;
    assert ValuesBelow(slice, p.nbins);
    StepShape(p, s, h);
    LocalUnique(p, h, h, slice[c], slice[c]);
    assert HartInv(p, s, h) && HartInv(p, s, m);
    forall b: nat | b < p.nbins
      ensures Local(p, m, b) < |s2.temp| && s2.temp[Local(p, m, b)] == Count(p.slices[m][..s2.harts[m].counted], b)
    {
      LocalUnique(p, m, h, b, slice[c]);
      CountNext(slice, 0, c, b);
      assert slice[0..c + 1] == slice[..c + 1] && slice[0..c] == slice[..c];
    }
  }

  lemma CountOut(p: Program, s: State, h: nat)
    requires Inv(p, s) && h < |p.slices| && s.harts[h].counted < |p.slices[h]|
    ensures Shape(p, Step(p, s, h)) && OutInv(p, Step(p, s, h))
  {
    StepShape(p, s, h);
    forall b: nat | b < p.nbins
      ensures Step(p, s, h).out[b] == Merged(p.slices, Step(p, s, h).harts, |p.slices|, b) % WORD
    {
      MergedUpdate(p.slices, s.harts, |p.slices|, b, h, Hart(s.harts[h].counted + 1, s.harts[h].merged));
    }
  }

  lemma MergeHarts(p: Program, s: State, h: nat, m: nat)
    requires Inv(p, s) && h < |p.slices| && m < |p.slices| && s.harts[h].counted >= |p.slices[h]|
    ensures Shape(p, Step(p, s, h)) && HartInv(p, Step(p, s, h), m)
  {
    StepShape(p, s, h);
    assert HartInv(p, s, h) && HartInv(p, s, m);
  }

  lemma AddMod(a: nat, w: Word)
    ensures Add(a % WORD, w) == (a + w) % WORD
  {
  }

  // The hart's whole count goes into the bin in one atomic addition.
  lemma MergeOut(p: Program, s: State, h: nat, b: nat)
    requires Inv(p, s) && h < |p.slices| && s.harts[h].counted >= |p.slices[h]| && b < p.nbins
    ensures Shape(p, Step(p, s, h))
            && Step(p, s, h).out[b] == Merged(p.slices, Step(p, s, h).harts, |p.slices|, b) % WORD
  {
    StepShape(p, s, h);
    var hart, slice := s.harts[h], p.slices[h];
    assert HartInv(p, s, h);
    if hart.merged < p.nbins {
      assert slice[..hart.counted] == slice;
      MergedUpdate(p.slices, s.harts, |p.slices|, b, h, Hart(hart.counted, hart.merged + 1));
      if b == hart.merged { AddMod(Merged(p.slices, s.harts, |p.slices|, b), s.temp[Local(p, h, b)]); }
    }
  }

  lemma StepInv(p: Program, s: State, h: nat)
    requires Inv(p, s)
    ensures Inv(p, Step(p, s, h))
  {
    if h < |p.slices| {
      StepShape(p, s, h);
      if s.harts[h].counted < |p.slices[h]| {
        CountOut(p, s, h);
        forall m: nat | m < |p.slices| ensures HartInv(p, Step(p, s, h), m) { CountStep(p, s, h, m); }
      } else {
        forall m: nat | m < |p.slices| ensures HartInv(p, Step(p, s, h), m) { MergeHarts(p, s, h, m); }
        forall b: nat | b < p.nbins
          ensures Step(p, s, h).out[b] == Merged(p.slices, Step(p, s, h).harts, |p.slices|, b) % WORD
        {
          MergeOut(p, s, h, b);
        }
      }
    }
  }

  lemma InitialInv(p: Program)
    requires Ok(p)
    ensures Inv(p, Initial(p))
  {
    var s := Initial(p);
    forall h: nat | h < |p.slices| ensures HartInv(p, s, h) {
      forall b: nat | b < p.nbins ensures Local(p, h, b) < |s.temp| { LocalUnique(p, h, h, b, b); }
    }
    forall b: nat | b < p.nbins ensures s.out[b] == Merged(p.slices, s.harts, |p.slices|, b) % WORD {
      MergedNone(p.slices, s.harts, |p.slices|, b);
    }
  }

  function Exec(p: Program, schedule: seq<nat>): (s: State)
    requires Ok(p)
    ensures Shape(p, s)
  {
    if schedule == [] then Initial(p) else
    var s := Exec(p, schedule[..|schedule| - 1]);
    StepShape(p, s, schedule[|schedule| - 1]);
    Step(p, s, schedule[|schedule| - 1])
  }

  lemma {:induction false} ExecInv(p: Program, schedule: seq<nat>)
    requires Ok(p)
    ensures Inv(p, Exec(p, schedule))
  {
    if schedule == [] { InitialInv(p); } else {
      ExecInv(p, schedule[..|schedule| - 1]);
      StepInv(p, Exec(p, schedule[..|schedule| - 1]), schedule[|schedule| - 1]);
    }
  }

  predicate AllArrived(p: Program, s: State)
    requires Ok(p) && Shape(p, s)
  {
    forall h: nat | h < |p.slices| :: Arrived(p, s, h)
  }

  predicate Arrived(p: Program, s: State, h: nat)
    requires Shape(p, s) && h < |p.slices|
  {
    s.harts[h].counted >= |p.slices[h]| && s.harts[h].merged >= p.nbins
  }

  // Once every hart is at the barrier each bin holds the count over all slices, however the harts'
  // counts and additions interleaved.
  lemma MergeExact(p: Program, schedule: seq<nat>, b: nat)
    requires Ok(p) && AllArrived(p, Exec(p, schedule)) && b < p.nbins
    ensures Exec(p, schedule).out[b] == Count(Flatten(p.slices), b) % WORD
  {
    var s := Exec(p, schedule);
    ExecInv(p, schedule);
    forall h: nat | h < |p.slices| ensures s.harts[h].merged > b { assert Arrived(p, s, h); }
    MergedAll(p.slices, s.harts, |p.slices|, b);
    assert p.slices[..|p.slices|] == p.slices;
  }

  // ---------------------------------------------------------------- progress

  // Steps that the first n harts still make before the barrier.
  function Work(p: Program, harts: seq<Hart>, n: nat): int
    requires n <= |harts| && n <= |p.slices|
  {
    if n == 0 then 0 else
    var left := |p.slices[n - 1]| - harts[n - 1].counted + p.nbins - harts[n - 1].merged;
    Work(p, harts, n - 1) + left
  }

  lemma {:induction false} WorkUpdate(p: Program, harts: seq<Hart>, n: nat, h: nat, hart: Hart)
    requires n <= |harts| && n <= |p.slices| && h < n
    ensures Work(p, harts[h := hart], n)
            == Work(p, harts, n) + harts[h].counted - hart.counted + harts[h].merged - hart.merged
  {
    if h < n - 1 { WorkUpdate(p, harts, n - 1, h, hart); } else { WorkFrame(p, harts, n - 1, h, hart); }
  }

  lemma {:induction false} WorkFrame(p: Program, harts: seq<Hart>, n: nat, h: nat, hart: Hart)
    requires n <= |harts| && n <= |p.slices| && n <= h < |harts|
    ensures Work(p, harts[h := hart], n) == Work(p, harts, n)
  {
    if n > 0 { WorkFrame(p, harts, n - 1, h, hart); }
  }

  lemma {:induction false} WorkPositive(p: Program, s: State, n: nat)
    requires Inv(p, s) && n <= |p.slices|
    ensures Work(p, s.harts, n) >= 0
  {
    if n > 0 { WorkPositive(p, s, n - 1); assert HartInv(p, s, n - 1); }
  }

  // A hart before the barrier uses up one unit with every step; one at the barrier changes nothing.
  lemma StepWork(p: Program, s: State, h: nat)
    requires Inv(p, s) && h < |p.slices|
    ensures Shape(p, Step(p, s, h))
    ensures if Arrived(p, s, h) then Step(p, s, h) == s
            else Work(p, Step(p, s, h).harts, |p.slices|) == Work(p, s.harts, |p.slices|) - 1
  {
    StepShape(p, s, h);
    assert HartInv(p, s, h);
    var hart, slice := s.harts[h], p.slices[h];
    if hart.counted < |slice| {
      assert ValuesBelow(slice, p.nbins);
      LocalUnique(p, h, h, slice[hart.counted], slice[hart.counted]);
      WorkUpdate(p, s.harts, |p.slices|, h, Hart(hart.counted + 1, hart.merged));
    } else if hart.merged < p.nbins {
      WorkUpdate(p, s.harts, |p.slices|, h, Hart(hart.counted, hart.merged + 1));
    }
  }

  // So every run can be carried on to the barrier.
  lemma {:induction false} Completes(p: Program, schedule: seq<nat>) returns (all: seq<nat>)
    requires Ok(p)
    ensures schedule <= all && AllArrived(p, Exec(p, all))
    decreases Work(p, Exec(p, schedule).harts, |p.slices|)
  {
    var s := Exec(p, schedule);
    ExecInv(p, schedule);
    all := schedule;
    if h: nat :| h < |p.slices| && !Arrived(p, s, h) {
      var next := schedule + [h];
      assert next[..|next| - 1] == schedule;
      ExecInv(p, next);
      StepWork(p, s, h);
      WorkPositive(p, Exec(p, next), |p.slices|);
      all := Completes(p, next);
    }
  }

  // ---------------------------------------------------------------- one hart alone

  function Alone(p: Program, s: State, h: nat, n: nat): (t: State)
    requires Ok(p) && Shape(p, s)
    ensures Shape(p, t)
  {
    if n == 0 then s else
    StepShape(p, Alone(p, s, h, n - 1), h);
    Step(p, Alone(p, s, h, n - 1), h)
  }

  // The counting loop: i steps in, every bin of the hart holds what it held and the first i data.
  ghost predicate Counting(p: Program, s: State, t: State, h: nat, i: nat)
    requires Ok(p) && Shape(p, s) && Shape(p, t) && h < |p.slices| && i <= |p.slices[h]|
  {
    && t.harts[h] == Hart(i, 0) && t.out == s.out
    && forall b: nat | b < p.nbins ::
         Local(p, h, b) < |s.temp| && t.temp[Local(p, h, b)] == Counted(s.temp[Local(p, h, b)], p.slices[h][..i], b)
  }

  lemma CountingNext(w: Word, slice: seq<nat>, i: nat, b: nat)
    requires i < |slice|
    ensures Counted(w, slice[..i + 1], b)
         == if slice[i] == b then Add(Counted(w, slice[..i], b), 1) else Counted(w, slice[..i], b)
  {
    CountedNext(w, slice, 0, i, b);
    assert Taken(slice, 0, i + 1) == slice[..i + 1] && Taken(slice, 0, i) == slice[..i];
  }

  lemma CountingStep(p: Program, s: State, t: State, h: nat, i: nat)
    requires Ok(p) && Shape(p, s) && Shape(p, t) && h < |p.slices| && i < |p.slices[h]| && Counting(p, s, t, h, i)
    ensures Shape(p, Step(p, t, h)) && Counting(p, s, Step(p, t, h), h, i + 1)
  {
    var slice, u := p.slices[h], Step(p, t, h);
    StepShape(p, t, h);
    assert ValuesBelow(slice, p.nbins);
    LocalUnique(p, h, h, slice[i], slice[i]);
    forall b: nat | b < p.nbins
      ensures u.temp[Local(p, h, b)] == Counted(s.temp[Local(p, h, b)], slice[..i + 1], b)
    {
      LocalUnique(p, h, h, b, slice[i]);
      CountingNext(s.temp[Local(p, h, b)], slice, i, b);
    }
  }

  lemma {:induction false} CountsAlone(p: Program, s: State, h: nat, i: nat)
    requires Ok(p) && Shape(p, s) && h < |p.slices| && i <= |p.slices[h]| && s.harts[h] == Hart(0, 0)
    ensures Counting(p, s, Alone(p, s, h, i), h, i)
  {
    if i == 0 {
      forall b: nat | b < p.nbins ensures Local(p, h, b) < |s.temp| { LocalUnique(p, h, h, b, b); }
      assert p.slices[h][..0] == [];
    } else {
      CountsAlone(p, s, h, i - 1);
      CountingStep(p, s, Alone(p, s, h, i - 1), h, i - 1);
    }
  }

  // The merging loop: j steps in, from the counted bins of c, the first j bins are merged.
  ghost predicate Merging(p: Program, c: State, t: State, h: nat, j: nat)
    requires Shape(p, c) && Shape(p, t) && h < |p.slices|
  {
    && t.harts[h] == Hart(|p.slices[h]|, j) && t.temp == c.temp
    && (forall b: nat | b < j && b < p.nbins ::
          Local(p, h, b) < |c.temp| && t.out[b] == Add(c.out[b], c.temp[Local(p, h, b)]))
    && (forall b: nat | j <= b < p.nbins :: t.out[b] == c.out[b])
  }

  lemma MergingStep(p: Program, c: State, t: State, h: nat, j: nat)
    requires Ok(p) && Shape(p, c) && Shape(p, t) && h < |p.slices| && j < p.nbins && Merging(p, c, t, h, j)
    ensures Shape(p, Step(p, t, h)) && Merging(p, c, Step(p, t, h), h, j + 1)
  {
    StepShape(p, t, h);
    LocalUnique(p, h, h, j, j);
  }

  lemma {:induction false} MergesAlone(p: Program, c: State, h: nat, j: nat)
    requires Ok(p) && Shape(p, c) && h < |p.slices| && j <= p.nbins && c.harts[h] == Hart(|p.slices[h]|, 0)
    ensures Merging(p, c, Alone(p, c, h, j), h, j)
  {
    if j > 0 {
      MergesAlone(p, c, h, j - 1);
      MergingStep(p, c, Alone(p, c, h, j - 1), h, j - 1);
    }
  }

  // A hart stepped alone, from any bins, does what the kernel is proved to do on its slice: as many
  // steps as the slice has data count them, as many more as there are bins merge them.
  lemma AloneIsKernel(p: Program, s: State, h: nat)
    requires Ok(p) && Shape(p, s) && h < |p.slices| && s.harts[h] == Hart(0, 0)
    ensures var t := Alone(p, Alone(p, s, h, |p.slices[h]|), h, p.nbins);
            && Arrived(p, t, h)
            && forall b: nat | b < p.nbins ::
                 && Local(p, h, b) < |s.temp|
                 && t.temp[Local(p, h, b)] == Counted(s.temp[Local(p, h, b)], p.slices[h], b)
                 && t.out[b] == Add(s.out[b], t.temp[Local(p, h, b)])
  {
    var c := Alone(p, s, h, |p.slices[h]|);
    CountsAlone(p, s, h, |p.slices[h]|);
    MergesAlone(p, c, h, p.nbins);
    KernelFrom(p, s, c, Alone(p, c, h, p.nbins), h);
  }

  lemma KernelFrom(p: Program, s: State, c: State, t: State, h: nat)
    requires Ok(p) && Shape(p, s) && Shape(p, c) && Shape(p, t) && h < |p.slices|
    requires Counting(p, s, c, h, |p.slices[h]|) && Merging(p, c, t, h, p.nbins)
    ensures Arrived(p, t, h)
    ensures forall b: nat | b < p.nbins ::
              && Local(p, h, b) < |s.temp|
              && t.temp[Local(p, h, b)] == Counted(s.temp[Local(p, h, b)], p.slices[h], b)
              && t.out[b] == Add(s.out[b], t.temp[Local(p, h, b)])
  {
    assert p.slices[h][..|p.slices[h]|] == p.slices[h];
  }

  // ---------------------------------------------------------------- the benchmark

  // The benchmark: up to sixteen harts, any data that an int can index.
  predicate Input(data: seq<nat>, nc: nat, nbins: nat) {
    1 <= nc <= 16 && 0 < |data| < 0x8000_0000 && ValuesBelow(data, nbins)
  }

  lemma InputOk(data: seq<nat>, nc: nat, nbins: nat)
    requires Input(data, nc, nbins)
    ensures Ok(Program(Slices(data, nc), nbins))
  {
  }

  predicate Finished(data: seq<nat>, nc: nat, nbins: nat, schedule: seq<nat>)
    requires Input(data, nc, nbins)
  {
    InputOk(data, nc, nbins);
    AllArrived(Program(Slices(data, nc), nbins), Exec(Program(Slices(data, nc), nbins), schedule))
  }

  function Output(data: seq<nat>, nc: nat, nbins: nat, schedule: seq<nat>): (r: seq<Word>)
    requires Input(data, nc, nbins)
    ensures |r| == nbins
  {
    InputOk(data, nc, nbins);
    Exec(Program(Slices(data, nc), nbins), schedule).out
  }

  lemma SmallCount(data: seq<nat>, b: nat)
    requires |data| < WORD
    ensures Count(data, b) % WORD == Count(data, b)
  {
    var c := Count(data, b);
    assert 0 <= c < WORD;
  }

  lemma OutputAt(data: seq<nat>, nc: nat, nbins: nat, schedule: seq<nat>, b: nat)
    requires Input(data, nc, nbins) && Finished(data, nc, nbins, schedule) && b < nbins
    ensures Output(data, nc, nbins, schedule)[b] == Count(data, b)
  {
    InputOk(data, nc, nbins);
    var p := Program(Slices(data, nc), nbins);
    MergeExact(p, schedule, b);
    assert p.slices == Slices(data, nc);
    SlicesFlatten(data, nc);
    SmallCount(data, b);
  }

  // The parallel result is the histogram of the data, for any number of harts.
  lemma ParallelExact(data: seq<nat>, nc: nat, nbins: nat, schedule: seq<nat>)
    requires Input(data, nc, nbins) && Finished(data, nc, nbins, schedule)
    ensures forall b: nat | b < nbins :: Output(data, nc, nbins, schedule)[b] == Count(data, b)
    ensures SumBins(data, nbins) == |data|
  {
    BinsConserve(data, nbins);
    forall b: nat | b < nbins ensures Output(data, nc, nbins, schedule)[b] == Count(data, b) {
      OutputAt(data, nc, nbins, schedule, b);
    }
  }

  // `verify` then returns zero exactly against the true histogram.
  lemma VerdictExact(data: seq<nat>, nc: nat, nbins: nat, schedule: seq<nat>, expected: seq<Word>)
    requires Input(data, nc, nbins) && Finished(data, nc, nbins, schedule) && |expected| == nbins
    ensures FirstDiff(nbins, Output(data, nc, nbins, schedule), expected) == 0
            <==> forall b: nat | b < nbins :: expected[b] == Count(data, b)
  {
    ParallelExact(data, nc, nbins, schedule);
    var out := Output(data, nc, nbins, schedule);
    assert out[..nbins] == out && expected[..nbins] == expected;
  }
}
