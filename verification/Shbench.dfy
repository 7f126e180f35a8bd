/** The shbench worker of applications/heap_eval/src/shbench.rs: a ring of live allocations with a
    moving window of saved ones. Null is the address 0. */
module Shbench {
  import opened BlockAllocator

  /** The allocator as the worker sees it: `live` is what the worker has been given and not freed,
      `served` how often it has been given something, `log` the layouts it was given, in order, and
      `refused` how often it has been refused. */
  class Heap {
    var live: map<nat, Layout>
    var served: nat
    var log: seq<Layout>
    var refused: nat

    constructor ()
      ensures live == map[] && served == 0 && log == [] && refused == 0
    {
      live, served, log, refused := map[], 0, [], 0;
    }

    /** `alloc`: null, or an address the worker does not hold. */
    method Alloc(layout: Layout) returns (p: nat)
      modifies this
      ensures p == 0 ==> live == old(live) && served == old(served) && log == old(log)
      ensures refused == old(refused) + if p == 0 then 1 else 0
      ensures p != 0 ==> p !in old(live) && live == old(live)[p := layout] && served == old(served) + 1
      ensures p != 0 ==> log == old(log) + [layout]
    {
      p :| p == 0 || p !in live;
      if p != 0 {
        live, served, log := live[p := layout], served + 1, log + [layout];
      } else {
        refused := refused + 1;
      }
    }

    /** `dealloc`: only a live address, and only with the layout it was allocated with. */
    method Dealloc(p: nat, layout: Layout)
      requires p in live && live[p] == layout
      modifies this`live
      ensures live == old(live) - {p}
    {
      live := live - {p};
    }
  }

  // ----- slots and the heap

  /** The non-null slots hold distinct live addresses with their own layouts, and every live address
      is in a slot. */
  ghost predicate Matches(slots: seq<nat>, layouts: seq<Layout>, live: map<nat, Layout>) {
    && |slots| == |layouts|
    && (forall i :: 0 <= i < |slots| && slots[i] != 0 ==> slots[i] in live && live[slots[i]] == layouts[i])
    && (forall i, k :: 0 <= i < k < |slots| && slots[i] != 0 ==> slots[i] != slots[k])
    && (forall p :: p in live ==> p != 0 && p in slots)
  }

  /** The slots in use are those below `mp` and those of the saved window. */
  predicate InUse(slots: seq<nat>, mp: nat, saveStart: nat, saveEnd: nat) {
    forall i :: 0 <= i < |slots| ==> (slots[i] != 0 <==> i < mp || saveStart <= i < saveEnd)
  }

  lemma ClearSlot(slots: seq<nat>, layouts: seq<Layout>, live: map<nat, Layout>, i: nat)
    requires Matches(slots, layouts, live) && i < |slots| && slots[i] != 0
    ensures Matches(slots[i := 0], layouts, live - {slots[i]})
  {
  }

  lemma FillSlot(slots: seq<nat>, layouts: seq<Layout>, live: map<nat, Layout>, i: nat, p: nat, l: Layout)
    requires Matches(slots, layouts, live) && i < |slots| && slots[i] == 0 && p != 0 && p !in live
    ensures Matches(slots[i := p], layouts[i := l], live[p := l])
  {
    var slots' := slots[i := p];
    assert slots'[i] == p;
    forall q | q in live ensures q in slots' {
      var k :| 0 <= k < |slots| && slots[k] == q;
      assert slots'[k] == q;
    }
  }

  // ----- the cursor and the window, as functions

  datatype Cursor = Cursor(mp: nat, saveStart: nat, saveEnd: nat)

  /** The window after one that ends at `saveEnd`: the next fifth of the ring, starting over at the end. */
  function NextWindow(count: nat, saveEnd: nat): (nat, nat) {
    var start := if saveEnd >= count then 0 else saveEnd;
    (start, if start + count / 5 > count then count else start + count / 5)
  }

  /** The slot after `mp`, skipping the window when it is reached. */
  function Skip(c: Cursor): nat {
    if c.mp + 1 == c.saveStart then c.saveEnd else c.mp + 1
  }

  predicate Wraps(count: nat, c: Cursor) {
    Skip(c) >= count
  }

  function Advance(count: nat, c: Cursor): Cursor {
    if Wraps(count, c) then
      var (start, end) := NextWindow(count, c.saveEnd);
      Cursor(0, start, end)
    else c.(mp := Skip(c))
  }

  function AdvanceBy(count: nat, c: Cursor, n: nat): Cursor {
    if n == 0 then c else Advance(count, AdvanceBy(count, c, n - 1))
  }

  /** The slots with everything outside the window cleared. */
  function Cleared(slots: seq<nat>, saveStart: nat, saveEnd: nat): seq<nat> {
    seq(|slots|, i requires 0 <= i < |slots| => if saveStart <= i < saveEnd then slots[i] else 0)
  }

  lemma ClearedSlots(was: seq<nat>, slots: seq<nat>, saveStart: nat, saveEnd: nat)
    requires |slots| == |was| && forall i :: 0 <= i < |was| ==> was[i] != 0
    requires forall i :: 0 <= i < |was| ==> slots[i] == if saveStart <= i < saveEnd then was[i] else 0
    ensures slots == Cleared(was, saveStart, saveEnd) && InUse(slots, 0, saveStart, saveEnd)
  {
  }

  /** Two windows in a row share no slot, so no allocation is saved by two sweeps in a row. */
  lemma WindowsDisjoint(count: nat, saveStart: nat, saveEnd: nat, i: nat)
    requires saveStart <= saveEnd <= count && saveEnd - saveStart <= count / 5
    requires saveStart <= i < saveEnd
    ensures var (start, end) := NextWindow(count, saveEnd);
            !(start <= i < end)
  {
  }

  // ----- laps of the cursor around the ring

  lemma {:induction false} AdvanceAdd(count: nat, c: Cursor, m: nat, n: nat)
    ensures AdvanceBy(count, c, m + n) == AdvanceBy(count, AdvanceBy(count, c, m), n)
  {
    if n > 0 { AdvanceAdd(count, c, m, n - 1); }
  }

  /** The number of steps from a sweep that kept the window `[saveStart, saveEnd)` to the next sweep. */
  function LapLength(count: nat, saveStart: nat, saveEnd: nat): (n: nat)
    requires saveStart <= saveEnd <= count
    ensures count > 0 ==> n > 0
  {
    if saveStart == 0 then count else count - (saveEnd - saveStart)
  }

  /** Where the cursor is `n` steps into such a lap. */
  function InLap(saveStart: nat, saveEnd: nat, n: nat): Cursor
    requires saveStart <= saveEnd
  {
    Cursor(if 0 < saveStart <= n then n + (saveEnd - saveStart) else n, saveStart, saveEnd)
  }

  lemma {:induction false} Lap(count: nat, saveStart: nat, saveEnd: nat, n: nat)
    requires saveStart <= saveEnd <= count && n < LapLength(count, saveStart, saveEnd)
    ensures AdvanceBy(count, Cursor(0, saveStart, saveEnd), n) == InLap(saveStart, saveEnd, n)
  {
    if n > 0 { Lap(count, saveStart, saveEnd, n - 1); }
  }

  /** A lap ends with a sweep that keeps the next window. */
  lemma LapEnds(count: nat, saveStart: nat, saveEnd: nat)
    requires saveStart <= saveEnd <= count && count > 0
    ensures var (start, end) := NextWindow(count, saveEnd);
            AdvanceBy(count, Cursor(0, saveStart, saveEnd), LapLength(count, saveStart, saveEnd)) == Cursor(0, start, end)
  {
    Lap(count, saveStart, saveEnd, LapLength(count, saveStart, saveEnd) - 1);
  }

  /** The cursor is in the saved window `n` steps into the lap, so the next step overwrites a saved slot. */
  predicate Overwrites(count: nat, saveStart: nat, saveEnd: nat, n: nat) {
    saveStart <= AdvanceBy(count, Cursor(0, saveStart, saveEnd), n).mp < saveEnd
  }

  /** The saved allocations are left alone until the next sweep exactly when the window is empty or does
      not start at slot 0: a window at the start of the ring is overwritten at once. */
  lemma SavedSpared(count: nat, saveStart: nat, saveEnd: nat)
    requires saveStart <= saveEnd <= count
    ensures (forall n: nat :: n < LapLength(count, saveStart, saveEnd) ==> !Overwrites(count, saveStart, saveEnd, n))
        <==> saveStart > 0 || saveStart == saveEnd
  {
    forall n: nat | n < LapLength(count, saveStart, saveEnd)
      ensures Overwrites(count, saveStart, saveEnd, n) <==> saveStart == 0 && n < saveEnd
    {
      Lap(count, saveStart, saveEnd, n);
    }
    assert saveStart == 0 < saveEnd ==> Overwrites(count, saveStart, saveEnd, 0);
  }

  /** The very first window is of that kind: it starts at slot 0 and, with five slots or more, the step
      after the sweep that saved it overwrites it. */
  lemma FirstWindow(count: nat)
    ensures AdvanceBy(count, Cursor(0, 0, 0), count) == Cursor(0, 0, count / 5)
    ensures count >= 5 ==> Overwrites(count, 0, count / 5, 0)
  {
    if count > 0 { LapEnds(count, 0, 0); }
  }

  // ----- how many allocations are left at exit

  /** The number of saved slots at or beyond `mp`. */
  function Residue(mp: nat, saveStart: nat, saveEnd: nat): nat {
    var lo := if mp > saveStart then mp else saveStart;
    if lo < saveEnd then saveEnd - lo else 0
  }

  /** What a worker leaves after `count` rounds of `perRound` allocations each. */
  function Leftover(count: nat, perRound: nat): nat {
    var c := AdvanceBy(count, Cursor(0, 0, 0), count * perRound);
    Residue(c.mp, c.saveStart, c.saveEnd)
  }

  lemma LeftoverAfter(count: nat, perRound: nat, n: nat)
    requires n == count * perRound
    ensures Leftover(count, perRound) == CursorResidue(AdvanceBy(count, Cursor(0, 0, 0), n))
  {
  }

  lemma {:induction false} EmptyWindows(count: nat, n: nat)
    requires count < 5
    ensures var c := AdvanceBy(count, Cursor(0, 0, 0), n); c.saveStart == c.saveEnd <= count
  {
    if n > 0 { EmptyWindows(count, n - 1); }
  }

  /** A ring of fewer than five slots saves nothing and so leaves nothing. */
  lemma SmallRing(count: nat, perRound: nat)
    requires count < 5
    ensures Leftover(count, perRound) == 0
  {
    var n := count * perRound;
    LeftoverAfter(count, perRound, n);
    EmptyWindows(count, n);
  }

  lemma NextLap(k: nat, at: nat, start: nat)
    requires k > 0 && start > 0 && (start + 2 * k <= 5 * k || start == 4 * k)
    requires AdvanceBy(5 * k, Cursor(0, 0, k), at) == Cursor(0, start, start + k)
    ensures AdvanceBy(5 * k, Cursor(0, 0, k), at + 4 * k)
         == if start == 4 * k then Cursor(0, 0, k) else Cursor(0, start + k, start + 2 * k)
  {
    LapAfter(5 * k, Cursor(0, 0, k), at, start, start + k);
    WindowAfter(k, start);
  }

  lemma LapAfter(count: nat, c: Cursor, at: nat, saveStart: nat, saveEnd: nat)
    requires AdvanceBy(count, c, at) == Cursor(0, saveStart, saveEnd) && saveStart <= saveEnd <= count && count > 0
    ensures var (start, end) := NextWindow(count, saveEnd);
            AdvanceBy(count, c, at + LapLength(count, saveStart, saveEnd)) == Cursor(0, start, end)
  {
    LapEnds(count, saveStart, saveEnd);
    AdvanceAdd(count, c, at, LapLength(count, saveStart, saveEnd));
  }

  lemma WindowAfter(k: nat, start: nat)
    requires k > 0 && start > 0 && (start + 2 * k <= 5 * k || start == 4 * k)
    ensures LapLength(5 * k, start, start + k) == 4 * k
    ensures NextWindow(5 * k, start + k) == if start == 4 * k then (0, k) else (start + k, start + 2 * k)
  {
  }

  /** Window `w` of a ring of five windows of `k` slots each, the first again after the fifth. */
  function Window(k: nat, w: nat): Cursor {
    if w == 5 then Cursor(0, 0, k) else Cursor(0, w * k, w * k + k)
  }

  /** The sweeps after the first one are 5, 4, 4, 4 and 4 times `k` steps apart. */
  lemma {:induction false} LapStart(k: nat, w: nat)
    requires k > 0 && 1 <= w <= 5
    ensures AdvanceBy(5 * k, Cursor(0, 0, k), (4 * w + 1) * k) == Window(k, w)
  {
    if w == 1 {
      SecondWindow(k);
    } else {
      LapStart(k, w - 1);
      WindowBounds(k, w);
      NextLap(k, (4 * w - 3) * k, (w - 1) * k);
    }
  }

  lemma SecondWindow(k: nat)
    requires k > 0
    ensures AdvanceBy(5 * k, Cursor(0, 0, k), 5 * k) == Cursor(0, k, 2 * k)
  {
    LapEnds(5 * k, 0, k);
  }

  lemma WindowBounds(k: nat, w: nat)
    requires k > 0 && 2 <= w <= 5
    ensures (4 * w + 1) * k == (4 * w - 3) * k + 4 * k && (w - 1) * k > 0
    ensures if w == 5 then (w - 1) * k == 4 * k else (w - 1) * k + 2 * k <= 5 * k && w * k == (w - 1) * k + k
  {
  }

  lemma Periods(k: nat, q: nat)
    requires k > 0
    ensures AdvanceBy(5 * k, Cursor(0, 0, k), Multiple(21 * k, q)) == Cursor(0, 0, k)
  {
    LapStart(k, 5);
    Repeats(5 * k, Cursor(0, 0, k), 21 * k, q);
  }

  lemma {:induction false} Repeats(count: nat, c: Cursor, period: nat, q: nat)
    requires AdvanceBy(count, c, period) == c
    ensures AdvanceBy(count, c, Multiple(period, q)) == c
  {
    if q > 0 {
      Repeats(count, c, period, q - 1);
      AdvanceAdd(count, c, Multiple(period, q - 1), period);
    }
  }

  function Multiple(period: nat, q: nat): nat {
    if q == 0 then 0 else Multiple(period, q - 1) + period
  }

  lemma {:induction false} MultipleIs(period: nat, q: nat)
    ensures Multiple(period, q) == period * q
  {
    if q > 0 {
      MultipleIs(period, q - 1);
      OneMore(period, q);
    }
  }

  lemma OneMore(period: nat, q: nat)
    requires q > 0
    ensures period * q == period * (q - 1) + period
  {
  }

  /** Does the saved window still lie ahead of the cursor `j * k` steps after the first sweep? */
  predicate WindowAhead(j: nat) {
    j == 0 || (j >= 5 && (j - 5) % 4 <= (j - 5) / 4)
  }

  function CursorResidue(c: Cursor): nat {
    Residue(c.mp, c.saveStart, c.saveEnd)
  }

  /** `i * k` steps into the first lap. */
  lemma FirstLap(k: nat, i: nat)
    requires k > 0 && i < 5
    ensures CursorResidue(AdvanceBy(5 * k, Cursor(0, 0, k), i * k)) == if i == 0 then k else 0
  {
    StepsInside(k, i, 5);
    Lap(5 * k, 0, k, i * k);
  }

  /** `i * k` steps into the lap with window `w`. */
  lemma LaterLap(k: nat, w: nat, i: nat)
    requires k > 0 && 1 <= w < 5 && i < 4
    ensures CursorResidue(AdvanceBy(5 * k, Cursor(0, 0, k), (4 * w + 1 + i) * k)) == if i < w then k else 0
  {
    LapStart(k, w);
    StepsOrder(k, w, i);
    PointInLap(5 * k, Cursor(0, 0, k), (4 * w + 1) * k, w * k, w * k + k, i * k);
  }

  lemma StepsOrder(k: nat, w: nat, i: nat)
    requires k > 0 && 1 <= w < 5 && i < 4
    ensures 0 < w * k && w * k + k <= 5 * k && i * k < 4 * k && (i * k < w * k <==> i < w)
    ensures (4 * w + 1 + i) * k == (4 * w + 1) * k + i * k
  {
    StepsInside(k, i, 4);
    StepsInside(k, w, 5);
    StepsInside(k, 0, w);
    if i < w { StepsInside(k, i, w); } else { StepsInside(k, w, i + 1); }
  }

  /** What is left `t` steps into a lap with a window that does not start at slot 0. */
  lemma PointInLap(count: nat, c: Cursor, at: nat, saveStart: nat, saveEnd: nat, t: nat)
    requires AdvanceBy(count, c, at) == Cursor(0, saveStart, saveEnd) && 0 < saveStart <= saveEnd <= count
    requires t < LapLength(count, saveStart, saveEnd)
    ensures CursorResidue(AdvanceBy(count, c, at + t)) == if t < saveStart then saveEnd - saveStart else 0
  {
    AdvanceAdd(count, c, at, t);
    Lap(count, saveStart, saveEnd, t);
  }

  lemma StepsInside(k: nat, i: nat, n: nat)
    requires k > 0 && i < n
    ensures i * k + k <= n * k
  {
    assert (n - i - 1) * k >= 0;
    assert n * k == (n - i - 1) * k + i * k + k;
  }

  lemma PhaseResidue(k: nat, j: nat)
    requires k > 0 && j < 21
    ensures CursorResidue(AdvanceBy(5 * k, Cursor(0, 0, k), j * k)) == if WindowAhead(j) then k else 0
  {
    if j < 5 {
      FirstLap(k, j);
    } else {
      LaterLap(k, (j - 5) / 4 + 1, (j - 5) % 4);
      assert j == 4 * ((j - 5) / 4 + 1) + 1 + (j - 5) % 4;
    }
  }

  /** The steps of `perRound` rounds after the first lap, in units of `k`, are `q` whole periods and `j` more. */
  lemma StepsSplit(k: nat, perRound: nat, q: nat, j: nat)
    requires perRound > 0 && 5 * (perRound - 1) == 21 * q + j
    ensures 5 * k * perRound == 5 * k + (Multiple(21 * k, q) + j * k)
  {
    MultipleIs(21 * k, q);
    FirstRound(k, perRound - 1);
    Distribute(k, q, j);
  }

  lemma FirstRound(k: nat, n: nat)
    ensures 5 * k * (n + 1) == 5 * k + 5 * n * k
  {
  }

  lemma Distribute(k: nat, q: nat, j: nat)
    ensures (21 * q + j) * k == 21 * k * q + j * k
  {
  }

  lemma LeftInPhase(k: nat, perRound: nat, q: nat, j: nat)
    requires k > 0 && perRound > 0 && 5 * (perRound - 1) == 21 * q + j && j < 21
    ensures Leftover(5 * k, perRound) == if WindowAhead(j) then k else 0
  {
    StepsSplit(k, perRound, q, j);
    LeftoverAfter(5 * k, perRound, 5 * k + (Multiple(21 * k, q) + j * k));
    PhaseReached(k, q, j * k);
    PhaseResidue(k, j);
  }

  lemma PhaseReached(k: nat, q: nat, more: nat)
    requires k > 0
    ensures AdvanceBy(5 * k, Cursor(0, 0, 0), 5 * k + (Multiple(21 * k, q) + more))
         == AdvanceBy(5 * k, Cursor(0, 0, k), more)
  {
    FirstFifth(k);
    Periods(k, q);
    Cycle(5 * k, Cursor(0, 0, 0), Cursor(0, 0, k), 5 * k, Multiple(21 * k, q), more);
  }

  lemma FirstFifth(k: nat)
    ensures AdvanceBy(5 * k, Cursor(0, 0, 0), 5 * k) == Cursor(0, 0, k)
  {
    FirstWindow(5 * k);
  }

  /** A worker with `5 * k` slots leaves `k` allocations or none: `k` exactly when the allocations of a
      round, less one, times five, put the cursor before the window in the cycle of 21 phases. */
  lemma FifthLeft(k: nat, perRound: nat)
    requires k > 0 && perRound > 0
    ensures Leftover(5 * k, perRound) == if WindowAhead(5 * (perRound - 1) % 21) then k else 0
  {
    LeftInPhase(k, perRound, 5 * (perRound - 1) / 21, 5 * (perRound - 1) % 21);
  }

  /** Steps to a cursor, steps that come back to it, and more steps from it. */
  lemma Cycle(count: nat, c: Cursor, d: Cursor, first: nat, cycle: nat, more: nat)
    requires AdvanceBy(count, c, first) == d && AdvanceBy(count, d, cycle) == d
    ensures AdvanceBy(count, c, first + (cycle + more)) == AdvanceBy(count, d, more)
  {
    AdvanceAdd(count, c, first, cycle + more);
    AdvanceAdd(count, d, cycle, more);
  }

  // ----- how many allocations a round makes

  /** How often a size is allocated. */
  function Iterations(size: nat): nat {
    if size < 100 then 250 else if size < 1000 then 50 else if size < 10000 then 10 else 1
  }

  function SizeAllocs(size: nat): nat {
    if size == 0 then 0 else Iterations(size) + SizeAllocs(size / 2)
  }

  function NextBase(sizeBase: nat): (r: nat)
    ensures r > sizeBase
  {
    sizeBase * 3 / 2 + 1
  }

  function RoundAllocs(sizeBase: nat, maxBlockSize: nat): nat
    decreases maxBlockSize - sizeBase
  {
    if sizeBase >= maxBlockSize then 0 else SizeAllocs(sizeBase) + RoundAllocs(NextBase(sizeBase), maxBlockSize)
  }

  // ----- which allocations a round makes

  function Copies(l: Layout, n: nat): (log: seq<Layout>)
    ensures |log| == n
  {
    if n == 0 then [] else Copies(l, n - 1) + [l]
  }

  function Times(log: seq<Layout>, n: nat): seq<Layout> {
    if n == 0 then [] else Times(log, n - 1) + log
  }

  /** A size and its halves, each as often as its size says, aligned to two bytes. */
  function SizeLog(size: nat): (log: seq<Layout>)
    ensures |log| == SizeAllocs(size)
  {
    if size == 0 then [] else Copies(Layout(size, 2), Iterations(size)) + SizeLog(size / 2)
  }

  function RoundLog(sizeBase: nat, maxBlockSize: nat): (log: seq<Layout>)
    ensures |log| == RoundAllocs(sizeBase, maxBlockSize)
    decreases maxBlockSize - sizeBase
  {
    if sizeBase >= maxBlockSize then [] else SizeLog(sizeBase) + RoundLog(NextBase(sizeBase), maxBlockSize)
  }

  lemma Regroup(a: seq<Layout>, b: seq<Layout>, c: seq<Layout>)
    ensures a + (b + c) == (a + b) + c
  {
  }

  /** How often a layout occurs in a log. */
  function Occurrences(log: seq<Layout>, l: Layout): nat {
    if log == [] then 0 else Occurrences(log[..|log| - 1], l) + if log[|log| - 1] == l then 1 else 0
  }

  lemma {:induction false} OccurrencesAdd(a: seq<Layout>, b: seq<Layout>, l: Layout)
    ensures Occurrences(a + b, l) == Occurrences(a, l) + Occurrences(b, l)
  {
    if b == [] {
      assert a + b == a;
    } else {
      var front := b[..|b| - 1];
      OccurrencesAdd(a, front, l);
      assert (a + b)[..|a + b| - 1] == a + front;
    }
  }

  lemma {:induction false} OccurrencesCopies(m: Layout, n: nat, l: Layout)
    ensures Occurrences(Copies(m, n), l) == if l == m then n else 0
  {
    if n > 0 {
      OccurrencesCopies(m, n - 1, l);
      assert Copies(m, n)[..n - 1] == Copies(m, n - 1);
    }
  }

  /** Is `size` reached from `base` by halving? */
  predicate Half(base: nat, size: nat) {
    base == size || (base > size && Half(base / 2, size))
  }

  /** A base and its halves: every size reached by halving is asked for, aligned to two bytes, 250 times below
      100 bytes, 50 times below 1000, 10 times below 10000 and once above; and nothing else is. */
  lemma {:induction false} SizeLogExact(base: nat, size: nat, align: nat)
    requires size > 0
    ensures Occurrences(SizeLog(base), Layout(size, align)) ==
            if align != 2 || !Half(base, size) then 0
            else if size < 100 then 250 else if size < 1000 then 50 else if size < 10000 then 10 else 1
  {
    if base > 0 {
      OccurrencesAdd(Copies(Layout(base, 2), Iterations(base)), SizeLog(base / 2), Layout(size, align));
      OccurrencesCopies(Layout(base, 2), Iterations(base), Layout(size, align));
      SizeLogExact(base / 2, size, align);
      if Half(base / 2, size) { HalfBelow(base / 2, size); }
    }
  }

  lemma {:induction false} HalfBelow(base: nat, size: nat)
    requires Half(base, size)
    ensures size <= base
  {
  }

  const ALLOCATIONS_PER_ITER: nat := 19300
  const MIN_REGULAR: nat := 1
  const MAX_REGULAR: nat := 1000
  const MIN_LARGE: nat := 8192
  const MAX_LARGE: nat := 16384

  function Power(k: nat): nat {
    if k == 0 then 1 else 2 * Power(k - 1)
  }

  /** A size below 100 with `k + 1` binary digits is allocated 250 times for each digit. */
  lemma {:induction false} SmallSize(size: nat, k: nat)
    requires size < 100 && Power(k) <= size < Power(k + 1)
    ensures SizeAllocs(size) == 250 * (k + 1)
  {
    if k > 0 { SmallSize(size / 2, k - 1); }
  }

  /** A larger size is allocated as often as its share of the halving says. */
  lemma HalveStep(size: nat, rest: nat)
    requires size > 0 && SizeAllocs(size / 2) == rest
    ensures SizeAllocs(size) == Iterations(size) + rest
  {
  }

  lemma BaseStep(base: nat, next: nat, max: nat, allocs: nat, rest: nat)
    requires base < max && SizeAllocs(base) == allocs && next == base * 3 / 2 + 1 && RoundAllocs(next, max) == rest
    ensures RoundAllocs(base, max) == allocs + rest
  {
  }

  lemma SmallBases(max: nat)
    requires 92 < max
    ensures RoundAllocs(1, max) == 10500 + RoundAllocs(139, max)
  {
    var tail := RoundAllocs(139, max);
    assert Power(2) == 4 && Power(4) == 16 && Power(6) == 64;
    SmallSize(92, 6); BaseStep(92, 139, max, 1750, tail);
    SmallSize(61, 5); BaseStep(61, 92, max, 1500, 1750 + tail);
    SmallSize(40, 5); BaseStep(40, 61, max, 1500, 3250 + tail);
    SmallSize(26, 4); BaseStep(26, 40, max, 1250, 4750 + tail);
    SmallSize(17, 4); BaseStep(17, 26, max, 1250, 6000 + tail);
    SmallSize(11, 3); BaseStep(11, 17, max, 1000, 7250 + tail);
    SmallSize(7, 2); BaseStep(7, 11, max, 750, 8250 + tail);
    SmallSize(4, 2); BaseStep(4, 7, max, 750, 9000 + tail);
    SmallSize(2, 1); BaseStep(2, 4, max, 500, 9750 + tail);
    SmallSize(1, 0); BaseStep(1, 2, max, 250, 10250 + tail);
  }

  lemma LargerSizes()
    ensures SizeAllocs(139) == 1800 && SizeAllocs(209) == 1600 && SizeAllocs(314) == 1850
    ensures SizeAllocs(472) == 1650 && SizeAllocs(709) == 1900
  {
    assert Power(4) == 16 && Power(6) == 64;
    SmallSize(69, 6); HalveStep(139, 1750);
    SmallSize(52, 5); HalveStep(104, 1500); HalveStep(209, 1550);
    SmallSize(78, 6); HalveStep(157, 1750); HalveStep(314, 1800);
    SmallSize(59, 5); HalveStep(118, 1500); HalveStep(236, 1550); HalveStep(472, 1600);
    SmallSize(88, 6); HalveStep(177, 1750); HalveStep(354, 1800); HalveStep(709, 1850);
  }

  lemma LargerBases(max: nat)
    requires 709 < max <= 1064
    ensures RoundAllocs(139, max) == 8800
  {
    LargerSizes();
    BaseStep(709, 1064, max, 1900, 0);
    BaseStep(472, 709, max, 1650, 1900);
    BaseStep(314, 472, max, 1850, 3550);
    BaseStep(209, 314, max, 1600, 5400);
    BaseStep(139, 209, max, 1800, 7000);
  }

  lemma BasesFromOne(max: nat)
    requires 709 < max <= 1064
    ensures RoundAllocs(1, max) == 19300
  {
    SmallBases(max);
    LargerBases(max);
  }

  /** The constant is right for the regular block sizes. */
  lemma RegularRound()
    ensures RoundAllocs(MIN_REGULAR, MAX_REGULAR) == ALLOCATIONS_PER_ITER
  {
    BasesFromOne(MAX_REGULAR);
  }

  lemma LargeSizes()
    ensures SizeAllocs(8192) == 1940 && SizeAllocs(12289) == 1931
  {
    assert Power(4) == 16 && Power(6) == 64;
    SmallSize(64, 6); HalveStep(128, 1750); HalveStep(256, 1800); HalveStep(512, 1850);
    HalveStep(1024, 1900); HalveStep(2048, 1910); HalveStep(4096, 1920); HalveStep(8192, 1930);
    SmallSize(96, 6); HalveStep(192, 1750); HalveStep(384, 1800); HalveStep(768, 1850);
    HalveStep(1536, 1900); HalveStep(3072, 1910); HalveStep(6144, 1920); HalveStep(12289, 1930);
  }

  /** It is not for the large ones. */
  lemma LargeRound()
    ensures RoundAllocs(MIN_LARGE, MAX_LARGE) == 3871
  {
    LargeBases(MAX_LARGE);
  }

  lemma LargeBases(max: nat)
    requires 12289 < max <= 18434
    ensures RoundAllocs(8192, max) == 3871
  {
    LargeSizes();
    BaseStep(12289, 18434, max, 1931, 0);
    BaseStep(8192, 12289, max, 1940, 1931);
  }

  /** The objects all threads together allocate in rounds of `perRound`: each thread makes an equal whole
      number of iterations. */
  function Allocated(threads: nat, iterations: nat, perRound: nat): nat
    requires threads > 0
  {
    threads * (iterations / threads * perRound)
  }

  lemma AllocatedParts(threads: nat, iterations: nat, perRound: nat)
    requires threads > 0
    ensures Allocated(threads, iterations, perRound) == (iterations - iterations % threads) * perRound
  {
    var q := iterations / threads;
    assert iterations - iterations % threads == threads * q;
    assert threads * (q * perRound) == (threads * q) * perRound;
  }

  /** The total printed before the benchmark is right for the regular sizes exactly when the threads
      divide the iterations evenly, and for the large ones only when there are no iterations. */
  lemma PrintedTotal(threads: nat, iterations: nat)
    requires threads > 0
    ensures var made := Allocated(threads, iterations, RoundAllocs(MIN_REGULAR, MAX_REGULAR));
            ALLOCATIONS_PER_ITER * iterations == made <==> iterations % threads == 0
    ensures var made := Allocated(threads, iterations, RoundAllocs(MIN_LARGE, MAX_LARGE));
            ALLOCATIONS_PER_ITER * iterations == made <==> iterations == 0
  {
    RegularRound();
    LargeRound();
    PrintedAgainst(threads, iterations);
  }

  lemma PrintedAgainst(threads: nat, iterations: nat)
    requires threads > 0
    ensures ALLOCATIONS_PER_ITER * iterations == Allocated(threads, iterations, ALLOCATIONS_PER_ITER)
       <==> iterations % threads == 0
    ensures ALLOCATIONS_PER_ITER * iterations == Allocated(threads, iterations, 3871) <==> iterations == 0
  {
    var rest := iterations % threads;
    AllocatedParts(threads, iterations, ALLOCATIONS_PER_ITER);
    AllocatedParts(threads, iterations, 3871);
    assert rest <= iterations;
  }

  /** With the regular sizes a worker with `5 * k` slots leaves `k` allocations. */
  lemma RegularLeft(k: nat)
    requires k > 0
    ensures Leftover(5 * k, RoundAllocs(MIN_REGULAR, MAX_REGULAR)) == k
  {
    RegularRound();
    LeftInPhase(k, RoundAllocs(MIN_REGULAR, MAX_REGULAR), 4595, 0);
  }

  /** So it does with the large ones. */
  lemma LargeLeft(k: nat)
    requires k > 0
    ensures Leftover(5 * k, RoundAllocs(MIN_LARGE, MAX_LARGE)) == k
  {
    LargeRound();
    PhaseNine(k, RoundAllocs(MIN_LARGE, MAX_LARGE));
  }

  lemma PhaseNine(k: nat, perRound: nat)
    requires k > 0 && perRound == 3871
    ensures Leftover(5 * k, perRound) == k
  {
    LeftInPhase(k, perRound, 921, 9);
  }

  class Worker {
    const count: nat
    const heap: Heap
    const allocations: array<nat>
    const layouts: array<Layout>
    var mp: nat
    var saveStart: nat
    var saveEnd: nat

    ghost predicate Shape()
      reads this
    {
      && allocations.Length == count && layouts.Length == count
      && saveStart <= saveEnd <= count && saveEnd - saveStart <= count / 5
    }

    /** The invariant of the benchmark loop. */
    ghost predicate Valid()
      reads this, heap, allocations, layouts
    {
      && Shape() && mp <= count && (mp == count ==> count == 0)
      && Matches(allocations[..], layouts[..], heap.live)
      && InUse(allocations[..], mp, saveStart, saveEnd)
    }

    /** Cursor and window are where the number of allocations made so far puts them. */
    ghost predicate OnCourse()
      reads this, heap
    {
      Cursor(mp, saveStart, saveEnd) == AdvanceBy(count, Cursor(0, 0, 0), heap.served)
    }

    constructor (count: nat)
      ensures Valid() && fresh(heap) && fresh(allocations) && fresh(layouts) && this.count == count
      ensures OnCourse() && heap.served == 0 && heap.log == [] && heap.refused == 0
    {
      this.count := count;
      this.mp, this.saveStart, this.saveEnd := 0, 0, 0;
      this.heap := new Heap();
      this.allocations := new nat[count](_ => 0);
      this.layouts := new Layout[count](_ => Layout(1, 1));
    }

    /** Frees slot `i` and clears it. */
    method Release(i: nat)
      requires Shape() && Matches(allocations[..], layouts[..], heap.live)
      requires i < count && allocations[i] != 0
      modifies heap`live, allocations
      ensures Matches(allocations[..], layouts[..], heap.live)
      ensures allocations[..] == old(allocations[..])[i := 0]
    {
      ClearSlot(allocations[..], layouts[..], heap.live, i);
      heap.Dealloc(allocations[i], layouts[i]);
      allocations[i] := 0;
    }

    /** Frees the slots before the window, the oldest allocations first. */
    method FreeFront()
      requires Shape() && Matches(allocations[..], layouts[..], heap.live) && mp == 0
      requires forall i :: 0 <= i < count ==> allocations[i] != 0
      modifies this`mp, heap`live, allocations
      ensures Matches(allocations[..], layouts[..], heap.live)
      ensures forall i :: 0 <= i < count ==> allocations[i] == if saveStart <= i then old(allocations[i]) else 0
    {
      while mp < saveStart
        invariant Matches(allocations[..], layouts[..], heap.live) && mp <= saveStart
        invariant forall i :: 0 <= i < count ==> allocations[i] == if mp <= i then old(allocations[i]) else 0
      {
        Release(mp);
        mp := mp + 1;
      }
    }

    /** Frees the slots after the window, the newest allocations first. */
    method FreeBack()
      requires Shape() && Matches(allocations[..], layouts[..], heap.live)
      requires forall i :: saveEnd <= i < count ==> allocations[i] != 0
      modifies this`mp, heap`live, allocations
      ensures Matches(allocations[..], layouts[..], heap.live)
      ensures forall i :: 0 <= i < count ==> allocations[i] == if i < saveEnd then old(allocations[i]) else 0
    {
      mp := count;
      while mp > saveEnd
        invariant Matches(allocations[..], layouts[..], heap.live) && saveEnd <= mp <= count
        invariant forall i :: 0 <= i < count ==> allocations[i] == if i < mp then old(allocations[i]) else 0
      {
        mp := mp - 1;
        Release(mp);
      }
    }

    /** Reached the end of the ring: moves the window on and frees everything outside it. */
    method Sweep()
      requires Shape() && Matches(allocations[..], layouts[..], heap.live) && count > 0
      requires InUse(allocations[..], count, saveStart, saveEnd)
      modifies this, heap`live, allocations
      ensures Valid() && mp == 0
      ensures (saveStart, saveEnd) == NextWindow(count, old(saveEnd))
      ensures allocations[..] == Cleared(old(allocations[..]), saveStart, saveEnd)
    {
      mp := 0;
      saveStart := saveEnd;
      if saveStart >= count {
        saveStart := mp;
      }
      saveEnd := saveStart + count / 5;
      if saveEnd > count {
        saveEnd := count;
      }
      FreeFront();
      FreeBack();
      mp := 0;
      ClearedSlots(old(allocations[..]), allocations[..], saveStart, saveEnd);
    }

    /** Puts a new allocation into slot `mp`, freeing what was there. */
    method Place(p: nat, layout: Layout, ghost was: map<nat, Layout>)
      requires Shape() && mp < count && p != 0 && p !in was && heap.live == was[p := layout]
      requires Matches(allocations[..], layouts[..], was)
      modifies heap`live, allocations, layouts
      ensures Matches(allocations[..], layouts[..], heap.live)
      ensures allocations[..] == old(allocations[..])[mp := p]
    {
      ghost var slots, ls := allocations[..], layouts[..];
      if allocations[mp] == 0 {
        FillSlot(slots, ls, was, mp, p, layout);
        allocations[mp] := p;
      } else {
        ClearSlot(slots, ls, was, mp);
        FillSlot(slots[mp := 0], ls, was - {slots[mp]}, mp, p, layout);
        heap.Dealloc(allocations[mp], layouts[mp]);
        assert heap.live == (was - {slots[mp]})[p := layout];
        allocations[mp] := p;
        assert allocations[..] == slots[mp := 0][mp := p];
      }
      layouts[mp] := layout;
      assert layouts[..] == ls[mp := layout];
    }

    /** One turn of the innermost loop; false when the heap is exhausted. Otherwise a new address `p`
        goes into slot `mp`, the cursor advances, and a sweep keeps only the new window. */
    method Step(layout: Layout) returns (ok: bool, p: nat)
      requires Valid() && count > 0
      modifies this, heap, allocations, layouts
      ensures ok ==> Valid() && p !in old(heap.live) && heap.served == old(heap.served) + 1
      ensures ok ==> heap.log == old(heap.log) + [layout]
      ensures ok <==> heap.refused == old(heap.refused)
      ensures ok ==> Cursor(mp, saveStart, saveEnd) == Advance(count, Cursor(old(mp), old(saveStart), old(saveEnd)))
      ensures ok ==>
                var placed := old(allocations[..])[old(mp) := p];
                allocations[..] == if Wraps(count, Cursor(old(mp), old(saveStart), old(saveEnd)))
                                   then Cleared(placed, saveStart, saveEnd) else placed
    {
      ghost var was := heap.live;
      p := heap.Alloc(layout);
      if p == 0 {
        return false, p;
      }
      Place(p, layout, was);
      mp := mp + 1;
      if mp == saveStart {
        mp := saveEnd;
      }
      if mp >= count {
        Sweep();
      }
      return true, p;
    }

    /** The benchmark: `count` rounds over sizes growing by half, each halved down to nothing. */
    method Rounds(minBlockSize: nat, maxBlockSize: nat) returns (ok: bool)
      requires Valid() && OnCourse()
      modifies this, heap, allocations, layouts
      ensures ok ==> Valid() && OnCourse()
      ensures ok ==> heap.served == old(heap.served) + count * RoundAllocs(minBlockSize, maxBlockSize)
      ensures ok ==> heap.log == old(heap.log) + Times(RoundLog(minBlockSize, maxBlockSize), count)
      ensures ok <==> heap.refused == old(heap.refused)
    {
      ghost var r, rlog := RoundAllocs(minBlockSize, maxBlockSize), RoundLog(minBlockSize, maxBlockSize);
      ghost var log := heap.log;
      for round := 0 to count
        invariant Valid() && OnCourse() && heap.refused == old(heap.refused) && heap.served == old(heap.served) + round * r
        invariant heap.log == log + Times(rlog, round)
      {
        ok := Round(minBlockSize, maxBlockSize);
        if !ok {
          return false;
        }
        assert (round + 1) * r == round * r + r;
        Regroup(log, Times(rlog, round), rlog);
      }
      return true;
    }

    /** One round of sizes. */
    method Round(minBlockSize: nat, maxBlockSize: nat) returns (ok: bool)
      requires Valid() && OnCourse() && count > 0
      modifies this, heap, allocations, layouts
      ensures ok ==> Valid() && OnCourse() && heap.served == old(heap.served) + RoundAllocs(minBlockSize, maxBlockSize)
      ensures ok ==> heap.log == old(heap.log) + RoundLog(minBlockSize, maxBlockSize)
      ensures ok <==> heap.refused == old(heap.refused)
    {
      ghost var target := heap.served + RoundAllocs(minBlockSize, maxBlockSize);
      ghost var all := heap.log + RoundLog(minBlockSize, maxBlockSize);
      var sizeBase: nat := minBlockSize;
      while sizeBase < maxBlockSize
        invariant Valid() && OnCourse() && heap.refused == old(heap.refused) && heap.served + RoundAllocs(sizeBase, maxBlockSize) == target
        invariant heap.log + RoundLog(sizeBase, maxBlockSize) == all
        decreases maxBlockSize - sizeBase
      {
        ghost var next := RoundLog(NextBase(sizeBase), maxBlockSize);
        Regroup(heap.log, SizeLog(sizeBase), next);
        ok := Halvings(sizeBase);
        if !ok {
          return false;
        }
        sizeBase := NextBase(sizeBase);
      }
      return true;
    }

    /** A base size and its halves, down to nothing. */
    method Halvings(sizeBase: nat) returns (ok: bool)
      requires Valid() && OnCourse() && count > 0
      modifies this, heap, allocations, layouts
      ensures ok ==> Valid() && OnCourse() && heap.served == old(heap.served) + SizeAllocs(sizeBase)
      ensures ok ==> heap.log == old(heap.log) + SizeLog(sizeBase)
      ensures ok <==> heap.refused == old(heap.refused)
    {
      ghost var target, all := heap.served + SizeAllocs(sizeBase), heap.log + SizeLog(sizeBase);
      var size: nat := sizeBase;
      while size > 0
        invariant Valid() && OnCourse() && heap.refused == old(heap.refused) && heap.served + SizeAllocs(size) == target
        invariant heap.log + SizeLog(size) == all
        decreases size
      {
        Regroup(heap.log, Copies(Layout(size, 2), Iterations(size)), SizeLog(size / 2));
        ok := Batch(size);
        if !ok {
          return false;
        }
        size := size / 2;
      }
      return true;
    }

    /** Smaller sizes are allocated a larger number of times. */
    method Batch(size: nat) returns (ok: bool)
      requires Valid() && OnCourse() && count > 0
      modifies this, heap, allocations, layouts
      ensures ok ==> Valid() && OnCourse() && heap.served == old(heap.served) + Iterations(size)
      ensures ok ==> heap.log == old(heap.log) + Copies(Layout(size, 2), Iterations(size))
      ensures ok <==> heap.refused == old(heap.refused)
    {
      var iterations := 1;
      if size < 10000 { iterations := 10; }
      if size < 1000 { iterations := iterations * 5; }
      if size < 100 { iterations := iterations * 5; }
      ghost var log := heap.log;
      for i := 0 to iterations
        invariant Valid() && OnCourse() && heap.refused == old(heap.refused) && heap.served == old(heap.served) + i
        invariant heap.log == log + Copies(Layout(size, 2), i)
      {
        Regroup(log, Copies(Layout(size, 2), i), [Layout(size, 2)]);
        var p;
        ok, p := Step(Layout(size, 2));
        if !ok {
          return false;
        }
      }
      return true;
    }

    /** Frees the residual allocations: the slots below `mp`, once each. */
    method Finish()
      requires Valid()
      modifies this`mp, heap`live
      ensures mp == old(mp)
      ensures Leaked(allocations[..], heap.live, mp, saveStart, saveEnd)
    {
      var mpe := mp;
      mp := 0;
      assert allocations[..][0..] == allocations[..];
      FreeBelow(mpe);
      DrainedAll(allocations[..], layouts[..], heap.live, mp, saveStart, saveEnd);
    }

    method FreeBelow(mpe: nat)
      requires mp == 0 && mpe <= allocations.Length == layouts.Length
      requires Drained(allocations[..], layouts[..], heap.live, 0)
      requires forall i :: 0 <= i < mpe ==> allocations[i] != 0
      modifies this`mp, heap`live
      ensures mp == mpe && Drained(allocations[..], layouts[..], heap.live, mpe)
    {
      ghost var slots, ls := allocations[..], layouts[..];
      while mp < mpe
        invariant mp <= mpe
        invariant Drained(slots, ls, heap.live, mp)
      {
        DrainNext(slots, ls, heap.live, mp);
        heap.Dealloc(allocations[mp], layouts[mp]);
        mp := mp + 1;
      }
    }
  }

  /** The first `k` slots have been freed, without being cleared. */
  ghost predicate Drained(slots: seq<nat>, layouts: seq<Layout>, live: map<nat, Layout>, k: nat) {
    && |slots| == |layouts| && k <= |slots|
    && (forall i :: k <= i < |slots| && slots[i] != 0 ==> slots[i] in live && live[slots[i]] == layouts[i])
    && (forall i, j :: 0 <= i < j < |slots| && slots[i] != 0 ==> slots[i] != slots[j])
    && (forall p :: p in live ==> p != 0 && p in slots[k..])
  }

  lemma DrainNext(slots: seq<nat>, layouts: seq<Layout>, live: map<nat, Layout>, k: nat)
    requires Drained(slots, layouts, live, k) && k < |slots| && slots[k] != 0
    ensures slots[k] in live && live[slots[k]] == layouts[k]
    ensures Drained(slots, layouts, live - {slots[k]}, k + 1)
  {
  }

  lemma DrainedAll(slots: seq<nat>, layouts: seq<Layout>, live: map<nat, Layout>, mp: nat, saveStart: nat, saveEnd: nat)
    requires Drained(slots, layouts, live, mp) && InUse(slots, mp, saveStart, saveEnd)
    ensures Leaked(slots, live, mp, saveStart, saveEnd)
  {
  }

  /** What is still live is exactly the saved slots at or beyond `mp`. */
  ghost predicate Leaked(slots: seq<nat>, live: map<nat, Layout>, mp: nat, saveStart: nat, saveEnd: nat)
  {
    forall p :: p in live <==> exists i :: 0 <= i < |slots| && mp <= i && saveStart <= i < saveEnd && slots[i] == p
  }

  function Values(slots: seq<nat>): set<nat> {
    set p | p in slots
  }

  lemma {:induction false} DistinctCount(slots: seq<nat>)
    requires forall i, k :: 0 <= i < k < |slots| ==> slots[i] != slots[k]
    ensures |Values(slots)| == |slots|
  {
    if slots != [] {
      var front, last := slots[..|slots| - 1], slots[|slots| - 1];
      DistinctCount(front);
      assert Values(slots) == Values(front) + {last};
    }
  }

  lemma LeakedSlot(slots: seq<nat>, live: map<nat, Layout>, mp: nat, saveStart: nat, saveEnd: nat, lo: nat, p: nat)
    requires Leaked(slots, live, mp, saveStart, saveEnd) && lo < saveEnd <= |slots|
    requires lo == if mp > saveStart then mp else saveStart
    ensures p in live <==> p in slots[lo..saveEnd]
  {
    var saved := slots[lo..saveEnd];
    if p in saved {
      var i :| 0 <= i < |saved| && saved[i] == p;
      assert slots[lo + i] == p;
    }
    if p in live {
      var i :| 0 <= i < |slots| && mp <= i && saveStart <= i < saveEnd && slots[i] == p;
      assert saved[i - lo] == p;
    }
  }

  lemma KeyCount(live: map<nat, Layout>, saved: seq<nat>)
    requires forall p: nat :: p in live <==> p in saved
    requires forall i, k :: 0 <= i < k < |saved| ==> saved[i] != saved[k]
    ensures |live| == |saved|
  {
    DistinctCount(saved);
    assert live.Keys == Values(saved);
    assert |live| == |live.Keys|;
  }

  /** The worker leaks exactly as many allocations as the window has slots at or beyond `mp`. */
  lemma LeakCount(slots: seq<nat>, live: map<nat, Layout>, mp: nat, saveStart: nat, saveEnd: nat)
    requires Leaked(slots, live, mp, saveStart, saveEnd) && saveEnd <= |slots|
    requires forall i, k :: 0 <= i < k < |slots| && slots[i] != 0 ==> slots[i] != slots[k]
    requires InUse(slots, mp, saveStart, saveEnd)
    ensures |live| == Residue(mp, saveStart, saveEnd)
  {
    var lo := if mp > saveStart then mp else saveStart;
    if lo < saveEnd {
      forall p: nat ensures p in live <==> p in slots[lo..saveEnd] {
        LeakedSlot(slots, live, mp, saveStart, saveEnd, lo, p);
      }
      KeyCount(live, slots[lo..saveEnd]);
    } else {
      KeyCount(live, []);
    }
  }

  /** `worker`: on normal completion the number of allocations made, the final cursor and window, and so
      the number of allocations left behind are fixed by the parameters. Every allocation has been freed
      but those in the saved window at or beyond `mp`, at most a fifth of the ring. */
  method RunWorker(count: nat, minBlockSize: nat, maxBlockSize: nat) returns (completed: bool, w: Worker)
    ensures completed <==> w.heap.refused == 0
    ensures completed ==> w.count == count && w.Shape()
    ensures completed ==> w.heap.served == count * RoundAllocs(minBlockSize, maxBlockSize) && w.OnCourse()
    ensures completed ==> w.heap.log == Times(RoundLog(minBlockSize, maxBlockSize), count)
    ensures completed ==> Leaked(w.allocations[..], w.heap.live, w.mp, w.saveStart, w.saveEnd)
    ensures completed ==> |w.heap.live| == Residue(w.mp, w.saveStart, w.saveEnd) <= count / 5
    ensures completed ==> |w.heap.live| == Leftover(count, RoundAllocs(minBlockSize, maxBlockSize))
  {
    w := new Worker(count);
    completed := w.Rounds(minBlockSize, maxBlockSize);
    if completed {
      ghost var slots := w.allocations[..];
      w.Finish();
      assert w.allocations[..] == slots;
      LeakCount(w.allocations[..], w.heap.live, w.mp, w.saveStart, w.saveEnd);
    }
  }
}
