/** Whole runs of the block allocator: any interleaving of allocations, deallocations, arbitrary client
    writes into blocks the client holds, and arbitrary writes of the fallback heap into memory it has
    not granted. */
module AllocatorRuns {
  import opened Bytes
  import opened BlockAllocator

  datatype Event =
    | Alloc(l: Layout, answer: Option<nat>)      // `answer`: what the fallback says, if asked
    | Dealloc(p: nat, l: Layout)
    | Write(p: nat, at: nat, bs: seq<byte>)      // the holder of `p` writes `bs` at address `at`
    | FallbackWrite(at: nat, bs: seq<byte>)      // the fallback heap updates its own nodes

  datatype Run = Boot(base: nat, mem: seq<byte>) | Then(prefix: Run, event: Event)

  /** The rules the environment follows: the safety comments of `deallocate` and `init`, the
      fallback heap's contract, and clients writing only where they may. */
  predicate Legal(s: State, e: Event) {
    match e
    case Alloc(l, answer) =>
      && ValidLayout(l)
      && (|s.heads| == CLASSES && AsksFallback(s, l) ==> FallbackContract(s, Backing(l), answer))
    case Dealloc(p, l) => p in s.live && s.live[p] == l
    case Write(p, at, bs) => p in s.live && p <= at && at + |bs| <= p + s.live[p].size
    case FallbackWrite(at, bs) => Ungranted(s, at, |bs|)
  }

  /** Every address the operation dereferences lies in the heap. */
  predicate Defined(s: State, e: Event) {
    match e
    case Alloc(_, _) => WellFormed(s)
    case Dealloc(p, l) => WellFormed(s) && (ListIndex(l).Some? ==> InHeap(s, p, WORD))
    case Write(_, at, bs) => InHeap(s, at, |bs|)
    case FallbackWrite(at, bs) => InHeap(s, at, |bs|)
  }

  function Step(s: State, e: Event): State {
    if !Defined(s, e) then s
    else match e
      case Alloc(l, answer) => Allocate(s, l, answer).0
      case Dealloc(p, l) => Deallocate(s, p, l)
      case Write(_, at, bs) => WriteAt(s, at, bs)
      case FallbackWrite(at, bs) => WriteAt(s, at, bs)
  }

  function Init(base: nat, mem: seq<byte>): State {
    State(base, mem, seq(CLASSES, _ => None), map[], map[])
  }

  function Last(r: Run): State {
    match r
    case Boot(base, mem) => Init(base, mem)
    case Then(prefix, e) => Step(Last(prefix), e)
  }

  predicate ValidRun(r: Run) {
    match r
    case Boot(base, mem) => base + |mem| <= Pow256(WORD)
    case Then(prefix, e) => ValidRun(prefix) && Legal(Last(prefix), e)
  }

  // ----- safety of every run

  lemma InitInv(base: nat, mem: seq<byte>)
    requires base + |mem| <= Pow256(WORD)
    ensures Inv(Init(base, mem), seq(CLASSES, _ => []))
  {
  }

  /** The lists after a step: a pop, a push, or no change. */
  ghost function FreeAfter(s: State, free: seq<seq<nat>>, e: Event): (free': seq<seq<nat>>)
    requires |s.heads| == |free| == CLASSES
    ensures |free'| == CLASSES
  {
    match e
    case Alloc(l, _) =>
      if AsksFallback(s, l) || free[ListIndex(l).value] == [] then free
      else free[ListIndex(l).value := free[ListIndex(l).value][1..]]
    case Dealloc(p, l) =>
      if ListIndex(l).None? then free
      else free[ListIndex(l).value := [p] + free[ListIndex(l).value]]
    case Write(_, _, _) => free
    case FallbackWrite(_, _) => free
  }

  /** Every legal step dereferences only heap addresses and keeps the invariant. */
  lemma StepPreserves(s: State, free: seq<seq<nat>>, e: Event)
    requires Inv(s, free) && Legal(s, e)
    ensures Defined(s, e) && Inv(Step(s, e), FreeAfter(s, free, e))
  {
    InvWellFormed(s, free);
    match e
    case Alloc(l, answer) =>
      if !AsksFallback(s, l) {
        var f := PopPreserves(s, free, l);
      } else if answer.Some? {
        FallbackPreserves(s, free, l, answer.value);
      }
    case Dealloc(p, l) =>
      var f := DeallocatePreserves(s, free, p);
    case Write(p, at, bs) =>
      WritePreserves(s, free, p, at, bs);
    case FallbackWrite(at, bs) =>
      OutsidePreserves(s, free, at, bs);
  }

  ghost function FreeLists(r: Run): (free: seq<seq<nat>>)
    requires ValidRun(r)
    ensures Inv(Last(r), free)
  {
    match r
    case Boot(base, mem) => InitInv(base, mem); seq(CLASSES, _ => [])
    case Then(prefix, e) =>
      StepPreserves(Last(prefix), FreeLists(prefix), e);
      FreeAfter(Last(prefix), FreeLists(prefix), e)
  }

  predicate Aligned(p: nat, align: nat) {
    align > 0 && p % align == 0
  }

  /** Live allocations are non-null, aligned and big enough for their layouts, inside the heap and
      pairwise disjoint. */
  predicate LiveSafe(s: State) {
    && (forall p :: p in s.live ==> 0 < p && Aligned(p, s.live[p].align) && InHeap(s, p, s.live[p].size))
    && (forall p, q :: p in s.live && q in s.live && p != q ==> Disjoint(p, s.live[p].size, q, s.live[q].size))
  }

  /** Every list is a finite chain through memory of distinct, aligned blocks of its class's size inside
      the heap, disjoint from every live allocation, and no block is in two lists. */
  predicate ListsSafe(s: State, free: seq<seq<nat>>) {
    && |s.heads| == |free| == CLASSES
    && (forall i :: 0 <= i < CLASSES ==> Chain(s, s.heads[i], free[i]) && Distinct(free[i]))
    && (forall i, p :: 0 <= i < CLASSES && p in free[i] ==> Aligned(p, BlockSize(i)) && InHeap(s, p, BlockSize(i)))
    && (forall i, p, q :: 0 <= i < CLASSES && p in free[i] && q in s.live ==>
         Disjoint(p, BlockSize(i), q, s.live[q].size) && p != q)
    && (forall i, j, p :: 0 <= i < j < CLASSES && p in free[i] ==> p !in free[j])
  }

  lemma InvLiveSafe(s: State, free: seq<seq<nat>>)
    requires Inv(s, free)
    ensures LiveSafe(s)
  {
    forall p, q | p in s.live && q in s.live
      ensures 0 < p && Aligned(p, s.live[p].align) && InHeap(s, p, s.live[p].size)
      ensures p != q ==> Disjoint(p, s.live[p].size, q, s.live[q].size)
    {
      LiveAreSafe(s, free, p, q);
    }
  }

  lemma InvListsSafe(s: State, free: seq<seq<nat>>)
    requires Inv(s, free)
    ensures ListsSafe(s, free)
  {
    forall i, p | 0 <= i < CLASSES && p in free[i]
      ensures Aligned(p, BlockSize(i)) && InHeap(s, p, BlockSize(i))
    {
      ListedAreSafe(s, free, i, p, i, p);
      BlockLayoutClass(i);
    }
    forall i, p, q | 0 <= i < CLASSES && p in free[i] && q in s.live
      ensures Disjoint(p, BlockSize(i), q, s.live[q].size) && p != q
    {
      ListedAreSafe(s, free, i, p, i, q);
    }
    forall i, j, p | 0 <= i < j < CLASSES && p in free[i]
      ensures p !in free[j]
    {
      ListedAreSafe(s, free, i, p, j, p);
    }
  }

  /** Safety in every run: see `LiveSafe` and `ListsSafe`. */
  lemma RunSafety(r: Run)
    requires ValidRun(r)
    ensures LiveSafe(Last(r)) && ListsSafe(Last(r), FreeLists(r))
  {
    InvLiveSafe(Last(r), FreeLists(r));
    InvListsSafe(Last(r), FreeLists(r));
  }

  /** The `n` bytes at `q` are the same in both states. */
  predicate SameBytes(s: State, t: State, q: nat, n: nat) {
    && InHeap(s, q, n) && t.base == s.base && |t.mem| == |s.mem|
    && t.mem[q - s.base..q - s.base + n] == s.mem[q - s.base..q - s.base + n]
  }

  lemma AllocKeeps(s: State, free: seq<seq<nat>>, l: Layout, answer: Option<nat>, q: nat)
    requires Inv(s, free) && Legal(s, Alloc(l, answer)) && q in s.live && WellFormed(s)
    ensures SameBytes(s, Allocate(s, l, answer).0, q, s.live[q].size)
  {
    LiveAreSafe(s, free, q, q);
    if !AsksFallback(s, l) {
      var c := ListIndex(l).value;
      assert Chain(s, s.heads[c], free[c]);
      var p := free[c][0];
      assert p in free[c];
      ListedAreSafe(s, free, c, p, c, q);
      BlockLayoutClass(c);
      PopKeeps(s, l, q, s.live[q].size);
    }
  }

  lemma PopKeeps(s: State, l: Layout, q: nat, n: nat)
    requires WellFormed(s) && !AsksFallback(s, l) && InHeap(s, q, n)
    requires Disjoint(s.heads[ListIndex(l).value].value, WORD, q, n)
    ensures SameBytes(s, Allocate(s, l, None).0, q, n)
  {
    WriteSame(s, s.heads[ListIndex(l).value].value, Store(0, WORD), q, n);
  }

  lemma DeallocKeeps(s: State, free: seq<seq<nat>>, p: nat, q: nat)
    requires Inv(s, free) && p in s.live && q in s.live && p != q && WellFormed(s)
    requires ListIndex(s.live[p]).Some? ==> InHeap(s, p, WORD)
    ensures SameBytes(s, Deallocate(s, p, s.live[p]), q, s.live[q].size)
  {
    LiveAreSafe(s, free, q, q);
    if ListIndex(s.live[p]).Some? {
      LinkApart(s, free, p, q);
      PushKeeps(s, p, s.live[p], q, s.live[q].size);
    }
  }

  lemma PushKeeps(s: State, p: nat, l: Layout, q: nat, n: nat)
    requires WellFormed(s) && ListIndex(l).Some? && InHeap(s, p, WORD) && InHeap(s, q, n)
    requires Disjoint(p, WORD, q, n)
    ensures SameBytes(s, Deallocate(s, p, l), q, n)
  {
    var h := s.heads[ListIndex(l).value];
    WriteSame(s, p, Store(if h.Some? then h.value else 0, WORD), q, n);
  }

  lemma LinkApart(s: State, free: seq<seq<nat>>, p: nat, q: nat)
    requires Inv(s, free) && p in s.live && q in s.live && p != q && ListIndex(s.live[p]).Some?
    ensures Disjoint(p, WORD, q, s.live[q].size)
  {
    BackingFits(s.live[p]);
    BackingFits(s.live[q]);
    assert Disjoint(p, Extent(s.granted[p]), q, Extent(s.granted[q]));
  }

  lemma WriteKeeps(s: State, free: seq<seq<nat>>, p: nat, at: nat, bs: seq<byte>, q: nat)
    requires Inv(s, free) && Legal(s, Write(p, at, bs)) && q in s.live && p != q && InHeap(s, at, |bs|)
    ensures SameBytes(s, WriteAt(s, at, bs), q, s.live[q].size)
  {
    LiveAreSafe(s, free, q, p);
    WriteSame(s, at, bs, q, s.live[q].size);
  }

  lemma WriteSame(s: State, p: nat, bs: seq<byte>, q: nat, n: nat)
    requires InHeap(s, p, |bs|) && InHeap(s, q, n) && Disjoint(p, |bs|, q, n)
    ensures SameBytes(s, WriteAt(s, p, bs), q, n)
  {
  }

  lemma OutsideKeeps(s: State, free: seq<seq<nat>>, at: nat, bs: seq<byte>, q: nat)
    requires Inv(s, free) && Ungranted(s, at, |bs|) && q in s.live
    ensures SameBytes(s, WriteAt(s, at, bs), q, s.live[q].size)
  {
    LiveAreSafe(s, free, q, q);
    BackingFits(s.live[q]);
    WriteSame(s, at, bs, q, s.live[q].size);
  }

  /** The holder of `q` frees it or writes to it. */
  predicate ByHolder(e: Event, q: nat) {
    (e.Dealloc? || e.Write?) && e.p == q
  }

  /** No step disturbs an allocation that is neither freed nor written to by its own holder. */
  lemma DataKept(s: State, free: seq<seq<nat>>, e: Event, q: nat)
    requires Inv(s, free) && Legal(s, e) && q in s.live && !ByHolder(e, q)
    ensures q in Step(s, e).live && Step(s, e).live[q] == s.live[q]
    ensures SameBytes(s, Step(s, e), q, s.live[q].size)
  {
    StepPreserves(s, free, e);
    StaysLive(s, free, e, q);
    match e
    case Alloc(l, answer) => AllocKeeps(s, free, l, answer, q);
    case Dealloc(p, l) => DeallocKeeps(s, free, p, q);
    case Write(p, at, bs) => WriteKeeps(s, free, p, at, bs, q);
    case FallbackWrite(at, bs) => OutsideKeeps(s, free, at, bs, q);
  }

  lemma StaysLive(s: State, free: seq<seq<nat>>, e: Event, q: nat)
    requires Inv(s, free) && Legal(s, e) && Defined(s, e) && q in s.live && !ByHolder(e, q)
    ensures q in Step(s, e).live && Step(s, e).live[q] == s.live[q]
  {
    if e.Alloc? { AllocatedIsNew(s, free, e.l, e.answer); }
  }

  /** `allocate` never returns an address that is already held. */
  lemma AllocatedIsNew(s: State, free: seq<seq<nat>>, l: Layout, answer: Option<nat>)
    requires Inv(s, free) && Legal(s, Alloc(l, answer)) && WellFormed(s)
    ensures var r := Allocate(s, l, answer).1; r.Some? ==> r.value !in s.live
    ensures AsksFallback(s, l) && answer.Some? ==> answer.value !in s.granted
  {
    if !AsksFallback(s, l) {
      var c := ListIndex(l).value;
      assert Chain(s, s.heads[c], free[c]);
      assert free[c][0] in free[c];
      ListedBlock(s.granted, s.live, free, c, free[c][0]);
    }
  }

  /** What `allocate` answers, in terms of the lists and the books. It fails exactly when no listed block
      fits and the fallback heap, which is asked only then, has nothing. Otherwise the pointer is the first
      block of the list of the layout's class, whose first word is left null, or what the fallback heap
      answered; and exactly that pointer is entered, with this layout, as live. */
  lemma AllocateExact(s: State, free: seq<seq<nat>>, l: Layout, answer: Option<nat>)
    requires Inv(s, free) && Legal(s, Alloc(l, answer)) && WellFormed(s)
    ensures var (t, r) := Allocate(s, l, answer);
            var i := ListIndex(l);
            var listed := i.Some? && free[i.value] != [];
            && (r == None <==> !listed && answer == None)
            && (r == None ==> t == s)
            && (r.Some? ==>
                  && r == (if listed then Some(free[i.value][0]) else answer)
                  && t.live == s.live[r.value := l] && r.value in t.granted
                  && t.granted == (if listed then s.granted else s.granted[r.value := t.granted[r.value]])
                  && t.granted[r.value] == (if i.Some? then Layout(BLOCK_SIZES[i.value], BLOCK_SIZES[i.value]) else l))
  {
    var i := ListIndex(l);
    if i.Some? {
      assert Chain(s, s.heads[i.value], free[i.value]);
      BlockSizeTable(i.value);
      if free[i.value] != [] {
        var p := free[i.value][0];
        assert p in free[i.value];
        ListedBlock(s.granted, s.live, free, i.value, p);
      }
    }
  }

  /** A block taken from a list has a null first word, and the list goes on where its link pointed. */
  lemma PoppedBlock(s: State, free: seq<seq<nat>>, l: Layout, answer: Option<nat>)
    requires Inv(s, free) && WellFormed(s) && ListIndex(l).Some? && free[ListIndex(l).value] != []
    ensures var i := ListIndex(l).value;
            var t := Allocate(s, l, answer).0;
            && InHeap(t, free[i][0], WORD) && LinkAt(t, free[i][0]) == None
            && t.heads[i] == (if |free[i]| > 1 then Some(free[i][1]) else None)
            && (forall j :: 0 <= j < CLASSES && j != i ==> t.heads[j] == s.heads[j])
  {
    var i := ListIndex(l).value;
    assert Chain(s, s.heads[i], free[i]);
    assert Chain(s, LinkAt(s, free[i][0]), free[i][1..]);
    SetLinkGet(s, free[i][0], None);
  }

  // ----- how often the fallback heap is used

  /** Blocks of class `i` in clients' hands. */
  function LiveOf(live: Grants, i: nat): set<nat> {
    set p | p in live && ListIndex(live[p]) == Some(i)
  }

  /** Does this event draw a block of class `i` from the fallback heap? */
  predicate Draws(s: State, e: Event, i: nat) {
    && e.Alloc? && ListIndex(e.l) == Some(i) && e.answer.Some?
    && |s.heads| == CLASSES && AsksFallback(s, e.l)
  }

  /** The number of class-`i` blocks ever drawn from the fallback heap in the run. */
  function Drawn(r: Run, i: nat): nat {
    match r
    case Boot(_, _) => 0
    case Then(prefix, e) => Drawn(prefix, i) + if Draws(Last(prefix), e, i) then 1 else 0
  }

  /** The largest number of class-`i` blocks live at once at any point of the run. */
  function Peak(r: Run, i: nat): nat {
    match r
    case Boot(_, _) => 0
    case Then(prefix, e) =>
      var now := |LiveOf(Last(r).live, i)|;
      if now > Peak(prefix, i) then now else Peak(prefix, i)
  }

  lemma LiveAdd(live: Grants, p: nat, l: Layout, i: nat)
    requires p !in live
    ensures |LiveOf(live[p := l], i)| == |LiveOf(live, i)| + if ListIndex(l) == Some(i) then 1 else 0
  {
    if ListIndex(l) == Some(i) {
      assert LiveOf(live[p := l], i) == LiveOf(live, i) + {p};
    } else {
      assert LiveOf(live[p := l], i) == LiveOf(live, i);
    }
  }

  lemma LiveRemove(live: Grants, p: nat, i: nat)
    requires p in live
    ensures |LiveOf(live - {p}, i)| == |LiveOf(live, i)| - if ListIndex(live[p]) == Some(i) then 1 else 0
  {
    LiveAdd(live - {p}, p, live[p], i);
    assert (live - {p})[p := live[p]] == live;
  }

  lemma AllocCounts(s: State, free: seq<seq<nat>>, l: Layout, answer: Option<nat>, i: nat)
    requires Inv(s, free) && Legal(s, Alloc(l, answer)) && i < CLASSES && WellFormed(s)
    ensures var e := Alloc(l, answer);
            var t, free' := Allocate(s, l, answer).0, FreeAfter(s, free, e);
            && |LiveOf(t.live, i)| + |free'[i]|
               == |LiveOf(s.live, i)| + |free[i]| + (if Draws(s, e, i) then 1 else 0)
            && (Draws(s, e, i) ==> free[i] == [] && |LiveOf(t.live, i)| == |LiveOf(s.live, i)| + 1)
  {
    AllocatedIsNew(s, free, l, answer);
    var r := Allocate(s, l, answer).1;
    if ListIndex(l).Some? {
      var c := ListIndex(l).value;
      assert Chain(s, s.heads[c], free[c]);
    }
    if r.Some? { LiveAdd(s.live, r.value, l, i); }
  }

  /** Each step moves a block between the books without changing live plus listed, unless it draws one. */
  lemma StepCounts(s: State, free: seq<seq<nat>>, e: Event, i: nat)
    requires Inv(s, free) && Legal(s, e) && i < CLASSES
    ensures var t, free' := Step(s, e), FreeAfter(s, free, e);
            && |LiveOf(t.live, i)| + |free'[i]|
               == |LiveOf(s.live, i)| + |free[i]| + (if Draws(s, e, i) then 1 else 0)
            && (Draws(s, e, i) ==> free[i] == [] && |LiveOf(t.live, i)| == |LiveOf(s.live, i)| + 1)
  {
    StepPreserves(s, free, e);
    match e
    case Alloc(l, answer) => AllocCounts(s, free, l, answer, i);
    case Dealloc(p, l) => LiveRemove(s.live, p, i);
    case Write(_, _, _) =>
    case FallbackWrite(_, _) =>
  }

  /** In every run and for every class: blocks ever drawn from the fallback heap = live + listed
      = the peak number simultaneously live. */
  lemma {:induction false} DrawnIsPeak(r: Run, i: nat)
    requires ValidRun(r) && i < CLASSES
    ensures Drawn(r, i) == |LiveOf(Last(r).live, i)| + |FreeLists(r)[i]| == Peak(r, i)
  {
    match r
    case Boot(base, mem) => assert LiveOf(Last(r).live, i) == {};
    case Then(prefix, e) =>
      DrawnIsPeak(prefix, i);
      StepCounts(Last(prefix), FreeLists(prefix), e, i);
  }

  /** The fallback heap is asked for a fixed-size block exactly when no smaller number of blocks
      could serve the run: every block ever drawn is live, so a success is a new peak. */
  lemma AskedOnlyAtPeak(r: Run, l: Layout)
    requires ValidRun(r) && ListIndex(l).Some?
    ensures var i := ListIndex(l).value;
            |Last(r).heads| == CLASSES
            && (AsksFallback(Last(r), l) <==> |LiveOf(Last(r).live, i)| == Peak(r, i))
  {
    var i := ListIndex(l).value;
    DrawnIsPeak(r, i);
    assert Chain(Last(r), Last(r).heads[i], FreeLists(r)[i]);
  }

  /** A fixed-size block drawn from the fallback heap is never given back to it. */
  lemma BlocksNeverReturned(s: State, free: seq<seq<nat>>, e: Event, p: nat)
    requires Inv(s, free) && Legal(s, e) && p in s.granted && ListIndex(s.granted[p]).Some?
    ensures p in Step(s, e).granted && Step(s, e).granted[p] == s.granted[p]
  {
    StepPreserves(s, free, e);
    match e
    case Alloc(l, answer) => AllocatedIsNew(s, free, l, answer);
    case Dealloc(q, l) =>
    case Write(_, _, _) =>
    case FallbackWrite(_, _) =>
  }

  /** The lists are last-in, first-out: freeing a block and then allocating any layout of its class gives
      the same block back without asking the fallback heap, and the lists and grants are as they were. */
  lemma FreeThenAllocate(s: State, free: seq<seq<nat>>, p: nat, l: Layout, answer: Option<nat>)
    requires Inv(s, free) && WellFormed(s) && p in s.live
    requires ListIndex(s.live[p]).Some? && ListIndex(l) == ListIndex(s.live[p])
    ensures InHeap(s, p, WORD)
    ensures var t := Deallocate(s, p, s.live[p]);
            && WellFormed(t) && !AsksFallback(t, l)
            && var (u, r) := Allocate(t, l, answer);
               r == Some(p) && u.heads == s.heads && u.granted == s.granted && u.live == (s.live - {p})[p := l]
  {
    var f := DeallocatePreserves(s, free, p);
    HeadEncodable(s, free, ListIndex(l).value);
    PushThenPop(s, p, s.live[p], l, answer);
  }

  lemma PushThenPop(s: State, p: nat, was: Layout, l: Layout, answer: Option<nat>)
    requires WellFormed(s) && InHeap(s, p, WORD) && ListIndex(was).Some? && ListIndex(l) == ListIndex(was)
    requires var h := s.heads[ListIndex(l).value]; h.Some? ==> 0 < h.value < Pow256(WORD)
    ensures var t := Deallocate(s, p, was);
            && WellFormed(t) && !AsksFallback(t, l)
            && var (u, r) := Allocate(t, l, answer);
               r == Some(p) && u.heads == s.heads && u.granted == s.granted && u.live == (s.live - {p})[p := l]
  {
    var i := ListIndex(l).value;
    var t := Deallocate(s, p, was);
    SetLinkGet(s, p, s.heads[i]);
    assert LinkAt(t, p) == s.heads[i];
    assert t.heads[i := s.heads[i]] == s.heads;
  }
}
