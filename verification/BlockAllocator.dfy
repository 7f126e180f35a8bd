/** The fixed-size block allocator of kernel/block_allocator/src/lib.rs.

    Nine intrusive free lists sit in front of a fallback heap. A free block stores the link
    to the next free block in its own first word, so the lists live in the same bytes that
    clients write to. The state below holds those bytes, the nine list heads, and two books:
    what the fallback heap has granted and not had back, and what clients hold. */
module BlockAllocator {
  import opened Bytes

  // ----- layouts and size classes

  datatype Layout = Layout(size: nat, align: nat)

  const CLASSES: nat := 9
  const BLOCK_SIZES: seq<nat> := [8, 16, 32, 64, 128, 256, 512, 1024, 2048]

  /** Entry `i` of the table `BLOCK_SIZES`: each size is twice the one before. */
  function BlockSize(i: nat): nat {
    if i == 0 then 8 else 2 * BlockSize(i - 1)
  }

  lemma BlockSizeTable(i: nat)
    requires i < CLASSES
    ensures BlockSize(i) == BLOCK_SIZES[i]
  {
  }

  predicate PowerOfTwo(n: nat) {
    n == 1 || (n > 1 && n % 2 == 0 && PowerOfTwo(n / 2))
  }

  /** `Layout` guarantees its alignment is a power of two. */
  predicate ValidLayout(l: Layout) {
    PowerOfTwo(l.align)
  }

  function Required(l: Layout): nat {
    if l.size >= l.align then l.size else l.align
  }

  /** The first class from `from` on whose blocks are at least this big. */
  function Position(required: nat, from: nat): (r: Option<nat>)
    requires from <= CLASSES
    ensures r.Some? ==> r.value < CLASSES
    decreases CLASSES - from
  {
    if from == CLASSES then None
    else if required <= BlockSize(from) then Some(from)
    else Position(required, from + 1)
  }

  function ListIndex(l: Layout): (r: Option<nat>)
    ensures r.Some? ==> r.value < CLASSES
  {
    Position(Required(l), 0)
  }

  lemma {:induction false} PositionFits(required: nat, from: nat)
    requires from <= CLASSES
    ensures match Position(required, from)
            case Some(i) => from <= i && required <= BlockSize(i)
                            && forall j :: from <= j < i ==> BlockSize(j) < required
            case None => forall j :: from <= j < CLASSES ==> BlockSize(j) < required
    decreases CLASSES - from
  {
    if from < CLASSES { PositionFits(required, from + 1); }
  }

  /** `list_index` is the smallest class that fits both size and alignment, if any does. */
  lemma ListIndexFits(l: Layout)
    ensures match ListIndex(l)
            case Some(i) => l.size <= BLOCK_SIZES[i] && l.align <= BLOCK_SIZES[i]
                            && forall j :: 0 <= j < i ==> BLOCK_SIZES[j] < l.size || BLOCK_SIZES[j] < l.align
            case None => forall j :: 0 <= j < CLASSES ==> BLOCK_SIZES[j] < l.size || BLOCK_SIZES[j] < l.align
  {
    PositionFits(Required(l), 0);
    forall j: nat | j < CLASSES ensures BlockSize(j) == BLOCK_SIZES[j] {
      BlockSizeTable(j);
    }
  }

  function BlockLayout(i: nat): Layout
    requires i < CLASSES
  {
    Layout(BlockSize(i), BlockSize(i))
  }

  lemma {:induction false} BlockSizePower(i: nat)
    ensures PowerOfTwo(BlockSize(i)) && 8 <= BlockSize(i)
  {
    if i == 0 {
      assert PowerOfTwo(4);
    } else {
      BlockSizePower(i - 1);
      PowerDoubles(BlockSize(i - 1));
    }
  }

  lemma PowerDoubles(n: nat)
    requires PowerOfTwo(n)
    ensures PowerOfTwo(2 * n)
  {
    assert 2 * n % 2 == 0 && 2 * n / 2 == n;
  }

  lemma {:induction false} BlockSizeGrows(j: nat, i: nat)
    requires j < i
    ensures BlockSize(j) < BlockSize(i)
  {
    BlockSizePower(j);
    if j + 1 < i { BlockSizeGrows(j, i - 1); }
  }

  lemma BlockLayoutClass(i: nat)
    requires i < CLASSES
    ensures ListIndex(BlockLayout(i)) == Some(i)
    ensures ValidLayout(BlockLayout(i)) && 8 <= BlockSize(i)
  {
    BlockSizePower(i);
    PositionOf(i, 0);
  }

  lemma {:induction false} PositionOf(i: nat, from: nat)
    requires from <= i < CLASSES
    ensures Position(BlockSize(i), from) == Some(i)
    decreases i - from
  {
    if from < i {
      BlockSizeGrows(from, i);
      PositionOf(i, from + 1);
    }
  }

  /** What the fallback heap is asked for on behalf of a client layout. */
  function Backing(l: Layout): Layout {
    match ListIndex(l)
    case Some(i) => BlockLayout(i)
    case None => l
  }

  lemma BackingFits(l: Layout)
    ensures l.size <= Extent(Backing(l)) && (ListIndex(l).Some? ==> WORD <= Backing(l).size)
  {
  }

  /** A smaller power of two divides a larger one. */
  lemma {:induction false} PowerDivides(a: nat, b: nat)
    requires PowerOfTwo(a) && PowerOfTwo(b) && a <= b
    ensures b % a == 0
  {
    if a > 1 {
      PowerDivides(a / 2, b / 2);
      var h, k := a / 2, (b / 2) / (a / 2);
      assert b / 2 == k * h;
      assert b == k * a;
      MultipleMod(k, a);
    }
  }

  lemma MultipleMod(k: nat, a: nat)
    requires a > 0
    ensures (k * a) % a == 0
  {
    var d := k - (k * a) / a;
    assert d * a == (k * a) % a;
    assert d >= 1 ==> d * a >= a;
    assert d <= -1 ==> d * a <= 0 - a;
  }

  lemma DividesTransitive(p: nat, b: nat, a: nat)
    requires a > 0 && b > 0 && p % b == 0 && b % a == 0
    ensures p % a == 0
  {
    var m, n := p / b, b / a;
    assert p == m * b && b == n * a;
    assert p == (m * n) * a;
    MultipleMod(m * n, a);
  }

  /** A block's alignment is enough for every layout of its class. */
  lemma BackingAligned(l: Layout, p: nat)
    requires ValidLayout(l) && p % Backing(l).align == 0 && Backing(l).align > 0
    ensures p % l.align == 0
  {
    if ListIndex(l).Some? {
      var i := ListIndex(l).value;
      BlockLayoutClass(i);
      ListIndexFits(l);
      BlockSizeTable(i);
      PowerDivides(l.align, BlockSize(i));
      DividesTransitive(p, BlockSize(i), l.align);
    }
  }

  // ----- the state and its links

  datatype State = State(
    base: nat,                    // first address of the heap
    mem: seq<byte>,               // its bytes
    heads: seq<Option<nat>>,      // list_heads
    granted: map<nat, Layout>,    // ranges the fallback heap has handed out and not had back
    live: map<nat, Layout>)       // allocations clients hold, with the layout they asked for

  predicate InHeap(s: State, p: nat, n: nat) {
    s.base <= p && p + n <= s.base + |s.mem|
  }

  predicate Disjoint(p: nat, n: nat, q: nat, m: nat) {
    p + n <= q || q + m <= p
  }

  /** Every grant occupies at least one byte, so no two grants share an address. */
  function Extent(l: Layout): nat {
    if l.size == 0 then 1 else l.size
  }

  predicate WellFormed(s: State) {
    && |s.heads| == CLASSES
    && s.base + |s.mem| <= Pow256(WORD)
    && forall i :: 0 <= i < CLASSES && s.heads[i].Some? ==> InHeap(s, s.heads[i].value, WORD)
  }

  function WriteAt(s: State, p: nat, bs: seq<byte>): State
    requires InHeap(s, p, |bs|)
  {
    s.(mem := Put(s.mem, p - s.base, bs))
  }

  /** `ListNode.next` of the node at `p`; a null word is `None`. */
  function LinkAt(s: State, p: nat): Option<nat>
    requires InHeap(s, p, WORD)
  {
    var v := Load(s.mem[p - s.base..p - s.base + WORD]);
    if v == 0 then None else Some(v)
  }

  function SetLink(s: State, p: nat, next: Option<nat>): State
    requires InHeap(s, p, WORD)
  {
    WriteAt(s, p, Store(if next.Some? then next.value else 0, WORD))
  }

  lemma SetLinkGet(s: State, p: nat, next: Option<nat>)
    requires InHeap(s, p, WORD)
    requires next.Some? ==> 0 < next.value < Pow256(WORD)
    ensures LinkAt(SetLink(s, p, next), p) == next
  {
    var v := if next.Some? then next.value else 0;
    LoadStore(v, WORD);
    var i := p - s.base;
    assert SetLink(s, p, next).mem[i..i + WORD] == Store(v, WORD);
  }

  lemma WriteFrame(s: State, p: nat, bs: seq<byte>, q: nat, n: nat)
    requires InHeap(s, p, |bs|) && InHeap(s, q, n) && Disjoint(p, |bs|, q, n)
    ensures WriteAt(s, p, bs).mem[q - s.base..q - s.base + n] == s.mem[q - s.base..q - s.base + n]
  {
  }

  // ----- the operations, as functions on the state

  /** What the allocator relies on its fallback heap for. */
  predicate FallbackContract(s: State, l: Layout, answer: Option<nat>) {
    answer.Some? ==>
      var p := answer.value;
      && 0 < p && l.align > 0 && p % l.align == 0
      && InHeap(s, p, Extent(l))
      && forall q :: q in s.granted ==> Disjoint(p, Extent(l), q, Extent(s.granted[q]))
  }

  /** Does this request reach the fallback heap? */
  predicate AsksFallback(s: State, l: Layout)
    requires |s.heads| == CLASSES
  {
    match ListIndex(l)
    case Some(i) => s.heads[i].None?
    case None => true
  }

  function FallbackAlloc(s: State, l: Layout, answer: Option<nat>): State {
    match answer
    case None => s
    case Some(p) => s.(granted := s.granted[p := Backing(l)], live := s.live[p := l])
  }

  /** `allocate`: the new state and the returned pointer, null being `None`. */
  function Allocate(s: State, l: Layout, answer: Option<nat>): (State, Option<nat>)
    requires WellFormed(s)
  {
    if AsksFallback(s, l) then (FallbackAlloc(s, l, answer), answer)
    else
      var i := ListIndex(l).value;
      var p := s.heads[i].value;
      // `node.next.take()` also leaves a null link behind in the block
      (SetLink(s, p, None).(heads := s.heads[i := LinkAt(s, p)], live := s.live[p := l]), Some(p))
  }

  /** `deallocate`. */
  function Deallocate(s: State, p: nat, l: Layout): State
    requires WellFormed(s) && (ListIndex(l).Some? ==> InHeap(s, p, WORD))
  {
    match ListIndex(l)
    case Some(i) => SetLink(s, p, s.heads[i]).(heads := s.heads[i := Some(p)], live := s.live - {p})
    case None => s.(granted := s.granted - {p}, live := s.live - {p})
  }

  // ----- the invariant

  /** Following the links from `head` visits exactly `c`, in order, and then ends. */
  predicate Chain(s: State, head: Option<nat>, c: seq<nat>)
    decreases |c|
  {
    if c == [] then head.None?
    else head == Some(c[0]) && InHeap(s, c[0], WORD) && Chain(s, LinkAt(s, c[0]), c[1..])
  }

  predicate Distinct(c: seq<nat>) {
    forall j, k :: 0 <= j < k < |c| ==> c[j] != c[k]
  }

  type Grants = map<nat, Layout>

  /** The fallback's grants are non-null, aligned, in the heap and pairwise disjoint. */
  predicate GrantsApart(lo: nat, hi: nat, granted: Grants) {
    && (forall p :: p in granted ==>
         && 0 < p && granted[p].align > 0 && p % granted[p].align == 0
         && lo <= p && p + Extent(granted[p]) <= hi)
    && (forall p, q :: p in granted && q in granted && p != q ==>
         Disjoint(p, Extent(granted[p]), q, Extent(granted[q])))
  }

  /** Clients hold only grants, each backing the layout it was asked for. */
  predicate LiveBacked(granted: Grants, live: Grants) {
    forall p :: p in live ==> ValidLayout(live[p]) && p in granted && granted[p] == Backing(live[p])
  }

  /** The lists hold only blocks of their own class that no client holds, each once. */
  predicate Listed(granted: Grants, live: Grants, free: seq<seq<nat>>) {
    && |free| == CLASSES
    && (forall i :: 0 <= i < CLASSES ==> Distinct(free[i]))
    && (forall i, p :: 0 <= i < CLASSES && p in free[i] ==>
         p in granted && granted[p] == BlockLayout(i) && p !in live)
  }

  /** Every grant is held by a client or is in the list of its class: nothing is lost. */
  predicate Conserved(granted: Grants, live: Grants, free: seq<seq<nat>>)
    requires |free| == CLASSES
  {
    forall p :: p in granted && p !in live ==>
      ListIndex(granted[p]).Some? && p in free[ListIndex(granted[p]).value]
  }

  /** `free[i]` is what following the links of list `i` through memory visits. */
  predicate Chains(s: State, free: seq<seq<nat>>) {
    && |s.heads| == |free| == CLASSES
    && forall i :: 0 <= i < CLASSES ==> Chain(s, s.heads[i], free[i])
  }

  function Limit(s: State): nat {
    s.base + |s.mem|
  }

  predicate Books(granted: Grants, live: Grants, free: seq<seq<nat>>) {
    LiveBacked(granted, live) && Listed(granted, live, free) && Conserved(granted, live, free)
  }

  predicate Inv(s: State, free: seq<seq<nat>>) {
    && Limit(s) <= Pow256(WORD)
    && GrantsApart(s.base, Limit(s), s.granted)
    && Books(s.granted, s.live, free)
    && Chains(s, free)
  }

  lemma InvWellFormed(s: State, free: seq<seq<nat>>)
    requires Inv(s, free)
    ensures WellFormed(s)
  {
  }

  // ----- the lists survive writes to other blocks

  lemma LinkSurvives(s: State, g: nat, p: nat, bs: seq<byte>, q: nat)
    requires GrantsApart(s.base, Limit(s), s.granted) && g in s.granted && q in s.granted && g != q
    requires g <= p && p + |bs| <= g + Extent(s.granted[g]) && WORD <= Extent(s.granted[q])
    ensures InHeap(s, p, |bs|) && InHeap(s, q, WORD)
    ensures LinkAt(WriteAt(s, p, bs), q) == LinkAt(s, q)
  {
    assert Disjoint(g, Extent(s.granted[g]), q, Extent(s.granted[q]));
    WriteFrame(s, p, bs, q, WORD);
  }

  lemma ListedBlock(granted: Grants, live: Grants, free: seq<seq<nat>>, i: nat, q: nat)
    requires Listed(granted, live, free) && i < CLASSES && q in free[i]
    ensures q in granted && q !in live && granted[q] == BlockLayout(i)
    ensures ListIndex(granted[q]) == Some(i) && WORD <= Extent(granted[q])
  {
    BlockLayoutClass(i);
  }

  /** Every element of `c` is a grant big enough for a link, and none is `g`. */
  predicate NodesOtherThan(granted: Grants, c: seq<nat>, g: nat) {
    forall q :: q in c ==> q in granted && WORD <= Extent(granted[q]) && q != g
  }

  lemma ListedNodes(granted: Grants, live: Grants, free: seq<seq<nat>>, i: nat, g: nat)
    requires Listed(granted, live, free) && i < CLASSES && g !in free[i]
    ensures NodesOtherThan(granted, free[i], g)
  {
    forall q | q in free[i] ensures q in granted && WORD <= Extent(granted[q]) && q != g {
      ListedBlock(granted, live, free, i, q);
    }
  }

  /** A write inside one grant leaves a chain of other grants as it was. */
  lemma {:induction false} ChainSurvives(s: State, head: Option<nat>, c: seq<nat>, g: nat, p: nat, bs: seq<byte>)
    requires GrantsApart(s.base, Limit(s), s.granted)
    requires Chain(s, head, c) && NodesOtherThan(s.granted, c, g)
    requires g in s.granted && g <= p && p + |bs| <= g + Extent(s.granted[g])
    ensures InHeap(s, p, |bs|) && Chain(WriteAt(s, p, bs), head, c)
    decreases |c|
  {
    if c != [] {
      assert c[0] in c;
      LinkSurvives(s, g, p, bs, c[0]);
      ChainSurvives(s, LinkAt(s, c[0]), c[1..], g, p, bs);
    }
  }

  lemma ListSurvives(s: State, free: seq<seq<nat>>, g: nat, p: nat, bs: seq<byte>, i: nat)
    requires GrantsApart(s.base, Limit(s), s.granted) && Listed(s.granted, s.live, free)
    requires i < CLASSES && i < |s.heads| && Chain(s, s.heads[i], free[i]) && g !in free[i]
    requires g in s.granted && g <= p && p + |bs| <= g + Extent(s.granted[g])
    ensures InHeap(s, p, |bs|) && Chain(WriteAt(s, p, bs), s.heads[i], free[i])
  {
    ListedNodes(s.granted, s.live, free, i, g);
    ChainSurvives(s, s.heads[i], free[i], g, p, bs);
  }

  /** A write inside a live grant leaves every list as it was. */
  lemma ChainsSurvive(s: State, free: seq<seq<nat>>, g: nat, p: nat, bs: seq<byte>)
    requires GrantsApart(s.base, Limit(s), s.granted) && Listed(s.granted, s.live, free)
    requires Chains(s, free) && g in s.live
    requires g in s.granted && g <= p && p + |bs| <= g + Extent(s.granted[g])
    ensures InHeap(s, p, |bs|) && Chains(WriteAt(s, p, bs), free)
  {
    forall i | 0 <= i < CLASSES
      ensures InHeap(s, p, |bs|) && Chain(WriteAt(s, p, bs), s.heads[i], free[i])
    {
      ListSurvives(s, free, g, p, bs, i);
    }
  }

  // ----- the lists survive writes outside every grant

  /** The `n` bytes at `p` lie in the heap and meet no grant: the fallback heap's own memory. */
  predicate Ungranted(s: State, p: nat, n: nat) {
    InHeap(s, p, n) && forall q :: q in s.granted ==> Disjoint(p, n, q, Extent(s.granted[q]))
  }

  lemma {:induction false} ChainOutside(s: State, head: Option<nat>, c: seq<nat>, p: nat, bs: seq<byte>)
    requires Chain(s, head, c) && Ungranted(s, p, |bs|)
    requires forall q :: q in c ==> q in s.granted && WORD <= Extent(s.granted[q])
    ensures Chain(WriteAt(s, p, bs), head, c)
    decreases |c|
  {
    if c != [] {
      assert c[0] in c;
      WriteFrame(s, p, bs, c[0], WORD);
      ChainOutside(s, LinkAt(s, c[0]), c[1..], p, bs);
    }
  }

  lemma ChainsOutside(s: State, free: seq<seq<nat>>, p: nat, bs: seq<byte>)
    requires Listed(s.granted, s.live, free) && Chains(s, free) && Ungranted(s, p, |bs|)
    ensures Chains(WriteAt(s, p, bs), free)
  {
    forall i | 0 <= i < CLASSES ensures Chain(WriteAt(s, p, bs), s.heads[i], free[i]) {
      forall q | q in free[i] ensures q in s.granted && WORD <= Extent(s.granted[q]) {
        ListedBlock(s.granted, s.live, free, i, q);
      }
      ChainOutside(s, s.heads[i], free[i], p, bs);
    }
  }

  // ----- each operation keeps the invariant

  lemma WritePreserves(s: State, free: seq<seq<nat>>, p: nat, at: nat, bs: seq<byte>)
    requires Inv(s, free) && p in s.live && p <= at && at + |bs| <= p + s.live[p].size
    ensures InHeap(s, at, |bs|) && Inv(WriteAt(s, at, bs), free)
  {
    BackingFits(s.live[p]);
    ChainsSurvive(s, free, p, at, bs);
  }

  /** Whatever the fallback heap writes into memory it has not granted keeps the invariant. */
  lemma OutsidePreserves(s: State, free: seq<seq<nat>>, at: nat, bs: seq<byte>)
    requires Inv(s, free) && Ungranted(s, at, |bs|)
    ensures Inv(WriteAt(s, at, bs), free)
  {
    ChainsOutside(s, free, at, bs);
  }

  lemma FallbackPreserves(s: State, free: seq<seq<nat>>, l: Layout, p: nat)
    requires Inv(s, free) && ValidLayout(l) && FallbackContract(s, Backing(l), Some(p))
    ensures Inv(FallbackAlloc(s, l, Some(p)), free)
  {
    var t := FallbackAlloc(s, l, Some(p));
    assert p !in s.granted;
    GrantApart(s.base, Limit(s), s.granted, p, Backing(l));
    GrantBooks(s.granted, s.live, free, l, p);
    SameLinks(s, t, free);
  }

  lemma GrantApart(lo: nat, hi: nat, granted: Grants, p: nat, l: Layout)
    requires GrantsApart(lo, hi, granted)
    requires 0 < p && l.align > 0 && p % l.align == 0 && lo <= p && p + Extent(l) <= hi
    requires forall q :: q in granted ==> Disjoint(p, Extent(l), q, Extent(granted[q]))
    ensures GrantsApart(lo, hi, granted[p := l])
  {
  }

  lemma GrantBooks(granted: Grants, live: Grants, free: seq<seq<nat>>, l: Layout, p: nat)
    requires Books(granted, live, free) && ValidLayout(l) && p !in granted
    ensures Books(granted[p := Backing(l)], live[p := l], free)
  {
    GrantListed(granted, live, free, p, Backing(l), l);
  }

  lemma GrantListed(granted: Grants, live: Grants, free: seq<seq<nat>>, p: nat, backing: Layout, l: Layout)
    requires Listed(granted, live, free) && Conserved(granted, live, free) && p !in granted
    ensures Listed(granted[p := backing], live[p := l], free)
    ensures Conserved(granted[p := backing], live[p := l], free)
  {
  }

  lemma {:induction false} SameLink(s: State, t: State, head: Option<nat>, c: seq<nat>)
    requires Chain(s, head, c) && t.base == s.base && t.mem == s.mem
    ensures Chain(t, head, c)
    decreases |c|
  {
    if c != [] { SameLink(s, t, LinkAt(s, c[0]), c[1..]); }
  }

  lemma SameLinks(s: State, t: State, free: seq<seq<nat>>)
    requires Chains(s, free) && t.base == s.base && t.mem == s.mem && t.heads == s.heads
    ensures Chains(t, free)
  {
    forall i | 0 <= i < CLASSES ensures Chain(t, t.heads[i], free[i]) {
      SameLink(s, t, s.heads[i], free[i]);
    }
  }

  lemma PopPreserves(s: State, free: seq<seq<nat>>, l: Layout) returns (free': seq<seq<nat>>)
    requires Inv(s, free) && ValidLayout(l) && WellFormed(s) && !AsksFallback(s, l)
    ensures free[ListIndex(l).value] != []
    ensures free' == free[ListIndex(l).value := free[ListIndex(l).value][1..]]
    ensures Inv(Allocate(s, l, None).0, free')
  {
    var i := ListIndex(l).value;
    assert Chain(s, s.heads[i], free[i]);
    free' := free[i := free[i][1..]];
    PopBooks(s.granted, s.live, free, l);
    PopChains(s, free, i);
    SameLinks(SetLink(s, free[i][0], None).(heads := s.heads[i := LinkAt(s, free[i][0])]), Allocate(s, l, None).0, free');
  }

  lemma PopBooks(granted: Grants, live: Grants, free: seq<seq<nat>>, l: Layout)
    requires Books(granted, live, free) && ValidLayout(l)
    requires ListIndex(l).Some? && free[ListIndex(l).value] != []
    ensures var i := ListIndex(l).value;
            Books(granted, live[free[i][0] := l], free[i := free[i][1..]])
  {
    var i := ListIndex(l).value;
    assert free[i][0] in free[i];
    PopListed(granted, live, free, i, l);
    PopConserved(granted, live, free, i, l);
  }

  lemma PopListed(granted: Grants, live: Grants, free: seq<seq<nat>>, i: nat, l: Layout)
    requires Listed(granted, live, free) && i < CLASSES && free[i] != []
    ensures Listed(granted, live[free[i][0] := l], free[i := free[i][1..]])
  {
    var p, free' := free[i][0], free[i := free[i][1..]];
    assert p in free[i] && Distinct(free[i]);
    forall j, q | 0 <= j < CLASSES && q in free'[j]
      ensures q in granted && granted[q] == BlockLayout(j) && q !in live[p := l]
    {
      assert q in free[j];
      ListedBlock(granted, live, free, i, p);
      ListedBlock(granted, live, free, j, q);
    }
  }

  lemma PopConserved(granted: Grants, live: Grants, free: seq<seq<nat>>, i: nat, l: Layout)
    requires |free| == CLASSES && Conserved(granted, live, free) && i < CLASSES && free[i] != []
    ensures Conserved(granted, live[free[i][0] := l], free[i := free[i][1..]])
  {
  }

  lemma PopChains(s: State, free: seq<seq<nat>>, i: nat)
    requires GrantsApart(s.base, Limit(s), s.granted) && Listed(s.granted, s.live, free)
    requires Chains(s, free) && i < CLASSES && free[i] != []
    ensures InHeap(s, free[i][0], WORD)
    ensures Chains(SetLink(s, free[i][0], None).(heads := s.heads[i := LinkAt(s, free[i][0])]), free[i := free[i][1..]])
  {
    var c := free[i];
    var p := c[0];
    assert Chain(s, s.heads[i], c) && p in c;
    ListedBlock(s.granted, s.live, free, i, p);
    var u := SetLink(s, p, None);
    var t := u.(heads := s.heads[i := LinkAt(s, p)]);
    forall j | 0 <= j < CLASSES
      ensures Chain(t, t.heads[j], free[i := c[1..]][j])
    {
      if j == i {
        PopNodes(s.granted, s.live, free, i);
        ChainSurvives(s, LinkAt(s, p), c[1..], p, p, Store(0, WORD));
        SameLink(u, t, LinkAt(s, p), c[1..]);
      } else {
        if p in free[j] { ListedBlock(s.granted, s.live, free, j, p); }
        ListSurvives(s, free, p, p, Store(0, WORD), j);
        SameLink(u, t, s.heads[j], free[j]);
      }
    }
  }

  lemma PopNodes(granted: Grants, live: Grants, free: seq<seq<nat>>, i: nat)
    requires Listed(granted, live, free) && i < CLASSES && free[i] != []
    ensures NodesOtherThan(granted, free[i][1..], free[i][0])
  {
    assert Distinct(free[i]);
    forall q | q in free[i][1..] ensures q in granted && WORD <= Extent(granted[q]) && q != free[i][0] {
      ListedBlock(granted, live, free, i, q);
    }
  }

  lemma DeallocatePreserves(s: State, free: seq<seq<nat>>, p: nat) returns (free': seq<seq<nat>>)
    requires Inv(s, free) && WellFormed(s) && p in s.live
    ensures ListIndex(s.live[p]).Some? ==> InHeap(s, p, WORD)
    ensures match ListIndex(s.live[p])
            case Some(i) => free' == free[i := [p] + free[i]]
            case None => free' == free
    ensures Inv(Deallocate(s, p, s.live[p]), free')
  {
    BackingFits(s.live[p]);
    match ListIndex(s.live[p])
    case Some(i) =>
      free' := free[i := [p] + free[i]];
      PushBooks(s.granted, s.live, free, p, i);
      PushChains(s, free, p, i);
    case None =>
      free' := free;
      ReturnBooks(s.granted, s.live, free, p);
      SameLinks(s, Deallocate(s, p, s.live[p]), free);
  }

  lemma PushBooks(granted: Grants, live: Grants, free: seq<seq<nat>>, p: nat, i: nat)
    requires Books(granted, live, free) && p in live && ListIndex(live[p]) == Some(i)
    ensures Books(granted, live - {p}, free[i := [p] + free[i]])
  {
    assert granted[p] == BlockLayout(i);
    PushListed(granted, live, free, p, i);
    PushConserved(granted, live, free, p, i);
  }

  lemma PushListed(granted: Grants, live: Grants, free: seq<seq<nat>>, p: nat, i: nat)
    requires Listed(granted, live, free) && i < CLASSES
    requires p in live && p in granted && granted[p] == BlockLayout(i)
    ensures Listed(granted, live - {p}, free[i := [p] + free[i]])
  {
  }

  lemma PushConserved(granted: Grants, live: Grants, free: seq<seq<nat>>, p: nat, i: nat)
    requires |free| == CLASSES && Conserved(granted, live, free) && i < CLASSES
    requires p in live && p in granted && granted[p] == BlockLayout(i)
    ensures Conserved(granted, live - {p}, free[i := [p] + free[i]])
  {
  }

  lemma ReturnBooks(granted: Grants, live: Grants, free: seq<seq<nat>>, p: nat)
    requires Books(granted, live, free) && p in live && ListIndex(live[p]).None?
    ensures Books(granted - {p}, live - {p}, free)
  {
  }

  lemma PushChains(s: State, free: seq<seq<nat>>, p: nat, i: nat)
    requires Inv(s, free) && WellFormed(s) && p in s.live && ListIndex(s.live[p]) == Some(i)
    ensures InHeap(s, p, WORD) && Chains(Deallocate(s, p, s.live[p]), free[i := [p] + free[i]])
  {
    BackingFits(s.live[p]);
    var u := SetLink(s, p, s.heads[i]);
    var t := Deallocate(s, p, s.live[p]);
    ChainsSurvive(s, free, p, p, Store(if s.heads[i].Some? then s.heads[i].value else 0, WORD));
    HeadEncodable(s, free, i);
    SetLinkGet(s, p, s.heads[i]);
    forall j | 0 <= j < CLASSES
      ensures Chain(t, t.heads[j], free[i := [p] + free[i]][j])
    {
      assert Chain(u, u.heads[j], free[j]);
      SameLink(u, t, u.heads[j], free[j]);
      if j == i { ChainPush(t, s.heads[i], free[i], p); }
    }
  }

  lemma ChainPush(t: State, head: Option<nat>, c: seq<nat>, p: nat)
    requires Chain(t, head, c) && InHeap(t, p, WORD) && LinkAt(t, p) == head
    ensures Chain(t, Some(p), [p] + c)
  {
  }

  lemma HeadEncodable(s: State, free: seq<seq<nat>>, i: nat)
    requires Inv(s, free) && i < CLASSES
    ensures s.heads[i].Some? ==> 0 < s.heads[i].value < Pow256(WORD)
  {
    assert Chain(s, s.heads[i], free[i]);
    if s.heads[i].Some? {
      assert free[i][0] in free[i];
      ListedBlock(s.granted, s.live, free, i, free[i][0]);
    }
  }

  // ----- what the invariant means to a client

  /** Live allocations are aligned and large enough for their layouts, lie in the heap and do
      not overlap; no listed block overlaps a live one or a block of any list. */
  lemma LiveAreSafe(s: State, free: seq<seq<nat>>, p: nat, q: nat)
    requires Inv(s, free) && p in s.live && q in s.live
    ensures 0 < p && p % s.live[p].align == 0 && InHeap(s, p, s.live[p].size)
    ensures p != q ==> Disjoint(p, s.live[p].size, q, s.live[q].size)
  {
    BackingFits(s.live[p]);
    BackingFits(s.live[q]);
    BackingAligned(s.live[p], p);
    if p != q { assert Disjoint(p, Extent(s.granted[p]), q, Extent(s.granted[q])); }
  }

  lemma ListedAreSafe(s: State, free: seq<seq<nat>>, i: nat, p: nat, j: nat, q: nat)
    requires Inv(s, free) && i < CLASSES && p in free[i]
    ensures p % BlockSize(i) == 0 && InHeap(s, p, BlockSize(i))
    ensures q in s.live ==> p != q && Disjoint(p, BlockSize(i), q, s.live[q].size)
    ensures j < CLASSES && q in free[j] && (p != q || i != j) ==>
              p != q && Disjoint(p, BlockSize(i), q, BlockSize(j))
  {
    ListedBlock(s.granted, s.live, free, i, p);
    if q in s.live {
      BackingFits(s.live[q]);
      assert Disjoint(p, Extent(s.granted[p]), q, Extent(s.granted[q]));
    }
    if j < CLASSES && q in free[j] && (p != q || i != j) {
      ListedBlock(s.granted, s.live, free, j, q);
      assert Disjoint(p, Extent(s.granted[p]), q, Extent(s.granted[q]));
    }
  }

  /** The chain a head starts is unique, so it cannot be cyclic: `n` links lead to its `n`-th node. */
  lemma {:induction false} ChainUnique(s: State, head: Option<nat>, c: seq<nat>, d: seq<nat>)
    requires Chain(s, head, c) && Chain(s, head, d)
    ensures c == d
    decreases |c|
  {
    if c != [] {
      ChainUnique(s, LinkAt(s, c[0]), c[1..], d[1..]);
      assert c == [c[0]] + c[1..] && d == [d[0]] + d[1..];
    }
  }
}
