/** `memcmp`, `memcpy` and `memmove` of tlibc/src/string.rs, on a flat byte memory in which
    pointers are indices. The word-at-a-time forms are proved equal to bytewise ones. */
module CMemory {
  import opened Bytes

  // ----- memcmp

  function Diff(c: byte, d: byte): int {
    (c as int) - (d as int)
  }

  /** Bytewise comparison of the `n` bytes at `a` and at `b`: the difference at the first mismatch, else 0. */
  function Compare(m: seq<byte>, a: nat, b: nat, n: nat): int
    requires a + n <= |m| && b + n <= |m|
    decreases n
  {
    if n == 0 then 0 else if m[a] != m[b] then Diff(m[a], m[b]) else Compare(m, a + 1, b + 1, n - 1)
  }

  lemma {:induction false} CompareSkip(m: seq<byte>, a: nat, b: nat, n: nat, k: nat)
    requires a + n <= |m| && b + n <= |m| && k <= n && m[a..a + k] == m[b..b + k]
    ensures Compare(m, a, b, n) == Compare(m, a + k, b + k, n - k)
    decreases k
  {
    if k > 0 {
      SliceHead(m, a, k);
      SliceHead(m, b, k);
      CompareSkip(m, a + 1, b + 1, n - 1, k - 1);
    }
  }

  lemma SliceHead(m: seq<byte>, a: nat, k: nat)
    requires k > 0 && a + k <= |m|
    ensures m[a..a + k][0] == m[a] && m[a..a + k][1..] == m[a + 1..a + k]
  {
  }

  /** Section 7.24.4.1 of C11: the result is 0 exactly on equal regions, and otherwise the difference at the
      first mismatch, so its sign orders them. */
  lemma CompareMeaning(m: seq<byte>, a: nat, b: nat, n: nat, k: nat)
    requires a + n <= |m| && b + n <= |m|
    ensures Compare(m, a, b, n) == 0 <==> m[a..a + n] == m[b..b + n]
    ensures Mismatch(m, a, b, n, k) ==> Compare(m, a, b, n) == (m[a + k] as int) - (m[b + k] as int)
  {
    if Mismatch(m, a, b, n, k) { CompareSkip(m, a, b, n, k); }
    CompareZero(m, a, b, n);
  }

  /** The first of the `n` bytes at `a` and at `b` that differ are those at offset `k`. */
  predicate Mismatch(m: seq<byte>, a: nat, b: nat, n: nat, k: nat)
    requires a + n <= |m| && b + n <= |m|
  {
    k < n && m[a..a + k] == m[b..b + k] && m[a + k] != m[b + k]
  }

  /** The result is negative exactly when at the first mismatch the byte at `a` is the smaller one, and
      positive exactly when it is the greater one. */
  lemma CompareOrder(m: seq<byte>, a: nat, b: nat, n: nat)
    requires a + n <= |m| && b + n <= |m|
    ensures Compare(m, a, b, n) < 0 <==> exists k: nat :: Mismatch(m, a, b, n, k) && m[a + k] < m[b + k]
    ensures Compare(m, a, b, n) > 0 <==> exists k: nat :: Mismatch(m, a, b, n, k) && m[a + k] > m[b + k]
  {
    forall k: nat | Mismatch(m, a, b, n, k)
      ensures Compare(m, a, b, n) == (m[a + k] as int) - (m[b + k] as int)
    {
      CompareMeaning(m, a, b, n, k);
    }
    if Compare(m, a, b, n) != 0 {
      var k := FirstDifference(m, a, b, n);
    }
  }

  lemma {:induction false} FirstDifference(m: seq<byte>, a: nat, b: nat, n: nat) returns (k: nat)
    requires a + n <= |m| && b + n <= |m| && Compare(m, a, b, n) != 0
    ensures Mismatch(m, a, b, n, k)
    decreases n
  {
    if m[a] != m[b] {
      k := 0;
    } else {
      var j := FirstDifference(m, a + 1, b + 1, n - 1);
      k := j + 1;
      SlicesEqual(m, a, b, k);
    }
  }

  lemma {:induction false} CompareZero(m: seq<byte>, a: nat, b: nat, n: nat)
    requires a + n <= |m| && b + n <= |m|
    ensures Compare(m, a, b, n) == 0 <==> m[a..a + n] == m[b..b + n]
    decreases n
  {
    if n > 0 {
      CompareZero(m, a + 1, b + 1, n - 1);
      SlicesEqual(m, a, b, n);
    }
  }

  lemma SlicesEqual(m: seq<byte>, a: nat, b: nat, n: nat)
    requires n > 0 && a + n <= |m| && b + n <= |m|
    ensures m[a..a + n] == m[b..b + n] <==> m[a] == m[b] && m[a + 1..a + n] == m[b + 1..b + n]
  {
    SliceHead(m, a, n);
    SliceHead(m, b, n);
    assert m[a..a + n] == [m[a]] + m[a + 1..a + n];
    assert m[b..b + n] == [m[b]] + m[b + 1..b + n];
  }

  /** The difference inside a word known to differ, of `n` bytes left; the loop cannot run to its end. */
  method DiffInWord(m: array<byte>, a: nat, b: nat, ghost n: nat) returns (r: int)
    requires WORD <= n && a + n <= m.Length && b + n <= m.Length
    requires m[a..a + WORD] != m[b..b + WORD]
    ensures r == Compare(m[..], a, b, n)
  {
    for i := 0 to WORD
      invariant m[a..a + i] == m[b..b + i]
    {
      var c, d := m[a + i], m[b + i];
      if c != d {
        FirstMismatch(m, a, b, n, i);
        return Diff(c, d);
      }
      assert m[a..a + i + 1] == m[a..a + i] + [c] && m[b..b + i + 1] == m[b..b + i] + [d];
    }
    assert false; // unreachable!()
  }

  lemma FirstMismatch(m: array<byte>, a: nat, b: nat, n: nat, k: nat)
    requires a + n <= m.Length && b + n <= m.Length && k < n
    requires m[a..a + k] == m[b..b + k] && m[a + k] != m[b + k]
    ensures Compare(m[..], a, b, n) == Diff(m[a + k], m[b + k])
  {
    assert m[..][a..a + k] == m[a..a + k] && m[..][b..b + k] == m[b..b + k];
    CompareMeaning(m[..], a, b, n, k);
  }

  /** The word-at-a-time `memcmp` equals bytewise comparison, whatever the length. */
  method Memcmp(m: array<byte>, s1: nat, s2: nat, n: nat) returns (r: int)
    requires s1 + n <= m.Length && s2 + n <= m.Length
    ensures r == Compare(m[..], s1, s2, n)
  {
    var div, rem := n / WORD, n % WORD;
    WholeWords(n);
    var a, b := s1, s2;
    ghost var left := n;
    for w := 0 to div
      invariant left == 8 * (div - w) + rem && a == s1 + n - left && b == s2 + n - left
      invariant Compare(m[..], s1, s2, n) == Compare(m[..], a, b, left)
    {
      WordSplits(m, a, b, left);
      if Load(m[a..a + WORD]) != Load(m[b..b + WORD]) {
        r := DiffInWord(m, a, b, left);
        return r;
      }
      a, b := a + WORD, b + WORD;
      left := left - WORD;
    }
    r := CompareTail(m, a, b, rem);
  }

  lemma WholeWords(n: nat)
    ensures n == 8 * (n / WORD) + n % WORD
  {
  }

  /** The loop over the bytes left after the last whole word. */
  method CompareTail(m: array<byte>, a: nat, b: nat, rem: nat) returns (r: int)
    requires a + rem <= m.Length && b + rem <= m.Length
    ensures r == Compare(m[..], a, b, rem)
  {
    for i := 0 to rem
      invariant Compare(m[..], a, b, rem) == Compare(m[..], a + i, b + i, rem - i)
    {
      if m[a + i] != m[b + i] {
        return Diff(m[a + i], m[b + i]);
      }
    }
    return 0;
  }

  /** Words are equal exactly when their bytes are, and equal ones can be skipped. */
  lemma WordSplits(m: array<byte>, a: nat, b: nat, n: nat)
    requires WORD <= n && a + n <= m.Length && b + n <= m.Length
    ensures Load(m[a..a + WORD]) == Load(m[b..b + WORD]) <==> m[a..a + WORD] == m[b..b + WORD]
    ensures m[a..a + WORD] == m[b..b + WORD] ==>
              Compare(m[..], a, b, n) == Compare(m[..], a + WORD, b + WORD, n - WORD)
  {
    LoadInjective(m[a..a + WORD], m[b..b + WORD]);
    assert m[..][a..a + WORD] == m[a..a + WORD] && m[..][b..b + WORD] == m[b..b + WORD];
    if m[a..a + WORD] == m[b..b + WORD] { CompareSkip(m[..], a, b, n, WORD); }
  }

  // ----- memmove

  /** The memory after moving `n` bytes from `src` to `dst`, as if the source were read first. */
  function Moved(m: seq<byte>, dst: nat, src: nat, n: nat): (r: seq<byte>)
    requires dst + n <= |m| && src + n <= |m|
    ensures |r| == |m|
    decreases n, m
  {
    if n == 0 then m else Moved(m, dst, src, n - 1)[dst + n - 1 := m[src + n - 1]]
  }

  /** The destination holds the old source, and every other byte is as it was. */
  lemma {:induction false} MovedByte(m: seq<byte>, dst: nat, src: nat, n: nat, k: nat)
    requires dst + n <= |m| && src + n <= |m| && k < |m|
    ensures Moved(m, dst, src, n)[k] == if dst <= k < dst + n then m[src + k - dst] else m[k]
  {
    if n > 0 { MovedByte(m, dst, src, n - 1, k); }
  }

  /** Moving the first byte last makes no difference. */
  lemma {:induction false} MovedFront(m: seq<byte>, dst: nat, src: nat, n: nat)
    requires n > 0 && dst + n <= |m| && src + n <= |m|
    ensures Moved(m, dst, src, n) == Moved(m, dst + 1, src + 1, n - 1)[dst := m[src]]
  {
    if n > 1 { MovedFront(m, dst, src, n - 1); }
  }

  /** Section 7.24.2.2 of C11: correct for every overlap of source and destination. */
  method Memmove(m: array<byte>, dst: nat, src: nat, n: nat) returns (r: nat)
    requires dst + n <= m.Length && src + n <= m.Length
    modifies m
    ensures m[..] == Moved(old(m[..]), dst, src, n) && r == dst
  {
    if src < dst {
      CopyFromEnd(m, dst, src, n);
    } else {
      CopyFromBeginning(m, dst, src, n);
    }
    return dst;
  }

  method CopyFromEnd(m: array<byte>, dst: nat, src: nat, n: nat)
    requires dst + n <= m.Length && src < dst
    modifies m
    ensures m[..] == Moved(old(m[..]), dst, src, n)
  {
    ghost var was := m[..];
    var i: nat := n;
    while i != 0
      invariant i <= n && m[..] == Moved(was, dst + i, src + i, n - i)
    {
      i := i - 1;
      MovedByte(was, dst + i + 1, src + i + 1, n - i - 1, src + i);
      MovedFront(was, dst + i, src + i, n - i);
      m[dst + i] := m[src + i];
    }
  }

  method CopyFromBeginning(m: array<byte>, dst: nat, src: nat, n: nat)
    requires src + n <= m.Length && dst <= src
    modifies m
    ensures m[..] == Moved(old(m[..]), dst, src, n)
  {
    ghost var was := m[..];
    var i := 0;
    while i < n
      invariant i <= n && m[..] == Moved(was, dst, src, i)
    {
      MovedByte(was, dst, src, i, src + i);
      m[dst + i] := m[src + i];
      i := i + 1;
    }
  }

  // ----- memcpy

  /** What the two loops of `memcpy` do when `left` of the `n` bytes are still to be copied: whole words
      while eight bytes remain, then single bytes. Each word is read whole before it is written. */
  function CopyFrom(m: seq<byte>, dst: nat, src: nat, n: nat, left: nat): (r: seq<byte>)
    requires dst + n <= |m| && src + n <= |m| && left <= n
    ensures |r| == |m|
    decreases left, m
  {
    var i := n - left;
    if left > 7 then CopyFrom(Moved(m, dst + i, src + i, WORD), dst, src, n, left - WORD)
    else if left > 0 then CopyFrom(Moved(m, dst + i, src + i, 1), dst, src, n, left - 1)
    else m
  }

  lemma CopyStep(m: seq<byte>, next: seq<byte>, dst: nat, src: nat, n: nat, i: nat, c: nat)
    requires dst + n <= |m| && src + n <= |m| && i < n && c == if i + 7 < n then WORD else 1
    requires next == Moved(m, dst + i, src + i, c)
    ensures CopyFrom(m, dst, src, n, n - i) == CopyFrom(next, dst, src, n, n - (i + c))
  {
  }

  lemma {:induction false} StoreLoad(bs: seq<byte>)
    ensures Store(Load(bs), |bs|) == bs
  {
    if bs != [] {
      assert Load(bs) % 256 == bs[0] && Load(bs) / 256 == Load(bs[1..]);
      StoreLoad(bs[1..]);
    }
  }

  /** `*(dst as *mut u64) = *(src as *const u64)` */
  method CopyWord(m: array<byte>, dst: nat, src: nat)
    requires dst + WORD <= m.Length && src + WORD <= m.Length
    modifies m
    ensures m[..] == Moved(old(m[..]), dst, src, WORD)
  {
    var bs := ReadWord(m, src);
    ghost var was := m[..];
    for k := 0 to WORD
      invariant m[..] == Moved(was, dst, src, k)
    {
      assert bs[k] == was[src + k];
      m[dst + k] := bs[k];
    }
  }

  /** The bytes of a word that has been loaded. */
  method ReadWord(m: array<byte>, src: nat) returns (bs: seq<byte>)
    requires src + WORD <= m.Length
    ensures bs == m[src..src + WORD]
  {
    bs := Store(Load(m[src..src + WORD]), WORD);
    StoreLoad(m[src..src + WORD]);
  }

  method Memcpy(m: array<byte>, dst: nat, src: nat, n: nat) returns (r: nat)
    requires dst + n <= m.Length && src + n <= m.Length
    modifies m
    ensures m[..] == CopyFrom(old(m[..]), dst, src, n, n) && r == dst
    ensures CopySafe(dst, src, n) ==> m[..] == Moved(old(m[..]), dst, src, n)
  {
    var i := CopyWords(m, dst, src, n);
    CopyBytes(m, dst, src, n, i);
    if CopySafe(dst, src, n) { CopyCorrect(old(m[..]), dst, src, n); }
    return dst;
  }

  /** The loop over whole words; returns how far it got. */
  method CopyWords(m: array<byte>, dst: nat, src: nat, n: nat) returns (i: nat)
    requires dst + n <= m.Length && src + n <= m.Length
    modifies m
    ensures i <= n < i + 8 && CopyFrom(m[..], dst, src, n, n - i) == CopyFrom(old(m[..]), dst, src, n, n)
  {
    i := 0;
    ghost var final := CopyFrom(m[..], dst, src, n, n);
    while i + 7 < n
      invariant i <= n && CopyFrom(m[..], dst, src, n, n - i) == final
    {
      ghost var was := m[..];
      CopyWord(m, dst + i, src + i);
      CopyStep(was, m[..], dst, src, n, i, WORD);
      i := i + 8;
    }
  }

  /** The loop over the bytes that are left. */
  method CopyBytes(m: array<byte>, dst: nat, src: nat, n: nat, from: nat)
    requires dst + n <= m.Length && src + n <= m.Length && from <= n < from + 8
    modifies m
    ensures m[..] == CopyFrom(old(m[..]), dst, src, n, n - from)
  {
    var i := from;
    ghost var final := CopyFrom(m[..], dst, src, n, n - from);
    while i < n
      invariant from <= i <= n && CopyFrom(m[..], dst, src, n, n - i) == final
    {
      ghost var was := m[..];
      m[dst + i] := m[src + i];
      assert m[..] == Moved(was, dst + i, src + i, 1);
      CopyStep(was, m[..], dst, src, n, i, 1);
      i := i + 1;
    }
  }

  /** When `memcpy` may be used for `memmove`: no overlap, destination not above the source, or a
      single word. */
  predicate CopySafe(dst: nat, src: nat, n: nat) {
    dst <= src || src + n <= dst || n == WORD
  }

  /** Moving in two parts, the first of which leaves the source of the second alone. */
  lemma {:induction false} MovedMore(m: seq<byte>, dst: nat, src: nat, n: nat, i: nat, c: nat)
    requires dst + n <= |m| && src + n <= |m| && i + c <= n && (dst <= src || src + n <= dst)
    ensures Moved(Moved(m, dst, src, i), dst + i, src + i, c) == Moved(m, dst, src, i + c)
    decreases c
  {
    if c > 0 {
      MovedMore(m, dst, src, n, i, c - 1);
      MovedByte(m, dst, src, i, src + i + c - 1);
    }
  }

  lemma {:induction false} CopyForward(m: seq<byte>, dst: nat, src: nat, n: nat, i: nat)
    requires dst + n <= |m| && src + n <= |m| && i <= n
    requires dst <= src || src + n <= dst
    ensures CopyFrom(Moved(m, dst, src, i), dst, src, n, n - i) == Moved(m, dst, src, n)
    decreases n - i
  {
    if i < n {
      var c := if i + 7 < n then WORD else 1;
      MovedMore(m, dst, src, n, i, c);
      CopyForward(m, dst, src, n, i + c);
    }
  }

  lemma CopyCorrect(m: seq<byte>, dst: nat, src: nat, n: nat)
    requires dst + n <= |m| && src + n <= |m| && CopySafe(dst, src, n)
    ensures CopyFrom(m, dst, src, n, n) == Moved(m, dst, src, n)
  {
    if n == WORD {
    } else {
      assert Moved(m, dst, src, 0) == m;
      CopyForward(m, dst, src, n, 0);
    }
  }

  /** Where the load that fetches byte `k` starts. */
  function ChunkStart(k: nat, n: nat): nat {
    if k < n / 8 * 8 then k / 8 * 8 else k
  }

  predicate Boundary(i: nat, n: nat) {
    i <= n && ChunkStart(i, n) == i
  }

  /** Bytes below the copying position are final. */
  lemma {:induction false} CopyFrame(m: seq<byte>, dst: nat, src: nat, n: nat, i: nat, k: nat)
    requires dst + n <= |m| && src + n <= |m| && i <= n && k < dst + i
    ensures CopyFrom(m, dst, src, n, n - i)[k] == m[k]
    decreases n - i
  {
    if i < n {
      var c := if i + 7 < n then WORD else 1;
      MovedByte(m, dst + i, src + i, c, k);
      CopyFrame(Moved(m, dst + i, src + i, c), dst, src, n, i + c, k);
    }
  }

  /** Every copied byte is the original source byte, unless that byte was overwritten by an earlier
      chunk; then it is the final value of the overwritten byte. */
  lemma {:induction false} CopyByte(m: seq<byte>, now: seq<byte>, dst: nat, src: nat, n: nat, i: nat, k: nat)
    requires |now| == |m| && dst + n <= |m| && src + n <= |m| && Boundary(i, n) && i <= k < n
    requires forall p :: 0 <= p < |m| && (p < dst || dst + i <= p) ==> now[p] == m[p]
    ensures var final := CopyFrom(now, dst, src, n, n - i);
            final[dst + k] == if dst <= src + k < dst + ChunkStart(k, n) then final[src + k] else m[src + k]
    decreases n - i
  {
    var c := if i + 7 < n then WORD else 1;
    var next := Moved(now, dst + i, src + i, c);
    NextBoundary(i, n, k);
    if k < i + c {
      CopyByteHere(m, now, dst, src, n, i, k);
    } else {
      forall p | 0 <= p < |m| && (p < dst || dst + i + c <= p) ensures next[p] == m[p] {
        MovedByte(now, dst + i, src + i, c, p);
      }
      CopyByte(m, next, dst, src, n, i + c, k);
    }
  }

  /** A byte of the chunk at offset `i`. */
  lemma CopyByteHere(m: seq<byte>, now: seq<byte>, dst: nat, src: nat, n: nat, i: nat, k: nat)
    requires |now| == |m| && dst + n <= |m| && src + n <= |m| && i <= k < n
    requires k < i + if i + 7 < n then WORD else 1
    requires forall p :: 0 <= p < |m| && (p < dst || dst + i <= p) ==> now[p] == m[p]
    ensures var final := CopyFrom(now, dst, src, n, n - i);
            final[dst + k] == if dst <= src + k < dst + i then final[src + k] else m[src + k]
  {
    var c := if i + 7 < n then WORD else 1;
    var next := Moved(now, dst + i, src + i, c);
    CopyStep(now, next, dst, src, n, i, c);
    CopyFrame(next, dst, src, n, i + c, dst + k);
    MovedByte(now, dst + i, src + i, c, dst + k);
    if dst <= src + k < dst + i { CopyFrame(now, dst, src, n, i, src + k); }
  }

  lemma NextBoundary(i: nat, n: nat, k: nat)
    requires Boundary(i, n) && i < n
    ensures var c := if i + 7 < n then WORD else 1;
            Boundary(i + c, n) && (i <= k < i + c ==> ChunkStart(k, n) == i)
  {
  }

  predicate CopyRight(m: seq<byte>, dst: nat, src: nat, n: nat)
    requires dst + n <= |m| && src + n <= |m|
  {
    CopyFrom(m, dst, src, n, n) == Moved(m, dst, src, n)
  }

  /** `memcpy` does the work of `memmove` on every memory exactly when `CopySafe` holds. */
  lemma MemcpyExact(size: nat, dst: nat, src: nat, n: nat)
    requires dst + n <= size && src + n <= size
    ensures (forall m: seq<byte> :: |m| == size ==> CopyRight(m, dst, src, n)) <==> CopySafe(dst, src, n)
  {
    if CopySafe(dst, src, n) {
      forall m: seq<byte> | |m| == size ensures CopyRight(m, dst, src, n) {
        CopyCorrect(m, dst, src, n);
      }
    } else {
      var m := OneAt(size, src + FirstClash(dst, src, n));
      CopyClashes(m, dst, src, n);
      assert !CopyRight(m, dst, src, n);
    }
  }

  function OneAt(size: nat, at: nat): (m: seq<byte>)
    ensures |m| == size && forall p :: 0 <= p < size ==> m[p] == if p == at then 1 else 0
  {
    seq(size, p => if p == at then 1 else 0)
  }

  /** For an unsafe overlap, the first byte read after an earlier chunk has overwritten it. */
  function FirstClash(dst: nat, src: nat, n: nat): (k: nat)
    requires !CopySafe(dst, src, n)
    ensures dst - src <= k < n
  {
    if n < WORD || dst - src >= WORD then dst - src else WORD
  }

  /** Byte `FirstClash` is read from where an earlier chunk has written. */
  lemma ClashOverwritten(dst: nat, src: nat, n: nat)
    requires !CopySafe(dst, src, n)
    ensures var k := FirstClash(dst, src, n); k < n && dst <= src + k < dst + ChunkStart(k, n)
  {
  }

  lemma ClashByte(m: seq<byte>, dst: nat, src: nat, n: nat, final: seq<byte>)
    requires dst + n <= |m| && src + n <= |m| && !CopySafe(dst, src, n) && final == CopyFrom(m, dst, src, n, n)
    ensures var k := FirstClash(dst, src, n); k < n && dst <= src + k && final[dst + k] == final[src + k]
  {
    ClashOverwritten(dst, src, n);
    CopiedByte(m, dst, src, n, FirstClash(dst, src, n), final);
  }

  lemma CopiedByte(m: seq<byte>, dst: nat, src: nat, n: nat, k: nat, final: seq<byte>)
    requires dst + n <= |m| && src + n <= |m| && k < n && final == CopyFrom(m, dst, src, n, n)
    ensures final[dst + k] == if dst <= src + k < dst + ChunkStart(k, n) then final[src + k] else m[src + k]
  {
    CopyByte(m, m, dst, src, n, 0, k);
  }

  lemma MovedClash(m: seq<byte>, dst: nat, src: nat, n: nat, k: nat, final: seq<byte>)
    requires dst + n <= |m| && src + n <= |m| && src < dst <= src + k && k < n
    requires m[src + k] != m[src + k - (dst - src)] && |final| == |m| && final[dst + k] == final[src + k]
    ensures final != Moved(m, dst, src, n)
  {
    MovedByte(m, dst, src, n, dst + k);
    MovedByte(m, dst, src, n, src + k);
  }

  lemma CopyClashes(m: seq<byte>, dst: nat, src: nat, n: nat)
    requires dst + n <= |m| && src + n <= |m| && !CopySafe(dst, src, n)
    requires var k := FirstClash(dst, src, n); m[src + k] != m[src + k - (dst - src)]
    ensures CopyFrom(m, dst, src, n, n) != Moved(m, dst, src, n)
  {
    var final := CopyFrom(m, dst, src, n, n);
    ClashByte(m, dst, src, n, final);
    MovedClash(m, dst, src, n, FirstClash(dst, src, n), final);
  }
}
