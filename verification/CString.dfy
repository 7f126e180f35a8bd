/** `strspn`, `strpbrk`, `strstr`, `strcasestr` and `strtok_r` of tlibc/src/string.rs.

    A buffer is an array whose last byte is NUL; nothing past that byte exists in the model, so
    the index checks show that no routine reads or writes past the terminator. The search under
    `strcasestr` can; it then ends with the result `Overrun`. */
module CString {
  import opened Bytes

  predicate Terminated(m: seq<byte>) {
    |m| > 0 && m[|m| - 1] == 0
  }

  /** A C string with exactly the storage it needs: NUL at the end and nowhere else. */
  predicate IsCString(m: seq<byte>) {
    Terminated(m) && forall k :: 0 <= k < |m| - 1 ==> m[k] != 0
  }

  // ----- spans

  /** The number of bytes from `p` on, before a NUL, whose membership in `set` equals `cmp`. */
  function Span(m: seq<byte>, p: nat, accept: set<byte>, cmp: bool): (n: nat)
    requires Terminated(m) && p < |m|
    ensures p + n < |m|
    decreases |m| - p
  {
    if m[p] == 0 || (m[p] in accept) != cmp then 0 else 1 + Span(m, p + 1, accept, cmp)
  }

  /** `Span` is the longest such run: everything inside qualifies and the byte after it does not. */
  lemma {:induction false} SpanMaximal(m: seq<byte>, p: nat, accept: set<byte>, cmp: bool)
    requires Terminated(m) && p < |m|
    ensures var e := p + Span(m, p, accept, cmp);
            && (forall k :: p <= k < e ==> m[k] != 0 && (m[k] in accept) == cmp)
            && (m[e] == 0 || (m[e] in accept) != cmp)
    decreases |m| - p
  {
    if m[p] != 0 && (m[p] in accept) == cmp { SpanMaximal(m, p + 1, accept, cmp); }
  }

  lemma {:induction false} SpanSame(m: seq<byte>, m': seq<byte>, p: nat, accept: set<byte>, cmp: bool)
    requires Terminated(m) && Terminated(m') && p < |m| == |m'|
    requires forall k :: p <= k < |m| ==> m[k] == m'[k]
    ensures Span(m, p, accept, cmp) == Span(m', p, accept, cmp)
    decreases |m| - p
  {
    if m[p] != 0 && (m[p] in accept) == cmp { SpanSame(m, m', p + 1, accept, cmp); }
  }

  /** The bytes of a delimiter string. */
  function BytesOf(d: seq<byte>): set<byte> {
    set k | 0 <= k < |d| && d[k] != 0 :: d[k]
  }

  /** `inner_strspn`: gathers the delimiters into a bit set, then scans. */
  method InnerStrspn(m: array<byte>, s1: nat, s2: seq<byte>, cmp: bool) returns (i: nat)
    requires Terminated(m[..]) && s1 < m.Length && IsCString(s2)
    ensures i == Span(m[..], s1, BytesOf(s2), cmp)
  {
    var bits: set<byte> := {};
    var j := 0;
    while s2[j] != 0
      invariant j < |s2| && bits == BytesOf(s2[..j])
      decreases |s2| - j
    {
      bits := bits + {s2[j]};
      j := j + 1;
    }
    assert bits == BytesOf(s2);
    i := 0;
    while m[s1 + i] != 0
      invariant s1 + i < m.Length
      invariant Span(m[..], s1, BytesOf(s2), cmp) == i + Span(m[..], s1 + i, BytesOf(s2), cmp)
      decreases m.Length - i
    {
      if (m[s1 + i] in bits) != cmp {
        break;
      }
      i := i + 1;
    }
  }

  method Strspn(m: array<byte>, s1: nat, s2: seq<byte>) returns (i: nat)
    requires Terminated(m[..]) && s1 < m.Length && IsCString(s2)
    ensures i == Span(m[..], s1, BytesOf(s2), true)
  {
    i := InnerStrspn(m, s1, s2, true);
  }

  /** Section 7.24.5.4 of C11: the first byte that is in `s2`, or null. */
  method Strpbrk(m: array<byte>, s1: nat, s2: seq<byte>) returns (r: Option<nat>)
    requires Terminated(m[..]) && s1 < m.Length && IsCString(s2)
    ensures match r
            case Some(p) => p == s1 + Span(m[..], s1, BytesOf(s2), false) && m[p] in BytesOf(s2)
            case None => m[s1 + Span(m[..], s1, BytesOf(s2), false)] == 0
  {
    var n := InnerStrspn(m, s1, s2, false);
    SpanMaximal(m[..], s1, BytesOf(s2), false);
    if m[s1 + n] != 0 {
      return Some(s1 + n);
    } else {
      return None;
    }
  }

  // ----- strstr

  /** The two masks `inner_strstr` is called with: `!0` and `!32`. */
  datatype Mask = AllBits | AllButCase

  function Masked(b: byte, mask: Mask): byte {
    if mask.AllButCase? && b / 32 % 2 == 1 then b - 32 else b
  }

  /** The first `n` bytes of the needle equal those of the haystack at `h`, up to the mask. */
  predicate Equal(hay: seq<byte>, needle: seq<byte>, mask: Mask, h: nat, n: nat)
    requires h + n <= |hay| && n <= |needle|
  {
    forall k :: 0 <= k < n ==> Masked(hay[h + k], mask) == Masked(needle[k], mask)
  }

  /** The needle occurs in the haystack at offset `h`, up to the mask. */
  predicate OccursAt(hay: seq<byte>, needle: seq<byte>, mask: Mask, h: nat)
    requires IsCString(hay) && IsCString(needle)
  {
    h + |needle| <= |hay| && Equal(hay, needle, mask, h, |needle| - 1)
  }

  /** The comparison at `h` reaches the end of the needle. A needle byte that masks to 0 also equals the
      haystack's terminator, so this can be without an occurrence. */
  predicate EndsNeedle(hay: seq<byte>, needle: seq<byte>, mask: Mask, h: nat)
    requires IsCString(hay) && IsCString(needle)
  {
    h + |needle| - 1 <= |hay| && Equal(hay, needle, mask, h, |needle| - 1)
  }

  /** The comparison at `h` goes on past the haystack's terminator. */
  predicate Overruns(hay: seq<byte>, needle: seq<byte>, mask: Mask, h: nat)
    requires IsCString(hay) && IsCString(needle)
  {
    h <= |hay| < h + |needle| - 1 && Equal(hay, needle, mask, h, |hay| - h)
  }

  /** What the search comes to. `Overrun`: it reads memory past the haystack's terminator. */
  datatype Found = At(p: nat) | Absent | Overrun

  /** No comparison before offset `h` stops the search. */
  predicate NoneBefore(hay: seq<byte>, needle: seq<byte>, mask: Mask, h: nat)
    requires IsCString(hay) && IsCString(needle)
  {
    forall q :: 0 <= q < h ==> !EndsNeedle(hay, needle, mask, q) && !Overruns(hay, needle, mask, q)
  }

  /** What `inner_strstr` does on every haystack and needle. */
  predicate Searched(hay: seq<byte>, needle: seq<byte>, mask: Mask, r: Found)
    requires IsCString(hay) && IsCString(needle)
  {
    match r
    case At(p) => p < |hay| - 1 && EndsNeedle(hay, needle, mask, p) && NoneBefore(hay, needle, mask, p)
    case Overrun => exists p :: 0 <= p < |hay| - 1 && Overruns(hay, needle, mask, p) && NoneBefore(hay, needle, mask, p)
    case Absent => NoneBefore(hay, needle, mask, |hay| - 1)
  }

  /** It finds the least occurrence up to the mask that starts before the terminator. */
  predicate LeastOccurrence(hay: seq<byte>, needle: seq<byte>, mask: Mask, r: Found)
    requires IsCString(hay) && IsCString(needle)
  {
    match r
    case At(p) => p < |hay| - 1 && OccursAt(hay, needle, mask, p)
                  && forall q :: 0 <= q < p ==> !OccursAt(hay, needle, mask, q)
    case Absent => forall q :: 0 <= q < |hay| - 1 ==> !OccursAt(hay, needle, mask, q)
    case Overrun => false
  }

  method InnerStrstr(hay: seq<byte>, needle: seq<byte>, mask: Mask) returns (r: Found)
    requires IsCString(hay) && IsCString(needle)
    ensures Searched(hay, needle, mask, r)
  {
    var h := 0;
    while hay[h] != 0
      invariant h < |hay| && NoneBefore(hay, needle, mask, h)
      decreases |hay| - h
    {
      var i := 0;
      while true
        invariant h + i <= |hay| && i < |needle| && Equal(hay, needle, mask, h, i)
        decreases |needle| - i
      {
        if needle[i] == 0 {
          assert EndsNeedle(hay, needle, mask, h);
          return At(h);
        }
        if h + i == |hay| {
          assert Overruns(hay, needle, mask, h);
          return Overrun;
        }
        if Masked(hay[h + i], mask) != Masked(needle[i], mask) {
          break;
        }
        i := i + 1;
      }
      h := h + 1;
    }
    return Absent;
  }

  /** No byte of the needle but the first may mask to 0. */
  predicate TailUnmasked(needle: seq<byte>, mask: Mask) {
    forall k :: 1 <= k < |needle| - 1 ==> Masked(needle[k], mask) != 0
  }

  lemma NoOverrun(hay: seq<byte>, needle: seq<byte>, mask: Mask, h: nat)
    requires IsCString(hay) && IsCString(needle) && TailUnmasked(needle, mask) && h < |hay| - 1
    ensures EndsNeedle(hay, needle, mask, h) <==> OccursAt(hay, needle, mask, h)
    ensures !Overruns(hay, needle, mask, h)
  {
    var k := |hay| - 1 - h;
    assert hay[h + k] == 0 && Masked(0, mask) == 0;
    assert k < |needle| - 1 ==> Masked(hay[h + k], mask) != Masked(needle[k], mask);
  }

  lemma SearchRight(hay: seq<byte>, needle: seq<byte>, mask: Mask, r: Found)
    requires IsCString(hay) && IsCString(needle) && TailUnmasked(needle, mask) && Searched(hay, needle, mask, r)
    ensures LeastOccurrence(hay, needle, mask, r)
  {
    forall h | 0 <= h < |hay| - 1
      ensures EndsNeedle(hay, needle, mask, h) <==> OccursAt(hay, needle, mask, h)
      ensures !Overruns(hay, needle, mask, h)
    {
      NoOverrun(hay, needle, mask, h);
    }
  }

  /** A needle byte after the first that masks to 0 makes the search fail on the part before it. */
  lemma SearchWrong(needle: seq<byte>, mask: Mask, k: nat)
    requires IsCString(needle) && 1 <= k < |needle| - 1 && Masked(needle[k], mask) == 0
    ensures var hay := needle[..k] + [0];
            var r := if k == |needle| - 2 then At(0) else Overrun;
            IsCString(hay) && Searched(hay, needle, mask, r) && !LeastOccurrence(hay, needle, mask, r)
  {
    var hay := needle[..k] + [0];
    assert IsCString(hay);
    assert Equal(hay, needle, mask, 0, k + 1);
    assert k == |needle| - 2 ==> EndsNeedle(hay, needle, mask, 0);
    assert k < |needle| - 2 ==> Overruns(hay, needle, mask, 0);
    assert NoneBefore(hay, needle, mask, 0);
  }

  /** Up to the mask, the search is right for a needle on every haystack exactly when no byte of it after
      the first masks to 0. */
  lemma SearchExact(needle: seq<byte>, mask: Mask)
    requires IsCString(needle)
    ensures (forall hay, r :: IsCString(hay) && Searched(hay, needle, mask, r) ==> LeastOccurrence(hay, needle, mask, r))
       <==> TailUnmasked(needle, mask)
  {
    if TailUnmasked(needle, mask) {
      forall hay, r | IsCString(hay) && Searched(hay, needle, mask, r)
        ensures LeastOccurrence(hay, needle, mask, r)
      {
        SearchRight(hay, needle, mask, r);
      }
    } else {
      var k :| 1 <= k < |needle| - 1 && Masked(needle[k], mask) == 0;
      SearchWrong(needle, mask, k);
    }
  }

  // ----- strcasestr

  predicate Letter(b: byte) {
    65 <= b <= 90 || 97 <= b <= 122
  }

  /** Lower case for ASCII letters, and every other byte itself. */
  function Fold(b: byte): byte {
    if 65 <= b <= 90 then b + 32 else b
  }

  /** The first `n` bytes of the needle equal those of the haystack at `h`, up to the case of letters. */
  predicate SameText(hay: seq<byte>, needle: seq<byte>, h: nat, n: nat)
    requires h + n <= |hay| && n <= |needle|
  {
    forall k :: 0 <= k < n ==> Fold(hay[h + k]) == Fold(needle[k])
  }

  predicate TextAt(hay: seq<byte>, needle: seq<byte>, h: nat)
    requires IsCString(hay) && IsCString(needle)
  {
    h + |needle| <= |hay| && SameText(hay, needle, h, |needle| - 1)
  }

  /** What a case-insensitive search should do: find the least occurrence up to the case of letters. */
  predicate LeastText(hay: seq<byte>, needle: seq<byte>, r: Found)
    requires IsCString(hay) && IsCString(needle)
  {
    match r
    case At(p) => p < |hay| - 1 && TextAt(hay, needle, p) && forall q :: 0 <= q < p ==> !TextAt(hay, needle, q)
    case Absent => forall q :: 0 <= q < |hay| - 1 ==> !TextAt(hay, needle, q)
    case Overrun => false
  }

  /** Every byte of the needle is a letter, but the first may be a space. */
  predicate Foldable(needle: seq<byte>) {
    forall k :: 0 <= k < |needle| - 1 ==> Letter(needle[k]) || (k == 0 && needle[k] == 32)
  }

  /** `b` with the bit flipped that the mask ignores. */
  function Flip(b: byte): byte {
    if b / 32 % 2 == 1 then b - 32 else b + 32
  }

  lemma FlipMasked(b: byte)
    ensures Flip(b) != b && Masked(Flip(b), AllButCase) == Masked(b, AllButCase)
    ensures Letter(b) <==> Fold(Flip(b)) == Fold(b)
    ensures Flip(b) == 0 <==> b == 32
  {
  }

  /** On letters, and against a space, the mask compares as case folding does. */
  lemma MaskFolds(b: byte, c: byte)
    requires Letter(c) || (c == 32 && b != 0)
    ensures Masked(b, AllButCase) == Masked(c, AllButCase) <==> Fold(b) == Fold(c)
  {
  }

  lemma TextOccurs(hay: seq<byte>, needle: seq<byte>, h: nat)
    requires IsCString(hay) && IsCString(needle) && Foldable(needle) && h < |hay| - 1
    ensures TextAt(hay, needle, h) <==> OccursAt(hay, needle, AllButCase, h)
  {
    if h + |needle| <= |hay| {
      forall k | 0 <= k < |needle| - 1
        ensures Masked(hay[h + k], AllButCase) == Masked(needle[k], AllButCase) <==> Fold(hay[h + k]) == Fold(needle[k])
      {
        MaskFolds(hay[h + k], needle[k]);
      }
    }
  }

  lemma FoldableTail(needle: seq<byte>)
    requires IsCString(needle) && Foldable(needle)
    ensures TailUnmasked(needle, AllButCase)
  {
  }

  lemma TextRight(hay: seq<byte>, needle: seq<byte>, r: Found)
    requires IsCString(hay) && IsCString(needle) && Foldable(needle) && Searched(hay, needle, AllButCase, r)
    ensures LeastText(hay, needle, r)
  {
    FoldableTail(needle);
    SearchRight(hay, needle, AllButCase, r);
    forall h | 0 <= h < |hay| - 1 ensures TextAt(hay, needle, h) <==> OccursAt(hay, needle, AllButCase, h) {
      TextOccurs(hay, needle, h);
    }
  }

  /** A needle byte that is neither a letter nor a space also matches the byte with bit 5 flipped, as `[`
      matches `{`. */
  lemma FlipWrong(needle: seq<byte>, k: nat)
    requires IsCString(needle) && k < |needle| - 1 && !Letter(needle[k]) && needle[k] != 32
    ensures var hay := needle[k := Flip(needle[k])];
            IsCString(hay) && Searched(hay, needle, AllButCase, At(0)) && !LeastText(hay, needle, At(0))
  {
    FlipMasked(needle[k]);
    var hay := needle[k := Flip(needle[k])];
    assert IsCString(hay);
    assert Equal(hay, needle, AllButCase, 0, |needle| - 1);
    assert NoneBefore(hay, needle, AllButCase, 0);
    assert Fold(hay[0 + k]) != Fold(needle[k]);
  }

  /** A space after the first byte matches the haystack's terminator. */
  lemma SpaceWrong(needle: seq<byte>, k: nat)
    requires IsCString(needle) && 1 <= k < |needle| - 1 && needle[k] == 32
    ensures var hay := needle[..k] + [0];
            var r := if k == |needle| - 2 then At(0) else Overrun;
            IsCString(hay) && Searched(hay, needle, AllButCase, r) && !LeastText(hay, needle, r)
  {
    SearchWrong(needle, AllButCase, k);
  }

  /** The case-blind search is right for a needle on every haystack exactly when the needle consists of
      letters, with at most a space in front. */
  lemma CaseExact(needle: seq<byte>)
    requires IsCString(needle)
    ensures (forall hay, r :: IsCString(hay) && Searched(hay, needle, AllButCase, r) ==> LeastText(hay, needle, r))
       <==> Foldable(needle)
  {
    if Foldable(needle) {
      forall hay, r | IsCString(hay) && Searched(hay, needle, AllButCase, r) ensures LeastText(hay, needle, r) {
        TextRight(hay, needle, r);
      }
    } else {
      var k :| 0 <= k < |needle| - 1 && !Letter(needle[k]) && !(k == 0 && needle[k] == 32);
      if needle[k] == 32 { SpaceWrong(needle, k); } else { FlipWrong(needle, k); }
    }
  }

  /** `strcasestr` */
  method Strcasestr(hay: seq<byte>, needle: seq<byte>) returns (r: Found)
    requires IsCString(hay) && IsCString(needle)
    ensures Searched(hay, needle, AllButCase, r)
    ensures Foldable(needle) ==> LeastText(hay, needle, r)
  {
    r := InnerStrstr(hay, needle, AllButCase);
    if Foldable(needle) { TextRight(hay, needle, r); }
  }

  predicate Occurs(hay: seq<byte>, needle: seq<byte>, i: nat)
    requires IsCString(hay) && IsCString(needle)
  {
    i + |needle| <= |hay| && hay[i..i + |needle| - 1] == needle[..|needle| - 1]
  }

  /** `strstr`, section 7.24.5.7 of C11: the least position where the needle occurs, null exactly
      when there is none. The one departure: an empty haystack gives null even for an empty needle. */
  method Strstr(hay: seq<byte>, needle: seq<byte>) returns (r: Option<nat>)
    requires IsCString(hay) && IsCString(needle)
    ensures |hay| == 1 ==> r == None
    ensures |hay| > 1 ==>
              match r
              case Some(p) => Occurs(hay, needle, p) && forall q :: 0 <= q < p ==> !Occurs(hay, needle, q)
              case None => forall q :: 0 <= q < |hay| ==> !Occurs(hay, needle, q)
  {
    var found := InnerStrstr(hay, needle, AllBits);
    SearchRight(hay, needle, AllBits, found);
    forall q: nat ensures Occurs(hay, needle, q) <==> OccursAt(hay, needle, AllBits, q) {
      OccursSame(hay, needle, q);
    }
    assert |hay| > 1 && |needle| == 1 ==> OccursAt(hay, needle, AllBits, 0);
    r := if found.At? then Some(found.p) else None;
  }

  lemma OccursSame(hay: seq<byte>, needle: seq<byte>, i: nat)
    requires IsCString(hay) && IsCString(needle)
    ensures Occurs(hay, needle, i) <==> OccursAt(hay, needle, AllBits, i)
  {
    if OccursAt(hay, needle, AllBits, i) {
      assert forall k :: 0 <= k < |needle| - 1 ==> hay[i + k] == needle[k];
    }
    if Occurs(hay, needle, i) {
      forall k | 0 <= k < |needle| - 1 ensures hay[i + k] == needle[k] {
        assert hay[i..i + |needle| - 1][k] == needle[..|needle| - 1][k];
      }
    }
  }

  // ----- strtok_r

  /** One call: the new buffer, the returned token and the new `*lasts`. */
  function Tok(m: seq<byte>, s: Option<nat>, delims: set<byte>, lasts: Option<nat>)
      : (seq<byte>, Option<nat>, Option<nat>)
    requires Terminated(m) && (s.Some? ==> s.value < |m|) && (lasts.Some? ==> lasts.value < |m|)
  {
    if s.Some? then Scan(m, s.value, delims)
    else if lasts.Some? then Scan(m, lasts.value, delims)
    else (m, None, None)
  }

  function Scan(m: seq<byte>, h: nat, delims: set<byte>): (seq<byte>, Option<nat>, Option<nat>)
    requires Terminated(m) && h < |m|
  {
    var a := h + Span(m, h, delims, true);
    if m[a] == 0 then (m, None, None)
    else
      var b := a + Span(m, a, delims, false);
      if m[b] != 0 then (m[b := 0], Some(a), Some(b + 1)) else (m, Some(a), None)
  }

  /** `strtok_r`: `s` is null on every call but the first, `lasts` carries the position. */
  method StrtokR(m: array<byte>, s: Option<nat>, delimiter: seq<byte>, lasts: Option<nat>)
    returns (token: Option<nat>, lasts': Option<nat>)
    requires Terminated(m[..]) && IsCString(delimiter)
    requires (s.Some? ==> s.value < m.Length) && (lasts.Some? ==> lasts.value < m.Length)
    modifies m
    ensures (m[..], token, lasts') == Tok(old(m[..]), s, BytesOf(delimiter), lasts)
    ensures Terminated(m[..]) && (lasts'.Some? ==> lasts'.value < m.Length)
  {
    var haystack := s;
    if haystack.None? {
      if lasts.None? {
        return None, None;
      }
      haystack := lasts;
    }
    var skip := Strspn(m, haystack.value, delimiter);
    var start := haystack.value + skip;
    if m[start] == 0 {
      return None, None;
    }
    token := Some(start);
    var end := Strpbrk(m, start, delimiter);
    if end.Some? {
      m[end.value] := 0;
      lasts' := Some(end.value + 1);
    } else {
      lasts' := None;
    }
  }

  /** The delimiter-free runs `[a, b)` of the string from `h` on, left to right. */
  function Runs(m: seq<byte>, delims: set<byte>, h: nat): seq<(nat, nat)>
    requires Terminated(m) && h < |m|
    decreases |m| - h
  {
    var a := h + Span(m, h, delims, true);
    if m[a] == 0 then []
    else
      SpanMaximal(m, h, delims, true);
      var b := a + Span(m, a, delims, false);
      [(a, b)] + Runs(m, delims, b)
  }

  /** `[a, b)` is non-empty, free of delimiters and cannot be extended either way. */
  predicate MaximalRun(m: seq<byte>, delims: set<byte>, a: nat, b: nat)
    requires IsCString(m)
  {
    && a < b < |m| && m[a] !in delims && (forall k :: a < k < b ==> m[k] !in delims)
    && (a == 0 || m[a - 1] in delims) && (b == |m| - 1 || m[b] in delims)
  }

  /** `Runs` lists exactly the maximal runs. */
  lemma {:induction false} RunsExact(m: seq<byte>, delims: set<byte>, h: nat, x: nat, y: nat)
    requires IsCString(m) && h < |m| && (h == 0 || h == |m| - 1 || m[h - 1] in delims || m[h] in delims)
    ensures (x, y) in Runs(m, delims, h) <==> h <= x && MaximalRun(m, delims, x, y)
    decreases |m| - h
  {
    SpanMaximal(m, h, delims, true);
    var a := h + Span(m, h, delims, true);
    if m[a] != 0 {
      SpanMaximal(m, a, delims, false);
      var b := a + Span(m, a, delims, false);
      RunsExact(m, delims, b, x, y);
      assert Runs(m, delims, h) == [(a, b)] + Runs(m, delims, b);
      assert MaximalRun(m, delims, a, b);
      if h <= x < b && MaximalRun(m, delims, x, y) {
        RunUnique(m, delims, a, b, x, y);
      }
    } else {
      assert forall k :: h <= k < |m| - 1 ==> m[k] in delims;
    }
  }

  lemma RunUnique(m: seq<byte>, delims: set<byte>, a: nat, b: nat, x: nat, y: nat)
    requires IsCString(m) && MaximalRun(m, delims, a, b) && MaximalRun(m, delims, x, y)
    requires x < b && a < y
    ensures (x, y) == (a, b)
  {
  }

  /** The runs come in order of position, each after the end of the one before. */
  lemma {:induction false} RunsOrdered(m: seq<byte>, delims: set<byte>, h: nat, i: nat)
    requires Terminated(m) && h < |m| && i < |Runs(m, delims, h)|
    ensures var rs := Runs(m, delims, h);
            h <= rs[i].0 < rs[i].1 < |m| && (i > 0 ==> rs[i - 1].1 <= rs[i].0)
    decreases |m| - h
  {
    SpanMaximal(m, h, delims, true);
    var a := h + Span(m, h, delims, true);
    var b := a + Span(m, a, delims, false);
    var rest := Runs(m, delims, b);
    assert Runs(m, delims, h) == [(a, b)] + rest;
    if i > 0 { RunsOrdered(m, delims, b, i - 1); }
  }

  /** A tokenizing session: the buffer, the tokens returned so far and `*lasts`. */
  datatype Session = Session(m: seq<byte>, tokens: seq<Option<nat>>, lasts: Option<nat>)

  predicate ValidSession(r: Session) {
    Terminated(r.m) && (r.lasts.Some? ==> r.lasts.value < |r.m|)
  }

  /** The next call: the first is made with the string itself, every later one with null. */
  function Call(r: Session, delims: set<byte>): (r': Session)
    requires ValidSession(r)
    ensures ValidSession(r') && |r'.m| == |r.m| && |r'.tokens| == |r.tokens| + 1
  {
    var (m, token, lasts) := Tok(r.m, if r.tokens == [] then Some(0) else None, delims, r.lasts);
    Session(m, r.tokens + [token], lasts)
  }

  /** One call after the other, each with delimiters of its own. */
  function After(m0: seq<byte>, ds: seq<set<byte>>): (r: Session)
    requires Terminated(m0)
    ensures ValidSession(r) && |r.m| == |m0| && |r.tokens| == |ds|
  {
    if ds == [] then Session(m0, [], None) else Call(After(m0, ds[..|ds| - 1]), ds[|ds| - 1])
  }

  function RunStart(m: seq<byte>, h: nat, delims: set<byte>): (a: nat)
    requires Terminated(m) && h < |m|
    ensures h <= a < |m|
  {
    h + Span(m, h, delims, true)
  }

  function RunEnd(m: seq<byte>, h: nat, delims: set<byte>): (b: nat)
    requires Terminated(m) && h < |m|
    ensures RunStart(m, h, delims) <= b < |m|
  {
    var a := RunStart(m, h, delims);
    a + Span(m, a, delims, false)
  }

  /** The run `[a, b)` each call should return, if any, and where the next call resumes. */
  datatype Plan = Plan(runs: seq<Option<(nat, nat)>>, resume: Option<nat>)

  function Resumed(m: seq<byte>, b: nat): Option<nat>
    requires b < |m|
  {
    if m[b] == 0 then None else Some(b + 1)
  }

  function Extend(m: seq<byte>, p: Plan, delims: set<byte>): (p': Plan)
    requires Terminated(m) && (p.resume.Some? ==> p.resume.value < |m|)
    ensures |p'.runs| == |p.runs| + 1 && (p'.resume.Some? ==> p'.resume.value < |m|)
  {
    match p.resume
    case None => Plan(p.runs + [None], None)
    case Some(h) =>
      var a, b := RunStart(m, h, delims), RunEnd(m, h, delims);
      if m[a] == 0 then Plan(p.runs + [None], None) else Plan(p.runs + [Some((a, b))], Resumed(m, b))
  }

  /** The runs found in a string that nobody writes to: each call skips its own delimiters from where the
      last one stopped, takes the longest run free of them, and stops behind the byte that ends it. */
  function PlanOf(m: seq<byte>, ds: seq<set<byte>>): (p: Plan)
    requires Terminated(m)
    ensures |p.runs| == |ds| && (p.resume.Some? ==> p.resume.value < |m|)
  {
    if ds == [] then Plan([], Some(0)) else Extend(m, PlanOf(m, ds[..|ds| - 1]), ds[|ds| - 1])
  }

  // ----- what the plan means

  /** `[a, b)` is the first maximal delimiter-free run of the string from `h` on. */
  predicate FirstRun(m: seq<byte>, delims: set<byte>, h: nat, a: nat, b: nat)
    requires IsCString(m)
  {
    && h <= a < b < |m| && (forall k :: h <= k < a ==> m[k] in delims)
    && (forall k :: a <= k < b ==> m[k] !in delims) && (b == |m| - 1 || m[b] in delims)
  }

  predicate AllDelims(m: seq<byte>, delims: set<byte>, h: nat) {
    forall k :: h <= k < |m| - 1 ==> m[k] in delims
  }

  lemma ExtendMeaning(m: seq<byte>, h: nat, delims: set<byte>)
    requires IsCString(m) && h < |m|
    ensures var a, b := RunStart(m, h, delims), RunEnd(m, h, delims);
            if m[a] == 0 then AllDelims(m, delims, h) else FirstRun(m, delims, h, a, b)
  {
    SpanMaximal(m, h, delims, true);
    SpanMaximal(m, RunStart(m, h, delims), delims, false);
  }

  lemma {:induction false} PlanPrefix(m: seq<byte>, ds: seq<set<byte>>, k: nat)
    requires Terminated(m) && k <= |ds|
    ensures PlanOf(m, ds).runs[..k] == PlanOf(m, ds[..k]).runs
    decreases |ds|
  {
    if k < |ds| {
      var front := ds[..|ds| - 1];
      PlanPrefix(m, front, k);
      assert front[..k] == ds[..k];
    } else {
      assert ds[..k] == ds;
    }
  }

  /** Call `k` finds the first run, by its own delimiters, of the string from where call `k - 1` stopped;
      it finds none exactly when an earlier call used the string up or only delimiters are left. */
  lemma PlanMeaning(m: seq<byte>, ds: seq<set<byte>>, k: nat)
    requires IsCString(m) && k < |ds|
    ensures match PlanOf(m, ds[..k]).resume
            case None => PlanOf(m, ds).runs[k] == None
            case Some(h) =>
              match PlanOf(m, ds).runs[k]
              case None => AllDelims(m, ds[k], h)
              case Some((a, b)) => FirstRun(m, ds[k], h, a, b)
  {
    PlanPrefix(m, ds, k + 1);
    assert ds[..k + 1][..k] == ds[..k] && ds[..k + 1][k] == ds[k];
    assert PlanOf(m, ds).runs[k] == PlanOf(m, ds).runs[..k + 1][k];
    var p := PlanOf(m, ds[..k]);
    if p.resume.Some? { ExtendMeaning(m, p.resume.value, ds[k]); }
  }

  /** Where the next call resumes: nowhere if a call found no run or its run ended at the terminator, and
      otherwise just behind the delimiter that ended its run. */
  lemma ResumeMeaning(m: seq<byte>, p: Plan, delims: set<byte>)
    requires IsCString(m) && (p.resume.Some? ==> p.resume.value < |m|)
    ensures var p' := Extend(m, p, delims);
            match p'.runs[|p.runs|]
            case None => p'.resume == None
            case Some((a, b)) => p'.resume == if b == |m| - 1 then None else Some(b + 1)
  {
    if p.resume.Some? { ExtendMeaning(m, p.resume.value, delims); }
  }

  /** All runs end before the place where the next call resumes. */
  predicate EndBefore(runs: seq<Option<(nat, nat)>>, h: nat) {
    forall k :: 0 <= k < |runs| && runs[k].Some? ==> runs[k].value.1 < h
  }

  lemma {:induction false} PlanEnds(m: seq<byte>, ds: seq<set<byte>>)
    requires IsCString(m)
    ensures PlanOf(m, ds).resume.Some? ==> EndBefore(PlanOf(m, ds).runs, PlanOf(m, ds).resume.value)
    ensures forall k :: 0 <= k < |ds| && PlanOf(m, ds).runs[k].Some? ==> PlanOf(m, ds).runs[k].value.1 < |m|
  {
    if ds != [] { PlanEnds(m, ds[..|ds| - 1]); }
  }

  /** Later runs start behind the byte that ends an earlier one. */
  lemma RunsApart(m: seq<byte>, ds: seq<set<byte>>, j: nat, k: nat)
    requires IsCString(m) && j < k < |ds| && PlanOf(m, ds).runs[j].Some? && PlanOf(m, ds).runs[k].Some?
    ensures PlanOf(m, ds).runs[j].value.1 < PlanOf(m, ds).runs[k].value.0
  {
    PlanMeaning(m, ds, k);
    PlanEnds(m, ds[..k]);
    PlanPrefix(m, ds, k);
    assert PlanOf(m, ds).runs[j] == PlanOf(m, ds).runs[..k][j];
  }

  // ----- the calls follow the plan

  ghost predicate EndsAt(runs: seq<Option<(nat, nat)>>, p: nat) {
    exists k :: 0 <= k < |runs| && runs[k].Some? && runs[k].value.1 == p
  }

  /** `m` with a NUL written at the end of each run. */
  ghost function Punched(m: seq<byte>, runs: seq<Option<(nat, nat)>>): (r: seq<byte>)
    ensures |r| == |m|
  {
    seq(|m|, p requires 0 <= p < |m| => if EndsAt(runs, p) then 0 else m[p])
  }

  lemma PunchNone(m: seq<byte>, runs: seq<Option<(nat, nat)>>)
    ensures Punched(m, runs + [None]) == Punched(m, runs)
  {
    forall p ensures EndsAt(runs + [None], p) <==> EndsAt(runs, p) {
      if EndsAt(runs, p) {
        var k :| 0 <= k < |runs| && runs[k].Some? && runs[k].value.1 == p;
        assert (runs + [None])[k] == runs[k];
      }
    }
  }

  lemma PunchNext(m: seq<byte>, runs: seq<Option<(nat, nat)>>, a: nat, b: nat)
    requires b < |m|
    ensures Punched(m, runs + [Some((a, b))]) == Punched(m, runs)[b := 0]
  {
    var runs' := runs + [Some((a, b))];
    assert runs'[|runs|] == Some((a, b));
    forall p ensures EndsAt(runs', p) <==> EndsAt(runs, p) || p == b {
      if EndsAt(runs, p) {
        var k :| 0 <= k < |runs| && runs[k].Some? && runs[k].value.1 == p;
        assert runs'[k] == runs[k];
      }
    }
  }

  function StartOf(run: Option<(nat, nat)>): Option<nat> {
    match run
    case None => None
    case Some((a, _)) => Some(a)
  }

  /** The session has returned the planned runs, cut each off with a NUL, and resumes where planned. */
  ghost predicate Follows(m0: seq<byte>, p: Plan, r: Session) {
    && |r.tokens| == |p.runs| && (forall k :: 0 <= k < |r.tokens| ==> r.tokens[k] == StartOf(p.runs[k]))
    && r.m == Punched(m0, p.runs) && p.resume == if r.tokens == [] then Some(0) else r.lasts
  }

  lemma ScanSame(m0: seq<byte>, m: seq<byte>, h: nat, delims: set<byte>)
    requires Terminated(m0) && Terminated(m) && h < |m0| == |m|
    requires forall p :: h <= p < |m0| ==> m[p] == m0[p]
    ensures var a, b := RunStart(m0, h, delims), RunEnd(m0, h, delims);
            Scan(m, h, delims) == if m0[a] == 0 then (m, None, None)
                                  else if m0[b] == 0 then (m, Some(a), None)
                                  else (m[b := 0], Some(a), Some(b + 1))
  {
    SpanSame(m0, m, h, delims, true);
    SpanSame(m0, m, RunStart(m0, h, delims), delims, false);
  }

  lemma Untouched(m: seq<byte>, runs: seq<Option<(nat, nat)>>, h: nat)
    requires EndBefore(runs, h)
    ensures forall p :: h <= p < |m| ==> Punched(m, runs)[p] == m[p]
  {
  }

  lemma CallFollows(m0: seq<byte>, p: Plan, r: Session, delims: set<byte>)
    requires IsCString(m0) && ValidSession(r) && Follows(m0, p, r)
    requires p.resume.Some? ==> p.resume.value < |m0| && EndBefore(p.runs, p.resume.value)
    ensures Follows(m0, Extend(m0, p, delims), Call(r, delims))
  {
    PunchNone(m0, p.runs);
    if p.resume.Some? {
      var h := p.resume.value;
      Untouched(m0, p.runs, h);
      ScanSame(m0, r.m, h, delims);
      var a, b := RunStart(m0, h, delims), RunEnd(m0, h, delims);
      PunchNext(m0, p.runs, a, b);
      assert m0[b] == 0 ==> r.m[b := 0] == r.m;
    }
  }

  /** Any number of calls, each with any delimiters: the calls return the runs of the plan, cut each off
      with a NUL and change nothing else. */
  lemma {:induction false} StrtokSession(m0: seq<byte>, ds: seq<set<byte>>)
    requires IsCString(m0)
    ensures Follows(m0, PlanOf(m0, ds), After(m0, ds))
  {
    if ds == [] {
      assert Punched(m0, []) == m0;
    } else {
      var front := ds[..|ds| - 1];
      StrtokSession(m0, front);
      PlanEnds(m0, front);
      CallFollows(m0, PlanOf(m0, front), After(m0, front), ds[|ds| - 1]);
    }
  }

  /** The buffer changes only by NULs, each written over a delimiter of the call that wrote it. */
  lemma StrtokBuffer(m0: seq<byte>, ds: seq<set<byte>>, p: nat)
    requires IsCString(m0) && p < |m0|
    ensures var m := After(m0, ds).m;
            m[p] == m0[p] || (m[p] == 0 && exists k :: 0 <= k < |ds| && m0[p] in ds[k])
  {
    StrtokSession(m0, ds);
    var runs := PlanOf(m0, ds).runs;
    if EndsAt(runs, p) {
      var k :| 0 <= k < |runs| && runs[k].Some? && runs[k].value.1 == p;
      PlanMeaning(m0, ds, k);
    }
  }

  /** Every token returned so far is still in the buffer, intact and NUL-terminated. */
  lemma StrtokTokens(m0: seq<byte>, ds: seq<set<byte>>, k: nat)
    requires IsCString(m0) && k < |ds| && PlanOf(m0, ds).runs[k].Some?
    ensures var (a, b) := PlanOf(m0, ds).runs[k].value;
            var m := After(m0, ds).m;
            && After(m0, ds).tokens[k] == Some(a) && a < b < |m0|
            && m[a..b] == m0[a..b] && m[b] == 0
  {
    StrtokSession(m0, ds);
    PlanMeaning(m0, ds, k);
    var runs := PlanOf(m0, ds).runs;
    var (a, b) := runs[k].value;
    forall p | a <= p < b ensures !EndsAt(runs, p) {
      TokenUncut(m0, ds, k, p);
    }
    PunchedToken(m0, runs, k, a, b);
  }

  lemma PunchedToken(m: seq<byte>, runs: seq<Option<(nat, nat)>>, k: nat, a: nat, b: nat)
    requires k < |runs| && runs[k] == Some((a, b)) && a <= b < |m|
    requires forall p :: a <= p < b ==> !EndsAt(runs, p)
    ensures Punched(m, runs)[a..b] == m[a..b] && Punched(m, runs)[b] == 0
  {
  }

  lemma TokenUncut(m0: seq<byte>, ds: seq<set<byte>>, k: nat, p: nat)
    requires IsCString(m0) && k < |ds| && PlanOf(m0, ds).runs[k].Some?
    requires PlanOf(m0, ds).runs[k].value.0 <= p < PlanOf(m0, ds).runs[k].value.1
    ensures !EndsAt(PlanOf(m0, ds).runs, p)
  {
    var runs := PlanOf(m0, ds).runs;
    if EndsAt(runs, p) {
      var j :| 0 <= j < |runs| && runs[j].Some? && runs[j].value.1 == p;
      PlanMeaning(m0, ds, j);
      if j < k { RunsApart(m0, ds, j, k); }
      if k < j { RunsApart(m0, ds, k, j); }
    }
  }

  // ----- the same delimiters in every call

  function Repeat(delims: set<byte>, n: nat): (ds: seq<set<byte>>)
    ensures |ds| == n
  {
    if n == 0 then [] else Repeat(delims, n - 1) + [delims]
  }

  function Expected(rs: seq<(nat, nat)>, k: nat): Option<(nat, nat)> {
    if k < |rs| then Some(rs[k]) else None
  }

  lemma RunsSkip(m: seq<byte>, delims: set<byte>, b: nat)
    requires Terminated(m) && b + 1 < |m| && m[b] != 0 && m[b] in delims
    ensures Runs(m, delims, b) == Runs(m, delims, b + 1)
  {
  }

  lemma RunsUnfold(m: seq<byte>, h: nat, delims: set<byte>)
    requires Terminated(m) && h < |m|
    ensures var a, b := RunStart(m, h, delims), RunEnd(m, h, delims);
            && (m[a] == 0 ==> Runs(m, delims, h) == [])
            && (m[a] != 0 ==> Runs(m, delims, h) == [(a, b)] + Runs(m, delims, b))
            && (m[b] == 0 || m[b] in delims)
  {
    SpanMaximal(m, RunStart(m, h, delims), delims, false);
  }

  /** After `n` calls the runs from where the plan resumes are those not returned yet. */
  predicate Left(m: seq<byte>, delims: set<byte>, n: nat, resume: Option<nat>)
    requires Terminated(m)
  {
    var rs := Runs(m, delims, 0);
    match resume
    case None => |rs| <= n
    case Some(h) => n <= |rs| && h < |m| && Runs(m, delims, h) == rs[n..]
  }

  lemma LeftNext(m: seq<byte>, delims: set<byte>, n: nat, p: Plan)
    requires IsCString(m) && Left(m, delims, n, p.resume) && |p.runs| == n
    ensures var p' := Extend(m, p, delims);
            Left(m, delims, n + 1, p'.resume) && p'.runs == p.runs + [Expected(Runs(m, delims, 0), n)]
  {
    var rs := Runs(m, delims, 0);
    if p.resume.Some? {
      var h := p.resume.value;
      RunsUnfold(m, h, delims);
      var a, b := RunStart(m, h, delims), RunEnd(m, h, delims);
      if m[a] != 0 {
        assert rs[n] == rs[n..][0] == (a, b);
        assert rs[n + 1..] == rs[n..][1..] == Runs(m, delims, b);
        if m[b] != 0 { RunsSkip(m, delims, b); }
      }
    }
  }

  lemma {:induction false} FixedPlan(m: seq<byte>, delims: set<byte>, n: nat)
    requires IsCString(m)
    ensures var p, rs := PlanOf(m, Repeat(delims, n)), Runs(m, delims, 0);
            Left(m, delims, n, p.resume) && forall k :: 0 <= k < n ==> p.runs[k] == Expected(rs, k)
  {
    if n == 0 {
      assert Runs(m, delims, 0)[0..] == Runs(m, delims, 0);
    } else {
      FixedPlan(m, delims, n - 1);
      var ds := Repeat(delims, n);
      assert ds[..|ds| - 1] == Repeat(delims, n - 1);
      var p := PlanOf(m, Repeat(delims, n - 1));
      LeftNext(m, delims, n - 1, p);
      ExpectedNext(p.runs, Runs(m, delims, 0));
    }
  }

  lemma ExpectedNext(runs: seq<Option<(nat, nat)>>, rs: seq<(nat, nat)>)
    requires forall k :: 0 <= k < |runs| ==> runs[k] == Expected(rs, k)
    ensures var runs' := runs + [Expected(rs, |runs|)];
            forall k :: 0 <= k < |runs'| ==> runs'[k] == Expected(rs, k)
  {
  }

  /** With the same delimiters in every call, call `k` returns the `k`-th maximal run of the string, and
      null for ever after the last one. */
  lemma StrtokFixed(m0: seq<byte>, delims: set<byte>, n: nat, k: nat)
    requires IsCString(m0) && k < n
    ensures var rs := Runs(m0, delims, 0);
            After(m0, Repeat(delims, n)).tokens[k] == if k < |rs| then Some(rs[k].0) else None
  {
    StrtokSession(m0, Repeat(delims, n));
    FixedPlan(m0, delims, n);
  }
}
