/** The iterators of libs/percent_encoding/lib.rs: the chunking encoder, the backtracking decoder
    and the fast path `if_any`, each proved against the bytewise functions of `PercentEncoding`. */
module PercentIterators {
  import opened Bytes
  import opened PercentEncoding

  // ----- the encoder

  datatype Step = Done | Chunk(text: seq<byte>) | Panic

  predicate AllAscii(bs: Input) {
    forall k :: 0 <= k < |bs| ==> bs[k] < 128
  }

  /** The length of the longest prefix without bytes of the set. */
  function PlainLen(bs: Input, s: set<byte>): (n: nat)
    ensures n <= |bs|
  {
    if bs == [] || bs[0] in s then 0 else 1 + PlainLen(bs[1..], s)
  }

  /** One step of the encoder: what it yields and what is left. */
  function NextChunk(bs: Input, s: set<byte>): (Step, Input) {
    if bs == [] then (Done, bs)
    else if bs[0] in s then (Chunk(EncodeByte(bs[0])), bs[1..])
    else if AllAscii(bs[..PlainLen(bs, s)]) then (Chunk(bs[..PlainLen(bs, s)]), bs[PlainLen(bs, s)..])
    else (Panic, bs)
  }

  /** All chunks the encoder yields, and whether one of its assertions then fails. */
  function Chunks(bs: Input, s: set<byte>): (seq<seq<byte>>, bool)
    decreases |bs|
  {
    match NextChunk(bs, s)
    case (Done, _) => ([], false)
    case (Panic, _) => ([], true)
    case (Chunk(text), rest) => var (more, panics) := Chunks(rest, s); ([text] + more, panics)
  }

  function Flatten(parts: seq<seq<byte>>): seq<byte> {
    if parts == [] then [] else parts[0] + Flatten(parts[1..])
  }

  lemma ChunksUnfold(bs: Input, s: set<byte>)
    ensures match NextChunk(bs, s)
            case (Done, _) => Chunks(bs, s) == ([], false)
            case (Panic, _) => Chunks(bs, s) == ([], true)
            case (Chunk(text), rest) =>
              var (more, panics) := Chunks(rest, s);
              Chunks(bs, s) == ([text] + more, panics) && Flatten([text] + more) == text + Flatten(more)
  {
    match NextChunk(bs, s)
    case (Done, _) =>
    case (Panic, _) =>
    case (Chunk(text), rest) => assert ([text] + Chunks(rest, s).0)[1..] == Chunks(rest, s).0;
  }

  lemma {:induction false} PlainPrefix(bs: Input, s: set<byte>)
    ensures var n := PlainLen(bs, s);
            && Free(bs[..n], s) && (n < |bs| ==> bs[n] in s)
            && Encode(bs, s) == bs[..n] + Encode(bs[n..], s)
  {
    if bs != [] && bs[0] !in s {
      PlainPrefix(bs[1..], s);
      var n := PlainLen(bs[1..], s);
      assert bs[..n + 1] == [bs[0]] + bs[1..][..n] && bs[n + 1..] == bs[1..][n..];
    }
  }

  /** The encoder's assertions hold on an input exactly when each of its non-ASCII bytes is in the set. */
  predicate Encodable(bs: Input, s: set<byte>) {
    forall k :: 0 <= k < |bs| && 128 <= bs[k] ==> bs[k] in s
  }

  lemma EncodableSplit(bs: Input, s: set<byte>, n: nat)
    requires n <= |bs|
    ensures Encodable(bs, s) <==> Encodable(bs[..n], s) && Encodable(bs[n..], s)
  {
  }

  /** For every input and set: the chunks are non-empty, at least one and at most one per byte, they
      concatenate to the bytewise encoding, and the assertions hold exactly on encodable inputs. */
  lemma {:induction false} ChunksEncode(bs: Input, s: set<byte>)
    ensures var (cs, panics) := Chunks(bs, s);
            && (panics <==> !Encodable(bs, s))
            && (!panics ==> Flatten(cs) == Encode(bs, s))
            && (forall k :: 0 <= k < |cs| ==> cs[k] != [])
            && |cs| <= |bs| && (!panics && bs != [] ==> 1 <= |cs|)
    decreases |bs|
  {
    if bs != [] {
      var n := if bs[0] in s then 1 else PlainLen(bs, s);
      PlainPrefix(bs, s);
      EncodableSplit(bs, s, n);
      if bs[0] in s || AllAscii(bs[..n]) {
        ChunksEncode(bs[n..], s);
        assert bs[0] in s ==> Encodable(bs[..1], s);
      }
    }
  }

  /** The `Cow` conversion borrows exactly when there is at most one chunk: a single byte, or nothing
      to encode. */
  lemma FewChunks(bs: Input, s: set<byte>)
    requires Encodable(bs, s)
    ensures |Chunks(bs, s).0| <= 1 <==> |bs| <= 1 || Free(bs, s)
  {
    if bs != [] {
      var n := if bs[0] in s then 1 else PlainLen(bs, s);
      PlainPrefix(bs, s);
      ChunksEncode(bs, s);
      ChunksEncode(bs[n..], s);
      EncodableSplit(bs, s, n);
      if n == |bs| { assert bs[..n] == bs; }
    }
  }

  datatype Cow = Borrowed(text: seq<byte>) | Owned(text: seq<byte>) | Panicked

  class PercentEncode {
    var bytes: Input
    const encodeSet: set<byte>

    constructor (input: Input, encodeSet: set<byte>)
      ensures bytes == input && this.encodeSet == encodeSet
    {
      this.bytes := input;
      this.encodeSet := encodeSet;
    }

    /** `next` */
    method Next() returns (r: Step)
      modifies this
      ensures (r, bytes) == NextChunk(old(bytes), encodeSet)
    {
      if bytes == [] {
        return Done;
      }
      var first, remaining := bytes[0], bytes[1..];
      if first in encodeSet {
        bytes := remaining;
        return Chunk(EncodeByte(first));
      }
      PlainPrefix(bytes, encodeSet);
      if !(first < 128) {
        return Panic;
      }
      for i := 0 to |remaining|
        invariant bytes == old(bytes) && forall j :: 0 <= j <= i ==> bytes[j] < 128
        invariant i + 1 <= PlainLen(bytes, encodeSet)
      {
        if remaining[i] in encodeSet {
          var plain := bytes[..1 + i];
          bytes := bytes[1 + i..];
          return Chunk(plain);
        } else if !(remaining[i] < 128) {
          assert bytes[..PlainLen(bytes, encodeSet)][i + 1] == remaining[i];
          return Panic;
        }
      }
      assert bytes[..|bytes|] == bytes;
      var plain := bytes;
      bytes := [];
      return Chunk(plain);
    }

    /** `size_hint` bounds the number of chunks still to come. */
    method SizeHint() returns (lower: nat, upper: nat)
      ensures Encodable(bytes, encodeSet) ==> lower <= |Chunks(bytes, encodeSet).0| <= upper
      ensures (lower == 0 <==> bytes == []) && lower <= 1 && upper == |bytes|
    {
      ChunksEncode(bytes, encodeSet);
      if bytes == [] {
        return 0, 0;
      } else {
        return 1, |bytes|;
      }
    }

    /** The conversion into `Cow<str>`, which consumes the iterator. */
    method IntoCow() returns (r: Cow)
      modifies this
      ensures r.Panicked? <==> !Encodable(old(bytes), encodeSet)
      ensures !r.Panicked? ==> r.text == Encode(old(bytes), encodeSet)
      ensures !r.Panicked? ==> (r.Borrowed? <==> |old(bytes)| <= 1 || Free(old(bytes), encodeSet))
    {
      ChunksEncode(bytes, encodeSet);
      if Encodable(bytes, encodeSet) { FewChunks(bytes, encodeSet); }
      r := Join();
    }

    /** Borrows the only chunk, or appends all of them. */
    method Join() returns (r: Cow)
      modifies this
      ensures var (cs, panics) := Chunks(old(bytes), encodeSet);
              && (r.Panicked? <==> panics)
              && (!panics ==> r.text == Flatten(cs) && (r.Borrowed? <==> |cs| <= 1))
    {
      ChunksUnfold(bytes, encodeSet);
      var first := Next();
      if first.Done? { return Borrowed([]); }
      if first.Panic? { return Panicked; }
      r := JoinMore(first.text);
    }

    /** Looks for a second chunk. */
    method JoinMore(first: seq<byte>) returns (r: Cow)
      modifies this
      ensures var (cs, panics) := Chunks(old(bytes), encodeSet);
              && (r.Panicked? <==> panics)
              && (!panics ==> r.text == first + Flatten(cs) && (r.Borrowed? <==> cs == []))
    {
      ChunksUnfold(bytes, encodeSet);
      var second := Next();
      if second.Done? { return Borrowed(first); }
      if second.Panic? { return Panicked; }
      var text := Extend(first + second.text);
      if text.None? { return Panicked; }
      return Owned(text.value);
    }

    /** `string.extend(iter)`: appends every chunk still to come. */
    method Extend(start: seq<byte>) returns (r: Option<seq<byte>>)
      modifies this
      ensures r.None? <==> Chunks(old(bytes), encodeSet).1
      ensures r.Some? ==> r.value == start + Flatten(Chunks(old(bytes), encodeSet).0)
    {
      ghost var (cs, panics) := Chunks(bytes, encodeSet);
      var text := start;
      while true
        invariant panics == Chunks(bytes, encodeSet).1
        invariant start + Flatten(cs) == text + Flatten(Chunks(bytes, encodeSet).0)
        decreases |bytes|
      {
        ChunksUnfold(bytes, encodeSet);
        var more := Next();
        if more.Done? { return Some(text); }
        if more.Panic? { return None; }
        text := text + more.text;
      }
    }
  }

  // ----- the decoder, on an input slice and a position in it

  function EscapeAt(bs: Input, p: nat): Option<byte> {
    if p + 1 < |bs| && IsHex(bs[p]) && IsHex(bs[p + 1])
    then Some(ToDigit(bs[p]).value * 16 + ToDigit(bs[p + 1]).value)
    else None
  }

  function DecodeFrom(bs: Input, p: nat): seq<byte>
    decreases |bs| - p
  {
    if p >= |bs| then []
    else if bs[p] == PERCENT && EscapeAt(bs, p + 1).Some?
    then [EscapeAt(bs, p + 1).value] + DecodeFrom(bs, p + 3)
    else [bs[p]] + DecodeFrom(bs, p + 1)
  }

  lemma {:induction false} DecodeFromIsDecode(bs: Input, p: nat)
    requires p <= |bs|
    ensures DecodeFrom(bs, p) == Decode(bs[p..])
    decreases |bs| - p
  {
    if p < |bs| {
      assert bs[p..][1..] == bs[p + 1..];
      assert Escape(bs[p + 1..]) == EscapeAt(bs, p + 1);
      if bs[p] == PERCENT && EscapeAt(bs, p + 1).Some? {
        assert bs[p..][3..] == bs[p + 3..];
        DecodeFromIsDecode(bs, p + 3);
      } else {
        DecodeFromIsDecode(bs, p + 1);
      }
    }
  }

  /** The decoder yields at least a third of the remaining length, and at most all of it. */
  lemma {:induction false} DecodeLength(bs: Input, p: nat)
    requires p <= |bs|
    ensures |DecodeFrom(bs, p)| <= |bs| - p <= 3 * |DecodeFrom(bs, p)|
    decreases |bs| - p
  {
    if p < |bs| {
      if bs[p] == PERCENT && EscapeAt(bs, p + 1).Some? { DecodeLength(bs, p + 3); } else { DecodeLength(bs, p + 1); }
    }
  }

  /** `after_percent_sign`: consumes two hex digits, or restores the iterator and yields nothing. */
  method AfterPercentSign(bs: Input, p: nat) returns (r: Option<byte>, p': nat)
    requires p <= |bs|
    ensures r == EscapeAt(bs, p) && p' == if r.Some? then p + 2 else p
  {
    var initial := p;
    p' := p;
    var h: Option<nat> := None;
    var l: Option<nat> := None;
    if p' < |bs| { h, p' := ToDigit(bs[p']), p' + 1; }
    if p' < |bs| { l, p' := ToDigit(bs[p']), p' + 1; }
    if h.Some? && l.Some? {
      r := Some(h.value * 16 + l.value);
    } else {
      p' := initial;
      r := None;
    }
  }

  /** Decoding leaves the first `k` bytes alone and goes on from there. */
  predicate PlainUpTo(bs: Input, k: nat) {
    k <= |bs| && DecodeFrom(bs, 0) == bs[..k] + DecodeFrom(bs, k)
  }

  /** At a byte that starts no escape, decoding goes on plainly. */
  lemma PlainByte(bs: Input, k: nat)
    requires PlainUpTo(bs, k) && k < |bs| && (bs[k] == PERCENT ==> EscapeAt(bs, k + 1).None?)
    ensures PlainUpTo(bs, k + 1)
  {
  }

  /** At an escape, decoding changes the input for good. */
  lemma EscapeFound(bs: Input, k: nat)
    requires PlainUpTo(bs, k) && k < |bs| && bs[k] == PERCENT && EscapeAt(bs, k + 1).Some?
    ensures DecodeFrom(bs, 0) == bs[..k] + ([EscapeAt(bs, k + 1).value] + DecodeFrom(bs, k + 3))
    ensures |DecodeFrom(bs, 0)| < |bs|
  {
    DecodeLength(bs, k + 3);
  }

  class PercentDecode {
    const input: Input
    var pos: nat

    constructor (input: Input)
      ensures this.input == input && pos == 0
    {
      this.input := input;
      this.pos := 0;
    }

    /** The bytes the iterator has not consumed. */
    ghost function Remaining(): Input
      requires pos <= |input|
      reads this
    {
      input[pos..]
    }

    /** `next`: yields the head of the decoding of what is left. */
    method Next() returns (r: Option<byte>)
      requires pos <= |input|
      modifies this
      ensures old(pos) <= pos <= |input| && (r.None? <==> old(pos) == |input|)
      ensures r.Some? ==> old(pos) < pos
      ensures Decode(old(Remaining())) == (if r.Some? then [r.value] else []) + Decode(Remaining())
    {
      DecodeFromIsDecode(input, pos);
      ghost var start := pos;
      if pos == |input| {
        return None;
      }
      var first := input[pos];
      pos := pos + 1;
      if first == PERCENT {
        var decoded, pos' := AfterPercentSign(input, pos);
        pos := pos';
        r := if decoded.Some? then decoded else Some(first);
      } else {
        r := Some(first);
      }
      DecodeFromIsDecode(input, pos);
    }

    /** `size_hint` bounds the number of bytes still to come, in every state. */
    method SizeHint() returns (lower: nat, upper: nat)
      requires pos <= |input|
      ensures lower <= |Decode(Remaining())| <= upper
      ensures lower == |Remaining()| / 3 && upper == |Remaining()|
    {
      DecodeLength(input, pos);
      DecodeFromIsDecode(input, pos);
      return (|input| - pos) / 3, |input| - pos;
    }

    /** `if_any`: the full decoding if it differs from the input, and nothing otherwise. */
    method IfAny() returns (r: Option<seq<byte>>)
      requires pos <= |input|
      ensures r.Some? <==> Decode(Remaining()) != Remaining()
      ensures r.Some? ==> r.value == Decode(Remaining())
    {
      var bytes := input[pos..];
      r := FindEscape(bytes);
      DecodeFromIsDecode(bytes, 0);
      assert bytes[0..] == bytes;
    }

    /** The conversion into `Cow<[u8]>` has the same bytes as collecting the iterator. */
    method IntoCow() returns (r: Cow)
      requires pos <= |input|
      ensures !r.Panicked? && r.text == Decode(Remaining())
      ensures r.Borrowed? <==> Decode(Remaining()) == Remaining()
    {
      var decoded := IfAny();
      match decoded
      case Some(text) => r := Owned(text);
      case None => r := Borrowed(input[pos..]);
    }
  }

  /** The search loop of `if_any` over the bytes not yet consumed. */
  method FindEscape(bytes: Input) returns (r: Option<seq<byte>>)
    ensures r.Some? <==> DecodeFrom(bytes, 0) != bytes
    ensures r.Some? ==> r.value == DecodeFrom(bytes, 0)
  {
    var iter := 0;
    while true
      invariant PlainUpTo(bytes, iter)
      decreases |bytes| - iter
    {
      var found;
      found, iter := SkipPast(bytes, iter);
      if !found {
        break;
      }
      var decoded, iter' := AfterPercentSign(bytes, iter);
      if decoded.Some? {
        var text := DecodeRest(bytes, iter', decoded.value);
        return Some(text);
      }
      PlainByte(bytes, iter - 1);
      iter := iter';
    }
    assert bytes[..|bytes|] == bytes;
    return None;
  }

  /** The unchanged bytes before an escape that ends at `iter`, its byte, and the decoding of the rest. */
  method DecodeRest(bytes: Input, iter: nat, decoded: byte) returns (r: seq<byte>)
    requires 3 <= iter <= |bytes| && PlainUpTo(bytes, iter - 3)
    requires bytes[iter - 3] == PERCENT && EscapeAt(bytes, iter - 2) == Some(decoded)
    ensures r == DecodeFrom(bytes, 0) && r != bytes
  {
    EscapeFound(bytes, iter - 3);
    var unchangedLen := |bytes| - (|bytes| - iter) - 3;
    var tail := Collect(bytes, iter);
    return bytes[..unchangedLen] + ([decoded] + tail);
  }

  /** `iter.any(|&b| b == b'%')`: moves just past the next percent sign, or to the end. */
  method SkipPast(bytes: Input, from: nat) returns (found: bool, iter: nat)
    requires PlainUpTo(bytes, from)
    ensures from <= iter <= |bytes|
    ensures if found then from < iter && bytes[iter - 1] == PERCENT && PlainUpTo(bytes, iter - 1)
            else iter == |bytes| && PlainUpTo(bytes, iter)
  {
    iter := from;
    while iter < |bytes|
      invariant from <= iter <= |bytes| && PlainUpTo(bytes, iter)
    {
      if bytes[iter] == PERCENT {
        return true, iter + 1;
      }
      PlainByte(bytes, iter);
      iter := iter + 1;
    }
    return false, iter;
  }

  /** Collecting the decoder of the bytes from `start` on into a vector. */
  method Collect(bytes: Input, start: nat) returns (r: seq<byte>)
    requires start <= |bytes|
    ensures r == DecodeFrom(bytes, start)
  {
    var decoder := new PercentDecode(bytes[start..]);
    ghost var all := DecodeFrom(bytes, start);
    CollectStart(bytes, start);
    r := [];
    while true
      invariant fresh(decoder) && decoder.pos <= |decoder.input|
      invariant Collected(all, r, decoder.Remaining())
      decreases |decoder.input| - decoder.pos
    {
      ghost var rest := decoder.Remaining();
      var b := decoder.Next();
      if b.None? {
        CollectEnd(all, r, rest);
        return;
      }
      CollectNext(all, r, rest, b.value, decoder.Remaining());
      r := r + [b.value];
    }
  }

  /** `r` and the decoding of what is left make up `all`. */
  ghost predicate Collected(all: seq<byte>, r: seq<byte>, rest: Input) {
    all == r + Decode(rest)
  }

  lemma CollectStart(bytes: Input, start: nat)
    requires start <= |bytes|
    ensures bytes[start..][0..] == bytes[start..] && Collected(DecodeFrom(bytes, start), [], bytes[start..])
  {
    DecodeFromIsDecode(bytes, start);
  }

  lemma CollectNext(all: seq<byte>, r: seq<byte>, rest: Input, b: byte, rest': Input)
    requires Collected(all, r, rest) && Decode(rest) == [b] + Decode(rest')
    ensures Collected(all, r + [b], rest')
  {
  }

  lemma CollectEnd(all: seq<byte>, r: seq<byte>, rest: Input)
    requires Collected(all, r, rest) && rest == []
    ensures r == all
  {
  }
}
