/** The bounded writers of tlibc/src/io.rs: a truncating `StringWriter` under a `CountingWriter`. */
module Writers {
  import opened Bytes

  /** The memory written to, the writer's pointer into it, its remaining capacity, and the count. */
  datatype State = State(mem: seq<byte>, ptr: nat, cap: nat, written: nat)

  /** The ways data reaches a counting writer: `write_str`, `write_u8`, `write` and `write_all`. */
  datatype Op = WriteStr(text: seq<byte>) | WriteU8(b: byte) | Write(buf: seq<byte>) | WriteAll(buf: seq<byte>)

  function Data(op: Op): seq<byte> {
    match op
    case WriteStr(text) => text
    case WriteU8(b) => [b]
    case Write(buf) => buf
    case WriteAll(buf) => buf
  }

  /** `write_all` of an empty slice never reaches the inner writer. */
  predicate Reaches(op: Op) {
    !(op.WriteAll? && op.buf == [])
  }

  function Least(a: nat, b: nat): nat {
    if a < b then a else b
  }

  predicate Fits(s: State) {
    s.ptr + s.cap <= |s.mem|
  }

  /** `StringWriter::write`: copies what fits in front of a NUL, if there is room for more than a NUL. */
  function WriteBytes(s: State, bs: seq<byte>): (t: State)
    requires Fits(s)
    ensures Fits(t) && |t.mem| == |s.mem|
  {
    if s.cap <= 1 then s
    else
      var n := Least(|bs|, s.cap - 1);
      State(Put(s.mem, s.ptr, bs[..n] + [0]), s.ptr + n, s.cap - n, s.written)
  }

  /** The inner writer does not look at the count. */
  lemma CountIndependent(s: State, bs: seq<byte>, w: nat)
    requires Fits(s)
    ensures WriteBytes(s.(written := w), bs) == WriteBytes(s, bs).(written := w)
  {
  }

  function Apply(s: State, op: Op): (t: State)
    requires Fits(s)
    ensures Fits(t) && |t.mem| == |s.mem|
  {
    (if Reaches(op) then WriteBytes(s, Data(op)) else s).(written := s.written + |Data(op)|)
  }

  function ApplyAll(s: State, ops: seq<Op>): (t: State)
    requires Fits(s)
    ensures Fits(t) && |t.mem| == |s.mem|
  {
    if ops == [] then s else Apply(ApplyAll(s, ops[..|ops| - 1]), ops[|ops| - 1])
  }

  function Total(ops: seq<Op>): seq<byte> {
    if ops == [] then [] else Total(ops[..|ops| - 1]) + Data(ops[|ops| - 1])
  }

  predicate AnyReaches(ops: seq<Op>) {
    exists k :: 0 <= k < |ops| && Reaches(ops[k])
  }

  /** What a writer of capacity `n` leaves in memory after writing `total`: a truncated, NUL-terminated
      prefix, and nothing beyond the NUL. */
  function Rendered(mem: seq<byte>, ptr: nat, n: nat, total: seq<byte>): seq<byte>
    requires ptr + n <= |mem| && n >= 1
  {
    Put(mem, ptr, total[..Least(|total|, n - 1)] + [0])
  }

  /** The state after writing `total` in any number of pieces to a writer of capacity `n`. `reached` says
      whether any write reached the inner writer. */
  function After(mem: seq<byte>, ptr: nat, n: nat, total: seq<byte>, reached: bool): (t: State)
    requires ptr + n <= |mem|
    ensures Fits(t) && |t.mem| == |mem|
  {
    if n < 2 || !reached then State(mem, ptr, n, |total|)
    else
      var k := Least(|total|, n - 1);
      State(Rendered(mem, ptr, n, total), ptr + k, n - k, |total|)
  }

  lemma PutNul(mem: seq<byte>, at: nat, bs: seq<byte>)
    requires at + |bs| < |mem|
    ensures Put(mem, at, bs)[at + |bs| := 0] == Put(mem, at, bs + [0])
  {
  }

  lemma PutTwice(mem: seq<byte>, at: nat, a: seq<byte>, b: seq<byte>)
    requires at + |a| + 1 + |b| <= |mem|
    ensures Put(Put(mem, at, a + [0]), at + |a|, b + [0]) == Put(mem, at, a + b + [0])
  {
  }

  lemma WriteMore(mem: seq<byte>, ptr: nat, n: nat, total: seq<byte>, bs: seq<byte>)
    requires ptr + n <= |mem| && n >= 2
    ensures var s := After(mem, ptr, n, total, true);
            WriteBytes(s, bs) == After(mem, ptr, n, total + bs, true).(written := |total|)
  {
    var s := After(mem, ptr, n, total, true);
    if s.cap <= 1 {
      assert total[..n - 1] == (total + bs)[..n - 1];
    } else {
      var c := Least(|bs|, s.cap - 1);
      assert total[..|total|] == total;
      assert (total + bs)[..Least(|total + bs|, n - 1)] == total + bs[..c];
      PutTwice(mem, ptr, total, bs[..c]);
    }
  }

  lemma ApplyNext(mem: seq<byte>, ptr: nat, n: nat, total: seq<byte>, reached: bool, op: Op)
    requires ptr + n <= |mem| && (!reached ==> total == [])
    ensures Apply(After(mem, ptr, n, total, reached), op)
         == After(mem, ptr, n, total + Data(op), reached || Reaches(op))
  {
    if n >= 2 && Reaches(op) {
      if reached { WriteMore(mem, ptr, n, total, Data(op)); } else { WriteFirst(mem, ptr, n, Data(op)); }
      assert !reached ==> total + Data(op) == Data(op);
    }
  }

  lemma WriteFirst(mem: seq<byte>, ptr: nat, n: nat, bs: seq<byte>)
    requires ptr + n <= |mem| && n >= 2
    ensures WriteBytes(State(mem, ptr, n, 0), bs) == After(mem, ptr, n, bs, true).(written := 0)
  {
  }

  /** Any sequence of writes to a buffer of capacity `n`: with room for at least two bytes the buffer
      holds the first `n - 1` bytes of everything written, NUL-terminated, and nothing beyond the NUL
      changes; with less room nothing changes at all. The count is the untruncated total. */
  lemma {:induction false} WriterResult(mem: seq<byte>, ptr: nat, n: nat, ops: seq<Op>)
    requires ptr + n <= |mem|
    ensures ApplyAll(State(mem, ptr, n, 0), ops) == After(mem, ptr, n, Total(ops), AnyReaches(ops))
    ensures !AnyReaches(ops) ==> Total(ops) == []
  {
    if ops != [] {
      var front, op := ops[..|ops| - 1], ops[|ops| - 1];
      WriterResult(mem, ptr, n, front);
      ApplyNext(mem, ptr, n, Total(front), AnyReaches(front), op);
      AnyReachesLast(ops);
    }
  }

  lemma AnyReachesLast(ops: seq<Op>)
    requires ops != []
    ensures AnyReaches(ops) <==> AnyReaches(ops[..|ops| - 1]) || Reaches(ops[|ops| - 1])
  {
  }

  /** The pieces do not matter: two sequences of writes with the same data have the same effect. */
  lemma PiecesDoNotMatter(mem: seq<byte>, ptr: nat, n: nat, ops: seq<Op>, ops': seq<Op>)
    requires ptr + n <= |mem| && Total(ops) == Total(ops') && AnyReaches(ops) == AnyReaches(ops')
    ensures ApplyAll(State(mem, ptr, n, 0), ops) == ApplyAll(State(mem, ptr, n, 0), ops')
  {
    WriterResult(mem, ptr, n, ops);
    WriterResult(mem, ptr, n, ops');
  }

  /** The count tells a caller whether the text is complete. */
  lemma CompleteExactly(mem: seq<byte>, ptr: nat, n: nat, ops: seq<Op>)
    requires ptr + n <= |mem| && n >= 2 && AnyReaches(ops)
    ensures var t := ApplyAll(State(mem, ptr, n, 0), ops);
            var total := Total(ops);
            && t.written == |total|
            && (|total| < n ==> t.mem == Put(mem, ptr, total + [0]))
            && (|total| >= n ==> t.mem == Put(mem, ptr, total[..n - 1] + [0]))
  {
    WriterResult(mem, ptr, n, ops);
    assert Total(ops)[..|Total(ops)|] == Total(ops);
  }

  /** A NUL lies in the buffer of `n` bytes at `ptr`. */
  predicate Terminated(mem: seq<byte>, ptr: nat, n: nat)
    requires ptr + n <= |mem|
  {
    0 in mem[ptr..ptr + n]
  }

  lemma RenderedTerminated(mem: seq<byte>, ptr: nat, n: nat, total: seq<byte>)
    requires ptr + n <= |mem| && n >= 1
    ensures Terminated(Rendered(mem, ptr, n, total), ptr, n)
  {
    var k := Least(|total|, n - 1);
    assert Rendered(mem, ptr, n, total)[ptr..ptr + n][k] == 0;
  }

  /** Is the buffer of `n` bytes at `ptr` terminated after these writes? */
  predicate TerminatedAfter(mem: seq<byte>, ptr: nat, n: nat, ops: seq<Op>)
    requires ptr + n <= |mem|
  {
    Terminated(ApplyAll(State(mem, ptr, n, 0), ops).mem, ptr, n)
  }

  /** After any writes the buffer is terminated exactly when it has room for two bytes and some write
      reached the inner writer, or when it held a NUL to begin with. */
  lemma TerminatedIff(mem: seq<byte>, ptr: nat, n: nat, ops: seq<Op>)
    requires ptr + n <= |mem|
    ensures TerminatedAfter(mem, ptr, n, ops) <==> (n >= 2 && AnyReaches(ops)) || Terminated(mem, ptr, n)
  {
    WriterResult(mem, ptr, n, ops);
    if n >= 2 && AnyReaches(ops) { RenderedTerminated(mem, ptr, n, Total(ops)); }
  }

  lemma NulFree(size: nat, ptr: nat, n: nat) returns (mem: seq<byte>)
    requires ptr + n <= size
    ensures |mem| == size && !Terminated(mem, ptr, n)
  {
    mem := seq(size, _ => 1);
  }

  /** Section 7.21.6.5 of C11 wants `snprintf` to terminate every buffer that is not empty, whatever it
      held before. It does so exactly when there is room for two bytes and some write reaches the inner
      writer: with no write, or only empty `write_all` calls, a buffer of any size is left as it was. */
  lemma TerminatesExactly(size: nat, ptr: nat, n: nat, ops: seq<Op>)
    requires ptr + n <= size
    ensures (forall mem :: |mem| == size ==> TerminatedAfter(mem, ptr, n, ops)) <==> n >= 2 && AnyReaches(ops)
  {
    var blank := NulFree(size, ptr, n);
    TerminatedIff(blank, ptr, n, ops);
    forall mem: seq<byte> | |mem| == size
      ensures TerminatedAfter(mem, ptr, n, ops) <==> (n >= 2 && AnyReaches(ops)) || Terminated(mem, ptr, n)
    {
      TerminatedIff(mem, ptr, n, ops);
    }
  }

  /** The two ways to stay unterminated: a buffer of one byte, and a buffer of any size under writes none
      of which reaches the inner writer, as for an empty format, which makes none, or `%s` with an empty
      string, which makes an empty `write_all`. Memory is left as it was. */
  lemma Unterminated(mem: seq<byte>, ptr: nat, n: nat, ops: seq<Op>)
    requires ptr + n <= |mem| && (n <= 1 || forall k :: 0 <= k < |ops| ==> ops[k] == WriteAll([]))
    ensures ApplyAll(State(mem, ptr, n, 0), ops).mem == mem
  {
    WriterResult(mem, ptr, n, ops);
  }

  // ----- the writers themselves

  class StringWriter {
    const buf: array<byte>
    var ptr: nat
    var cap: nat

    ghost predicate Valid()
      reads this
    {
      ptr + cap <= buf.Length
    }

    constructor (buf: array<byte>, ptr: nat, cap: nat)
      requires ptr + cap <= buf.Length
      ensures Valid() && this.buf == buf && this.ptr == ptr && this.cap == cap
    {
      this.buf, this.ptr, this.cap := buf, ptr, cap;
    }

    /** `write` always claims that the whole slice was written. */
    method Write(bs: seq<byte>) returns (n: nat)
      requires Valid()
      modifies this, buf
      ensures Valid() && n == |bs|
      ensures State(buf[..], ptr, cap, 0) == WriteBytes(State(old(buf[..]), old(ptr), old(cap), 0), bs)
    {
      if cap > 1 {
        ghost var was := buf[..];
        var copySize := Least(|bs|, cap - 1);
        CopyNonoverlapping(bs, copySize);
        cap := cap - copySize;
        ptr := ptr + copySize;
        buf[ptr] := 0;
        PutNul(was, old(ptr), bs[..copySize]);
      }
      return |bs|;
    }

    /** `copy_nonoverlapping` into the memory at `ptr`. */
    method CopyNonoverlapping(bs: seq<byte>, n: nat)
      requires n <= |bs| && ptr + n <= buf.Length
      modifies buf
      ensures buf[..] == Put(old(buf[..]), ptr, bs[..n])
    {
      ghost var was, text := buf[..], bs[..n];
      assert Put(was, ptr, text[..0]) == was;
      for k := 0 to n
        invariant buf[..] == Put(was, ptr, text[..k])
      {
        PutNext(was, ptr, text, k);
        buf[ptr + k] := bs[k];
      }
      assert text[..n] == text;
    }
  }

  class CountingWriter {
    const inner: StringWriter
    var written: nat

    ghost function View(): State
      reads this, inner, inner.buf
    {
      State(inner.buf[..], inner.ptr, inner.cap, written)
    }

    constructor (inner: StringWriter)
      ensures this.inner == inner && written == 0
    {
      this.inner, this.written := inner, 0;
    }

    /** `write_str` and `write_u8` count before they write. */
    method WriteStr(text: seq<byte>)
      requires inner.Valid()
      modifies this, inner, inner.buf
      ensures inner.Valid() && View() == Apply(old(View()), Op.WriteStr(text))
    {
      CountIndependent(View(), text, 0);
      written := written + |text|;
      var n := inner.Write(text);
    }

    method WriteU8(b: byte)
      requires inner.Valid()
      modifies this, inner, inner.buf
      ensures inner.Valid() && View() == Apply(old(View()), Op.WriteU8(b))
    {
      written := written + 1;
      var n := inner.Write([b]);
    }

    /** `write` counts what the inner writer claims to have written. */
    method Write(bs: seq<byte>)
      requires inner.Valid()
      modifies this, inner, inner.buf
      ensures inner.Valid() && View() == Apply(old(View()), Op.Write(bs))
    {
      var n := inner.Write(bs);
      written := written + n;
    }

    /** `write_all` loops until the slice is used up. */
    method WriteAll(bs: seq<byte>)
      requires inner.Valid()
      modifies this, inner, inner.buf
      ensures inner.Valid() && View() == Apply(old(View()), Op.WriteAll(bs))
    {
      var rest := bs;
      while rest != []
        invariant inner.Valid() && written == old(written) && (rest == bs || rest == [])
        invariant View() == if rest == bs then old(View()) else WriteBytes(old(View()), bs)
        decreases |rest|
      {
        var n := inner.Write(rest);
        rest := rest[n..];
      }
      written := written + |bs|;
    }
  }
}
