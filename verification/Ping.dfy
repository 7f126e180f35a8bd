/** The ping loop of applications/ping/src/lib.rs (echo requests and replies of RFC 792): sending,
    replies that may be late, duplicated or unsolicited, and timeouts. */
module Ping {
  import opened Bytes

  const U16: nat := 0x1_0000
  const U64: nat := 0x1_0000_0000_0000_0000

  // ----- the timestamp in the payload, big-endian

  function LoadBE(bs: seq<byte>): nat {
    if bs == [] then 0 else LoadBE(bs[..|bs| - 1]) * 256 + bs[|bs| - 1]
  }

  function StoreBE(v: nat, n: nat): (bs: seq<byte>)
    ensures |bs| == n
  {
    if n == 0 then [] else StoreBE(v / 256, n - 1) + [v % 256]
  }

  lemma {:induction false} LoadStoreBE(v: nat, n: nat)
    requires v < Pow256(n)
    ensures LoadBE(StoreBE(v, n)) == v
  {
    if n > 0 {
      LoadStoreBE(v / 256, n - 1);
      assert StoreBE(v, n)[..n - 1] == StoreBE(v / 256, n - 1);
    }
  }

  lemma {:induction false} LoadBelowBE(bs: seq<byte>)
    ensures LoadBE(bs) < Pow256(|bs|)
  {
    if bs != [] { LoadBelowBE(bs[..|bs| - 1]); }
  }

  /** The first byte is the most significant one. */
  lemma {:induction false} BigEndian(b: byte, rest: seq<byte>)
    ensures LoadBE([b] + rest) == b * Pow256(|rest|) + LoadBE(rest)
  {
    var bs := [b] + rest;
    if rest == [] {
      assert bs[..0] == [];
    } else {
      var front, last := rest[..|rest| - 1], rest[|rest| - 1];
      BigEndian(b, front);
      assert bs[..|bs| - 1] == [b] + front;
    }
  }

  lemma EightBytes()
    ensures Pow256(8) == U64
  {
    assert Pow256(4) == 0x1_0000_0000;
  }

  /** The payload of a request sent at time `t`: the time, then filler. */
  function Payload(t: nat, size: nat): seq<byte>
    requires size >= 8
  {
    StoreBE(t, 8) + seq(size - 8, _ => 0xff)
  }

  /** A payload has the asked size, holds the time in its first eight bytes and is filled up with 0xff. */
  lemma PayloadTime(t: nat, size: nat)
    requires size >= 8 && t < U64
    ensures |Payload(t, size)| == size && LoadBE(Payload(t, size)[..8]) == t
    ensures forall k :: 8 <= k < size ==> Payload(t, size)[k] == 0xff
  {
    EightBytes();
    assert Payload(t, size)[..8] == StoreBE(t, 8);
    LoadStoreBE(t, 8);
  }

  // ----- the state

  datatype State = State(
    count: nat,                 // the number of requests asked for
    seqNo: nat,                 // requests sent, and the next sequence number
    waiting: map<nat, nat>,     // unanswered requests and when they were sent
    received: nat,
    times: seq<nat>,
    total: nat,
    timeoutLoop: bool,
    pollStatus: bool,
    sendAt: nat,
    now: nat,                   // the last timestamp read
    answered: set<nat>,         // requests resolved by a reply
    expired: set<nat>)          // requests resolved by a timeout

  datatype Packet = EchoReply(seqNo: nat, data: seq<byte>) | OtherPacket

  /** What the environment supplies to one turn of the loop. */
  datatype Input = Input(now: nat, poll: Option<bool>, bind: bool, canSend: bool, packet: Option<Packet>)

  /** `x` reduced to the range of an unsigned type with `m` values. */
  function Truncate(x: int, m: nat): (r: nat)
    requires m > 0
    ensures r < m
    decreases if x < 0 then m - x else x
  {
    if x < 0 then Truncate(x + m, m) else if x < m then x else Truncate(x - m, m)
  }

  lemma {:induction false} TruncateAdd(x: int, y: int, m: nat)
    requires m > 0
    ensures Truncate(Truncate(x, m) + y, m) == Truncate(x + y, m)
    decreases if x < 0 then m - x else x
  {
    if x < 0 {
      TruncateAdd(x + m, y, m);
      TruncateShift(x + y, m);
    } else if x >= m {
      TruncateAdd(x - m, y, m);
      TruncateShift(x - m + y, m);
    }
  }

  lemma {:induction false} TruncateShift(x: int, m: nat)
    requires m > 0
    ensures Truncate(x + m, m) == Truncate(x, m)
  {
  }

  lemma ModUnique(x: int, q: int, r: int, m: nat)
    requires x == q * m + r && 0 <= r < m
    ensures x % m == r
  {
    var q', r' := x / m, x % m;
    assert x == q' * m + r';
    assert (q - q') * m == r' - r;
    if q < q' { Apart(q' - q, m); }
    if q > q' { Apart(q - q', m); }
  }

  lemma Apart(d: int, m: nat)
    requires d >= 1
    ensures d * m >= m
  {
  }

  lemma ModShift(x: int, m: nat)
    requires m > 0
    ensures (x + m) % m == x % m
  {
    var q, r := x / m, x % m;
    assert x == q * m + r;
    assert (q + 1) * m == q * m + m;
    ModUnique(x + m, q + 1, r, m);
  }

  /** `Truncate` is reduction modulo `m`. */
  lemma {:induction false} TruncateIsMod(x: int, m: nat)
    requires m > 0
    ensures Truncate(x, m) == x % m
    decreases if x < 0 then m - x else x
  {
    if x < 0 {
      TruncateIsMod(x + m, m);
      ModShift(x, m);
    } else if x >= m {
      TruncateIsMod(x - m, m);
      ModShift(x - m, m);
    } else {
      ModUnique(x, 0, x, m);
    }
  }

  /** `count as u16` */
  function Limit(count: nat): (r: nat)
    ensures r < U16
  {
    Truncate(count, U16)
  }

  // ----- the loop body

  /** Unsigned 64-bit arithmetic wraps in the default, release build. */
  function Wrap(x: int): (r: nat)
    ensures r < U64
  {
    Truncate(x, U64)
  }

  function Send(s: State, interval: nat): State {
    s.(waiting := s.waiting[s.seqNo := s.now], seqNo := s.seqNo + 1, sendAt := Wrap(s.sendAt + interval))
  }

  datatype Verdict = Ignore | Panic | Accept(n: nat, rtt: nat)

  /** A reply counts only if its request is still waiting. A counted reply with fewer than eight data
      bytes makes `read_i64` panic. */
  function Judge(s: State, p: Packet): (v: Verdict)
    ensures v.Accept? ==> p.EchoReply? && v.n == p.seqNo && v.n in s.waiting
  {
    match p
    case OtherPacket => Ignore
    case EchoReply(n, data) =>
      if n !in s.waiting then Ignore
      else if |data| < 8 then Panic
      else Accept(n, Wrap(s.now - LoadBE(data[..8])))
  }

  /** `get_icmp_pong`; `None` is a panic. */
  function Pong(s: State, p: Packet): Option<State> {
    match Judge(s, p)
    case Ignore => Some(s)
    case Panic => None
    case Accept(n, rtt) => Some(Count(s, n, rtt))
  }

  /** Books the reply to request `n`. */
  function Count(s: State, n: nat, rtt: nat): State {
    s.(waiting := s.waiting - {n}, received := s.received + 1, times := s.times + [rtt],
       total := Wrap(s.total + rtt), answered := s.answered + {n})
  }

  /** The requests that have been waiting for at least `timeout`. */
  function Overdue(s: State, timeout: nat): set<nat> {
    set n | n in s.waiting && s.now - s.waiting[n] >= timeout
  }

  function Retain(s: State, timeout: nat): State {
    var over := Overdue(s, timeout);
    s.(waiting := s.waiting - over, timeoutLoop := s.timeoutLoop || over != {}, expired := s.expired + over)
  }

  function Begin(s: State, i: Input): State {
    s.(now := i.now, pollStatus := if i.poll.Some? then i.poll.value else s.pollStatus,
       sendAt := if i.bind then i.now else s.sendAt)
  }

  predicate MaySend(s: State, i: Input) {
    i.canSend && s.seqNo < Limit(s.count) && s.sendAt <= s.now
  }

  function MaybeSend(s: State, i: Input, interval: nat): State {
    if MaySend(s, i) then Send(s, interval) else s
  }

  function MaybeReceive(s: State, i: Input): Option<State> {
    if i.packet.Some? then Pong(s, i.packet.value) else Some(s)
  }

  /** One turn of the loop; `None` is a panic. */
  function Turn(s: State, i: Input, interval: nat, timeout: nat): Option<State> {
    match MaybeReceive(MaybeSend(Begin(s, i), i, interval), i)
    case None => None
    case Some(s') => Some(Retain(s', timeout))
  }

  predicate Breaks(s: State) {
    || (s.seqNo == Limit(s.count) && s.waiting == map[])
    || (s.timeoutLoop && !s.pollStatus && s.seqNo != Limit(s.count))
  }

  // ----- the invariant

  function Sum(times: seq<nat>): nat {
    if times == [] then 0 else Sum(times[..|times| - 1]) + times[|times| - 1]
  }

  function UpTo(n: nat): set<nat> {
    if n == 0 then {} else UpTo(n - 1) + {n - 1}
  }

  lemma {:induction false} UpToMembers(n: nat, k: nat)
    ensures k in UpTo(n) <==> k < n
  {
    if n > 0 { UpToMembers(n - 1, k); }
  }

  /** Every request sent is answered, expired or waiting, and only one of them. */
  predicate Partition(answered: set<nat>, expired: set<nat>, waiting: set<nat>, sent: nat) {
    answered + expired + waiting == UpTo(sent) && answered !! expired !! waiting
  }

  predicate SentBefore(waiting: map<nat, nat>, now: nat) {
    forall n :: n in waiting ==> waiting[n] <= now
  }

  predicate Requests(s: State) {
    && Partition(s.answered, s.expired, s.waiting.Keys, s.seqNo)
    && s.seqNo <= Limit(s.count)
    && SentBefore(s.waiting, s.now)
  }

  predicate Totals(answered: set<nat>, received: nat, times: seq<nat>, total: nat) {
    received == |answered| == |times| && total == Wrap(Sum(times))
  }

  predicate Inv(s: State) {
    Requests(s) && Totals(s.answered, s.received, s.times, s.total)
  }

  function Start(count: nat, sendAt: nat): State {
    State(count, 0, map[], 0, [], 0, false, true, sendAt, 0, {}, {})
  }

  lemma PartitionSend(answered: set<nat>, expired: set<nat>, waiting: set<nat>, sent: nat)
    requires Partition(answered, expired, waiting, sent)
    ensures Partition(answered, expired, waiting + {sent}, sent + 1) && sent !in waiting
  {
    UpToMembers(sent, sent);
    assert answered + expired + (waiting + {sent}) == UpTo(sent) + {sent};
  }

  lemma PartitionMove(answered: set<nat>, expired: set<nat>, waiting: set<nat>, sent: nat, moved: set<nat>)
    requires Partition(answered, expired, waiting, sent) && moved <= waiting
    ensures Partition(answered + moved, expired, waiting - moved, sent)
    ensures Partition(answered, expired + moved, waiting - moved, sent)
  {
  }

  lemma SendPreserves(s: State, interval: nat)
    requires Inv(s) && s.seqNo < Limit(s.count)
    ensures Inv(Send(s, interval))
  {
    SendRequests(s);
  }

  lemma SendRequests(s: State)
    requires Requests(s) && s.seqNo < Limit(s.count)
    ensures Requests(s.(waiting := s.waiting[s.seqNo := s.now], seqNo := s.seqNo + 1))
  {
    PartitionSend(s.answered, s.expired, s.waiting.Keys, s.seqNo);
    assert s.waiting[s.seqNo := s.now].Keys == s.waiting.Keys + {s.seqNo};
  }

  lemma PongPreserves(s: State, p: Packet)
    requires Inv(s)
    ensures Pong(s, p).Some? ==> Inv(Pong(s, p).value)
  {
    match Judge(s, p)
    case Ignore =>
    case Panic =>
    case Accept(n, rtt) => CountPreserves(s, n, rtt);
  }

  lemma CountPreserves(s: State, n: nat, rtt: nat)
    requires Inv(s) && n in s.waiting
    ensures Inv(Count(s, n, rtt))
  {
    PongRequests(s, n);
    TotalsNext(s.answered, s.received, s.times, s.total, n, rtt);
  }

  lemma PongRequests(s: State, n: nat)
    requires Requests(s) && n in s.waiting
    ensures Requests(s.(waiting := s.waiting - {n}, answered := s.answered + {n})) && n !in s.answered
  {
  }

  lemma TotalsNext(answered: set<nat>, received: nat, times: seq<nat>, total: nat, n: nat, rtt: nat)
    requires Totals(answered, received, times, total) && n !in answered
    ensures Totals(answered + {n}, received + 1, times + [rtt], Wrap(total + rtt))
  {
    SumAppend(times, rtt);
    SumWraps(total, Sum(times), rtt);
  }

  lemma SumAppend(times: seq<nat>, t: nat)
    ensures Sum(times + [t]) == Sum(times) + t
  {
  }

  lemma SumWraps(total: nat, sum: nat, t: nat)
    requires total == Wrap(sum)
    ensures Wrap(total + t) == Wrap(sum + t)
  {
    TruncateAdd(sum, t, U64);
  }

  lemma RetainPreserves(s: State, timeout: nat)
    requires Inv(s)
    ensures Inv(Retain(s, timeout))
  {
    var over := Overdue(s, timeout);
    PartitionMove(s.answered, s.expired, s.waiting.Keys, s.seqNo, over);
    assert (s.waiting - over).Keys == s.waiting.Keys - over;
  }

  /** Every turn keeps the invariant, whatever arrives, as long as the clock does not run backwards. */
  lemma TurnPreserves(s: State, i: Input, interval: nat, timeout: nat)
    requires Inv(s) && s.now <= i.now
    ensures Turn(s, i, interval, timeout).Some? ==> Inv(Turn(s, i, interval, timeout).value)
  {
    var s1 := Begin(s, i);
    assert Inv(s1);
    var s2 := MaybeSend(s1, i, interval);
    if MaySend(s1, i) { SendPreserves(s1, interval); }
    var s3 := MaybeReceive(s2, i);
    if i.packet.Some? { PongPreserves(s2, i.packet.value); }
    if s3.Some? { RetainPreserves(s3.value, timeout); }
  }

  /** Conservation: sent = received + timed out + waiting, so `received` never exceeds `seq_no`. */
  lemma Conservation(s: State)
    requires Inv(s)
    ensures s.seqNo == s.received + |s.expired| + |s.waiting|
    ensures s.received <= s.seqNo < U16
  {
    UpToSize(s.seqNo);
    assert |s.answered + s.expired| == |s.answered| + |s.expired|;
    assert |s.answered + s.expired + s.waiting.Keys| == |s.answered + s.expired| + |s.waiting.Keys|;
  }

  lemma {:induction false} UpToSize(n: nat)
    ensures |UpTo(n)| == n
  {
    if n > 0 {
      UpToSize(n - 1);
      UpToMembers(n - 1, n - 1);
    }
  }

  /** A turn adds to the answered and expired requests only ones that were waiting, or the one it sends
      itself, and takes none away. */
  lemma ResolvedOnce(s: State, i: Input, interval: nat, timeout: nat, n: nat)
    requires Turn(s, i, interval, timeout).Some?
    ensures var t := Turn(s, i, interval, timeout).value;
            && (n in s.answered ==> n in t.answered) && (n in s.expired ==> n in t.expired)
            && (n in t.answered && n !in s.answered ==> n in s.waiting || n == s.seqNo)
            && (n in t.expired && n !in s.expired ==> n in s.waiting || n == s.seqNo)
  {
  }

  /** When request `n` was sent, seen from the end of a turn. */
  function SentAt(s: State, i: Input, n: nat): nat {
    if n in s.waiting then s.waiting[n] else i.now
  }

  /** A turn gives up exactly on the requests that have waited for at least the timeout: the ones left
      waiting are younger, the ones it expires are not. */
  lemma TimeoutExact(s: State, i: Input, interval: nat, timeout: nat, n: nat)
    requires Inv(s) && Turn(s, i, interval, timeout).Some?
    ensures var t := Turn(s, i, interval, timeout).value;
            && (n in t.waiting ==> t.waiting[n] == SentAt(s, i, n) && i.now - SentAt(s, i, n) < timeout)
            && (n in t.expired && n !in s.expired ==> i.now - SentAt(s, i, n) >= timeout)
  {
    var s2 := MaybeSend(Begin(s, i), i, interval);
    UpToMembers(s.seqNo, s.seqNo);
    assert n in s2.waiting ==> s2.waiting[n] == SentAt(s, i, n);
    var s3 := MaybeReceive(s2, i).value;
    PongOnlyRemoves(s2, i, n);
  }

  lemma PongOnlyRemoves(s: State, i: Input, n: nat)
    ensures MaybeReceive(s, i).Some? ==>
              var t := MaybeReceive(s, i).value;
              && t.now == s.now && t.expired == s.expired
              && (n in t.waiting ==> n in s.waiting && t.waiting[n] == s.waiting[n])
  {
  }

  /** Request `n` was waiting, or has been sent in this turn. */
  predicate Flying(s: State, t: State, n: nat) {
    n in s.waiting || (n == s.seqNo && t.seqNo == s.seqNo + 1)
  }

  predicate Replied(i: Input, n: nat) {
    i.packet.Some? && i.packet.value.EchoReply? && i.packet.value.seqNo == n
  }

  /** What a turn does to each request. A request in flight is answered if the turn's packet replies to it,
      even in the turn that sends it or in which its time is up; otherwise it expires if it has waited for
      the timeout, and else goes on waiting. */
  lemma TurnExact(s: State, i: Input, interval: nat, timeout: nat, n: nat)
    requires Inv(s) && Turn(s, i, interval, timeout).Some?
    ensures var t := Turn(s, i, interval, timeout).value;
            var open := Flying(s, t, n) && !Replied(i, n);
            var late := i.now - SentAt(s, i, n) >= timeout;
            && (n in t.answered <==> n in s.answered || (Flying(s, t, n) && Replied(i, n)))
            && (n in t.expired <==> n in s.expired || (open && late))
            && (n in t.waiting <==> open && !late)
  {
    var s2 := MaybeSend(Begin(s, i), i, interval);
    var s3 := MaybeReceive(s2, i).value;
    UpToMembers(s.seqNo, s.seqNo);
    ReceiveExact(s2, i, n);
    assert n in s2.waiting ==> s2.waiting[n] == SentAt(s, i, n);
  }

  /** A turn panics exactly when its packet replies, with fewer than eight bytes of data, to a request that is
      waiting or that the turn has just sent. */
  lemma PanicsExactly(s: State, i: Input, interval: nat, timeout: nat)
    ensures Turn(s, i, interval, timeout) == None <==>
            && i.packet.Some? && i.packet.value.EchoReply? && |i.packet.value.data| < 8
            && var n := i.packet.value.seqNo;
               || n in s.waiting
               || (n == s.seqNo && i.canSend && n < Limit(s.count) && (i.bind || s.sendAt <= i.now))
  {
    assert MaybeSend(Begin(s, i), i, interval).waiting.Keys
        == s.waiting.Keys + if MaySend(Begin(s, i), i) then {s.seqNo} else {};
  }

  lemma ReceiveExact(s: State, i: Input, n: nat)
    requires MaybeReceive(s, i).Some?
    ensures var t := MaybeReceive(s, i).value;
            && t.now == s.now && t.seqNo == s.seqNo && t.expired == s.expired
            && (n in t.answered <==> n in s.answered || (n in s.waiting && Replied(i, n)))
            && (n in t.waiting <==> n in s.waiting && !Replied(i, n))
            && (n in t.waiting ==> t.waiting[n] == s.waiting[n])
  {
  }

  /** The loop cannot wait for ever: once everything is sent and the timeout has passed, the next turn
      leaves nothing waiting and breaks. */
  lemma TimeoutDrains(s: State, i: Input, interval: nat, timeout: nat)
    requires Inv(s) && s.seqNo == Limit(s.count) && s.now + timeout <= i.now
    requires Turn(s, i, interval, timeout).Some?
    ensures var t := Turn(s, i, interval, timeout).value;
            t.waiting == map[] && Breaks(t)
  {
    var t := Turn(s, i, interval, timeout).value;
    TurnCounters(s, i, interval, timeout);
    forall n: nat ensures n !in t.waiting {
      TimeoutExact(s, i, interval, timeout, n);
      ResolvedOnce(s, i, interval, timeout, n);
      WaitingOld(s, i, interval, timeout, n);
    }
    assert t.waiting.Keys == {};
  }

  lemma TurnCounters(s: State, i: Input, interval: nat, timeout: nat)
    requires s.seqNo == Limit(s.count) && Turn(s, i, interval, timeout).Some?
    ensures var t := Turn(s, i, interval, timeout).value; t.seqNo == s.seqNo && t.count == s.count
  {
  }

  lemma WaitingOld(s: State, i: Input, interval: nat, timeout: nat, n: nat)
    requires s.seqNo == Limit(s.count) && Turn(s, i, interval, timeout).Some?
    ensures n in Turn(s, i, interval, timeout).value.waiting ==> n in s.waiting
  {
  }

  // ----- replies that are not stamped in the future

  /** The time stamp a reply carries. */
  function Stamp(data: seq<byte>): nat
    requires |data| >= 8
  {
    LoadBE(data[..8])
  }

  /** A packet that is counted is not stamped later than the clock. */
  predicate PastPacket(s: State, p: Packet) {
    p.EchoReply? && p.seqNo in s.waiting && |p.data| >= 8 ==> Stamp(p.data) <= s.now
  }

  predicate PastInput(s: State, i: Input, interval: nat) {
    i.packet.Some? ==> PastPacket(MaybeSend(Begin(s, i), i, interval), i.packet.value)
  }

  /** If the packet answers a waiting request, it carries back the data of that request. */
  predicate HonestPacket(s: State, p: Packet, size: nat)
    requires size >= 8
  {
    p.EchoReply? && p.seqNo in s.waiting ==> p.data == Payload(s.waiting[p.seqNo], size)
  }

  predicate TimesBounded(times: seq<nat>, now: nat) {
    forall k :: 0 <= k < |times| ==> times[k] <= now
  }

  /** A counted reply is booked with the time since its stamp exactly when the stamp is not in the future. */
  lemma RttExact(s: State, p: Packet)
    requires Judge(s, p).Accept? && s.now < U64
    ensures Judge(s, p).rtt == s.now - Stamp(p.data) <==> PastPacket(s, p)
  {
    LoadBelowBE(p.data[..8]);
    EightBytes();
  }

  /** An honest reply is booked with its true round-trip time, and is not stamped in the future. */
  lemma HonestReply(s: State, p: Packet, size: nat)
    requires SentBefore(s.waiting, s.now) && s.now < U64 && size >= 8 && HonestPacket(s, p, size)
    ensures Judge(s, p) == if p.EchoReply? && p.seqNo in s.waiting
                           then Accept(p.seqNo, s.now - s.waiting[p.seqNo]) else Ignore
    ensures PastPacket(s, p)
  {
    if p.EchoReply? && p.seqNo in s.waiting { PayloadTime(s.waiting[p.seqNo], size); }
  }

  lemma PastPong(s: State, p: Packet)
    requires s.now < U64 && PastPacket(s, p) && TimesBounded(s.times, s.now)
    ensures Pong(s, p).Some? ==> Pong(s, p).value.now == s.now && TimesBounded(Pong(s, p).value.times, s.now)
  {
    assert Judge(s, p).Accept? ==> Judge(s, p).rtt == s.now - Stamp(p.data);
  }

  lemma PastTurn(s: State, i: Input, interval: nat, timeout: nat)
    requires s.now <= i.now < U64 && PastInput(s, i, interval) && TimesBounded(s.times, s.now)
    ensures var t := Turn(s, i, interval, timeout);
            t.Some? ==> t.value.now == i.now && TimesBounded(t.value.times, i.now)
  {
    if i.packet.Some? { PastPong(MaybeSend(Begin(s, i), i, interval), i.packet.value); }
  }

  // ----- the final statistics

  function Min(times: seq<nat>): nat {
    if times == [] then 0
    else if |times| == 1 then times[0]
    else var m := Min(times[..|times| - 1]); if times[|times| - 1] < m then times[|times| - 1] else m
  }

  function Max(times: seq<nat>): nat {
    if times == [] then 0
    else var m := Max(times[..|times| - 1]); if times[|times| - 1] > m then times[|times| - 1] else m
  }

  /** `avg_ping`, over the reals. */
  function Average(total: nat, received: nat): real {
    if received == 0 then 0.0 else (total as real) / (received as real)
  }

  /** The mean is the exact quotient. */
  lemma AverageExact(total: nat, received: nat)
    requires received > 0
    ensures Average(total, received) * (received as real) == total as real
  {
  }

  /** Minimum and maximum are times themselves and bound every time. */
  lemma {:induction false} MinMax(times: seq<nat>, t: nat)
    requires times != []
    ensures Min(times) in times && Max(times) in times
    ensures t in times ==> Min(times) <= t <= Max(times)
  {
    if |times| > 1 {
      var front, last := times[..|times| - 1], times[|times| - 1];
      assert times == front + [last];
      MinMax(front, t);
    } else {
      assert times[..0] == [];
    }
  }

  lemma {:induction false} SumBounds(times: seq<nat>)
    ensures Min(times) * |times| <= Sum(times) <= Max(times) * |times|
  {
    if |times| > 1 {
      var front, last := times[..|times| - 1], times[|times| - 1];
      SumBounds(front);
      MulMono(Min(times), Min(front), |front|);
      MulMono(Max(front), Max(times), |front|);
    }
  }

  lemma MulMono(a: nat, b: nat, n: nat)
    requires a <= b
    ensures a * n <= b * n && a * (n + 1) == a * n + a && b * (n + 1) == b * n + b
  {
  }

  lemma {:induction false} SumAtMost(times: seq<nat>, bound: nat)
    requires TimesBounded(times, bound)
    ensures Sum(times) <= bound * |times|
  {
    if times != [] {
      SumAtMost(times[..|times| - 1], bound);
      MulMono(bound, bound, |times| - 1);
    }
  }

  lemma ProductReal(a: nat, n: nat)
    ensures (a * n) as real == (a as real) * (n as real)
  {
  }

  lemma RealMono(x: real, y: real, n: real)
    requires n > 0.0
    ensures x < y <==> x * n < y * n
  {
  }

  lemma DivideBounds(a: nat, sum: nat, n: nat)
    requires n > 0
    ensures a as real <= (sum as real) / (n as real) <==> a * n <= sum
    ensures (sum as real) / (n as real) <= a as real <==> sum <= a * n
  {
    var q := (sum as real) / (n as real);
    assert q * (n as real) == sum as real;
    ProductReal(a, n);
    RealMono(q, a as real, n as real);
    RealMono(a as real, q, n as real);
  }

  /** For every state the loop can be in: `total_time` is the sum of the times exactly when they add up
      to less than 2^64; the printed mean never exceeds the printed maximum, and is not below the
      minimum exactly when the wrapped sum is not below the minimum for each reply. */
  lemma MeanExact(s: State)
    requires Inv(s)
    ensures s.total == Sum(s.times) <==> Sum(s.times) < U64
    ensures Average(s.total, s.received) <= Max(s.times) as real
    ensures Min(s.times) as real <= Average(s.total, s.received) <==> Min(s.times) * s.received <= Wrap(Sum(s.times))
  {
    TotalExact(s.total, Sum(s.times));
    SumBounds(s.times);
    if s.received > 0 {
      DivideBounds(Max(s.times), s.total, s.received);
      DivideBounds(Min(s.times), s.total, s.received);
    }
  }

  lemma TotalExact(total: nat, sum: nat)
    requires total == Wrap(sum)
    ensures total == sum <==> sum < U64
    ensures total <= sum
  {
    WrapBelow(sum);
  }

  lemma {:induction false} WrapBelow(sum: nat)
    ensures Wrap(sum) <= sum
  {
    if sum >= U64 { WrapBelow(sum - U64); }
  }

  /** So the mean lies between minimum and maximum whenever the times add up to less than 2^64. */
  lemma MeanBetween(s: State)
    requires Inv(s) && Sum(s.times) < U64
    ensures s.total == Sum(s.times)
    ensures Min(s.times) as real <= Average(s.total, s.received) <= Max(s.times) as real
  {
    MeanExact(s);
    SumBounds(s.times);
  }

  /** Times up to the clock cannot reach 2^64 while the clock is below 2^48 milliseconds. */
  lemma PastSum(s: State)
    requires Inv(s) && TimesBounded(s.times, s.now) && s.now < 0x1_0000_0000_0000
    ensures Sum(s.times) < U64
  {
    Conservation(s);
    SumAtMost(s.times, s.now);
    ProductBound(s.now, |s.times|);
  }

  lemma ProductBound(now: nat, n: nat)
    requires now < 0x1_0000_0000_0000 && n < U16
    ensures now * n < U64
  {
  }

  /** Leaving the loop with nothing waiting: the number of requests sent is the number asked for modulo
      2^16, and each was answered or timed out. */
  lemma AllResolved(s: State)
    requires Inv(s) && s.seqNo == Limit(s.count) && s.waiting == map[]
    ensures s.received + |s.expired| == s.seqNo == Limit(s.count)
    ensures s.seqNo == s.count <==> s.count < U16
  {
    Conservation(s);
    assert s.count < U16 ==> Limit(s.count) == s.count;
  }

  // ----- runs

  datatype Config = Config(count: nat, sendAt: nat, interval: nat, timeout: nat)

  datatype Run = Boot | Then(prefix: Run, input: Input)

  /** Turns of the loop without a panic, on a clock that never goes back, until the loop breaks. */
  ghost predicate ValidRun(c: Config, r: Run)
    decreases r, 0
  {
    match r
    case Boot => true
    case Then(prefix, i) =>
      && ValidRun(c, prefix)
      && (prefix.Then? ==> !Breaks(Last(c, prefix)))
      && Last(c, prefix).now <= i.now < U64
      && Turn(Last(c, prefix), i, c.interval, c.timeout).Some?
  }

  /** The state a run ends in; the invariant holds in all of them. */
  ghost function Last(c: Config, r: Run): (s: State)
    requires ValidRun(c, r)
    ensures Inv(s)
    decreases r, 1
  {
    match r
    case Boot => Start(c.count, c.sendAt)
    case Then(prefix, i) =>
      TurnPreserves(Last(c, prefix), i, c.interval, c.timeout);
      Turn(Last(c, prefix), i, c.interval, c.timeout).value
  }

  // ----- the sending schedule

  /** When the socket was last bound, or the initial `send_at`. */
  function Bound(c: Config, r: Run): nat {
    match r
    case Boot => c.sendAt
    case Then(prefix, i) => if i.bind then i.now else Bound(c, prefix)
  }

  /** `k` intervals. */
  function Intervals(k: nat, interval: nat): nat {
    if k == 0 then 0 else Intervals(k - 1, interval) + interval
  }

  lemma {:induction false} IntervalsIs(k: nat, interval: nat)
    ensures Intervals(k, interval) == k * interval
  {
    if k > 0 {
      IntervalsIs(k - 1, interval);
      assert k * interval == (k - 1) * interval + interval;
    }
  }

  /** When the next request is due in a turn with this input: one interval per request sent since the socket
      was last bound, in 64-bit arithmetic. */
  function Due(c: Config, prefix: Run, i: Input): nat
    decreases prefix, 1
  {
    if i.bind then i.now else Wrap(Bound(c, prefix) + Intervals(Since(c, prefix), c.interval))
  }

  /** A turn sends when the socket can send, fewer requests than asked for have been sent, and one is due. */
  predicate Sends(c: Config, prefix: Run, i: Input)
    decreases prefix, 2
  {
    i.canSend && SentCount(c, prefix) < Limit(c.count) && Due(c, prefix, i) <= i.now
  }

  /** The number of requests sent since the socket was last bound. */
  function Since(c: Config, r: Run): nat
    decreases r, 0
  {
    match r
    case Boot => 0
    case Then(prefix, i) => (if i.bind then 0 else Since(c, prefix)) + if Sends(c, prefix, i) then 1 else 0
  }

  /** The number of requests sent. */
  function SentCount(c: Config, r: Run): nat
    decreases r, 0
  {
    match r
    case Boot => 0
    case Then(prefix, i) => SentCount(c, prefix) + if Sends(c, prefix, i) then 1 else 0
  }

  /** When request `n` was sent. */
  function SentTime(c: Config, r: Run, n: nat): nat {
    match r
    case Boot => 0
    case Then(prefix, i) => if Sends(c, prefix, i) && SentCount(c, prefix) == n then i.now else SentTime(c, prefix, n)
  }

  /** What a turn does to the counter and to `send_at`. */
  lemma TurnSends(s: State, i: Input, interval: nat, timeout: nat)
    requires Turn(s, i, interval, timeout).Some?
    ensures var t := Turn(s, i, interval, timeout).value;
            var due := if i.bind then i.now else s.sendAt;
            var sends := i.canSend && s.seqNo < Limit(s.count) && due <= i.now;
            && t.count == s.count && t.seqNo == s.seqNo + (if sends then 1 else 0)
            && t.sendAt == if sends then Wrap(due + interval) else due
  {
  }

  /** The loop's own counter and `send_at` agree with the schedule. */
  predicate OnSchedule(c: Config, r: Run, s: State) {
    s.count == c.count && s.seqNo == SentCount(c, r) && s.sendAt == Wrap(Bound(c, r) + Intervals(Since(c, r), c.interval))
  }

  lemma DueMoves(due: nat, bound: nat, since: nat, interval: nat, sends: bool)
    requires due == Wrap(bound + Intervals(since, interval))
    ensures (if sends then Wrap(due + interval) else due)
         == Wrap(bound + Intervals(since + if sends then 1 else 0, interval))
  {
    SumWraps(due, bound + Intervals(since, interval), interval);
  }

  lemma BoundNow(now: nat, interval: nat)
    requires now < U64
    ensures Wrap(now + Intervals(0, interval)) == now
  {
  }

  /** A turn of the loop is a turn of the schedule. */
  lemma ScheduleTurn(s: State, t: State, i: Input, interval: nat, timeout: nat, bound: nat, since: nat)
    requires Turn(s, i, interval, timeout) == Some(t) && i.now < U64
    requires s.sendAt == Wrap(bound + Intervals(since, interval))
    ensures var due := if i.bind then i.now else s.sendAt;
            var sends := i.canSend && s.seqNo < Limit(s.count) && due <= i.now;
            var more := if sends then 1 else 0;
            && t.count == s.count && t.seqNo == s.seqNo + more
            && t.sendAt == Wrap((if i.bind then i.now else bound) + Intervals((if i.bind then 0 else since) + more, interval))
  {
    TurnSends(s, i, interval, timeout);
    var due := if i.bind then i.now else s.sendAt;
    var sends := i.canSend && s.seqNo < Limit(s.count) && due <= i.now;
    BoundNow(i.now, interval);
    DueMoves(due, if i.bind then i.now else bound, if i.bind then 0 else since, interval, sends);
  }

  lemma ScheduleNext(c: Config, prefix: Run, i: Input, s: State, t: State)
    requires OnSchedule(c, prefix, s) && Turn(s, i, c.interval, c.timeout) == Some(t) && i.now < U64
    ensures OnSchedule(c, Then(prefix, i), t)
  {
    ScheduleTurn(s, t, i, c.interval, c.timeout, Bound(c, prefix), Since(c, prefix));
    assert Due(c, prefix, i) == if i.bind then i.now else s.sendAt;
    var more := if Sends(c, prefix, i) then 1 else 0;
    var r := Then(prefix, i);
    assert Since(c, r) == (if i.bind then 0 else Since(c, prefix)) + more;
    assert SentCount(c, r) == SentCount(c, prefix) + more;
  }

  /** In every run, rebinding or not: the loop has sent exactly the requests of the schedule, and the next
      one is due when it says. */
  lemma {:induction false} Schedule(c: Config, r: Run)
    requires ValidRun(c, r) && c.sendAt < U64
    ensures OnSchedule(c, r, Last(c, r))
  {
    match r
    case Boot => BoundNow(c.sendAt, c.interval);
    case Then(prefix, i) =>
      Schedule(c, prefix);
      ScheduleNext(c, prefix, i, Last(c, prefix), Last(c, r));
  }

  /** Each turn sends exactly one request if the schedule says so, and none otherwise. */
  lemma SendsExactly(c: Config, prefix: Run, i: Input)
    requires ValidRun(c, Then(prefix, i)) && c.sendAt < U64
    ensures Last(c, Then(prefix, i)).seqNo == Last(c, prefix).seqNo + if Sends(c, prefix, i) then 1 else 0
  {
    Schedule(c, prefix);
    Schedule(c, Then(prefix, i));
  }

  /** The socket is bound in the first turn or not at all. */
  predicate Steady(r: Run) {
    match r
    case Boot => true
    case Then(prefix, i) => Steady(prefix) && (i.bind ==> prefix.Boot?)
  }

  lemma {:induction false} SteadySince(c: Config, r: Run)
    requires Steady(r)
    ensures Since(c, r) == SentCount(c, r)
  {
    match r
    case Boot =>
    case Then(prefix, i) => SteadySince(c, prefix);
  }

  lemma {:induction false} NotBeforeDue(c: Config, r: Run, n: nat)
    requires Steady(r) && n < SentCount(c, r) && Bound(c, r) + Intervals(n, c.interval) < U64
    ensures Bound(c, r) + Intervals(n, c.interval) <= SentTime(c, r, n)
  {
    match r
    case Boot =>
    case Then(prefix, i) =>
      if n < SentCount(c, prefix) {
        NotBeforeDue(c, prefix, n);
      } else if !i.bind {
        SteadySince(c, prefix);
        assert Due(c, prefix, i) == Wrap(Bound(c, r) + Intervals(n, c.interval));
        WrapSmall(Bound(c, r) + Intervals(n, c.interval));
      }
  }

  lemma WrapSmall(x: nat)
    requires x < U64
    ensures Wrap(x) == x
  {
  }

  /** Without rebinding, request `n` is not sent before `n` intervals have passed, as long as these times are
      below 2^64. */
  lemma NotEarly(c: Config, r: Run, n: nat)
    requires Steady(r) && n < SentCount(c, r) && Bound(c, r) + n * c.interval < U64
    ensures Bound(c, r) + n * c.interval <= SentTime(c, r, n)
  {
    IntervalsIs(n, c.interval);
    NotBeforeDue(c, r, n);
  }

  /** The time kept for a waiting request is when it was sent. */
  lemma {:induction false} WaitingSent(c: Config, r: Run, n: nat)
    requires ValidRun(c, r) && c.sendAt < U64 && n in Last(c, r).waiting
    ensures Last(c, r).waiting[n] == SentTime(c, r, n)
  {
    match r
    case Boot =>
    case Then(prefix, i) =>
      var s := Last(c, prefix);
      Schedule(c, prefix);
      SendsExactly(c, prefix, i);
      TimeoutExact(s, i, c.interval, c.timeout, n);
      WaitingNew(s, i, c.interval, c.timeout, n);
      if n in s.waiting {
        WasSent(s, n);
        WaitingSent(c, prefix, n);
      }
  }

  lemma WasSent(s: State, n: nat)
    requires Inv(s) && n in s.waiting
    ensures n < s.seqNo
  {
    UpToMembers(s.seqNo, n);
    assert n in s.waiting.Keys;
  }

  lemma WaitingNew(s: State, i: Input, interval: nat, timeout: nat, n: nat)
    requires Turn(s, i, interval, timeout).Some?
    ensures var t := Turn(s, i, interval, timeout).value;
            n in t.waiting && n !in s.waiting ==> n == s.seqNo && t.seqNo == s.seqNo + 1
  {
  }

  // ----- why the loop ends

  /** The last answer of polling the network. */
  function Polled(r: Run): bool {
    match r
    case Boot => true
    case Then(prefix, i) => if i.poll.Some? then i.poll.value else Polled(prefix)
  }

  lemma TurnFlags(s: State, i: Input, interval: nat, timeout: nat)
    requires Turn(s, i, interval, timeout).Some? && (s.timeoutLoop <==> s.expired != {})
    ensures var t := Turn(s, i, interval, timeout).value;
            && (t.timeoutLoop <==> t.expired != {})
            && t.pollStatus == if i.poll.Some? then i.poll.value else s.pollStatus
  {
    var s2 := MaybeReceive(MaybeSend(Begin(s, i), i, interval), i).value;
    assert s2.timeoutLoop == s.timeoutLoop && s2.expired == s.expired;
  }

  lemma {:induction false} Flags(c: Config, r: Run)
    requires ValidRun(c, r)
    ensures Last(c, r).timeoutLoop <==> Last(c, r).expired != {}
    ensures Last(c, r).pollStatus == Polled(r)
  {
    match r
    case Boot =>
    case Then(prefix, i) =>
      Flags(c, prefix);
      TurnFlags(Last(c, prefix), i, c.interval, c.timeout);
  }

  /** In every run the loop ends exactly when all requests asked for, modulo 2^16, have been sent and none is
      waiting, or when not all have been sent, one has timed out and the network had nothing to do. */
  lemma BreaksExactly(c: Config, r: Run)
    requires ValidRun(c, r) && c.sendAt < U64
    ensures var s := Last(c, r);
            Breaks(s) <==>
              || (SentCount(c, r) == Limit(c.count) && s.waiting == map[])
              || (SentCount(c, r) != Limit(c.count) && s.expired != {} && !Polled(r))
  {
    Schedule(c, r);
    Flags(c, r);
  }

  /** In every run, whatever arrives: when the printed total and mean are right. */
  lemma RunMean(c: Config, r: Run)
    requires ValidRun(c, r)
    ensures var s := Last(c, r);
            && (s.total == Sum(s.times) <==> Sum(s.times) < U64)
            && Average(s.total, s.received) <= Max(s.times) as real
            && (Min(s.times) as real <= Average(s.total, s.received)
                <==> Min(s.times) * s.received <= Wrap(Sum(s.times)))
  {
    MeanExact(Last(c, r));
  }

  /** No reply counted in the run was stamped in the future. */
  ghost predicate PastRun(c: Config, r: Run)
    requires ValidRun(c, r)
  {
    match r
    case Boot => true
    case Then(prefix, i) => PastRun(c, prefix) && PastInput(Last(c, prefix), i, c.interval)
  }

  lemma {:induction false} PastTimes(c: Config, r: Run)
    requires ValidRun(c, r) && PastRun(c, r)
    ensures TimesBounded(Last(c, r).times, Last(c, r).now)
  {
    match r
    case Boot =>
    case Then(prefix, i) =>
      PastTimes(c, prefix);
      PastTurn(Last(c, prefix), i, c.interval, c.timeout);
  }

  /** In every run that counts no reply stamped in the future, with the clock below 2^48 milliseconds: the
      total is the sum of the times and the mean lies between minimum and maximum. */
  lemma PastStatistics(c: Config, r: Run)
    requires ValidRun(c, r) && PastRun(c, r) && Last(c, r).now < 0x1_0000_0000_0000
    ensures var s := Last(c, r);
            && s.total == Sum(s.times)
            && Min(s.times) as real <= Average(s.total, s.received) <= Max(s.times) as real
  {
    PastTimes(c, r);
    PastSum(Last(c, r));
    MeanBetween(Last(c, r));
  }

  /** Every reply that answers a waiting request carries back the data of that request. */
  ghost predicate HonestRun(c: Config, r: Run, size: nat)
    requires ValidRun(c, r) && size >= 8
  {
    match r
    case Boot => true
    case Then(prefix, i) =>
      && HonestRun(c, prefix, size)
      && (i.packet.Some? ==> HonestPacket(MaybeSend(Begin(Last(c, prefix), i), i, c.interval), i.packet.value, size))
  }

  /** Honest echoes are never stamped in the future, so their statistics are right. */
  lemma {:induction false} HonestIsPast(c: Config, r: Run, size: nat)
    requires ValidRun(c, r) && size >= 8 && HonestRun(c, r, size)
    ensures PastRun(c, r)
  {
    match r
    case Boot =>
    case Then(prefix, i) =>
      HonestIsPast(c, prefix, size);
      BeginSend(Last(c, prefix), i, c.interval);
      if i.packet.Some? {
        HonestReply(MaybeSend(Begin(Last(c, prefix), i), i, c.interval), i.packet.value, size);
      }
  }

  lemma BeginSend(s: State, i: Input, interval: nat)
    requires SentBefore(s.waiting, s.now) && s.now <= i.now
    ensures var t := MaybeSend(Begin(s, i), i, interval); t.now == i.now && SentBefore(t.waiting, t.now)
  {
  }

  // ----- a run whose mean is below its minimum

  /** A turn at `now` that sends a request and receives a reply to request `n` stamped `stamp`. */
  function Echo(now: nat, n: nat, stamp: nat): Input {
    Input(now, None, false, true, Some(EchoReply(n, StoreBE(stamp, 8))))
  }

  const TWO_REQUESTS := Config(2, 0, 1, 10)

  /** Two replies: one at time 1 stamped 2, one at time 2 stamped 1. */
  function FutureStamp(): Run {
    Then(Then(Boot, Echo(1, 0, 2)), Echo(2, 1, 1))
  }

  /** What a turn does that sends request `n` and gets its reply. */
  lemma EchoTurn(s: State, now: nat, stamp: nat, interval: nat, timeout: nat)
    requires s.waiting == map[] && s.seqNo < Limit(s.count) && s.sendAt <= now && stamp < U64
    ensures Turn(s, Echo(now, s.seqNo, stamp), interval, timeout) ==
            Some(Count(Send(s.(now := now), interval), s.seqNo, Wrap(now - stamp)))
  {
    EightBytes();
    LoadStoreBE(stamp, 8);
    var i := Echo(now, s.seqNo, stamp);
    var s1 := Send(s.(now := now), interval);
    assert MaybeSend(Begin(s, i), i, interval) == s1;
    assert StoreBE(stamp, 8)[..8] == StoreBE(stamp, 8);
    assert Judge(s1, i.packet.value) == Accept(s.seqNo, Wrap(now - stamp));
    var s2 := Count(s1, s.seqNo, Wrap(now - stamp));
    assert s2.waiting == map[];
    assert Overdue(s2, timeout) == {};
    assert s2.waiting - {} == s2.waiting && s2.expired + {} == s2.expired;
  }

  lemma FirstReply(s: State)
    requires Turn(Start(2, 0), Echo(1, 0, 2), 1, 10) == Some(s)
    ensures s.count == 2 && s.seqNo == 1 && s.now == 1 && s.waiting == map[] && s.sendAt == 1 && !s.timeoutLoop
    ensures s.received == 1 && s.times == [U64 - 1] && s.total == U64 - 1
  {
    assert Limit(2) == 2;
    EchoTurn(Start(2, 0), 1, 2, 1, 10);
    assert Wrap(-1) == U64 - 1;
  }

  lemma SecondReply(s: State, t: State)
    requires s.count == 2 && s.seqNo == 1 && s.waiting == map[] && s.sendAt == 1
    requires s.received == 1 && s.times == [U64 - 1] && s.total == U64 - 1
    requires Turn(s, Echo(2, 1, 1), 1, 10) == Some(t)
    ensures t.count == 2 && t.seqNo == 2 && t.waiting == map[]
    ensures t.received == 2 && t.times == [U64 - 1, 1] && t.total == 0
  {
    assert Limit(2) == 2;
    EchoTurn(s, 2, 1, 1, 10);
    assert Wrap(1) == 1 && Wrap(U64) == 0;
  }

  /** The run is one of the loop's, ends with every request answered, and prints a mean below its minimum. */
  lemma MeanOutside()
    ensures ValidRun(TWO_REQUESTS, FutureStamp())
    ensures var s := Last(TWO_REQUESTS, FutureStamp());
            && Breaks(s) && s.received == 2 && s.times == [U64 - 1, 1] && s.total == 0
            && Average(s.total, s.received) < Min(s.times) as real
  {
    var c, r1 := TWO_REQUESTS, Then(Boot, Echo(1, 0, 2));
    assert Limit(2) == 2;
    EchoTurn(Start(2, 0), 1, 2, 1, 10);
    var s1 := Last(c, r1);
    FirstReply(s1);
    EchoTurn(s1, 2, 1, 1, 10);
    SecondReply(s1, Last(c, FutureStamp()));
  }

  /** In every run, whatever arrives: sent = received + timed out + waiting. */
  lemma RunConservation(c: Config, r: Run)
    requires ValidRun(c, r)
    ensures var s := Last(c, r);
            s.seqNo == s.received + |s.expired| + |s.waiting| && s.received <= s.seqNo && s.answered !! s.expired
  {
    Conservation(Last(c, r));
  }

  // ----- the program's own variables

  class Pinger {
    const count: nat
    const interval: nat
    const timeout: nat
    var seqNo: nat
    var waitingQueue: map<nat, nat>
    var received: nat
    var times: seq<nat>
    var totalTime: nat
    var timeoutLoop: bool
    var pollStatus: bool
    var sendAt: nat
    var timestamp: nat
    ghost var answered: set<nat>
    ghost var expired: set<nat>

    ghost function View(): State
      reads this
    {
      State(count, seqNo, waitingQueue, received, times, totalTime, timeoutLoop, pollStatus, sendAt, timestamp,
            answered, expired)
    }

    constructor (c: Config)
      ensures View() == Start(c.count, c.sendAt) && interval == c.interval && timeout == c.timeout
    {
      count, interval, timeout := c.count, c.interval, c.timeout;
      seqNo, waitingQueue, received, times, totalTime := 0, map[], 0, [], 0;
      timeoutLoop, pollStatus, sendAt, timestamp := false, true, c.sendAt, 0;
      answered, expired := {}, {};
    }

    /** `get_icmp_pong`; false when it panics. */
    method GetIcmpPong(p: Packet) returns (ok: bool)
      modifies this
      ensures ok == Pong(old(View()), p).Some?
      ensures View() == if ok then Pong(old(View()), p).value else old(View())
    {
      if p.EchoReply? {
        if p.seqNo in waitingQueue {
          if |p.data| < 8 {
            return false;
          }
          var packetTimestamp := LoadBE(p.data[..8]);
          var rtt := Wrap(timestamp - packetTimestamp);
          waitingQueue := waitingQueue - {p.seqNo};
          received := received + 1;
          times := times + [rtt];
          totalTime := Wrap(totalTime + rtt);
          answered := answered + {p.seqNo};
        }
      }
      return true;
    }

    /** `waiting_queue.retain(..)` */
    method RetainWaiting()
      modifies this
      ensures View() == Retain(old(View()), timeout)
    {
      var over := set n | n in waitingQueue && timestamp - waitingQueue[n] >= timeout;
      waitingQueue := waitingQueue - over;
      if over != {} {
        timeoutLoop := true;
      }
      expired := expired + over;
    }

    method ReadClock(i: Input)
      modifies this
      ensures View() == Begin(old(View()), i)
    {
      if i.poll.Some? {
        pollStatus := i.poll.value;
      }
      timestamp := i.now;
      if i.bind {
        sendAt := timestamp;
      }
    }

    method SendIfDue(i: Input)
      modifies this
      ensures View() == MaybeSend(old(View()), i, interval)
    {
      if i.canSend && seqNo < Limit(count) && sendAt <= timestamp {
        waitingQueue := waitingQueue[seqNo := timestamp];
        seqNo := seqNo + 1;
        sendAt := Wrap(sendAt + interval);
      }
    }

    /** Receives the packet, if there is one; false when that panics. */
    method Receive(i: Input) returns (ok: bool)
      modifies this
      ensures ok == MaybeReceive(old(View()), i).Some?
      ensures ok ==> View() == MaybeReceive(old(View()), i).value
    {
      ok := true;
      if i.packet.Some? {
        ok := GetIcmpPong(i.packet.value);
      }
    }

    /** The loop body; false when it panics. */
    method OneTurn(i: Input) returns (ok: bool)
      modifies this
      ensures ok == Turn(old(View()), i, interval, timeout).Some?
      ensures ok ==> View() == Turn(old(View()), i, interval, timeout).value
    {
      ReadClock(i);
      SendIfDue(i);
      ok := Receive(i);
      if ok {
        RetainWaiting();
      }
    }

    /** The loop, on any environment: it ends in the first turn after which it breaks, in the first turn that
        panics, or when the inputs run out, `k` turns having been completed. */
    method PingLoop(c: Config, inputs: seq<Input>) returns (end: Ending, k: nat)
      requires View() == Start(c.count, c.sendAt) && interval == c.interval && timeout == c.timeout
      modifies this
      ensures k <= |inputs| && StateAfter(c, inputs, k).Some?
      ensures end.Broke? ==> k > 0 && StateAfter(c, inputs, k) == Some(View()) && Breaks(View())
      ensures end.Panicked? ==> k < |inputs| && StateAfter(c, inputs, k + 1) == None
                                && (k > 0 ==> !Breaks(StateAfter(c, inputs, k).value))
      ensures end.Unfinished? ==>
                k == |inputs| && StateAfter(c, inputs, k) == Some(View()) && (k > 0 ==> !Breaks(View()))
    {
      k := 0;
      while k < |inputs|
        invariant k <= |inputs| && StateAfter(c, inputs, k) == Some(View()) && (k > 0 ==> !Breaks(View()))
      {
        AfterNext(c, inputs, k, View());
        var ok := OneTurn(inputs[k]);
        if !ok {
          return Panicked, k;
        }
        k := k + 1;
        if (seqNo == Limit(count) && waitingQueue == map[]) || (timeoutLoop && !pollStatus && seqNo != Limit(count)) {
          return Broke, k;
        }
      }
      return Unfinished, k;
    }
  }

  datatype Ending = Broke | Panicked | Unfinished

  /** The state after `k` turns with these inputs; none if one of them panics or comes after a break. */
  function StateAfter(c: Config, inputs: seq<Input>, k: nat): Option<State>
    requires k <= |inputs|
    decreases k, inputs
  {
    if k == 0 then Some(Start(c.count, c.sendAt))
    else
      match StateAfter(c, inputs, k - 1)
      case None => None
      case Some(s) => if k > 1 && Breaks(s) then None else Turn(s, inputs[k - 1], c.interval, c.timeout)
  }

  lemma AfterNext(c: Config, inputs: seq<Input>, k: nat, s: State)
    requires k < |inputs| && StateAfter(c, inputs, k) == Some(s) && (k > 0 ==> !Breaks(s))
    ensures StateAfter(c, inputs, k + 1) == Turn(s, inputs[k], c.interval, c.timeout)
  {
  }

  /** The first `k` turns with these inputs, as a run. */
  function RunOf(inputs: seq<Input>, k: nat): Run
    requires k <= |inputs|
  {
    if k == 0 then Boot else Then(RunOf(inputs, k - 1), inputs[k - 1])
  }

  predicate Monotone(inputs: seq<Input>) {
    && (forall k :: 0 <= k < |inputs| ==> inputs[k].now < U64)
    && (forall j, k :: 0 <= j < k < |inputs| ==> inputs[j].now <= inputs[k].now)
  }

  /** On a clock that does not go back, what the loop does is a run, so that all the laws of runs hold of it. */
  lemma {:induction false} LoopIsRun(c: Config, inputs: seq<Input>, k: nat)
    requires k <= |inputs| && Monotone(inputs) && StateAfter(c, inputs, k).Some?
    ensures ValidRun(c, RunOf(inputs, k)) && Last(c, RunOf(inputs, k)) == StateAfter(c, inputs, k).value
    ensures k > 0 ==> StateAfter(c, inputs, k).value.now == inputs[k - 1].now
  {
    if k > 0 {
      LoopIsRun(c, inputs, k - 1);
      TurnClock(StateAfter(c, inputs, k - 1).value, inputs[k - 1], c.interval, c.timeout);
    }
  }

  lemma TurnClock(s: State, i: Input, interval: nat, timeout: nat)
    ensures Turn(s, i, interval, timeout).Some? ==> Turn(s, i, interval, timeout).value.now == i.now
  {
  }
}
