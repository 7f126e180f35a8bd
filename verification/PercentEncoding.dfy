/** Percent encoding of libs/percent_encoding/lib.rs (section 2.1 of RFC 3986). */
module PercentEncoding {
  import opened Bytes

  type Input = seq<byte>

  const PERCENT: byte := 37

  // ----- bytes, digits and encode sets

  /** The digit the table of `percent_encode_byte` uses for a nibble: `0`-`9`, then `A`-`F`. */
  function HexDigit(n: nat): byte
    requires n < 16
  {
    if n < 10 then 48 + n else 55 + n
  }

  /** The table entry of `percent_encode_byte` for `b`. */
  function EncodeByte(b: byte): seq<byte> {
    [PERCENT, HexDigit(b / 16), HexDigit(b % 16)]
  }

  /** `(b as char).to_digit(16)`: both letter cases are accepted. */
  function ToDigit(b: byte): Option<nat> {
    if 48 <= b <= 57 then Some(b - 48)
    else if 65 <= b <= 70 then Some(b - 55)
    else if 97 <= b <= 102 then Some(b - 87)
    else None
  }

  predicate IsHex(b: byte) {
    ToDigit(b).Some?
  }

  const LOWER := "0123456789abcdef"
  const UPPER := "0123456789ABCDEF"

  /** The byte is the hexadecimal digit for `n`, in either case. */
  predicate Stands(b: byte, n: nat)
    requires n < 16
  {
    b as char == LOWER[n] || b as char == UPPER[n]
  }

  /** The digits a decoder accepts, and what they stand for: those of the two strings and no other byte. */
  lemma DigitTable(b: byte, n: nat)
    requires n < 16
    ensures ToDigit(b) == Some(n) <==> Stands(b, n)
    ensures IsHex(b) <==> b as char in LOWER || b as char in UPPER
  {
    DigitValue(b, n);
    if IsHex(b) { DigitValue(b, ToDigit(b).value); }
  }

  lemma DigitValue(b: byte, n: nat)
    requires n < 16
    ensures ToDigit(b) == Some(n) <==> Stands(b, n)
  {
  }

  /** Every escape is written with upper-case digits, the high one first. */
  lemma EscapeTable(b: byte)
    ensures EncodeByte(b) == [37, UPPER[b / 16] as int, UPPER[b % 16] as int]
  {
  }

  const SIMPLE: set<byte> := set b: byte | 0 <= b < 256 && (b < 0x20 || b > 0x7E)
  const QUERY: set<byte> := SIMPLE + {32, 34, 35, 60, 62}
  const DEFAULT: set<byte> := QUERY + {96, 63, 123, 125}
  const PATH_SEGMENT: set<byte> := DEFAULT + {PERCENT, 47}
  const USERINFO: set<byte> := DEFAULT + {47, 58, 59, 61, 64, 91, 92, 93, 94, 124}

  /** What the `EncodeSet` trait asks for: every non-ASCII byte is in the set. */
  predicate ContainsNonAscii(s: set<byte>) {
    forall b: byte :: 128 <= b ==> b in s
  }

  // ----- the encoding, byte by byte

  function Encode(bs: Input, s: set<byte>): seq<byte> {
    if bs == [] then []
    else (if bs[0] in s then EncodeByte(bs[0]) else [bs[0]]) + Encode(bs[1..], s)
  }

  // ----- the decoding, byte by byte

  /** The byte two hex digits stand for, if the input starts with two. */
  function Escape(bs: Input): Option<byte> {
    if |bs| >= 2 && IsHex(bs[0]) && IsHex(bs[1])
    then Some(ToDigit(bs[0]).value * 16 + ToDigit(bs[1]).value)
    else None
  }

  function Decode(bs: Input): seq<byte> {
    if bs == [] then []
    else if bs[0] == PERCENT && Escape(bs[1..]).Some?
    then [Escape(bs[1..]).value] + Decode(bs[3..])
    else [bs[0]] + Decode(bs[1..])
  }

  /** A percent sign and two digits, each in either case, decode to the byte they stand for. */
  lemma DecodeDigits(h: byte, l: byte, high: nat, low: nat, rest: Input)
    requires high < 16 && low < 16 && Stands(h, high) && Stands(l, low)
    ensures Decode([PERCENT, h, l] + rest) == [high * 16 + low] + Decode(rest)
  {
    DigitTable(h, high);
    DigitTable(l, low);
    DecodeEscape(h, l, rest);
  }

  lemma DecodeEscape(h: byte, l: byte, rest: Input)
    requires IsHex(h) && IsHex(l)
    ensures Decode([PERCENT, h, l] + rest) == [ToDigit(h).value * 16 + ToDigit(l).value] + Decode(rest)
  {
    var bs := [PERCENT, h, l] + rest;
    assert bs[1..] == [h, l] + rest && bs[3..] == rest;
  }

  /** A byte that is no percent sign, or that two digits do not follow, decodes to itself. */
  lemma DecodePlain(bs: Input)
    requires bs != []
    requires bs[0] == PERCENT ==> !(|bs| >= 3 && IsHex(bs[1]) && IsHex(bs[2]))
    ensures Decode(bs) == [bs[0]] + Decode(bs[1..])
  {
  }

  // ----- encoding, then decoding

  /** At position `i` the input has an escape that the encoder leaves as it is. */
  predicate RawEscapeAt(bs: Input, s: set<byte>, i: int) {
    && 0 <= i && i + 2 < |bs| && bs[i] == PERCENT && IsHex(bs[i + 1]) && IsHex(bs[i + 2])
    && PERCENT !in s && bs[i + 1] !in s && bs[i + 2] !in s
  }

  predicate RawEscape(bs: Input, s: set<byte>) {
    RawEscapeAt(bs, s, 0)
  }

  lemma EncodeStart(bs: Input, s: set<byte>)
    ensures Escape(Encode(bs, s)) ==
            if |bs| >= 2 && bs[0] !in s && bs[1] !in s then Escape(bs) else None
  {
  }

  /** Decoding an encoding reads the original byte by byte, except that a raw escape is read as one byte. */
  lemma DecodeEncodeStep(bs: Input, s: set<byte>)
    requires bs != []
    ensures Decode(Encode(bs, s)) ==
            if RawEscape(bs, s) then [Escape(bs[1..]).value] + Decode(Encode(bs[3..], s))
            else [bs[0]] + Decode(Encode(bs[1..], s))
  {
    if bs[0] in s {
      DecodeEscaped(bs[0], Encode(bs[1..], s));
    } else {
      EncodeStart(bs[1..], s);
      assert Encode(bs, s)[1..] == Encode(bs[1..], s);
      if RawEscape(bs, s) { RawRest(bs, s); }
    }
  }

  lemma DecodeEscaped(b: byte, rest: Input)
    ensures Decode(EncodeByte(b) + rest) == [b] + Decode(rest)
  {
    var e := EncodeByte(b);
    assert (e + rest)[1..] == [e[1], e[2]] + rest;
    assert (e + rest)[3..] == rest;
    assert Escape((e + rest)[1..]) == Some(b);
  }

  lemma RawRest(bs: Input, s: set<byte>)
    requires RawEscape(bs, s)
    ensures |Encode(bs, s)| >= 3 && Encode(bs, s)[3..] == Encode(bs[3..], s)
  {
    assert bs[1..][1..] == bs[2..] && bs[2..][1..] == bs[3..];
    assert Encode(bs[1..], s) == [bs[1]] + Encode(bs[2..], s);
    assert Encode(bs[2..], s) == [bs[2]] + Encode(bs[3..], s);
  }

  ghost predicate HasRawEscape(bs: Input, s: set<byte>) {
    exists i :: RawEscapeAt(bs, s, i)
  }

  /** Per input: the round trip holds exactly when the input has no raw escape. */
  lemma {:induction false} RoundTripExact(bs: Input, s: set<byte>)
    ensures |Decode(Encode(bs, s))| <= |bs|
    ensures Decode(Encode(bs, s)) == bs <==> !HasRawEscape(bs, s)
  {
    if bs != [] {
      DecodeEncodeStep(bs, s);
      if RawEscape(bs, s) {
        RoundTripExact(bs[3..], s);
      } else {
        RoundTripExact(bs[1..], s);
        TailRawEscape(bs, s);
        assert bs == [bs[0]] + bs[1..];
      }
    }
  }

  lemma TailRawEscape(bs: Input, s: set<byte>)
    requires bs != [] && !RawEscape(bs, s)
    ensures HasRawEscape(bs, s) <==> HasRawEscape(bs[1..], s)
  {
    var tail := bs[1..];
    if HasRawEscape(bs, s) {
      var i :| RawEscapeAt(bs, s, i);
      assert RawEscapeAt(tail, s, i - 1);
    }
    if HasRawEscape(tail, s) {
      var i :| RawEscapeAt(tail, s, i);
      assert RawEscapeAt(bs, s, i + 1);
    }
  }

  /** For a set containing `%`, decoding undoes encoding on every byte string. */
  lemma {:induction false} RoundTrip(bs: Input, s: set<byte>)
    requires PERCENT in s
    ensures Decode(Encode(bs, s)) == bs
  {
    RoundTripExact(bs, s);
  }

  predicate ContainsAllHex(s: set<byte>) {
    forall b: byte :: IsHex(b) ==> b in s
  }

  predicate ContainsNoHex(s: set<byte>) {
    forall b: byte :: IsHex(b) ==> b !in s
  }

  /** The sets for which decoding undoes encoding on all inputs. */
  lemma RoundTripSets(s: set<byte>)
    ensures (forall bs: Input :: Decode(Encode(bs, s)) == bs) <==> PERCENT in s || ContainsAllHex(s)
  {
    if PERCENT in s || ContainsAllHex(s) {
      forall bs: Input ensures Decode(Encode(bs, s)) == bs {
        RoundTripExact(bs, s);
      }
    } else {
      var h: byte :| IsHex(h) && h !in s;
      var bs: Input := [PERCENT, h, h];
      RoundTripExact(bs, s);
      assert RawEscapeAt(bs, s, 0);
      assert Decode(Encode(bs, s)) != bs;
    }
  }

  /** For a set with neither `%` nor hex digits, encoding is invisible to a decoder. */
  lemma {:induction false} Transparent(bs: Input, s: set<byte>)
    requires PERCENT !in s && ContainsNoHex(s)
    ensures Decode(Encode(bs, s)) == Decode(bs)
  {
    if bs != [] {
      DecodeEncodeStep(bs, s);
      if RawEscape(bs, s) { Transparent(bs[3..], s); } else { Transparent(bs[1..], s); }
    }
  }

  /** The sets for which encoding is invisible to a decoder on all inputs. */
  lemma TransparentSets(s: set<byte>)
    ensures (forall bs: Input :: Decode(Encode(bs, s)) == Decode(bs)) <==> PERCENT !in s && ContainsNoHex(s)
  {
    if PERCENT !in s && ContainsNoHex(s) {
      forall bs: Input ensures Decode(Encode(bs, s)) == Decode(bs) { Transparent(bs, s); }
    } else {
      var h: byte := if PERCENT in s then 65 else (var h: byte :| IsHex(h) && h in s; h);
      var bs: Input := [PERCENT, h, h];
      RoundTripExact(bs, s);
      NoRawEscape(h, s);
      assert Escape(bs[1..]).Some?;
      assert |Decode(bs)| == 1;
      assert Decode(Encode(bs, s)) != Decode(bs);
    }
  }

  lemma NoRawEscape(h: byte, s: set<byte>)
    requires IsHex(h) && (PERCENT in s || h in s)
    ensures !HasRawEscape([PERCENT, h, h], s)
  {
  }

  // ----- encoding twice

  predicate Free(bs: Input, s: set<byte>) {
    forall k :: 0 <= k < |bs| ==> bs[k] !in s
  }

  /** Encoding is the identity exactly on inputs without bytes of the set, and otherwise adds bytes. */
  lemma {:induction false} EncodeIdentity(bs: Input, s: set<byte>)
    ensures |Encode(bs, s)| >= |bs| && (Encode(bs, s) == bs <==> Free(bs, s))
  {
    if bs != [] {
      EncodeIdentity(bs[1..], s);
      assert bs == [bs[0]] + bs[1..];
      if bs[0] in s { assert |Encode(bs, s)| > |bs|; }
      if Free(bs[1..], s) && bs[0] !in s {
        forall k | 0 <= k < |bs| ensures bs[k] !in s { if k > 0 { assert bs[k] == bs[1..][k - 1]; } }
      }
    }
  }

  /** No escape the encoder writes contains a byte it would encode again. */
  predicate EscapesFree(s: set<byte>) {
    forall b: byte :: b in s ==> Free(EncodeByte(b), s)
  }

  lemma {:induction false} EncodedFree(bs: Input, s: set<byte>)
    requires EscapesFree(s)
    ensures Free(Encode(bs, s), s)
  {
    if bs != [] { EncodedFree(bs[1..], s); }
  }

  /** Encoding is idempotent on all inputs exactly for sets whose escapes are free of the set. */
  lemma IdempotentSets(s: set<byte>)
    ensures (forall bs: Input :: Encode(Encode(bs, s), s) == Encode(bs, s)) <==> EscapesFree(s)
  {
    if EscapesFree(s) {
      forall bs: Input ensures Encode(Encode(bs, s), s) == Encode(bs, s) {
        EncodedFree(bs, s);
        EncodeIdentity(Encode(bs, s), s);
      }
    } else {
      var b: byte :| b in s && !Free(EncodeByte(b), s);
      var bs: Input := [b];
      assert Encode(bs, s) == EncodeByte(b);
      EncodeIdentity(EncodeByte(b), s);
      assert Encode(Encode(bs, s), s) != Encode(bs, s);
    }
  }

  /** For sets that contain the non-ASCII bytes, as the trait asks, this means: neither `%` nor a
      digit or upper-case hex letter is in the set. */
  lemma EscapesFreeMeaning(s: set<byte>)
    requires ContainsNonAscii(s)
    ensures EscapesFree(s) <==> PERCENT !in s && forall n: nat :: n < 16 ==> (UPPER[n] as int) !in s
  {
    forall n: nat | n < 16 ensures HexDigit(n) == UPPER[n] as int { }
    if EscapesFree(s) {
      assert Free(EncodeByte(255), s) && EncodeByte(255)[0] == PERCENT;
      forall n: nat | n < 16 ensures HexDigit(n) !in s {
        var b: byte := 240 + n;
        assert Free(EncodeByte(b), s) && EncodeByte(b)[2] == HexDigit(n);
      }
    }
  }

  // ----- the built-in sets

  lemma BuiltInSets(s: set<byte>)
    requires s in {SIMPLE, QUERY, DEFAULT, PATH_SEGMENT, USERINFO}
    ensures ContainsNonAscii(s) && ContainsNoHex(s) && (PERCENT in s <==> s == PATH_SEGMENT)
  {
    assert ContainsNonAscii(SIMPLE) && ContainsNoHex(SIMPLE) && PERCENT !in SIMPLE;
    Widen(SIMPLE, {32, 34, 35, 60, 62});
    Widen(QUERY, {96, 63, 123, 125});
    Widen(DEFAULT, {PERCENT, 47});
    Widen(DEFAULT, {47, 58, 59, 61, 64, 91, 92, 93, 94, 124});
  }

  /** The members of the built-in sets, as the characters their definitions list. */
  lemma BuiltInMembers(b: byte)
    ensures b in SIMPLE <==> b < 0x20 || b > 0x7E
    ensures b in QUERY <==> b in SIMPLE || b as char in " \"#<>"
    ensures b in DEFAULT <==> b in QUERY || b as char in "`?{}"
    ensures b in PATH_SEGMENT <==> b in DEFAULT || b as char in "%/"
    ensures b in USERINFO <==> b in DEFAULT || b as char in "/:;=@[\\]^|"
  {
  }

  lemma Widen(s: set<byte>, more: set<byte>)
    requires ContainsNonAscii(s) && ContainsNoHex(s) && ContainsNoHex(more)
    ensures ContainsNonAscii(s + more) && ContainsNoHex(s + more)
  {
  }

  /** Which law holds on all inputs for which built-in set: the path-segment set is the only one that
      round-trips, and the only one that is neither invisible to decoding nor idempotent. */
  lemma BuiltInLaws(s: set<byte>)
    requires s in {SIMPLE, QUERY, DEFAULT, PATH_SEGMENT, USERINFO}
    ensures (forall bs: Input :: Decode(Encode(bs, s)) == bs) <==> s == PATH_SEGMENT
    ensures (forall bs: Input :: Decode(Encode(bs, s)) == Decode(bs)) <==> s != PATH_SEGMENT
    ensures (forall bs: Input :: Encode(Encode(bs, s), s) == Encode(bs, s)) <==> s != PATH_SEGMENT
  {
    BuiltInSets(s);
    RoundTripSets(s);
    assert IsHex(65) && 65 !in s;
    TransparentSets(s);
    EscapesFreeMeaning(s);
    NoHexDigits(s);
    IdempotentSets(s);
  }

  lemma NoHexDigits(s: set<byte>)
    requires ContainsNoHex(s)
    ensures forall n: nat :: n < 16 ==> (UPPER[n] as int) !in s
  {
    forall n: nat | n < 16 ensures IsHex(UPPER[n] as int) { }
  }
}
