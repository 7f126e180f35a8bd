/** `parse_input_tuples` of applications/swap/src/lib.rs: `(OLD,NEW[,REEXPORT]) (OLD,NEW[,REEXPORT]) ...` */
module SwapParser {
  import opened Bytes

  // ----- strings

  /** The characters `str::trim` removes: Unicode `White_Space`. */
  predicate IsSpace(c: char) {
    var u := c as int;
    || 9 <= u <= 13 || u == 0x20 || u == 0x85 || u == 0xA0 || u == 0x1680 || 0x2000 <= u <= 0x200A
    || u == 0x2028 || u == 0x2029 || u == 0x202F || u == 0x205F || u == 0x3000
  }

  predicate AllSpace(s: string) {
    forall k :: 0 <= k < |s| ==> IsSpace(s[k])
  }

  function TrimStart(s: string): string {
    if s == "" || !IsSpace(s[0]) then s else TrimStart(s[1..])
  }

  function TrimEnd(s: string): string {
    if s == "" || !IsSpace(s[|s| - 1]) then s else TrimEnd(s[..|s| - 1])
  }

  function Trim(s: string): string {
    TrimEnd(TrimStart(s))
  }

  predicate Trimmed(s: string) {
    s == "" || (!IsSpace(s[0]) && !IsSpace(s[|s| - 1]))
  }

  /** The position of the first `c`, or the length of the string. */
  function IndexOf(s: string, c: char): (i: nat)
    ensures i <= |s| && c !in s[..i] && (i < |s| ==> s[i] == c)
  {
    if s == "" || s[0] == c then 0
    else
      var i := 1 + IndexOf(s[1..], c);
      assert s[..i] == [s[0]] + s[1..][..i - 1];
      i
  }

  function Split(s: string, c: char): (parts: seq<string>)
    ensures |parts| >= 1
  {
    var i := IndexOf(s, c);
    if i == |s| then [s] else [s[..i]] + Split(s[i + 1..], c)
  }

  // ----- the parser

  datatype Tuple = Tuple(oldName: string, newName: string, reexport: bool)

  datatype Result = Ok(tuples: seq<Tuple>) | BadFormat | NoTuples

  predicate MeansYes(s: string) {
    s == "true" || s == "yes" || s == "y"
  }

  /** The text between a pair of parentheses. */
  function ParseInside(s: string): Option<Tuple> {
    var parts := Split(s, ',');
    if |parts| < 2 then None
    else Some(Tuple(Trim(parts[0]), Trim(parts[1]), |parts| > 2 && MeansYes(Trim(parts[2]))))
  }

  /** The characters below 128 that are trimmed. */
  lemma AsciiSpaces(c: char)
    requires c < 128 as char
    ensures IsSpace(c) <==> c in " \t\n\r" || c == 11 as char || c == 12 as char
  {
  }

  /** A third field asks for re-exporting exactly when it reads `true`, `yes` or `y` between blanks. */
  lemma ReexportExactly(a: string, b: string, third: string)
    requires ',' !in a && ',' !in b && ',' !in third
    ensures ParseInside(a + "," + (b + "," + third))
         == Some(Tuple(Trim(a), Trim(b), Trim(third) == "true" || Trim(third) == "yes" || Trim(third) == "y"))
  {
    ThreeParts(a, b, third);
  }

  lemma ThreeParts(a: string, b: string, third: string)
    requires ',' !in a && ',' !in b && ',' !in third
    ensures Split(a + "," + (b + "," + third), ',') == [a, b, third]
  {
    SplitAt(a, b + "," + third);
    SplitAt(b, third);
    SplitNone(third);
  }

  /** Without a third field there is no re-exporting. */
  lemma NoReexport(a: string, b: string)
    requires ',' !in a && ',' !in b
    ensures ParseInside(a + "," + b) == Some(Tuple(Trim(a), Trim(b), false))
  {
    SplitAt(a, b);
    SplitNone(b);
  }

  /** The text after an open parenthesis. */
  function ParseAfter(s: string): Option<Tuple> {
    var end := IndexOf(s, ')');
    if end == |s| then None else ParseInside(s[..end])
  }

  /** The tuples at all open parentheses, or nothing if one of them is malformed. */
  function TuplesOf(s: string): Option<seq<Tuple>> {
    if s == "" then Some([])
    else if s[0] != '(' then TuplesOf(s[1..])
    else
      match ParseAfter(s[1..])
      case None => None
      case Some(t) => Prepend([t], TuplesOf(s[1..]))
  }

  function Prepend(v: seq<Tuple>, rest: Option<seq<Tuple>>): Option<seq<Tuple>> {
    match rest
    case None => None
    case Some(ts) => Some(v + ts)
  }

  /** There is one tuple for every open parenthesis, nested ones included, in their order, parsed from the text
      after it. */
  lemma {:induction false} TupleAt(s: string, p: nat)
    requires TuplesOf(s).Some? && p < |s| && s[p] == '('
    ensures |TuplesOf(s).value| == Opens(s) && Opens(s[..p]) < Opens(s)
    ensures ParseAfter(s[p + 1..]) == Some(TuplesOf(s).value[Opens(s[..p])])
  {
    TuplesCount(s);
    if p > 0 {
      assert s[1..][p..] == s[p + 1..] && s[..p][1..] == s[1..][..p - 1];
      TupleAt(s[1..], p - 1);
    }
  }

  /** A tuple is what the text up to the next close parenthesis says. */
  lemma ParseToClose(s: string, q: nat)
    requires q < |s| && s[q] == ')' && ')' !in s[..q]
    ensures ParseAfter(s) == ParseInside(s[..q])
  {
    FirstClose(s, q);
  }

  lemma FirstClose(s: string, q: nat)
    requires q < |s| && s[q] == ')' && ')' !in s[..q]
    ensures IndexOf(s, ')') == q
  {
  }

  lemma PrependOne(v: seq<Tuple>, t: Tuple, rest: Option<seq<Tuple>>)
    ensures Prepend(v, Prepend([t], rest)) == Prepend(v + [t], rest)
  {
    if rest.Some? { assert v + ([t] + rest.value) == (v + [t]) + rest.value; }
  }

  lemma PrependNothing(rest: Option<seq<Tuple>>)
    ensures Prepend([], rest) == rest
  {
    if rest.Some? { assert [] + rest.value == rest.value; }
  }

  function Parse(s: string): Result {
    match TuplesOf(s)
    case None => BadFormat
    case Some(ts) => if ts == [] then NoTuples else Ok(ts)
  }

  /** `parse_input_tuples` */
  method ParseInputTuples(args: string) returns (r: Result)
    ensures r == Parse(args)
  {
    var v: seq<Tuple> := [];
    PrependNothing(TuplesOf(args));
    assert args[0..] == args;
    for i := 0 to |args|
      invariant TuplesOf(args) == Prepend(v, TuplesOf(args[i..]))
    {
      assert args[i..][1..] == args[i + 1..];
      if args[i] == '(' {
        var parsed := ParseAfter(args[i + 1..]);
        match parsed {
          case Some(t) =>
            PrependOne(v, t, TuplesOf(args[i + 1..]));
            v := v + [t];
          case None =>
            return BadFormat;
        }
      }
    }
    if v == [] {
      return NoTuples;
    } else {
      return Ok(v);
    }
  }

  // ----- when parsing succeeds

  /** After position `i` the first close parenthesis comes, and a comma before it. */
  predicate WellClosed(s: string, i: nat)
    requires i < |s|
  {
    var rest := s[i + 1..];
    IndexOf(rest, ')') < |rest| && ',' in rest[..IndexOf(rest, ')')]
  }

  lemma SplitCount(s: string)
    ensures |Split(s, ',')| >= 2 <==> ',' in s
  {
  }

  lemma {:induction false} TuplesExist(s: string)
    ensures TuplesOf(s).Some? <==> forall i :: 0 <= i < |s| && s[i] == '(' ==> WellClosed(s, i)
  {
    if s != "" {
      TuplesExist(s[1..]);
      forall i | 1 <= i < |s| ensures s[i] == s[1..][i - 1] && WellClosed(s, i) == WellClosed(s[1..], i - 1) {
        assert s[1..][i..] == s[i + 1..];
      }
      if s[0] == '(' {
        SplitCount(s[1..][..IndexOf(s[1..], ')')]);
      }
    }
  }

  lemma {:induction false} TuplesCount(s: string)
    ensures TuplesOf(s).Some? ==> |TuplesOf(s).value| == Opens(s)
  {
    if s != "" { TuplesCount(s[1..]); }
  }

  function Opens(s: string): nat {
    if s == "" then 0 else (if s[0] == '(' then 1 else 0) + Opens(s[1..])
  }

  lemma {:induction false} OpensZero(s: string)
    ensures Opens(s) == 0 <==> '(' !in s
  {
    if s != "" {
      OpensZero(s[1..]);
      assert s == [s[0]] + s[1..];
    }
  }

  /** Parsing succeeds exactly when there is an open parenthesis and each is followed by a close
      parenthesis with a comma before it; the two errors tell the other cases apart. */
  lemma ParseSucceeds(s: string)
    ensures Parse(s).Ok? <==> '(' in s && forall i :: 0 <= i < |s| && s[i] == '(' ==> WellClosed(s, i)
    ensures Parse(s).NoTuples? <==> '(' !in s
  {
    TuplesExist(s);
    TuplesCount(s);
    OpensZero(s);
  }

  // ----- printing

  /** One printed tuple: text before it, padding around each name, and optionally a third field with
      anything after it. */
  datatype Item = Item(before: string, p0: string, oldName: string, p1: string, p2: string, newName: string,
                       p3: string, third: Option<string>)

  predicate Plain(s: string) {
    '(' !in s && ')' !in s
  }

  predicate NameOk(s: string) {
    Trimmed(s) && Plain(s) && ',' !in s
  }

  predicate ItemOk(x: Item) {
    && '(' !in x.before && NameOk(x.oldName) && NameOk(x.newName)
    && AllSpace(x.p0) && AllSpace(x.p1) && AllSpace(x.p2) && AllSpace(x.p3)
    && (x.third.Some? ==> Plain(x.third.value))
  }

  /** The text between the parentheses. */
  function Inside(x: Item): string {
    (x.p0 + x.oldName + x.p1) + "," + Second(x)
  }

  function Second(x: Item): string {
    (x.p2 + x.newName + x.p3) + if x.third.Some? then "," + x.third.value else ""
  }

  function PrintItem(x: Item): string {
    x.before + "(" + Inside(x) + ")"
  }

  /** The third field asks for re-exporting if its first comma-separated part, trimmed, says yes. */
  function Meaning(x: Item): Tuple {
    Tuple(x.oldName, x.newName, x.third.Some? && MeansYes(Trim(Split(x.third.value, ',')[0])))
  }

  function Print(xs: seq<Item>, trailing: string): string {
    if xs == [] then trailing else PrintItem(xs[0]) + Print(xs[1..], trailing)
  }

  function Meanings(xs: seq<Item>): seq<Tuple> {
    if xs == [] then [] else [Meaning(xs[0])] + Meanings(xs[1..])
  }

  lemma {:induction false} TrimStartPadded(a: string, s: string)
    requires AllSpace(a) && (s == "" || !IsSpace(s[0]))
    ensures TrimStart(a + s) == s
  {
    if a != "" {
      assert (a + s)[1..] == a[1..] + s;
      TrimStartPadded(a[1..], s);
    } else {
      assert a + s == s;
    }
  }

  lemma {:induction false} TrimEndPadded(s: string, b: string)
    requires AllSpace(b) && (s == "" || !IsSpace(s[|s| - 1]))
    ensures TrimEnd(s + b) == s
  {
    if b != "" {
      assert (s + b)[..|s + b| - 1] == s + b[..|b| - 1];
      TrimEndPadded(s, b[..|b| - 1]);
    } else {
      assert s + b == s;
    }
  }

  lemma TrimPadded(a: string, s: string, b: string)
    requires AllSpace(a) && AllSpace(b) && Trimmed(s)
    ensures Trim(a + s + b) == s
  {
    if s == "" {
      assert a + s + b == (a + b) + "";
      TrimStartPadded(a + b, "");
    } else {
      assert a + s + b == a + (s + b);
      TrimStartPadded(a, s + b);
      TrimEndPadded(s, b);
    }
  }

  lemma {:induction false} IndexAfter(a: string, c: char, b: string)
    requires c !in a
    ensures IndexOf(a + [c] + b, c) == |a|
    ensures (a + [c] + b)[..|a|] == a && (a + [c] + b)[|a| + 1..] == b
  {
    if a != "" {
      assert (a + [c] + b)[1..] == a[1..] + [c] + b;
      IndexAfter(a[1..], c, b);
    }
  }

  lemma SplitAt(a: string, b: string)
    requires ',' !in a
    ensures Split(a + "," + b, ',') == [a] + Split(b, ',')
  {
    IndexAfter(a, ',', b);
  }

  lemma SplitNone(a: string)
    requires ',' !in a
    ensures Split(a, ',') == [a]
  {
  }

  lemma SpaceHasNone(s: string, c: char)
    requires AllSpace(s) && c in {',', '(', ')'}
    ensures c !in s
  {
  }

  lemma ThirdParts(x: Item)
    requires ItemOk(x)
    ensures var parts := Split(Second(x), ',');
            && parts[0] == x.p2 + x.newName + x.p3
            && (x.third.None? ==> |parts| == 1)
            && (x.third.Some? ==> |parts| > 1 && parts[1] == Split(x.third.value, ',')[0])
  {
    var a := x.p2 + x.newName + x.p3;
    SpaceHasNone(x.p2, ',');
    SpaceHasNone(x.p3, ',');
    if x.third.Some? {
      assert Second(x) == a + "," + x.third.value;
      SplitAt(a, x.third.value);
    } else {
      assert Second(x) == a;
      SplitNone(a);
    }
  }

  lemma ParseItem(x: Item)
    requires ItemOk(x)
    ensures ParseInside(Inside(x)) == Some(Meaning(x))
  {
    var a := x.p0 + x.oldName + x.p1;
    SpaceHasNone(x.p0, ',');
    SpaceHasNone(x.p1, ',');
    SplitAt(a, Second(x));
    ThirdParts(x);
    TrimPadded(x.p0, x.oldName, x.p1);
    TrimPadded(x.p2, x.newName, x.p3);
  }

  lemma InsidePlain(x: Item)
    requires ItemOk(x)
    ensures Plain(Inside(x))
  {
  }

  lemma {:induction false} SkipPlain(a: string, s: string)
    requires '(' !in a
    ensures TuplesOf(a + s) == TuplesOf(s)
  {
    if a != "" {
      assert (a + s)[1..] == a[1..] + s;
      SkipPlain(a[1..], s);
    } else {
      assert a + s == s;
    }
  }

  lemma ParsePrintedItem(x: Item, rest: string)
    requires ItemOk(x)
    ensures TuplesOf(PrintItem(x) + rest) == Prepend([Meaning(x)], TuplesOf(rest))
  {
    InsidePlain(x);
    var after := Inside(x) + ")" + rest;
    assert PrintItem(x) + rest == x.before + ("(" + after);
    SkipPlain(x.before, "(" + after);
    ParseFromOpen(x, rest);
  }

  lemma ParseFromOpen(x: Item, rest: string)
    requires ItemOk(x)
    ensures TuplesOf("(" + (Inside(x) + ")" + rest)) == Prepend([Meaning(x)], TuplesOf(rest))
  {
    InsidePlain(x);
    var after := Inside(x) + ")" + rest;
    assert ("(" + after)[1..] == after;
    IndexAfter(Inside(x), ')', rest);
    ParseItem(x);
    SkipPlain(Inside(x) + ")", rest);
  }

  lemma {:induction false} ParsePrinted(xs: seq<Item>, trailing: string)
    requires (forall k :: 0 <= k < |xs| ==> ItemOk(xs[k])) && '(' !in trailing
    ensures TuplesOf(Print(xs, trailing)) == Some(Meanings(xs))
  {
    if xs == [] {
      SkipPlain(trailing, "");
      assert trailing + "" == trailing;
    } else {
      ParsePrinted(xs[1..], trailing);
      ParsePrintedItem(xs[0], Print(xs[1..], trailing));
    }
  }

  /** Parsing any printed, non-empty list gives back exactly that list, whatever the padding, the text
      between tuples and the text after a third field. */
  lemma ParseUndoesPrint(xs: seq<Item>, trailing: string)
    requires xs != [] && (forall k :: 0 <= k < |xs| ==> ItemOk(xs[k])) && '(' !in trailing
    ensures Parse(Print(xs, trailing)) == Ok(Meanings(xs))
  {
    ParsePrinted(xs, trailing);
  }

  // ----- the exact condition for a canonical printer

  function ToItem(t: Tuple): Item {
    Item("", "", t.oldName, "", "", t.newName, "", if t.reexport then Some("y") else None)
  }

  function ToItems(ts: seq<Tuple>): (xs: seq<Item>)
    ensures |xs| == |ts| && forall k :: 0 <= k < |ts| ==> xs[k] == ToItem(ts[k])
  {
    if ts == [] then [] else [ToItem(ts[0])] + ToItems(ts[1..])
  }

  /** `(OLD,NEW)` or `(OLD,NEW,y)` for each tuple, with nothing between them. */
  function Canonical(ts: seq<Tuple>): string {
    Print(ToItems(ts), "")
  }

  predicate NamesOk(t: Tuple) {
    NameOk(t.oldName) && NameOk(t.newName)
  }

  lemma ItemMeaning(t: Tuple)
    ensures Meaning(ToItem(t)) == t
  {
  }

  lemma {:induction false} ItemMeanings(ts: seq<Tuple>)
    ensures Meanings(ToItems(ts)) == ts
  {
    if ts != [] {
      ItemMeanings(ts[1..]);
      ItemMeaning(ts[0]);
      assert ts == [ts[0]] + ts[1..];
    }
  }

  lemma {:induction false} TrimStartWorks(s: string)
    ensures TrimStart(s) == "" || !IsSpace(TrimStart(s)[0])
    ensures forall c :: c in TrimStart(s) ==> c in s
  {
    if s != "" && IsSpace(s[0]) { TrimStartWorks(s[1..]); }
  }

  lemma {:induction false} TrimEndWorks(s: string)
    ensures TrimEnd(s) == "" || !IsSpace(TrimEnd(s)[|TrimEnd(s)| - 1])
    ensures TrimEnd(s) == "" || (s != "" && TrimEnd(s)[0] == s[0])
    ensures forall c :: c in TrimEnd(s) ==> c in s
  {
    if s != "" && IsSpace(s[|s| - 1]) { TrimEndWorks(s[..|s| - 1]); }
  }

  lemma TrimWorks(s: string)
    ensures Trimmed(Trim(s)) && forall c :: c in Trim(s) ==> c in s
  {
    TrimStartWorks(s);
    TrimEndWorks(TrimStart(s));
  }

  lemma {:induction false} SplitParts(s: string, k: nat)
    requires k < |Split(s, ',')|
    ensures ',' !in Split(s, ',')[k] && forall c :: c in Split(s, ',')[k] ==> c in s
  {
    var i := IndexOf(s, ',');
    if i == |s| {
      assert s[..i] == s;
    } else if k > 0 {
      SplitParts(s[i + 1..], k - 1);
    }
  }

  predicate OutputOk(t: Tuple) {
    && Trimmed(t.oldName) && ')' !in t.oldName && ',' !in t.oldName
    && Trimmed(t.newName) && ')' !in t.newName && ',' !in t.newName
  }

  /** Whatever the input, parsed names are trimmed and free of commas and close parentheses. */
  lemma {:induction false} OutputsOk(s: string)
    ensures TuplesOf(s).Some? ==> forall k :: 0 <= k < |TuplesOf(s).value| ==> OutputOk(TuplesOf(s).value[k])
  {
    if s != "" {
      OutputsOk(s[1..]);
      if s[0] == '(' { OutputOkAfter(s[1..]); }
    }
  }

  lemma OutputOkAfter(s: string)
    ensures ParseAfter(s).Some? ==> OutputOk(ParseAfter(s).value)
  {
    var inside := s[..IndexOf(s, ')')];
    var parts := Split(inside, ',');
    SplitParts(inside, 0);
    TrimWorks(parts[0]);
    if |parts| >= 2 {
      SplitParts(inside, 1);
      TrimWorks(parts[1]);
    }
  }

  lemma {:induction false} OpensConcat(a: string, b: string)
    ensures Opens(a + b) == Opens(a) + Opens(b)
  {
    if a != "" {
      assert (a + b)[1..] == a[1..] + b;
      OpensConcat(a[1..], b);
    } else {
      assert a + b == b;
    }
  }

  lemma ItemOpens(t: Tuple)
    ensures Opens(PrintItem(ToItem(t))) == 1 + Opens(t.oldName) + Opens(t.newName)
  {
    var tail := if t.reexport then ",y)" else ")";
    var x := ToItem(t);
    assert PrintItem(x) == "(" + (t.oldName + ("," + (t.newName + tail)));
    OpensConcat("(", t.oldName + ("," + (t.newName + tail)));
    OpensConcat(t.oldName, "," + (t.newName + tail));
    OpensConcat(",", t.newName + tail);
    OpensConcat(t.newName, tail);
    OpensZero(tail);
    OpensZero(",");
  }

  lemma {:induction false} CanonicalOpens(ts: seq<Tuple>)
    ensures Opens(Canonical(ts)) >= |ts|
    ensures Opens(Canonical(ts)) == |ts| ==>
              forall k :: 0 <= k < |ts| ==> '(' !in ts[k].oldName && '(' !in ts[k].newName
  {
    if ts != [] {
      CanonicalOpens(ts[1..]);
      assert ToItems(ts)[1..] == ToItems(ts[1..]);
      OpensConcat(PrintItem(ToItem(ts[0])), Canonical(ts[1..]));
      ItemOpens(ts[0]);
      OpensZero(ts[0].oldName);
      OpensZero(ts[0].newName);
    }
  }

  /** Parsing undoes the canonical printer exactly on non-empty lists whose names are trimmed and free
      of parentheses and commas. */
  lemma CanonicalRoundTrip(ts: seq<Tuple>)
    ensures Parse(Canonical(ts)) == Ok(ts) <==> ts != [] && forall k :: 0 <= k < |ts| ==> NamesOk(ts[k])
  {
    var s := Canonical(ts);
    if ts != [] && forall k :: 0 <= k < |ts| ==> NamesOk(ts[k]) {
      ItemMeanings(ts);
      ParseUndoesPrint(ToItems(ts), "");
    }
    if Parse(s) == Ok(ts) {
      OutputsOk(s);
      TuplesCount(s);
      CanonicalOpens(ts);
      forall k | 0 <= k < |ts| ensures NamesOk(ts[k]) {
        assert OutputOk(TuplesOf(s).value[k]);
      }
    }
  }
}
