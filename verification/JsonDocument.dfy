/**
  Rewriting every number of a compact JSON document into its canonical text.

  A document is the compact text of a JSON value. The scanner sees only bytes: it tracks
  whether it is inside a string and cuts out runs that start like a number. On every valid
  document that rewrites exactly the numbers and nothing else.
 */
module JsonDocument {
  import opened Basics
  import D = Decimal
  import N = JsonNumber

  const MAX_OUTCOME_BYTES := 65536

  // ----- JSON values and their compact text

  datatype Json =
    | Null
    | Bool(b: bool)
    | Num(literal: N.Literal)
    | Str(body: string)
    | Arr(items: Items)
    | Obj(members: Members)

  datatype Items = NoItems | Item(value: Json, rest: Items)
  datatype Members = NoMembers | Member(key: string, value: Json, rest: Members)

  /** The text between a string's quotes: plain bytes and two-byte escapes. */
  predicate ValidBody(s: string)
  {
    if s == "" then true
    else if s[0] == '\\' then |s| >= 2 && ValidBody(s[2..])
    else s[0] != '"' && ValidBody(s[1..])
  }

  predicate Valid(j: Json)
  {
    match j
    case Null => true
    case Bool(_) => true
    case Num(l) => N.ValidLiteral(l)
    case Str(body) => ValidBody(body)
    case Arr(items) => ValidItems(items)
    case Obj(members) => ValidMembers(members)
  }

  predicate ValidItems(items: Items)
  {
    items.Item? ==> Valid(items.value) && ValidItems(items.rest)
  }

  predicate ValidMembers(members: Members)
  {
    members.Member? ==> ValidBody(members.key) && Valid(members.value) && ValidMembers(members.rest)
  }

  function Quote(body: string): string { "\"" + body + "\"" }

  function Print(j: Json): string
  {
    match j
    case Null => "null"
    case Bool(b) => if b then "true" else "false"
    case Num(l) => N.Print(l)
    case Str(body) => Quote(body)
    case Arr(items) => "[" + (PrintItems(items) + "]")
    case Obj(members) => "{" + (PrintMembers(members) + "}")
  }

  function PrintItems(items: Items): string
  {
    match items
    case NoItems => ""
    case Item(v, rest) => Print(v) + ((if rest.NoItems? then "" else ",") + PrintItems(rest))
  }

  function PrintMembers(members: Members): string
  {
    match members
    case NoMembers => ""
    case Member(k, v, rest) =>
      Quote(k) + (":" + (Print(v) + ((if rest.NoMembers? then "" else ",") + PrintMembers(rest))))
  }

  /** The same value with every number canonical. */
  function Canonical(j: Json): Json
    requires Valid(j)
  {
    match j
    case Num(l) => Num(N.CanonicalLiteral(l))
    case Arr(items) => Arr(CanonicalItems(items))
    case Obj(members) => Obj(CanonicalMembers(members))
    case _ => j
  }

  function CanonicalItems(items: Items): Items
    requires ValidItems(items)
  {
    match items
    case NoItems => NoItems
    case Item(v, rest) => Item(Canonical(v), CanonicalItems(rest))
  }

  function CanonicalMembers(members: Members): Members
    requires ValidMembers(members)
  {
    match members
    case NoMembers => NoMembers
    case Member(k, v, rest) => Member(k, Canonical(v), CanonicalMembers(rest))
  }

  /** The number literals of a value, in document order. */
  function Numbers(j: Json): seq<N.Literal>
  {
    match j
    case Num(l) => [l]
    case Arr(items) => ItemNumbers(items)
    case Obj(members) => MemberNumbers(members)
    case _ => []
  }

  function ItemNumbers(items: Items): seq<N.Literal>
  {
    if items.NoItems? then [] else Numbers(items.value) + ItemNumbers(items.rest)
  }

  function MemberNumbers(members: Members): seq<N.Literal>
  {
    if members.NoMembers? then [] else Numbers(members.value) + MemberNumbers(members.rest)
  }

  // ----- The scanner

  predicate IsNumberByte(c: char)
  {
    D.IsDigit(c) || c == '-' || c == '+' || c == '.' || c == 'e' || c == 'E'
  }

  predicate StartsNumber(c: char) { c == '-' || D.IsDigit(c) }

  /** How many number bytes the text starts with. */
  function Span(s: string): (k: nat)
    ensures k <= |s|
  {
    if s == "" || !IsNumberByte(s[0]) then 0 else 1 + Span(s[1..])
  }

  datatype Run = Other(text: string) | Number(text: string)

  function Texts(runs: seq<Run>): string
  {
    if runs == [] then "" else runs[0].text + Texts(runs[1..])
  }

  /** Prepends bytes that are not part of a number to the runs that follow. */
  function Before(s: string, runs: seq<Run>): seq<Run>
  {
    if s == "" then runs
    else if runs != [] && runs[0].Other? then [Other(s + runs[0].text)] + runs[1..]
    else [Other(s)] + runs
  }

  /** The runs of a document: numbers, and everything between them. */
  function Runs(s: string, inString: bool): seq<Run>
    decreases |s|
  {
    if s == "" then []
    else if inString && s[0] == '\\' then
      if |s| == 1 then [Other(s)] else Before(s[..2], Runs(s[2..], true))
    else if s[0] == '"' then Before(s[..1], Runs(s[1..], !inString))
    else if !inString && StartsNumber(s[0]) then
      var end := 1 + Span(s[1..]);
      [Number(s[..end])] + Runs(s[end..], false)
    else Before(s[..1], Runs(s[1..], inString))
  }

  /** The runs put together again are the document, whatever it holds. */
  lemma {:induction false} RunsCoverDocument(s: string, inString: bool)
    ensures Texts(Runs(s, inString)) == s
    decreases |s|
  {
    if s != "" {
      if inString && s[0] == '\\' {
        if |s| > 1 {
          RunsCoverDocument(s[2..], true);
          TextsBefore(s[..2], Runs(s[2..], true));
        }
      } else if s[0] == '"' {
        RunsCoverDocument(s[1..], !inString);
        TextsBefore(s[..1], Runs(s[1..], !inString));
      } else if !inString && StartsNumber(s[0]) {
        var end := 1 + Span(s[1..]);
        RunsCoverDocument(s[end..], false);
      } else {
        RunsCoverDocument(s[1..], inString);
        TextsBefore(s[..1], Runs(s[1..], inString));
      }
    }
  }

  lemma {:induction false} TextsBefore(s: string, runs: seq<Run>)
    ensures Texts(Before(s, runs)) == s + Texts(runs)
  {}

  // ----- What the scanner makes of a valid document

  ghost predicate IsLiteral(text: string)
  {
    exists l :: N.ValidLiteral(l) && N.Print(l) == text
  }

  ghost function LiteralOf(text: string): (l: N.Literal)
    requires IsLiteral(text)
    ensures N.ValidLiteral(l) && N.Print(l) == text
  {
    var l :| N.ValidLiteral(l) && N.Print(l) == text; l
  }

  ghost predicate AllLiterals(runs: seq<Run>)
  {
    forall i | 0 <= i < |runs| && runs[i].Number? :: IsLiteral(runs[i].text)
  }

  /** The document the runs rewrite to. */
  ghost function Rewritten(runs: seq<Run>): string
    requires AllLiterals(runs)
  {
    if runs == [] then ""
    else
      (if runs[0].Number? then N.Print(N.CanonicalLiteral(LiteralOf(runs[0].text))) else runs[0].text)
      + Rewritten(runs[1..])
  }

  /** The literals among the runs. */
  ghost function Literals(runs: seq<Run>): seq<N.Literal>
    requires AllLiterals(runs)
  {
    if runs == [] then []
    else (if runs[0].Number? then [LiteralOf(runs[0].text)] else []) + Literals(runs[1..])
  }

  lemma {:induction false} BeforeRewrites(s: string, runs: seq<Run>)
    requires AllLiterals(runs)
    ensures AllLiterals(Before(s, runs))
    ensures Rewritten(Before(s, runs)) == s + Rewritten(runs)
    ensures Literals(Before(s, runs)) == Literals(runs)
  {}

  /** Text that contains no quote and does not start a number anywhere. */
  predicate Plain(s: string)
  {
    forall i | 0 <= i < |s| :: s[i] != '"' && !StartsNumber(s[i])
  }

  lemma {:induction false} BeforeBefore(a: string, b: string, runs: seq<Run>)
    ensures Before(a, Before(b, runs)) == Before(a + b, runs)
  {
    if a == "" {
      assert a + b == b;
    } else if b == "" {
      assert a + b == a;
    } else if runs != [] && runs[0].Other? {
      assert a + (b + runs[0].text) == (a + b) + runs[0].text;
    }
  }

  lemma {:induction false} RunsPlain(s: string, rest: string)
    requires Plain(s)
    ensures Runs(s + rest, false) == Before(s, Runs(rest, false))
  {
    if s == "" {
      assert s + rest == rest;
    } else {
      RunsPlain(s[1..], rest);
      assert (s + rest)[1..] == s[1..] + rest && (s + rest)[..1] == s[..1];
      BeforeBefore(s[..1], s[1..], Runs(rest, false));
      assert s[..1] + s[1..] == s;
    }
  }

  lemma {:induction false} RunsInString(body: string, rest: string)
    requires ValidBody(body)
    ensures Runs(body + "\"" + rest, true) == Before(body + "\"", Runs(rest, false))
  {
    if body == "" {
      assert body + "\"" + rest == "\"" + rest && body + "\"" == "\"";
    } else {
      var n := if body[0] == '\\' then 2 else 1;
      RunsInString(body[n..], rest);
      InsideBody(body, rest, n);
      BeforeBefore(body[..n], body[n..] + "\"", Runs(rest, false));
      assert body[..n] + (body[n..] + "\"") == body + "\"";
    }
  }

  lemma {:induction false} InsideBody(body: string, rest: string, n: nat)
    requires ValidBody(body) && body != "" && n == (if body[0] == '\\' then 2 else 1)
    ensures n <= |body|
    ensures Runs(body + "\"" + rest, true) == Before(body[..n], Runs(body[n..] + "\"" + rest, true))
  {
    var s := body + "\"" + rest;
    assert s[n..] == body[n..] + "\"" + rest && s[..n] == body[..n] && s[0] == body[0];
  }

  lemma {:induction false} RunsQuoted(body: string, rest: string)
    requires ValidBody(body)
    ensures Runs(Quote(body) + rest, false) == Before(Quote(body), Runs(rest, false))
  {
    var s := Quote(body) + rest;
    assert s[1..] == body + "\"" + rest && s[..1] == "\"";
    RunsInString(body, rest);
    BeforeBefore("\"", body + "\"", Runs(rest, false));
    assert "\"" + (body + "\"") == Quote(body);
  }

  /** A rest that does not continue a number. */
  predicate Stops(rest: string) { rest == "" || !IsNumberByte(rest[0]) }

  lemma {:induction false} SpanStops(s: string, rest: string)
    requires Stops(rest) && forall i | 0 <= i < |s| :: IsNumberByte(s[i])
    ensures Span(s + rest) == |s|
  {
    if s == "" {
      assert s + rest == rest;
    } else {
      SpanStops(s[1..], rest);
      assert (s + rest)[1..] == s[1..] + rest;
    }
  }

  lemma {:induction false} LiteralIsNumberBytes(l: N.Literal)
    requires N.ValidLiteral(l)
    ensures N.Print(l) != "" && StartsNumber(N.Print(l)[0])
    ensures forall i | 0 <= i < |N.Print(l)| :: IsNumberByte(N.Print(l)[i])
  {}

  lemma {:induction false} RunsLiteral(l: N.Literal, rest: string)
    requires N.ValidLiteral(l) && Stops(rest)
    ensures Runs(N.Print(l) + rest, false) == [Number(N.Print(l))] + Runs(rest, false)
  {
    LiteralIsNumberBytes(l);
    var text := N.Print(l);
    var s := text + rest;
    assert s[1..] == text[1..] + rest;
    SpanStops(text[1..], rest);
    assert s[..|text|] == text && s[|text|..] == rest;
  }

  /** What the runs of some text say about the value it prints. */
  ghost predicate Describes(runs: seq<Run>, canonical: string, literals: seq<N.Literal>, rest: seq<Run>)
  {
    && AllLiterals(runs) && AllLiterals(rest)
    && Rewritten(runs) == canonical + Rewritten(rest)
    && Literals(runs) == literals + Literals(rest)
  }

  lemma {:induction false} DescribesBefore(
    s: string, runs: seq<Run>, canonical: string, literals: seq<N.Literal>, rest: seq<Run>)
    requires Describes(runs, canonical, literals, rest)
    ensures Describes(Before(s, runs), s + canonical, literals, rest)
  {
    BeforeRewrites(s, runs);
  }

  lemma {:induction false} DescribesText(s: string, rest: seq<Run>)
    requires AllLiterals(rest)
    ensures Describes(Before(s, rest), s, [], rest)
  {}

  lemma {:induction false} DescribesThen(
    a: seq<Run>, x: string, ls: seq<N.Literal>, b: seq<Run>, y: string, ms: seq<N.Literal>, rest: seq<Run>)
    requires Describes(a, x, ls, b) && Describes(b, y, ms, rest)
    ensures Describes(a, x + y, ls + ms, rest)
  {}

  lemma {:induction false} DescribesLiteral(l: N.Literal, rest: seq<Run>)
    requires N.ValidLiteral(l) && AllLiterals(rest)
    ensures Describes([Number(N.Print(l))] + rest, N.Print(N.CanonicalLiteral(l)), [l], rest)
  {
    var runs := [Number(N.Print(l))] + rest;
    assert runs[1..] == rest;
    assert IsLiteral(N.Print(l));
    N.PrintIsInjective(l, LiteralOf(N.Print(l)));
  }

  /** Scanning a value's text sees its literals, and rewriting it prints the canonical value. */
  lemma {:induction false} ScanValue(j: Json, rest: string)
    requires Valid(j) && Stops(rest) && AllLiterals(Runs(rest, false))
    ensures Describes(Runs(Print(j) + rest, false), Print(Canonical(j)), Numbers(j), Runs(rest, false))
    decreases j, 0
  {
    var after := Runs(rest, false);
    match j
    case Null => RunsPlain("null", rest); DescribesText("null", after);
    case Bool(b) => RunsPlain(Print(j), rest); DescribesText(Print(j), after);
    case Num(l) => RunsLiteral(l, rest); DescribesLiteral(l, after);
    case Str(body) => RunsQuoted(body, rest); DescribesText(Quote(body), after);
    case Arr(items) =>
      ScanItems(items, "]" + rest);
      ScanClosed("[", PrintItems(items), "]", PrintItems(CanonicalItems(items)), ItemNumbers(items), rest);
    case Obj(members) =>
      ScanMembers(members, "}" + rest);
      ScanClosed("{", PrintMembers(members), "}", PrintMembers(CanonicalMembers(members)), MemberNumbers(members),
                 rest);
  }

  lemma {:induction false} DescribesClosed(
    open: string, runs: seq<Run>, canonical: string, close: string, literals: seq<N.Literal>, middle: seq<Run>,
    after: seq<Run>)
    requires Describes(runs, canonical, literals, middle) && Describes(middle, close, [], after)
    ensures Describes(Before(open, runs), open + (canonical + close), literals, after)
  {
    DescribesThen(runs, canonical, literals, middle, close, [], after);
    assert literals + [] == literals;
    DescribesBefore(open, runs, canonical + close, literals, after);
  }

  lemma {:induction false} RunsOpened(open: string, text: string, close: string, rest: string)
    requires Plain(open)
    ensures Runs(open + (text + close) + rest, false) == Before(open, Runs(text + (close + rest), false))
  {
    assert open + (text + close) + rest == open + (text + (close + rest));
    RunsPlain(open, text + (close + rest));
  }

  lemma {:induction false} ScanClosed(
    open: string, text: string, close: string, canonical: string, literals: seq<N.Literal>, rest: string)
    requires Plain(open) && Plain(close) && AllLiterals(Runs(rest, false))
    requires AllLiterals(Runs(close + rest, false)) ==>
             Describes(Runs(text + (close + rest), false), canonical, literals, Runs(close + rest, false))
    ensures Describes(Runs(open + (text + close) + rest, false), open + (canonical + close), literals,
                      Runs(rest, false))
  {
    RunsPlain(close, rest);
    DescribesText(close, Runs(rest, false));
    RunsOpened(open, text, close, rest);
    DescribesClosed(open, Runs(text + (close + rest), false), canonical, close, literals,
                    Runs(close + rest, false), Runs(rest, false));
  }

  lemma {:induction false} ScanItems(items: Items, rest: string)
    requires ValidItems(items) && Stops(rest)
    ensures AllLiterals(Runs(rest, false)) ==>
            Describes(Runs(PrintItems(items) + rest, false), PrintItems(CanonicalItems(items)), ItemNumbers(items),
                      Runs(rest, false))
    decreases items, 1
  {
    if AllLiterals(Runs(rest, false)) {
      if items.NoItems? {
        assert PrintItems(items) + rest == rest;
      } else {
        ScanItems(items.rest, rest);
        ScanSeparated(items.value, items.rest.NoItems?, PrintItems(items.rest) + rest,
                      PrintItems(CanonicalItems(items.rest)), ItemNumbers(items.rest), rest);
        UnfoldItems(items, rest);
      }
    }
  }

  lemma {:induction false} UnfoldItems(items: Items, rest: string)
    requires ValidItems(items) && items.Item?
    ensures var separator := if items.rest.NoItems? then "" else ",";
            && PrintItems(items) + rest == Print(items.value) + (separator + (PrintItems(items.rest) + rest))
            && PrintItems(CanonicalItems(items)) ==
               Print(Canonical(items.value)) + (separator + PrintItems(CanonicalItems(items.rest)))
            && ItemNumbers(items) == Numbers(items.value) + ItemNumbers(items.rest)
  {}

  /** A value, then a separator unless it is the last, then the rest of its container. */
  lemma {:induction false} ScanSeparated(
    v: Json, last: bool, tail: string, canonical: string, literals: seq<N.Literal>, rest: string)
    requires Valid(v) && (last ==> tail == rest && Stops(rest))
    requires Describes(Runs(tail, false), canonical, literals, Runs(rest, false))
    ensures var separator := if last then "" else ",";
            Describes(Runs(Print(v) + (separator + tail), false), Print(Canonical(v)) + (separator + canonical),
                      Numbers(v) + literals, Runs(rest, false))
    decreases v, 1
  {
    var separator := if last then "" else ",";
    var middle := Runs(separator + tail, false);
    RunsPlain(separator, tail);
    DescribesBefore(separator, Runs(tail, false), canonical, literals, Runs(rest, false));
    assert last ==> separator + tail == rest;
    assert !last ==> (separator + tail)[0] == ',';
    ScanValue(v, separator + tail);
    DescribesThen(Runs(Print(v) + (separator + tail), false), Print(Canonical(v)), Numbers(v), middle,
                  separator + canonical, literals, Runs(rest, false));
  }

  lemma {:induction false} ScanMembers(members: Members, rest: string)
    requires ValidMembers(members) && Stops(rest)
    ensures AllLiterals(Runs(rest, false)) ==>
            Describes(Runs(PrintMembers(members) + rest, false), PrintMembers(CanonicalMembers(members)),
                      MemberNumbers(members), Runs(rest, false))
    decreases members, 1
  {
    if AllLiterals(Runs(rest, false)) {
      if members.NoMembers? {
        assert PrintMembers(members) + rest == rest;
      } else {
        ScanMember(members, rest);
      }
    }
  }

  lemma {:induction false} ScanMember(members: Members, rest: string)
    requires ValidMembers(members) && members.Member? && Stops(rest) && AllLiterals(Runs(rest, false))
    ensures Describes(Runs(PrintMembers(members) + rest, false), PrintMembers(CanonicalMembers(members)),
                      MemberNumbers(members), Runs(rest, false))
    decreases members, 0
  {
    var k, v, more := members.key, members.value, members.rest;
    var separator := if more.NoMembers? then "" else ",";
    var tail, canonical := PrintMembers(more) + rest, PrintMembers(CanonicalMembers(more));
    ScanMembers(more, rest);
    ScanSeparated(v, more.NoMembers?, tail, canonical, MemberNumbers(more), rest);
    ScanKey(k, Print(v) + (separator + tail), Print(Canonical(v)) + (separator + canonical),
            Numbers(v) + MemberNumbers(more), rest);
    UnfoldMembers(members, rest);
  }

  lemma {:induction false} ScanKey(key: string, text: string, canonical: string, literals: seq<N.Literal>, rest: string)
    requires ValidBody(key) && Describes(Runs(text, false), canonical, literals, Runs(rest, false))
    ensures Describes(Runs(Quote(key) + (":" + text), false), Quote(key) + (":" + canonical), literals,
                      Runs(rest, false))
  {
    RunsPlain(":", text);
    DescribesBefore(":", Runs(text, false), canonical, literals, Runs(rest, false));
    RunsQuoted(key, ":" + text);
    DescribesBefore(Quote(key), Runs(":" + text, false), ":" + canonical, literals, Runs(rest, false));
  }

  lemma {:induction false} UnfoldMembers(members: Members, rest: string)
    requires ValidMembers(members) && members.Member?
    ensures var v, more := members.value, members.rest;
            var separator := if more.NoMembers? then "" else ",";
            && PrintMembers(members) + rest ==
               Quote(members.key) + (":" + (Print(v) + (separator + (PrintMembers(more) + rest))))
            && PrintMembers(CanonicalMembers(members)) ==
               Quote(members.key) + (":" + (Print(Canonical(v)) + (separator + PrintMembers(CanonicalMembers(more)))))
            && MemberNumbers(members) == Numbers(v) + MemberNumbers(more)
  {}

  /** Rewriting a valid document rewrites its numbers and keeps every other byte. */
  lemma {:induction false} RewritesExactlyTheNumbers(j: Json)
    requires Valid(j)
    ensures AllLiterals(Runs(Print(j), false))
    ensures Rewritten(Runs(Print(j), false)) == Print(Canonical(j))
    ensures Literals(Runs(Print(j), false)) == Numbers(j)
  {
    assert Runs("", false) == [];
    ScanValue(j, "");
    assert Print(j) + "" == Print(j);
  }

  // ----- Canonical documents

  ghost predicate Changes(literals: seq<N.Literal>)
  {
    exists i | 0 <= i < |literals| :: N.Changes(literals[i])
  }

  /** Two values with the same shape and strings whose numbers denote the same. */
  ghost predicate SameMeaning(a: Json, b: Json)
    requires Valid(a) && Valid(b)
  {
    match a
    case Num(l) => b.Num? && N.Denotes(l) == N.Denotes(b.literal)
    case Arr(items) => b.Arr? && SameItems(items, b.items)
    case Obj(members) => b.Obj? && SameMembers(members, b.members)
    case _ => a == b
  }

  ghost predicate SameItems(a: Items, b: Items)
    requires ValidItems(a) && ValidItems(b)
  {
    match a
    case NoItems => b.NoItems?
    case Item(v, rest) => b.Item? && SameMeaning(v, b.value) && SameItems(rest, b.rest)
  }

  ghost predicate SameMembers(a: Members, b: Members)
    requires ValidMembers(a) && ValidMembers(b)
  {
    match a
    case NoMembers => b.NoMembers?
    case Member(k, v, rest) => b.Member? && k == b.key && SameMeaning(v, b.value) && SameMembers(rest, b.rest)
  }

  /** The parser keeps every number. */
  ghost predicate AllExact(literals: seq<N.Literal>)
  {
    forall l | l in literals :: N.ValidLiteral(l) && N.Exact(l)
  }

  ghost predicate AllStorable(literals: seq<N.Literal>)
  {
    forall l | l in literals :: N.ValidLiteral(l) && N.Parsed(l).Storable()
  }

  /** The canonical value is valid, and means the same exactly when the parser keeps every number. */
  lemma {:induction false} CanonicalMeansTheSame(j: Json)
    requires Valid(j)
    ensures Valid(Canonical(j)) && (SameMeaning(j, Canonical(j)) <==> AllExact(Numbers(j)))
  {
    match j
    case Num(l) =>
      assert l in Numbers(j);
      N.CanonicalDenotesTheSame(l);
    case Arr(items) => CanonicalItemsMeanTheSame(items);
    case Obj(members) => CanonicalMembersMeanTheSame(members);
    case _ =>
  }

  lemma {:induction false} ExactAppend(a: seq<N.Literal>, b: seq<N.Literal>)
    ensures AllExact(a + b) <==> AllExact(a) && AllExact(b)
  {
    if AllExact(a + b) {
      forall l | l in a ensures N.ValidLiteral(l) && N.Exact(l) { assert l in a + b; }
      forall l | l in b ensures N.ValidLiteral(l) && N.Exact(l) { assert l in a + b; }
    }
  }

  lemma {:induction false} CanonicalItemsMeanTheSame(items: Items)
    requires ValidItems(items)
    ensures ValidItems(CanonicalItems(items))
            && (SameItems(items, CanonicalItems(items)) <==> AllExact(ItemNumbers(items)))
  {
    if items.Item? {
      CanonicalMeansTheSame(items.value);
      CanonicalItemsMeanTheSame(items.rest);
      ExactAppend(Numbers(items.value), ItemNumbers(items.rest));
    }
  }

  lemma {:induction false} CanonicalMembersMeanTheSame(members: Members)
    requires ValidMembers(members)
    ensures ValidMembers(CanonicalMembers(members))
    ensures SameMembers(members, CanonicalMembers(members)) <==> AllExact(MemberNumbers(members))
  {
    if members.Member? {
      CanonicalMeansTheSame(members.value);
      CanonicalMembersMeanTheSame(members.rest);
      ExactAppend(Numbers(members.value), MemberNumbers(members.rest));
    }
  }

  /** Rewriting twice is rewriting once, and the second pass changes and refuses nothing. */
  lemma {:induction false} CanonicalIsFixed(j: Json)
    requires Valid(j)
    ensures Valid(Canonical(j)) && Canonical(Canonical(j)) == Canonical(j)
    ensures forall l | l in Numbers(Canonical(j)) :: !N.Changes(l)
    ensures AllStorable(Numbers(j)) ==> AllStorable(Numbers(Canonical(j)))
  {
    match j
    case Num(l) =>
      N.CanonicalIsFixed(l);
      assert l in Numbers(j);
    case Arr(items) => CanonicalItemsAreFixed(items);
    case Obj(members) => CanonicalMembersAreFixed(members);
    case _ =>
  }

  lemma {:induction false} CanonicalItemsAreFixed(items: Items)
    requires ValidItems(items)
    ensures ValidItems(CanonicalItems(items)) && CanonicalItems(CanonicalItems(items)) == CanonicalItems(items)
    ensures forall l | l in ItemNumbers(CanonicalItems(items)) :: !N.Changes(l)
    ensures AllStorable(ItemNumbers(items)) ==> AllStorable(ItemNumbers(CanonicalItems(items)))
  {
    if items.Item? {
      CanonicalIsFixed(items.value);
      CanonicalItemsAreFixed(items.rest);
    }
  }

  lemma {:induction false} CanonicalMembersAreFixed(members: Members)
    requires ValidMembers(members)
    ensures ValidMembers(CanonicalMembers(members))
            && CanonicalMembers(CanonicalMembers(members)) == CanonicalMembers(members)
    ensures forall l | l in MemberNumbers(CanonicalMembers(members)) :: !N.Changes(l)
    ensures AllStorable(MemberNumbers(members)) ==> AllStorable(MemberNumbers(CanonicalMembers(members)))
  {
    if members.Member? {
      CanonicalIsFixed(members.value);
      CanonicalMembersAreFixed(members.rest);
    }
  }

  /** Runs without a changing literal rewrite to the document itself. */
  lemma {:induction false} UnchangedRuns(runs: seq<Run>)
    requires AllLiterals(runs) && forall l | l in Literals(runs) :: !N.Changes(l)
    ensures Rewritten(runs) == Texts(runs)
  {
    if runs != [] {
      UnchangedRuns(runs[1..]);
      if runs[0].Number? { N.UnchangedIsCanonical(LiteralOf(runs[0].text)); }
    }
  }

  // ----- The methods

  /** The runs found so far, the pending bytes and the rest make up all the runs. */
  predicate Scanned(all: seq<Run>, runs: seq<Run>, pending: string, rest: string, inString: bool)
  {
    runs + Before(pending, Runs(rest, inString)) == all
  }

  /** How many bytes the scanner passes over at once, and whether it is then inside a string. */
  function Skip(s: string, inString: bool): (r: (nat, bool))
    requires s != "" && (inString || !StartsNumber(s[0]))
    ensures 0 < r.0 <= |s|
    ensures Runs(s, inString) == Before(s[..r.0], Runs(s[r.0..], r.1))
  {
    assert s[..|s|] == s && s[|s|..] == "";
    if inString && s[0] == '\\' then (if |s| == 1 then 1 else 2, true)
    else if s[0] == '"' then (1, !inString)
    else (1, inString)
  }

  lemma {:induction false} ScanStep(
    all: seq<Run>, runs: seq<Run>, pending: string, rest: string, inString: bool, n: nat, inside: bool)
    requires Scanned(all, runs, pending, rest, inString) && n <= |rest|
    requires Runs(rest, inString) == Before(rest[..n], Runs(rest[n..], inside))
    ensures Scanned(all, runs, pending + rest[..n], rest[n..], inside)
  {
    BeforeBefore(pending, rest[..n], Runs(rest[n..], inside));
  }

  /** The rest of the document after consuming up to `to`. */
  lemma {:induction false} Advance(encoded: string, start: nat, index: nat, to: nat)
    requires start <= index <= to <= |encoded|
    ensures encoded[index..][..to - index] == encoded[index..to]
    ensures encoded[index..][to - index..] == encoded[to..]
    ensures encoded[start..index] + encoded[index..to] == encoded[start..to]
  {}

  method NumberEnd(encoded: string, index: nat) returns (end: nat)
    requires index < |encoded|
    ensures index < end <= |encoded| && end - index == 1 + Span(encoded[index..][1..])
  {
    end := index + 1;
    assert encoded[index..][1..] == encoded[end..];
    while end < |encoded| && IsNumberByte(encoded[end])
      invariant index < end <= |encoded|
      invariant 1 + Span(encoded[index..][1..]) == end - index + Span(encoded[end..])
    {
      assert encoded[end..][1..] == encoded[end + 1..];
      end := end + 1;
    }
  }

  ghost predicate ScannedTo(encoded: string, runs: seq<Run>, start: nat, index: nat, inString: bool)
  {
    && start <= index <= |encoded|
    && Scanned(Runs(encoded, false), runs, encoded[start..index], encoded[index..], inString)
  }

  lemma {:induction false} ScannedOn(
    all: seq<Run>, encoded: string, runs: seq<Run>, start: nat, index: nat, n: nat, inString: bool)
    requires start <= index <= index + n <= |encoded|
    requires Scanned(all, runs, encoded[start..index] + encoded[index..][..n], encoded[index..][n..], inString)
    ensures Scanned(all, runs, encoded[start..index + n], encoded[index + n..], inString)
  {
    Advance(encoded, start, index, index + n);
  }

  lemma {:induction false} ScannedPast(
    all: seq<Run>, encoded: string, runs: seq<Run>, start: nat, index: nat, inString: bool, n: nat, inside: bool)
    requires start <= index <= index + n <= |encoded|
             && Scanned(all, runs, encoded[start..index], encoded[index..], inString)
    requires Runs(encoded[index..], inString) == Before(encoded[index..][..n], Runs(encoded[index..][n..], inside))
    ensures Scanned(all, runs, encoded[start..index + n], encoded[index + n..], inside)
  {
    ScanStep(all, runs, encoded[start..index], encoded[index..], inString, n, inside);
    ScannedOn(all, encoded, runs, start, index, n, inside);
  }

  lemma {:induction false} PassedOver(
    encoded: string, runs: seq<Run>, start: nat, index: nat, inString: bool, n: nat, inside: bool)
    requires ScannedTo(encoded, runs, start, index, inString) && index + n <= |encoded|
    requires Runs(encoded[index..], inString) == Before(encoded[index..][..n], Runs(encoded[index..][n..], inside))
    ensures ScannedTo(encoded, runs, start, index + n, inside)
  {
    ScannedPast(Runs(encoded, false), encoded, runs, start, index, inString, n, inside);
  }

  /** The pending bytes, as a run when there are any. */
  function Pending(pending: string): seq<Run>
  {
    if pending == "" then [] else [Other(pending)]
  }

  lemma {:induction false} CutPast(all: seq<Run>, encoded: string, runs: seq<Run>, start: nat, index: nat, end: nat)
    requires start <= index < end <= |encoded| && end - index == 1 + Span(encoded[index..][1..])
    requires Scanned(all, runs, encoded[start..index], encoded[index..], false) && StartsNumber(encoded[index])
    ensures Scanned(all, runs + Pending(encoded[start..index]) + [Number(encoded[index..end])], encoded[end..end],
                    encoded[end..], false)
  {
    Advance(encoded, start, index, end);
    assert encoded[end..end] == "";
  }

  lemma {:induction false} CutOut(encoded: string, runs: seq<Run>, start: nat, index: nat, end: nat)
    requires ScannedTo(encoded, runs, start, index, false) && index < |encoded| && StartsNumber(encoded[index])
    requires index < end <= |encoded| && end - index == 1 + Span(encoded[index..][1..])
    ensures ScannedTo(encoded, runs + Pending(encoded[start..index]) + [Number(encoded[index..end])], end, end, false)
  {
    CutPast(Runs(encoded, false), encoded, runs, start, index, end);
  }

  predicate Escapes(c: char, inString: bool) { inString && c == '\\' }

  lemma {:induction false} SkipsOver(encoded: string, runs: seq<Run>, start: nat, index: nat, inString: bool)
    requires ScannedTo(encoded, runs, start, index, inString) && index < |encoded|
    requires inString || !StartsNumber(encoded[index])
    ensures var c := encoded[index];
            var next := if Escapes(c, inString) && index + 1 < |encoded| then index + 2 else index + 1;
            ScannedTo(encoded, runs, start, next, if c == '"' then !inString else inString)
  {
    var skip := Skip(encoded[index..], inString);
    assert encoded[index..][0] == encoded[index] && |encoded[index..]| == |encoded| - index;
    PassedOver(encoded, runs, start, index, inString, skip.0, skip.1);
  }

  /** Passes over bytes outside numbers: an escape is two bytes, a quote opens or closes a string. */
  method PassOver(encoded: string, ghost runs: seq<Run>, ghost start: nat, index: nat, inString: bool)
    returns (next: nat, inside: bool)
    requires ScannedTo(encoded, runs, start, index, inString) && index < |encoded|
    requires inString || !StartsNumber(encoded[index])
    ensures index < next && ScannedTo(encoded, runs, start, next, inside)
  {
    SkipsOver(encoded, runs, start, index, inString);
    var c := encoded[index];
    next, inside := index, inString;
    if inString && c == '\\' {
      next := next + 1;
    } else if c == '"' {
      inside := !inString;
    }
    next := if next < |encoded| then next + 1 else |encoded|;
  }

  /** Emits the pending bytes and the number that starts at `index`. */
  method CutNumber(encoded: string, runs: seq<Run>, start: nat, index: nat) returns (more: seq<Run>, end: nat)
    requires ScannedTo(encoded, runs, start, index, false) && index < |encoded| && StartsNumber(encoded[index])
    ensures index < end && ScannedTo(encoded, more, end, end, false)
  {
    end := NumberEnd(encoded, index);
    CutOut(encoded, runs, start, index, end);
    if start < index {
      more := runs + [Other(encoded[start..index])] + [Number(encoded[index..end])];
    } else {
      assert runs + [] == runs;
      more := runs + [Number(encoded[index..end])];
    }
  }

  lemma {:induction false} ScanEnds(encoded: string, runs: seq<Run>, start: nat, inString: bool)
    requires ScannedTo(encoded, runs, start, |encoded|, inString)
    ensures Runs(encoded, false) == runs + if start < |encoded| then [Other(encoded[start..])] else []
  {
    assert encoded[start..|encoded|] == encoded[start..] && encoded[|encoded|..] == "";
    assert runs + [] == runs;
  }

  method ScanJSONNumbers(encoded: string) returns (runs: seq<Run>)
    ensures runs == Runs(encoded, false)
    ensures Texts(runs) == encoded
  {
    RunsCoverDocument(encoded, false);
    runs := [];
    var start, index, inString := 0, 0, false;
    while index < |encoded|
      invariant ScannedTo(encoded, runs, start, index, inString)
    {
      if !inString && StartsNumber(encoded[index]) {
        runs, start := CutNumber(encoded, runs, start, index);
        index := start;
      } else {
        index, inString := PassOver(encoded, runs, start, index, inString);
      }
    }
    ScanEnds(encoded, runs, start, inString);
    if start < |encoded| {
      runs := runs + [Other(encoded[start..])];
    }
  }

  datatype NumbersError = NotStorable | TooLarge(size: int)

  /** The totals over the first `i` runs. */
  ghost predicate Sized(runs: seq<Run>, i: nat, size: int, changed: bool)
  {
    && i <= |runs| && AllLiterals(runs)
    && size + |Rewritten(runs[i..])| == |Rewritten(runs)|
    && (changed || Changes(Literals(runs[i..])) <==> Changes(Literals(runs)))
    && (AllStorable(Literals(runs[i..])) <==> AllStorable(Literals(runs)))
  }

  lemma {:induction false} SizeText(runs: seq<Run>, i: nat, size: int, changed: bool)
    requires Sized(runs, i, size, changed) && i < |runs| && runs[i].Other?
    ensures Sized(runs, i + 1, size + |runs[i].text|, changed)
  {
    assert [] + Literals(runs[i + 1..]) == Literals(runs[i + 1..]);
  }

  lemma {:induction false} SizeNumber(runs: seq<Run>, i: nat, size: int, changed: bool)
    requires Sized(runs, i, size, changed) && i < |runs| && runs[i].Number?
    ensures var l := LiteralOf(runs[i].text);
            && (N.Parsed(l).Storable() ==>
                Sized(runs, i + 1, size + N.Parsed(l).CanonicalLength(), changed || N.Changes(l)))
            && (!N.Parsed(l).Storable() ==> !AllStorable(Literals(runs)))
  {
    var l := LiteralOf(runs[i].text);
    LiteralStep(l, Literals(runs[i + 1..]));
    N.CanonicalIsValid(l);
  }

  /** The size of the rewritten document and whether any number changes; None when one cannot be stored. */
  method CanonicalNumbersSize(runs: seq<Run>) returns (r: Option<(int, bool)>)
    requires AllLiterals(runs)
    ensures r.Some? <==> AllStorable(Literals(runs))
    ensures r.Some? ==> r.value.0 == |Rewritten(runs)| && (r.value.1 <==> Changes(Literals(runs)))
  {
    var size, changed := 0, false;
    assert runs[0..] == runs;
    for i := 0 to |runs|
      invariant Sized(runs, i, size, changed)
    {
      var run := runs[i];
      if run.Other? {
        SizeText(runs, i, size, changed);
        size := size + |run.text|;
      } else {
        SizeNumber(runs, i, size, changed);
        var number := N.ParseJSONNumber(run.text, LiteralOf(run.text));
        if !number.Storable() {
          return None;
        }
        size := size + number.CanonicalLength();
        N.ExponentShows(LiteralOf(run.text));
        changed := changed || N.Find(run.text, N.IsE) < |run.text| || (number.negative && number.Zero());
      }
    }
    assert runs[|runs|..] == [];
    r := Some((size, changed));
  }

  lemma {:induction false} LiteralStep(l: N.Literal, rest: seq<N.Literal>)
    requires N.ValidLiteral(l)
    ensures AllStorable([l] + rest) <==> N.Parsed(l).Storable() && AllStorable(rest)
    ensures Changes([l] + rest) <==> N.Changes(l) || Changes(rest)
  {
    var all := [l] + rest;
    assert all[0] == l && all[1..] == rest;
    assert forall i | 0 < i < |all| :: all[i] == rest[i - 1];
    assert forall i | 0 <= i < |rest| :: rest[i] == all[i + 1];
  }

  /** Rewrites every number of a valid document. */
  method CanonicalNumbers(encoded: string, ghost j: Json) returns (r: Result<string, NumbersError>)
    requires Valid(j) && encoded == Print(j)
    ensures r == if !AllStorable(Numbers(j)) then Err(NotStorable)
                 else if |Print(Canonical(j))| > 65536 then Err(TooLarge(|Print(Canonical(j))|))
                 else Ok(Print(Canonical(j)))
  {
    var runs := ScanJSONNumbers(encoded);
    RewritesExactlyTheNumbers(j);
    var sized := CanonicalNumbersSize(runs);
    if sized.None? {
      return Err(NotStorable);
    }
    if sized.value.0 > MAX_OUTCOME_BYTES {
      return Err(TooLarge(sized.value.0));
    }
    if !sized.value.1 {
      NothingChanges(runs);
      return Ok(encoded);
    }
    var out := Rewrite(runs);
    r := Ok(out);
  }

  lemma {:induction false} NothingChanges(runs: seq<Run>)
    requires AllLiterals(runs) && !Changes(Literals(runs))
    ensures Rewritten(runs) == Texts(runs)
  {
    forall l | l in Literals(runs) ensures !N.Changes(l) {
      var i :| 0 <= i < |Literals(runs)| && Literals(runs)[i] == l;
    }
    UnchangedRuns(runs);
  }

  /** What is written so far and what the rest rewrites to make up the whole. */
  ghost predicate RewrittenTo(runs: seq<Run>, i: nat, out: string)
  {
    i <= |runs| && AllLiterals(runs) && out + Rewritten(runs[i..]) == Rewritten(runs)
  }

  lemma {:induction false} RewriteStep(runs: seq<Run>, i: nat, out: string, text: string)
    requires i < |runs| && RewrittenTo(runs, i, out)
    requires text == if runs[i].Number? then N.Print(N.CanonicalLiteral(LiteralOf(runs[i].text))) else runs[i].text
    ensures RewrittenTo(runs, i + 1, out + text)
  {}

  method Rewrite(runs: seq<Run>) returns (out: string)
    requires AllLiterals(runs)
    ensures out == Rewritten(runs)
  {
    out := "";
    for i := 0 to |runs|
      invariant RewrittenTo(runs, i, out)
    {
      if runs[i].Other? {
        RewriteStep(runs, i, out, runs[i].text);
        out := out + runs[i].text;
      } else {
        RewriteStep(runs, i, out, N.Print(N.CanonicalLiteral(LiteralOf(runs[i].text))));
        out := RewriteNumber(runs[i].text, out);
      }
    }
  }

  method RewriteNumber(text: string, out: string) returns (r: string)
    requires IsLiteral(text)
    ensures r == out + N.Print(N.CanonicalLiteral(LiteralOf(text)))
  {
    ghost var l := LiteralOf(text);
    var number := N.ParseJSONNumber(text, l);
    N.CanonicalIsValid(l);
    r := N.AppendCanonical(number, out);
  }

}
