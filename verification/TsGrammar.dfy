/**
 The splitter against a grammar: texts made of literals, bracketed groups and other
 characters, cut at the pipes outside all of them.
*/
module TsGrammar {
  import opened Wrappers
  import opened TsText

  /** A character of a literal; after a backslash any character stands for itself. */
  datatype Char = Ordinary(c: char) | Escaped(c: char)

  datatype Token = Loose(c: char) | Literal(quote: char, body: seq<Char>) | Group(kind: nat, inner: seq<Token>)

  const OPEN := "([{<"
  const CLOSE := ")]}>"
  const QUOTES := "\"'`"

  predicate WellFormed(t: Token)
    decreases t, 0
  {
    match t
    case Loose(c) => c !in OPEN && c !in CLOSE && c !in QUOTES
    case Literal(q, body) =>
      q in QUOTES && forall i :: 0 <= i < |body| && body[i].Ordinary? ==> body[i].c != q && body[i].c != '\\'
    case Group(kind, inner) => kind < 4 && AllWell(inner)
  }

  predicate AllWell(ts: seq<Token>)
    decreases ts, 0
  {
    forall i :: 0 <= i < |ts| ==> WellFormed(ts[i])
  }

  function BodyText(cs: seq<Char>): string {
    if cs == [] then [] else (if cs[0].Ordinary? then [cs[0].c] else ['\\', cs[0].c]) + BodyText(cs[1..])
  }

  function TokenText(t: Token): string
    requires WellFormed(t)
    decreases t, 0
  {
    match t
    case Loose(c) => [c]
    case Literal(q, body) => [q] + (BodyText(body) + [q])
    case Group(kind, inner) => [OPEN[kind]] + (Text(inner) + [CLOSE[kind]])
  }

  function Text(ts: seq<Token>): string
    requires AllWell(ts)
    decreases ts, 1
  {
    if ts == [] then [] else TokenText(ts[0]) + Text(ts[1..])
  }

  /** The stretches between the pipes that stand outside everything. */
  function Split(ts: seq<Token>): (r: seq<seq<Token>>)
    requires AllWell(ts)
    ensures r != [] && forall k :: 0 <= k < |r| ==> AllWell(r[k])
    decreases ts
  {
    if ts == [] then [[]]
    else
      var rest := Split(ts[1..]);
      if ts[0] == Loose('|') then [[]] + rest else [[ts[0]] + rest[0]] + rest[1..]
  }

  function Texts(ps: seq<seq<Token>>): (r: seq<string>)
    requires forall k :: 0 <= k < |ps| ==> AllWell(ps[k])
    ensures |r| == |ps|
  {
    seq(|ps|, k requires 0 <= k < |ps| => Text(ps[k]))
  }

  // Every text of the grammar is balanced

  lemma {:induction false} BodyRuns(stack: string, q: char, cs: seq<Char>)
    requires forall i :: 0 <= i < |cs| && cs[i].Ordinary? ==> cs[i].c != q && cs[i].c != '\\'
    requires q != '\\'
    ensures var s := BodyText(cs) + [q];
      Run(At(stack, Some(q), false), s) == At(stack, None, false) && Pieces(At(stack, Some(q), false), s) == [s]
    decreases cs
  {
    var st, s := At(stack, Some(q), false), BodyText(cs) + [q];
    if cs == [] {
      assert s == [q] && s[1..] == [];
      assert [q] + [] == s;
    } else {
      var rest := BodyText(cs[1..]) + [q];
      BodyRuns(stack, q, cs[1..]);
      if cs[0].Ordinary? {
        assert s[0] == cs[0].c && s[1..] == rest;
        assert [s[0]] + rest == s;
      } else {
        assert s[0] == '\\' && s[1..][0] == cs[0].c && s[1..][1..] == rest;
        assert Step(st, s[0]) == At(stack, Some(q), true) && Step(At(stack, Some(q), true), cs[0].c) == st;
        assert [cs[0].c] + rest == s[1..] && [s[0]] + s[1..] == s;
        assert Pieces(At(stack, Some(q), true), s[1..]) == [s[1..]];
      }
    }
  }

  lemma Brackets(kind: nat)
    requires kind < 4
    ensures IsOpener(OPEN[kind]) && CloserOf(OPEN[kind]) == CLOSE[kind] && IsCloser(CLOSE[kind])
    ensures !IsQuote(OPEN[kind]) && !IsQuote(CLOSE[kind]) && OPEN[kind] != '|' && CLOSE[kind] != '|'
    ensures !IsOpener(CLOSE[kind])
  {
  }

  lemma {:induction false} TokenRuns(stack: string, t: Token)
    requires WellFormed(t)
    ensures Run(At(stack, None, false), TokenText(t)) == At(stack, None, false)
    ensures t != Loose('|') || stack != [] ==> Pieces(At(stack, None, false), TokenText(t)) == [TokenText(t)]
    decreases t, 0
  {
    var st := At(stack, None, false);
    match t
    case Loose(c) =>
      assert Step(st, c) == st;
      assert [c][1..] == [] && [c] + [] == [c];
    case Literal(q, body) =>
      var rest := BodyText(body) + [q];
      BodyRuns(stack, q, body);
      assert TokenText(t)[1..] == rest && [q] + rest == TokenText(t);
      assert Step(st, q) == At(stack, Some(q), false);
    case Group(kind, inner) =>
      hide Run, Pieces;
      Brackets(kind);
      var open, close := OPEN[kind], CLOSE[kind];
      var inside := At(stack + [close], None, false);
      assert Step(st, open) == inside && (stack + [close])[..|stack|] == stack;
      assert Step(inside, close) == st;
      TextRuns(stack + [close], inner);
      OneCharacter(st, open);
      OneCharacter(inside, close);
      Onwards(inside, Text(inner), [close]);
      Onwards(st, [open], Text(inner) + [close]);
  }

  lemma OneCharacter(st: Scan, c: char)
    ensures Run(st, [c]) == Step(st, c) && (!Cut(st, c) ==> Pieces(st, [c]) == [[c]])
  {
    PiecesOne(st, c);
    assert [c][1..] == [] && [] + [c] == [c];
  }

  lemma Onwards(st: Scan, a: string, b: string)
    ensures Run(st, a + b) == Run(Run(st, a), b)
    ensures Pieces(st, a) == [a] && Pieces(Run(st, a), b) == [b] ==> Pieces(st, a + b) == [a + b]
  {
    RunAppend(st, a, b);
    PiecesAppend(st, a, b);
    assert [a][..0] + [a + b] + [b][1..] == [a + b];
  }

  /** Below a bracket nothing is cut. */
  lemma {:induction false} TextRuns(stack: string, ts: seq<Token>)
    requires AllWell(ts)
    ensures Run(At(stack, None, false), Text(ts)) == At(stack, None, false)
    ensures stack != [] ==> Pieces(At(stack, None, false), Text(ts)) == [Text(ts)]
    decreases ts, 1
  {
    hide WellFormed, TokenText;
    if ts != [] {
      TokenRuns(stack, ts[0]);
      TextRuns(stack, ts[1..]);
      Onwards(At(stack, None, false), TokenText(ts[0]), Text(ts[1..]));
    }
  }

  // The cuts

  /** The splitter cuts a text of the grammar exactly at the pipes outside. */
  lemma {:induction false} TextPieces(ts: seq<Token>)
    requires AllWell(ts)
    ensures Run(START, Text(ts)) == START && Pieces(START, Text(ts)) == Texts(Split(ts))
    decreases ts
  {
    hide Run, Pieces, WellFormed, TokenText;
    TextRuns([], ts);
    if ts == [] {
      assert Pieces(START, []) == [[]] by { NoPieces(); }
    } else {
      var head, rest := TokenText(ts[0]), Text(ts[1..]);
      TextPieces(ts[1..]);
      TokenRuns([], ts[0]);
      PiecesAppend(START, head, rest);
      var p := Texts(Split(ts[1..]));
      if ts[0] == Loose('|') {
        PipeAlone(ts[0]);
        assert [] + p[0] == p[0] && p == [p[0]] + p[1..];
        assert Fuse([[], []], p) == [[]] + [[] + p[0]] + p[1..] == [[]] + p;
        assert Texts(Split(ts)) == [[]] + p by { TextsOfCut(Split(ts[1..])); }
      } else {
        assert Fuse([head], p) == [head + p[0]] + p[1..];
        assert Texts(Split(ts)) == [head + p[0]] + p[1..] by { TextsOfJoin(ts[0], Split(ts[1..])); }
      }
    }
  }

  lemma NoPieces()
    ensures Pieces(START, []) == [[]]
  {
  }

  lemma PipeAlone(t: Token)
    requires t == Loose('|')
    ensures WellFormed(t) && TokenText(t) == "|" && Pieces(START, TokenText(t)) == [[], []]
  {
    assert "|"[1..] == [] && Step(START, '|') == START;
    assert Pieces(START, []) == [[]];
  }

  lemma TextsOfCut(ps: seq<seq<Token>>)
    requires forall k :: 0 <= k < |ps| ==> AllWell(ps[k])
    ensures Texts([[]] + ps) == [[]] + Texts(ps)
  {
    hide WellFormed;
  }

  lemma TextsOfJoin(t: Token, ps: seq<seq<Token>>)
    requires WellFormed(t) && ps != [] && forall k :: 0 <= k < |ps| ==> AllWell(ps[k])
    requires forall k :: 0 <= k < |ps| ==> AllWell(([[t] + ps[0]] + ps[1..])[k])
    ensures Texts([[t] + ps[0]] + ps[1..]) == [TokenText(t) + Texts(ps)[0]] + Texts(ps)[1..]
  {
    hide WellFormed, TokenText;
    var joined := [t] + ps[0];
    assert joined[0] == t && joined[1..] == ps[0];
    assert Text(joined) == TokenText(t) + Text(ps[0]);
  }

  // Every balanced text is one of the grammar

  /** The text of layers of tokens: the innermost group so far, its closer, the next
      one, and so on outwards. */
  function Unwind(layers: seq<seq<Token>>, stack: string): string
    requires |layers| == |stack| + 1 && forall k :: 0 <= k < |layers| ==> AllWell(layers[k])
    decreases |stack|
  {
    if stack == [] then Text(layers[0])
    else Text(layers[0]) + ([stack[|stack| - 1]] + Unwind(layers[1..], stack[..|stack| - 1]))
  }

  lemma {:induction false} ParseBody(stack: string, q: char, s: string) returns (body: seq<Char>, rest: string)
    requires q != '\\' && Run(At(stack, Some(q), false), s) == START
    ensures s == BodyText(body) + [q] + rest && |rest| < |s| && Run(At(stack, None, false), rest) == START
    ensures forall i :: 0 <= i < |body| && body[i].Ordinary? ==> body[i].c != q && body[i].c != '\\'
    decreases |s|
  {
    var c, tail := s[0], s[1..];
    assert s == [c] + tail;
    if c == q {
      body, rest := [], tail;
    } else if c == '\\' {
      assert tail != [];
      var more;
      more, rest := ParseBody(stack, q, tail[1..]);
      body := [Escaped(tail[0])] + more;
      assert body[1..] == more && tail == [tail[0]] + tail[1..];
      assert BodyText(body) == ['\\', tail[0]] + BodyText(more);
    } else {
      var more;
      more, rest := ParseBody(stack, q, tail);
      body := [Ordinary(c)] + more;
      assert body[1..] == more && BodyText(body) == [c] + BodyText(more);
    }
  }

  function KindOf(c: char): (k: nat)
    requires IsOpener(c)
    ensures k < 4 && OPEN[k] == c && CLOSE[k] == CloserOf(c)
  {
    if c == '(' then 0 else if c == '[' then 1 else if c == '{' then 2 else 3
  }

  lemma {:induction false} BrokenForGood(s: string)
    ensures Run(Broken, s) == Broken
    decreases s
  {
    if s != [] { BrokenForGood(s[1..]); }
  }

  lemma {:induction false} Parse(stack: string, s: string) returns (layers: seq<seq<Token>>)
    requires Run(At(stack, None, false), s) == START
    ensures |layers| == |stack| + 1 && (forall k :: 0 <= k < |layers| ==> AllWell(layers[k]))
    ensures Unwind(layers, stack) == s
    decreases |s|
  {
    hide Run, Unwind, Text, TokenText, BodyText, WellFormed;
    var st := At(stack, None, false);
    FirstStep(st, s);
    if s == [] {
      layers := [[]];
      NoLayer();
    } else {
      var c, tail := s[0], s[1..];
      assert s == [c] + tail;
      if IsQuote(c) {
        var body, rest := ParseBody(stack, c, tail);
        var more := Parse(stack, rest);
        LiteralText(c, body, rest);
        layers := Prepend(Literal(c, body), more, stack);
      } else if IsOpener(c) {
        var more := Parse(stack + [CloserOf(c)], tail);
        layers := Enclose(c, more, stack);
      } else if IsCloser(c) {
        BrokenForGood(tail);
        var more := Parse(stack[..|stack| - 1], tail);
        layers := [[]] + more;
        CloseLayer(more, stack);
      } else {
        var more := Parse(stack, tail);
        LooseText(c);
        layers := Prepend(Loose(c), more, stack);
      }
    }
  }

  lemma FirstStep(st: Scan, s: string)
    ensures Run(st, s) == if s == [] then st else Run(Step(st, s[0]), s[1..])
  {
  }

  lemma NoLayer()
    ensures AllWell([]) && Unwind([[]], []) == []
  {
  }

  lemma LiteralText(q: char, body: seq<Char>, rest: string)
    requires IsQuote(q) && forall i :: 0 <= i < |body| && body[i].Ordinary? ==> body[i].c != q && body[i].c != '\\'
    ensures WellFormed(Literal(q, body))
    ensures TokenText(Literal(q, body)) + rest == [q] + (BodyText(body) + [q] + rest)
  {
    hide BodyText;
  }

  lemma LooseText(c: char)
    requires !IsQuote(c) && !IsOpener(c) && !IsCloser(c)
    ensures WellFormed(Loose(c)) && TokenText(Loose(c)) == [c]
  {
  }

  lemma CloseLayer(more: seq<seq<Token>>, stack: string)
    requires stack != [] && |more| == |stack| && forall k :: 0 <= k < |more| ==> AllWell(more[k])
    ensures AllWell([]) && forall k :: 0 <= k < |[[]] + more| ==> AllWell(([[]] + more)[k])
    ensures Unwind([[]] + more, stack) == [stack[|stack| - 1]] + Unwind(more, stack[..|stack| - 1])
  {
    hide WellFormed;
    var layers: seq<seq<Token>> := [[]] + more;
    assert layers[0] == [] && layers[1..] == more && Text([]) == [];
  }

  lemma Prepend(t: Token, more: seq<seq<Token>>, stack: string) returns (layers: seq<seq<Token>>)
    requires WellFormed(t) && |more| == |stack| + 1 && forall k :: 0 <= k < |more| ==> AllWell(more[k])
    ensures |layers| == |more| && forall k :: 0 <= k < |layers| ==> AllWell(layers[k])
    ensures Unwind(layers, stack) == TokenText(t) + Unwind(more, stack)
  {
    hide WellFormed, TokenText;
    layers := [[t] + more[0]] + more[1..];
    assert layers[1..] == more[1..] && layers[0][1..] == more[0];
    assert Text(layers[0]) == TokenText(t) + Text(more[0]);
  }

  lemma Enclose(c: char, more: seq<seq<Token>>, stack: string) returns (layers: seq<seq<Token>>)
    requires IsOpener(c) && |more| == |stack| + 2 && forall k :: 0 <= k < |more| ==> AllWell(more[k])
    ensures |layers| == |stack| + 1 && forall k :: 0 <= k < |layers| ==> AllWell(layers[k])
    ensures Unwind(layers, stack) == [c] + Unwind(more, stack + [CloserOf(c)])
  {
    var close := CloserOf(c);
    var inner := stack + [close];
    assert inner[..|inner| - 1] == stack && inner[|inner| - 1] == close;
    var t := Group(KindOf(c), more[0]);
    assert WellFormed(t);
    layers := Prepend(t, more[1..], stack);
    assert TokenText(t) == [c] + (Text(more[0]) + [close]);
  }

  // White space

  /** What is trimmed at both ends: Python's white space. */
  const SPACES := {
    '\U{09}', '\U{0A}', '\U{0B}', '\U{0C}', '\U{0D}', '\U{1C}', '\U{1D}', '\U{1E}', '\U{1F}', ' ', '\U{85}', '\U{A0}',
    '\U{1680}', '\U{2000}', '\U{2001}', '\U{2002}', '\U{2003}', '\U{2004}', '\U{2005}', '\U{2006}', '\U{2007}',
    '\U{2008}', '\U{2009}', '\U{200A}', '\U{2028}', '\U{2029}', '\U{202F}', '\U{205F}', '\U{3000}'
  }

  lemma SpaceIff(c: char)
    ensures IsSpace(c) <==> c in SPACES
  {
  }

  lemma {:induction false} LeftParts(s: string) returns (a: string)
    ensures s == a + StripLeft(s) && forall i :: 0 <= i < |a| ==> a[i] in SPACES
    decreases s
  {
    if s != [] && IsSpace(s[0]) {
      SpaceIff(s[0]);
      var more := LeftParts(s[1..]);
      a := [s[0]] + more;
      assert s == [s[0]] + s[1..];
    } else {
      a := [];
    }
  }

  lemma {:induction false} RightParts(s: string) returns (b: string)
    ensures s == StripRight(s) + b && forall i :: 0 <= i < |b| ==> b[i] in SPACES
    decreases s
  {
    if s != [] && IsSpace(s[|s| - 1]) {
      var n := |s| - 1;
      SpaceIff(s[n]);
      var more := RightParts(s[..n]);
      b := more + [s[n]];
      assert s == s[..n] + [s[n]];
    } else {
      b := [];
    }
  }

  /** Trimming takes white space off both ends, and all of it. */
  lemma StripExact(s: string) returns (a: string, b: string)
    ensures s == a + Strip(s) + b
    ensures (forall i :: 0 <= i < |a| ==> a[i] in SPACES) && (forall i :: 0 <= i < |b| ==> b[i] in SPACES)
    ensures Strip(s) != [] ==> Strip(s)[0] !in SPACES && Strip(s)[|Strip(s)| - 1] !in SPACES
  {
    hide IsSpace;
    a := LeftParts(s);
    b := RightParts(StripLeft(s));
    StripTrimmed(s);
    if Strip(s) != [] {
      SpaceIff(Strip(s)[0]);
      SpaceIff(Strip(s)[|Strip(s)| - 1]);
    }
  }

  // Main result

  ghost predicate Spells(ts: seq<Token>, text: string) { AllWell(ts) && Text(ts) == text }

  /** The splitter fails exactly on the texts outside the grammar, and otherwise
      returns the trimmed stretches between the pipes outside literals and groups, the
      empty one before a leading pipe dropped. */
  lemma SplitterIsGrammar(text: string)
    ensures Members(text) == None <==> !exists ts :: Spells(ts, text)
    ensures forall ts :: Spells(ts, text) ==> Members(text) == Some(DropLead(text, StripAll(Texts(Split(ts)))))
  {
    hide Run, Pieces, WellFormed, Text;
    forall ts | Spells(ts, text)
      ensures Members(text) == Some(DropLead(text, StripAll(Texts(Split(ts)))))
    {
      TextPieces(ts);
    }
    if Members(text).Some? {
      RunReachable(START, text);
      var layers := Parse([], text);
      assert Spells(layers[0], text);
    }
  }
}
