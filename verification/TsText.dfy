/**
 Character-level splitting of a TypeScript union (`ts_members`): a pushdown scan
 over quotes, escapes and four bracket kinds, cut at top-level pipes.
*/
module TsText {
  import Strings
  import opened Wrappers

  /** The variables of the source's loop: the closers still owed, innermost
      last, the open quote if any, and whether the next character is escaped. */
  datatype Scan =
    | Broken
    | At(stack: string, quote: Option<char>, escaped: bool)

  const START := At([], None, false)

  predicate TopLevel(st: Scan) {
    st.At? && st.stack == [] && st.quote == None
  }

  predicate IsQuote(c: char) { c == '"' || c == '\'' || c == '`' }

  predicate IsOpener(c: char) { c == '(' || c == '[' || c == '{' || c == '<' }

  predicate IsCloser(c: char) { c == ')' || c == ']' || c == '}' || c == '>' }

  function CloserOf(c: char): char
    requires IsOpener(c)
  {
    if c == '(' then ')' else if c == '[' then ']' else if c == '{' then '}' else '>'
  }

  function Step(st: Scan, c: char): Scan {
    match st
    case Broken => Broken
    case At(stack, Some(q), escaped) =>
      if escaped then At(stack, Some(q), false)
      else if c == '\\' then At(stack, Some(q), true)
      else if c == q then At(stack, None, false)
      else st
    case At(stack, None, escaped) =>
      if IsQuote(c) then At(stack, Some(c), escaped)
      else if IsOpener(c) then At(stack + [CloserOf(c)], None, escaped)
      else if IsCloser(c) then
        if stack == [] || stack[|stack| - 1] != c then Broken
        else At(stack[..|stack| - 1], None, escaped)
      else st
  }

  function Run(st: Scan, s: string): Scan
    decreases s
  {
    if s == [] then st else Run(Step(st, s[0]), s[1..])
  }

  predicate Cut(st: Scan, c: char) { TopLevel(st) && c == '|' }

  function Glue(c: char, ps: seq<string>): seq<string>
    requires ps != []
  {
    [[c] + ps[0]] + ps[1..]
  }

  function Extend(ps: seq<string>, c: char): seq<string>
    requires ps != []
  {
    ps[..|ps| - 1] + [ps[|ps| - 1] + [c]]
  }

  /** The untrimmed stretches of `s` between its top-level pipes, when the scan
      enters `s` in state `st`. */
  function Pieces(st: Scan, s: string): (r: seq<string>)
    ensures r != []
    decreases s
  {
    if s == [] then [[]]
    else
      var rest := Pieces(Step(st, s[0]), s[1..]);
      if Cut(st, s[0]) then [[]] + rest else Glue(s[0], rest)
  }

  /** Characters removed by Python's `str.strip()`. */
  predicate IsSpace(c: char) {
    || '\t' <= c <= '\r'
    || '\U{1C}' <= c <= ' '
    || c == '\U{85}' || c == '\U{A0}' || c == '\U{1680}'
    || '\U{2000}' <= c <= '\U{200A}'
    || c == '\U{2028}' || c == '\U{2029}' || c == '\U{202F}'
    || c == '\U{205F}' || c == '\U{3000}'
  }

  function StripLeft(s: string): string {
    if s != [] && IsSpace(s[0]) then StripLeft(s[1..]) else s
  }

  function StripRight(s: string): string {
    if s != [] && IsSpace(s[|s| - 1]) then StripRight(s[..|s| - 1]) else s
  }

  function Strip(s: string): string { StripRight(StripLeft(s)) }

  predicate Trimmed(s: string) {
    s != [] ==> !IsSpace(s[0]) && !IsSpace(s[|s| - 1])
  }

  function StripAll(ps: seq<string>): (r: seq<string>)
    ensures |r| == |ps|
    ensures forall i :: 0 <= i < |ps| ==> r[i] == Strip(ps[i])
  {
    seq(|ps|, i requires 0 <= i < |ps| => Strip(ps[i]))
  }

  /** A leading pipe is only formatting, so the empty member before it goes. */
  function DropLead(text: string, members: seq<string>): seq<string> {
    if members != [] && members[0] == [] && StripLeft(text) != [] && StripLeft(text)[0] == '|'
    then members[1..] else members
  }

  /** What the splitter returns: `None` stands for its "unbalanced" error. */
  function Members(text: string): Option<seq<string>> {
    if TopLevel(Run(START, text)) then Some(DropLead(text, StripAll(Pieces(START, text))))
    else None
  }

  lemma {:induction false} RunAppend(st: Scan, a: string, b: string)
    ensures Run(st, a + b) == Run(Run(st, a), b)
    decreases a
  {
    if a == [] {
      assert a + b == b;
    } else {
      assert (a + b)[1..] == a[1..] + b;
      RunAppend(Step(st, a[0]), a[1..], b);
    }
  }

  lemma {:induction false} RunBroken(s: string)
    ensures Run(Broken, s) == Broken
  {
    if s != [] { RunBroken(s[1..]); }
  }

  lemma GlueExtend(c: char, ps: seq<string>, d: char)
    requires ps != []
    ensures Glue(c, Extend(ps, d)) == Extend(Glue(c, ps), d)
    ensures [[]] + Extend(ps, d) == Extend([[]] + ps, d)
    ensures Glue(c, ps + [[]]) == Glue(c, ps) + [[]]
    ensures [[]] + (ps + [[]]) == ([[]] + ps) + [[]]
  {
    if |ps| == 1 {
      assert [c] + (ps[0] + [d]) == ([c] + ps[0]) + [d];
    }
  }

  lemma PiecesOne(st: Scan, c: char)
    ensures Pieces(st, [c]) == if Cut(st, c) then [[], []] else Extend([[]], c)
  {
    hide Step;
    assert Pieces(Step(st, c), [c][1..]) == [[]];
    assert [c] + [] == [] + [c];
  }

  lemma {:induction false} PiecesStep(st: Scan, a: string, c: char)
    ensures Pieces(st, a + [c]) ==
              if Cut(Run(st, a), c) then Pieces(st, a) + [[]] else Extend(Pieces(st, a), c)
    decreases a
  {
    hide Step, Cut, Glue, Extend;
    if a == [] {
      PiecesOne(st, c);
      assert a + [c] == [c];
    } else {
      assert (a + [c])[1..] == a[1..] + [c];
      PiecesStep(Step(st, a[0]), a[1..], c);
      GlueExtend(a[0], Pieces(Step(st, a[0]), a[1..]), c);
    }
  }

  lemma ScanNext(text: string, i: nat)
    requires i < |text|
    ensures Run(START, text[..i + 1]) == Step(Run(START, text[..i]), text[i])
    ensures Pieces(START, text[..i + 1]) ==
              if Cut(Run(START, text[..i]), text[i]) then Pieces(START, text[..i]) + [[]]
              else Extend(Pieces(START, text[..i]), text[i])
  {
    assert text[..i + 1] == text[..i] + [text[i]];
    RunAppend(START, text[..i], [text[i]]);
    var st := Run(START, text[..i]);
    assert Run(st, [text[i]]) == Run(Step(st, text[i]), [text[i]][1..]);
    PiecesStep(START, text[..i], text[i]);
  }

  lemma NothingScanned()
    ensures Run(START, []) == START && Pieces(START, []) == [[]]
  {
  }

  lemma BrokenForever(text: string, i: nat)
    requires i <= |text| && Run(START, text[..i]) == Broken
    ensures Members(text) == None
  {
    assert text == text[..i] + text[i..];
    RunAppend(START, text[..i], text[i..]);
    RunBroken(text[i..]);
  }

  /** The source's loop: one pass over the text, keeping the members cut so
      far, the scan state, and where the current member starts. */
  method TsMembers(text: string) returns (r: Result<seq<string>, string>)
    ensures r.Ok? <==> Members(text).Some?
    ensures r.Ok? ==> r.value == Members(text).value
  {
    hide Run, Pieces, Strip, StripLeft, IsSpace;
    NothingScanned();
    var members: seq<string> := [];
    var stack: string := [];
    var quote: Option<char> := None;
    var escaped := false;
    var start := 0;
    ghost var raw: seq<string> := [];
    for index := 0 to |text|
      invariant start <= index
      invariant Run(START, text[..index]) == At(stack, quote, escaped)
      invariant Pieces(START, text[..index]) == raw + [text[start..index]]
      invariant members == StripAll(raw)
    {
      var c := text[index];
      ScanNext(text, index);
      assert text[start..index + 1] == text[start..index] + [c];
      assert Extend(raw + [text[start..index]], c) == raw + [text[start..index + 1]];
      if quote.Some? {
        if escaped {
          escaped := false;
        } else if c == '\\' {
          escaped := true;
        } else if c == quote.value {
          quote := None;
        }
      } else if IsQuote(c) {
        quote := Some(c);
      } else if IsOpener(c) {
        stack := stack + [CloserOf(c)];
      } else if IsCloser(c) {
        if stack == [] || stack[|stack| - 1] != c {
          BrokenForever(text, index + 1);
          return Err("unbalanced TypeScript type");
        }
        stack := stack[..|stack| - 1];
      } else if c == '|' && stack == [] {
        members := members + [Strip(text[start..index])];
        raw := raw + [text[start..index]];
        start := index + 1;
        assert text[start..index + 1] == [];
      }
    }
    assert text[..|text|] == text;
    if quote.Some? || stack != [] {
      return Err("unbalanced TypeScript type");
    }
    members := members + [Strip(text[start..])];
    assert members == StripAll(raw + [text[start..]]);
    if members != [] && members[0] == [] && StripLeft(text) != [] && StripLeft(text)[0] == '|' {
      members := members[1..];
    }
    return Ok(members);
  }

  // Splitting undoes printing

  function Piped(ms: seq<string>): string { Strings.Join(ms, " | ") }

  /** A text that scans back to the start and that no pipe cuts. */
  predicate Whole(m: string) { Run(START, m) == START && Pieces(START, m) == [m] }

  function Fuse(a: seq<string>, b: seq<string>): seq<string>
    requires a != [] && b != []
  {
    a[..|a| - 1] + [a[|a| - 1] + b[0]] + b[1..]
  }

  lemma GlueFuse(c: char, a: seq<string>, b: seq<string>)
    requires a != [] && b != []
    ensures Glue(c, Fuse(a, b)) == Fuse(Glue(c, a), b)
    ensures [[]] + Fuse(a, b) == Fuse([[]] + a, b)
  {
    if |a| == 1 {
      assert [c] + (a[0] + b[0]) == ([c] + a[0]) + b[0];
    }
  }

  lemma {:induction false} PiecesAppend(st: Scan, a: string, b: string)
    ensures Pieces(st, a + b) == Fuse(Pieces(st, a), Pieces(Run(st, a), b))
    decreases a
  {
    if a == [] {
      assert a + b == b;
      var p := Pieces(st, b);
      assert [] + p[0] == p[0];
    } else {
      var st', p := Step(st, a[0]), Pieces(Run(st, a), b);
      assert (a + b)[1..] == a[1..] + b;
      PiecesAppend(st', a[1..], b);
      GlueFuse(a[0], Pieces(st', a[1..]), p);
    }
  }

  lemma StripPadded(m: string)
    requires Trimmed(m)
    ensures Strip(m) == m && Strip(m + " ") == m
  {
    assert (m + " ")[..|m|] == m;
    if m == [] {
      assert m + " " == " " && " "[1..] == [];
    } else {
      assert StripLeft(m + " ") == m + " ";
    }
  }

  lemma StripPrefix(x: string)
    ensures Strip(" " + x) == Strip(x)
  {
    assert (" " + x)[1..] == x;
  }

  lemma SeparatorPieces(sep: string)
    requires sep == " | "
    ensures Run(START, sep) == START && Pieces(START, sep) == [" ", " "]
  {
    assert sep[1..] == "| " && "| "[1..] == " " && " "[1..] == [];
    assert Step(START, ' ') == START == Step(START, '|');
    assert Run(START, " ") == START && Run(START, "| ") == START;
    assert [' '] + [] == " ";
    assert Pieces(START, []) == [[]];
    assert Pieces(START, " ") == [" "];
    assert Pieces(START, "| ") == [[], " "];
  }

  /** One member in front of a text already known to split into `p`. */
  lemma PrependMember(m: string, sep: string, tail: string)
    requires Whole(m) && sep == " | "
    ensures Run(START, m + (sep + tail)) == Run(START, tail)
    ensures var p := Pieces(START, tail);
            Pieces(START, m + (sep + tail)) == [m + " ", " " + p[0]] + p[1..]
  {
    hide Run, Pieces;
    SeparatorPieces(sep);
    RunAppend(START, sep, tail);
    PiecesAppend(START, sep, tail);
    RunAppend(START, m, sep + tail);
    PiecesAppend(START, m, sep + tail);
  }

  lemma {:induction false} JoinPieces(ms: seq<string>)
    requires ms != [] && forall m :: m in ms ==> Whole(m) && Trimmed(m)
    ensures Run(START, Piped(ms)) == START
    ensures StripAll(Pieces(START, Piped(ms))) == ms
    decreases |ms|
  {
    hide Run, Pieces, StripLeft, StripRight, IsSpace;
    StripPadded(ms[0]);
    if |ms| == 1 {
      assert Pieces(START, ms[0]) == [ms[0]] && ms == [ms[0]];
    } else {
      var tail := Piped(ms[1..]);
      JoinPieces(ms[1..]);
      PrependMember(ms[0], " | ", tail);
      assert Piped(ms) == ms[0] + (" | " + tail);
      StripPrefix(Pieces(START, tail)[0]);
    }
  }

  /** Joining members with pipes and splitting again returns them, except that
      an empty first member of several is taken for a leading pipe. */
  lemma {:induction false} SplitJoin(ms: seq<string>)
    requires ms != [] && forall m :: m in ms ==> Whole(m) && Trimmed(m)
    ensures Members(Piped(ms)) == Some(if |ms| > 1 && ms[0] == [] then ms[1..] else ms)
  {
    JoinPieces(ms);
    if ms[0] == [] && |ms| > 1 {
      LeadingPipe(" | ", Piped(ms[1..]));
    }
  }

  lemma LeadingPipe(sep: string, rest: string)
    requires sep == " | "
    ensures StripLeft([] + sep + rest) == "| " + rest
  {
    assert ([] + sep + rest)[1..] == "| " + rest;
  }

  /** In states the scan can reach, only quotes are open and only inside a
      quote is a character escaped. */
  predicate Reachable(st: Scan) {
    st.At? ==> (st.quote.Some? ==> IsQuote(st.quote.value)) && (st.quote == None ==> !st.escaped)
  }

  lemma {:induction false} RunReachable(st: Scan, s: string)
    requires Reachable(st)
    ensures Reachable(Run(st, s))
    decreases s
  {
    if s != [] { RunReachable(Step(st, s[0]), s[1..]); }
  }

  lemma SpaceStep(st: Scan, c: char)
    requires Reachable(st) && IsSpace(c)
    ensures Step(START, c) == START
    ensures Step(st, c) == START ==> st == START
  {
  }

  lemma StripLeftWhole(p: string)
    requires Whole(p)
    ensures Whole(StripLeft(p))
    decreases p
  {
    if p != [] && IsSpace(p[0]) {
      SpaceStep(START, p[0]);
      var rest := Pieces(START, p[1..]);
      assert Glue(p[0], rest) == [p];
      assert [p[0]] + rest[0] == Glue(p[0], rest)[0] == p;
      assert |rest| == 1 && rest[0] == ([p[0]] + rest[0])[1..] == p[1..];
      StripLeftWhole(p[1..]);
    }
  }

  lemma StripRightWhole(p: string)
    requires Whole(p)
    ensures Whole(StripRight(p))
    decreases p
  {
    if p != [] && IsSpace(p[|p| - 1]) {
      var x, c := p[..|p| - 1], p[|p| - 1];
      assert p == x + [c];
      RunAppend(START, x, [c]);
      RunReachable(START, x);
      assert Run(Run(START, x), [c]) == Step(Run(START, x), c);
      SpaceStep(Run(START, x), c);
      PiecesStep(START, x, c);
      var r := Pieces(START, x);
      assert Extend(r, c) == [p];
      assert |r| == 1 && r[0] + [c] == Extend(r, c)[0] == p;
      assert r[0] == (r[0] + [c])[..|r[0]|];
      assert r == [x];
      StripRightWhole(x);
    }
  }

  lemma StripTrimmed(p: string)
    ensures Trimmed(Strip(p))
  {
    StripLeftEnds(p);
    StripRightEnds(StripLeft(p));
  }

  lemma {:induction false} StripLeftEnds(p: string)
    ensures StripLeft(p) != [] ==> !IsSpace(StripLeft(p)[0])
    decreases p
  {
    if p != [] && IsSpace(p[0]) { StripLeftEnds(p[1..]); }
  }

  lemma {:induction false} StripRightEnds(p: string)
    ensures StripRight(p) != [] ==> !IsSpace(StripRight(p)[|StripRight(p)| - 1]) && StripRight(p)[0] == p[0]
    decreases p
  {
    if p != [] && IsSpace(p[|p| - 1]) { StripRightEnds(p[..|p| - 1]); }
  }

  /** Every stretch but the last is whole, and the last one leaves the scan in
      the state the text does. */
  lemma {:induction false} PiecesWhole(s: string)
    ensures var p := Pieces(START, s);
            (forall i :: 0 <= i < |p| - 1 ==> Whole(p[i]))
            && Run(START, p[|p| - 1]) == Run(START, s)
            && Pieces(START, p[|p| - 1]) == [p[|p| - 1]]
    decreases s
  {
    if s == [] {
      assert Pieces(START, []) == [[]];
    } else {
      hide Run, Pieces, Step, Cut, Whole, Extend;
      var x, c := s[..|s| - 1], s[|s| - 1];
      assert s == x + [c];
      PiecesWhole(x);
      PiecesStep(START, x, c);
      RunStep(x, c);
      var p := Pieces(START, x);
      if Cut(Run(START, x), c) {
        CutAtStart(Run(START, x), c);
        WholeEnd(p[|p| - 1]);
      } else {
        var last := p[|p| - 1];
        PiecesStep(START, last, c);
        RunStep(last, c);
        Extended(p, c);
        Extended([last], c);
        assert Pieces(START, last + [c]) == [last + [c]];
      }
    }
  }

  lemma Extended(p: seq<string>, c: char)
    requires p != []
    ensures var q := Extend(p, c);
            |q| == |p| && q[|q| - 1] == p[|p| - 1] + [c] && forall i :: 0 <= i < |p| - 1 ==> q[i] == p[i]
  {
  }

  lemma RunStep(a: string, c: char)
    ensures Run(START, a + [c]) == Step(Run(START, a), c) && Reachable(Run(START, a))
  {
    RunAppend(START, a, [c]);
    RunReachable(START, a);
    assert [c][1..] == [];
  }

  lemma CutAtStart(st: Scan, c: char)
    requires Reachable(st) && Cut(st, c)
    ensures st == START && Step(st, c) == START
  {
  }

  lemma WholeEnd(m: string)
    ensures Run(START, []) == START && Pieces(START, []) == [[]]
    ensures Run(START, m) == START && Pieces(START, m) == [m] ==> Whole(m)
  {
  }

  /** What the splitter returns is balanced, trimmed, and splits to itself. */
  lemma MembersSplitToThemselves(text: string, i: nat)
    requires Members(text).Some? && i < |Members(text).value|
    ensures var m := Members(text).value[i];
            Run(START, m) == START && Trimmed(m) && Members(m) == Some([m])
  {
    hide Run, Pieces, StripLeft, StripRight, IsSpace;
    var p := Pieces(START, text);
    RunReachable(START, text);
    PiecesWhole(text);
    var ms := Members(text).value;
    var k := if |ms| == |p| then i else i + 1;
    var m := ms[i];
    assert m == Strip(p[k]) && Whole(p[k]);
    StripLeftWhole(p[k]);
    StripRightWhole(StripLeft(p[k]));
    StripTrimmed(p[k]);
    SplitJoin([m]);
  }
}
