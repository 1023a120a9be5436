/**
 Between the two views of a TypeScript type: the trees of `TsTypes` and the text
 the checker splits and tests.  Reading follows the checker's own tests on a
 member's text; reading what was printed gives the tree back.  Literals, words,
 numbers, arrays in both spellings, records and opaque text are told apart by
 those tests in the checker's order.
*/
module TsPrint {
  import Strings
  import opened Wrappers
  import opened TsText
  import opened TsTypes

  // Printing

  const ARRAY := "Array<"
  const RECORD := "Record<"
  const KEY := "string"

  function PrintType(t: TsType): string
    decreases t, 1
  {
    (if t.lead then "| " else "") + Piped(PrintMembers(t))
  }

  function PrintMembers(t: TsType): (r: seq<string>)
    ensures r != []
    decreases t, 0
  {
    [PrintMember(t.first)] + PrintAll(t.rest)
  }

  function PrintAll(ms: seq<Member>): (r: seq<string>)
    ensures |r| == |ms|
    decreases ms, 0
  {
    if ms == [] then [] else [PrintMember(ms[0])] + PrintAll(ms[1..])
  }

  function PrintMember(m: Member): string
    decreases m, 2
  {
    match m
    case Blank => ""
    case Word(name) => name
    case Quoted(q, body) => [q] + body + [q]
    case Numeral(text) => text
    case Suffix(elem) => PrintMember(elem) + "[]"
    case Generic(elems) => ARRAY + PrintType(elems) + ">"
    case Record(value) => RECORD + KEY + ", " + PrintType(value) + ">"
    case Object(_) => "{}"
    case Inline(text) => text
  }

  // Reading

  predicate WordChar(c: char) { 'a' <= c <= 'z' || 'A' <= c <= 'Z' || '0' <= c <= '9' || c == '_' }

  predicate IsWord(s: string) { s != [] && forall i :: 0 <= i < |s| ==> WordChar(s[i]) }

  predicate Digits(s: string) { s != [] && forall i :: 0 <= i < |s| ==> '0' <= s[i] <= '9' }

  predicate IsNumeral(s: string) {
    var d := if s != [] && s[0] == '-' then s[1..] else s;
    Digits(d) || exists k :: 0 <= k < |d| && d[k] == '.' && Digits(d[..k]) && Digits(d[k + 1..])
  }

  predicate IsLiteral(s: string) { |s| >= 2 && IsQuote(s[0]) && s[|s| - 1] == s[0] }

  predicate IsArray(s: string) { ARRAY <= s && Strings.EndsWith(s, ">") }

  lemma {:induction false} PiecesShort(st: Scan, s: string)
    ensures forall p :: p in Pieces(st, s) ==> |p| <= |s|
    decreases s
  {
    if s != [] {
      PiecesShort(Step(st, s[0]), s[1..]);
    }
  }

  lemma {:induction false} StripRightShort(s: string)
    ensures |StripRight(s)| <= |s|
    decreases s
  {
    if s != [] { StripRightShort(s[..|s| - 1]); }
  }

  lemma {:induction false} StripLeftShort(s: string)
    ensures |StripLeft(s)| <= |s|
    decreases s
  {
    if s != [] { StripLeftShort(s[1..]); }
  }

  lemma StripShort(s: string)
    ensures |Strip(s)| <= |s|
  {
    StripLeftShort(s);
    StripRightShort(StripLeft(s));
  }

  /** The value's text in `Record<string, V>`, with any white space around the key
      and in front of the value; the value itself stays on one line. */
  function RecordValue(s: string): (r: Option<string>)
    ensures r.Some? ==> |r.value| < |s|
  {
    if !(RECORD <= s && Strings.EndsWith(s, ">") && |s| > |RECORD|) then None
    else
      var key := StripLeft(s[|RECORD|..|s| - 1]);
      StripLeftShort(s[|RECORD|..|s| - 1]);
      if !(KEY <= key) then None
      else
        var comma := StripLeft(key[|KEY|..]);
        StripLeftShort(key[|KEY|..]);
        if comma == [] || comma[0] != ',' then None
        else
          var text := comma[1..];
          var value := StripLeft(text);
          StripShort(text);
          if value == [] then (if text != [] && text[|text| - 1] != '\n' then Some([]) else None)
          else if '\n' in value then None
          else Some(Strip(text))
  }

  lemma MembersShort(text: string)
    requires Members(text).Some?
    ensures Members(text).value != [] ==> forall m :: m in Members(text).value ==> |m| <= |text|
  {
    PiecesShort(START, text);
    forall p | p in Pieces(START, text) ensures |Strip(p)| <= |text| {
      StripShort(p);
    }
  }

  function ReadType(text: string): Option<TsType>
    decreases |text|, 3
  {
    match Members(text)
    case None => None
    case Some(ms) =>
      MembersShort(text);
      match ReadAll(ms, |text|)
      case None => None
      case Some(rs) => if rs == [] then None else Some(Union(|ms| < |Pieces(START, text)|, rs[0], rs[1..]))
  }

  function ReadAll(ms: seq<string>, bound: nat): Option<seq<Member>>
    requires forall m :: m in ms ==> |m| <= bound
    decreases bound, 2, |ms|
  {
    if ms == [] then Some([])
    else
      match ReadMember(ms[0])
      case None => None
      case Some(r) =>
        match ReadAll(ms[1..], bound)
        case None => None
        case Some(rs) => Some([r] + rs)
  }

  function ReadMember(s: string): Option<Member>
    decreases |s|, 1
  {
    if s == [] then Some(Blank)
    else if IsLiteral(s) then Some(Quoted(s[0], s[1..|s| - 1]))
    else if IsNumeral(s) then Some(Numeral(s))
    else if IsWord(s) then Some(Word(s))
    else if IsArray(s) then
      StripShort(s[|ARRAY|..|s| - 1]);
      match ReadType(Strip(s[|ARRAY|..|s| - 1]))
      case None => None
      case Some(t) => Some(Generic(t))
    else if Strings.EndsWith(s, "[]") then
      StripShort(s[..|s| - 2]);
      match ReadMember(Strip(s[..|s| - 2]))
      case None => None
      case Some(e) => Some(Suffix(e))
    else if RecordValue(s).Some? then
      match ReadType(RecordValue(s).value)
      case None => None
      case Some(t) => Some(Record(t))
    else Some(Inline(s))
  }

  // What can be printed

  /** A literal that is one member, words and numbers of the right characters,
      record values on one line, opaque text (inline object types, say) that
      passes no member test, and no empty member anywhere. */
  predicate Printable(m: Member)
    decreases m, 0
  {
    match m
    case Blank => false
    case Word(name) => IsWord(name) && !IsNumeral(name)
    case Quoted(q, body) => IsQuote(q) && Whole([q] + body + [q])
    case Numeral(text) => IsNumeral(text)
    case Suffix(elem) => Printable(elem)
    case Generic(elems) => PrintableType(elems)
    case Record(value) => PrintableType(value) && '\n' !in PrintType(value)
    case Object(_) => false
    case Inline(text) => Solid(text) && Opaque(text)
  }

  /** A text that passes none of the member tests. */
  predicate Opaque(s: string) {
    && !IsLiteral(s) && !IsNumeral(s) && !IsWord(s)
    && !IsArray(s) && !Strings.EndsWith(s, "[]") && RecordValue(s) == None
  }

  predicate PrintableType(t: TsType)
    decreases t, 0
  {
    Printable(t.first) && forall i :: 0 <= i < |t.rest| ==> Printable(t.rest[i])
  }

  // Printed members are whole

  /** The scan with more owed closers below. */
  function Under(base: string, st: Scan): Scan {
    match st case Broken => Broken case At(stack, quote, escaped) => At(base + stack, quote, escaped)
  }

  lemma StepUnder(base: string, st: Scan, c: char)
    requires Step(st, c).At?
    ensures Step(Under(base, st), c) == Under(base, Step(st, c))
  {
    var stack := st.stack;
    if st.quote == None && !IsQuote(c) {
      if IsOpener(c) {
        assert base + (stack + [CloserOf(c)]) == (base + stack) + [CloserOf(c)];
      } else if IsCloser(c) {
        assert (base + stack)[..|base + stack| - 1] == base + stack[..|stack| - 1];
      }
    }
  }

  /** A balanced text inside a bracket is not cut. */
  lemma {:induction false} RunUnder(base: string, st: Scan, s: string)
    requires base != [] && Run(st, s).At?
    ensures Run(Under(base, st), s) == Under(base, Run(st, s))
    ensures Pieces(Under(base, st), s) == [s]
    decreases s
  {
    if s != [] {
      var st' := Step(st, s[0]);
      if st' == Broken { RunBroken(s[1..]); }
      StepUnder(base, st, s[0]);
      RunUnder(base, st', s[1..]);
      assert [s[0]] + s[1..] == s;
    }
  }

  /** Characters the scan does not notice. */
  predicate Dull(c: char) { !IsQuote(c) && !IsOpener(c) && !IsCloser(c) && c != '|' }

  lemma {:induction false} DullWhole(s: string)
    requires forall i :: 0 <= i < |s| ==> Dull(s[i])
    ensures Whole(s)
    decreases s
  {
    if s != [] {
      DullWhole(s[1..]);
      assert Step(START, s[0]) == START;
      assert [s[0]] + s[1..] == s;
    }
  }

  /** Two stretches that are not cut make one. */
  lemma Onward(st: Scan, a: string, b: string)
    requires Pieces(st, a) == [a] && Pieces(Run(st, a), b) == [b]
    ensures Run(st, a + b) == Run(Run(st, a), b) && Pieces(st, a + b) == [a + b]
  {
    RunAppend(st, a, b);
    PiecesAppend(st, a, b);
    assert [a][..0] + [a + b] + [b][1..] == [a + b];
  }

  lemma OneChar(st: Scan, c: char)
    requires !Cut(st, c)
    ensures Run(st, [c]) == Step(st, c) && Pieces(st, [c]) == [[c]]
  {
    PiecesOne(st, c);
    assert [c][1..] == [];
    assert [] + [c] == [c];
  }

  /** `word<args` and a balanced text and `>` make one member. */
  lemma BracketWhole(word: string, args: string, inner: string)
    requires Whole(word) && (forall i :: 0 <= i < |args| ==> Dull(args[i])) && Run(START, inner) == START
    ensures Whole(word + "<" + args + inner + ">")
  {
    hide Run, Pieces;
    var inside := At(">", None, false);
    assert Step(START, '<') == inside by { assert [] + ['>'] == ">"; }
    assert ">" + [] == ">" && Under(">", START) == inside;
    OneChar(START, '<');
    Onward(START, word, "<");
    DullWhole(args);
    RunUnder(">", START, args);
    Onward(START, word + "<", args);
    RunUnder(">", START, inner);
    Onward(START, word + "<" + args, inner);
    OneChar(inside, '>');
    assert ">"[..0] == [];
    Onward(START, word + "<" + args + inner, ">");
  }

  lemma SuffixWhole(s: string)
    requires Whole(s)
    ensures Whole(s + "[]")
  {
    hide Run, Pieces;
    var inside := At("]", None, false);
    assert Step(START, '[') == inside by { assert [] + [']'] == "]"; }
    OneChar(START, '[');
    Onward(START, s, "[");
    assert "]"[..0] == [];
    OneChar(inside, ']');
    Onward(START, s + "[", "]");
    assert s + "[" + "]" == s + "[]";
  }

  predicate NumeralChar(c: char) { '0' <= c <= '9' || c == '-' || c == '.' }

  lemma DigitsOnly(d: string)
    requires Digits(d) || exists k :: 0 <= k < |d| && d[k] == '.' && Digits(d[..k]) && Digits(d[k + 1..])
    ensures d != [] && forall i :: 0 <= i < |d| ==> NumeralChar(d[i])
  {
    if !Digits(d) {
      var k :| 0 <= k < |d| && d[k] == '.' && Digits(d[..k]) && Digits(d[k + 1..]);
      forall i | 0 <= i < |d| ensures NumeralChar(d[i]) {
        if i < k { assert d[..k][i] == d[i]; }
        if i > k { assert d[k + 1..][i - k - 1] == d[i]; }
      }
    }
  }

  lemma NumeralChars(s: string)
    requires IsNumeral(s)
    ensures s != [] && forall i :: 0 <= i < |s| ==> NumeralChar(s[i])
  {
    if s != [] && s[0] == '-' {
      DigitsOnly(s[1..]);
      assert forall i :: 0 < i < |s| ==> s[i] == s[1..][i - 1];
    } else {
      DigitsOnly(s);
    }
  }

  lemma WordIsDull(s: string)
    requires IsWord(s) || IsNumeral(s)
    ensures s != [] && forall i :: 0 <= i < |s| ==> Dull(s[i]) && !IsSpace(s[i])
  {
    if !IsWord(s) {
      NumeralChars(s);
    }
  }

  /** Facts about a printed member: one whole, trimmed, nonempty text. */
  predicate Solid(s: string) { Whole(s) && Trimmed(s) && s != [] }

  lemma PlainSolid(s: string)
    requires IsWord(s) || IsNumeral(s)
    ensures Solid(s)
  {
    WordIsDull(s);
    DullWhole(s);
  }

  lemma ArraySolid(inner: string)
    requires Run(START, inner) == START
    ensures Solid(ARRAY + inner + ">")
  {
    hide Run, Pieces;
    var word, args := "Array", "";
    DullWhole(word);
    BracketWhole(word, args, inner);
    assert word + "<" + args + inner + ">" == ARRAY + inner + ">";
  }

  lemma RecordWords(word: string, args: string)
    requires word == "Record" && args == "string, "
    ensures Whole(word) && (forall i :: 0 <= i < |args| ==> Dull(args[i])) && RECORD + KEY + ", " == word + "<" + args
  {
    DullWhole(word);
  }

  lemma RecordSolid(word: string, args: string, inner: string)
    requires Run(START, inner) == START && word == "Record" && args == "string, "
    ensures Solid(RECORD + KEY + ", " + inner + ">")
  {
    hide Run, Pieces;
    RecordWords(word, args);
    BracketWhole(word, args, inner);
    assert word + "<" + args + inner + ">" == RECORD + KEY + ", " + inner + ">";
    assert RECORD[0] == 'R';
  }

  lemma {:induction false} MemberSolid(m: Member)
    requires Printable(m)
    ensures Solid(PrintMember(m))
    decreases m, 0
  {
    hide Run, Pieces, Members, IsNumeral, IsWord, Solid;
    match m {
      case Word(name) => PlainSolid(name);
      case Numeral(text) => PlainSolid(text);
      case Quoted(q, body) => assert Solid([q] + body + [q]) by { QuotedSolid(q, body); }
      case Suffix(elem) =>
        MemberSolid(elem);
        assert Solid(PrintMember(elem) + "[]") by { SuffixSolid(PrintMember(elem)); }
      case Generic(elems) =>
        TypeSolid(elems);
        ArraySolid(PrintType(elems));
      case Record(value) =>
        TypeSolid(value);
        RecordSolid("Record", "string, ", PrintType(value));
      case Inline(_) =>
    }
  }

  lemma QuotedSolid(q: char, body: string)
    requires IsQuote(q) && Whole([q] + body + [q])
    ensures Solid([q] + body + [q])
  {
    hide Run, Pieces;
    var s := [q] + body + [q];
    assert s[0] == q && s[|s| - 1] == q;
  }

  lemma SuffixSolid(s: string)
    requires Solid(s)
    ensures Solid(s + "[]")
  {
    hide Run, Pieces;
    SuffixWhole(s);
    assert (s + "[]")[|s| + 1] == ']';
  }

  lemma {:induction false} TypeSolid(t: TsType)
    requires PrintableType(t)
    ensures var ms := PrintMembers(t);
      && (forall s :: s in ms ==> Solid(s))
      && Run(START, PrintType(t)) == START && Trimmed(PrintType(t)) && PrintType(t) != []
      && Members(PrintType(t)) == Some(ms)
      && (t.lead <==> |ms| < |Pieces(START, PrintType(t))|)
    decreases t, 1
  {
    hide Run, Pieces, Solid, Trimmed;
    MemberSolid(t.first);
    AllSolid(t.rest);
    JoinedSolid(t.lead, PrintMembers(t));
  }

  lemma {:induction false} AllSolid(ms: seq<Member>)
    requires forall i :: 0 <= i < |ms| ==> Printable(ms[i])
    ensures forall s :: s in PrintAll(ms) ==> Solid(s)
    decreases ms, 0
  {
    hide Solid;
    if ms != [] {
      MemberSolid(ms[0]);
      AllSolid(ms[1..]);
    }
  }

  /** Joined members with or without a leading pipe split into themselves. */
  lemma JoinedSolid(lead: bool, ms: seq<string>)
    requires ms != [] && forall s :: s in ms ==> Solid(s)
    ensures var text := (if lead then "| " else "") + Piped(ms);
      && Run(START, text) == START && Trimmed(text) && text != []
      && Members(text) == Some(ms) && (lead <==> |ms| < |Pieces(START, text)|)
  {
    hide Run, Pieces, Trimmed;
    assert Solid(ms[0]);
    JoinPieces(ms);
    JoinTrimmed(ms);
    var joined := Piped(ms);
    if lead {
      LeadPieces(joined);
      LeadMembers(ms);
    } else {
      assert "" + joined == joined;
      SplitJoin(ms);
    }
  }

  lemma {:induction false} JoinTrimmed(ms: seq<string>)
    requires ms != [] && forall s :: s in ms ==> Solid(s)
    ensures Trimmed(Piped(ms)) && Piped(ms) != [] && Piped(ms)[0] == ms[0][0]
    decreases |ms|
  {
    hide Run, Pieces;
    assert Solid(ms[0]);
    if |ms| > 1 {
      JoinTrimmed(ms[1..]);
    }
  }

  lemma LeadPieces(joined: string)
    ensures Run(START, "| " + joined) == Run(START, joined)
    ensures var p := Pieces(START, joined); Pieces(START, "| " + joined) == [[], " " + p[0]] + p[1..]
  {
    var s := "| " + joined;
    assert s[1..] == " " + joined && s[1..][1..] == joined;
    assert Step(START, '|') == START == Step(START, ' ');
    assert Pieces(START, s[1..]) == Glue(' ', Pieces(START, joined));
  }

  lemma LeadMembers(ms: seq<string>)
    requires ms != [] && forall s :: s in ms ==> Solid(s)
    ensures var text := "| " + Piped(ms);
      Members(text) == Some(ms) && Trimmed(text) && |ms| < |Pieces(START, text)|
  {
    hide Run, Pieces, StripRight, IsSpace, Strip, StripAll, Piped;
    var joined := Piped(ms);
    var text := "| " + joined;
    JoinPieces(ms);
    JoinTrimmed(ms);
    LeadPieces(joined);
    LeadStripped(Pieces(START, joined), Pieces(START, text), ms);
    LeadStays(joined);
    assert ([[]] + ms)[1..] == ms;
  }

  lemma LeadStripped(p: seq<string>, q: seq<string>, ms: seq<string>)
    requires p != [] && StripAll(p) == ms && q == [[], " " + p[0]] + p[1..]
    ensures StripAll(q) == [[]] + ms && |ms| < |q|
  {
    hide StripLeft, StripRight, IsSpace;
    StripPrefix(p[0]);
    assert Strip([]) == [] by { EmptyStrips(); }
    assert forall i :: 2 <= i < |q| ==> q[i] == p[i - 1];
  }

  lemma EmptyStrips()
    ensures Strip([]) == []
  {
  }

  lemma LeadStays(joined: string)
    requires Trimmed(joined) && joined != []
    ensures var text := "| " + joined; StripLeft(text) == text && text[0] == '|' && Trimmed(text)
  {
  }

  // Reading undoes printing

  /** A text with a bracket in it is no literal, number or word, if its first
      character is no quote or its last is a bracket. */
  lemma Bracketed(s: string)
    requires s != [] && (IsOpener(s[|s| - 1]) || IsCloser(s[|s| - 1]))
    ensures !IsLiteral(s) && !IsNumeral(s) && !IsWord(s)
  {
    if IsWord(s) || IsNumeral(s) {
      WordIsDull(s);
    }
  }

  lemma ReadPlain(s: string)
    requires IsWord(s) || IsNumeral(s)
    ensures ReadMember(s) == Some(if IsNumeral(s) then Numeral(s) else Word(s))
  {
    hide IsNumeral;
    WordIsDull(s);
  }

  lemma {:induction false} ReadSuffix(p: string)
    requires Solid(p)
    ensures ReadMember(p + "[]") == match ReadMember(p) case None => None case Some(e) => Some(Suffix(e))
  {
    hide Run, Pieces, IsNumeral, IsWord, IsLiteral, ReadType;
    var s := p + "[]";
    Bracketed(s);
    StripPadded(p);
    assert s[..|s| - 2] == p && s[|s| - 2..] == "[]";
    assert s[|s| - 1..] != ">" by { assert s[|s| - 1..][0] == ']'; }
  }

  lemma {:induction false} ReadArray(inner: string)
    requires Trimmed(inner) && inner != []
    ensures ReadMember(ARRAY + inner + ">") == match ReadType(inner) case None => None case Some(t) => Some(Generic(t))
  {
    hide IsNumeral, IsWord, IsLiteral, ReadType;
    var s := ARRAY + inner + ">";
    Bracketed(s);
    StripPadded(inner);
    assert s[|ARRAY|..|s| - 1] == inner && s[|s| - 1..] == ">";
  }

  predicate AllSpace(s: string) { forall i :: 0 <= i < |s| ==> IsSpace(s[i]) }

  lemma {:induction false} SkipSpace(gap: string, s: string)
    requires AllSpace(gap)
    ensures StripLeft(gap + s) == StripLeft(s)
    decreases gap
  {
    if gap == [] {
      assert gap + s == s;
    } else {
      assert (gap + s)[1..] == gap[1..] + s;
      SkipSpace(gap[1..], s);
    }
  }

  /** Every spelling of `Record<string, V>` the checker takes: any white space
      around the key and in front of the value. */
  lemma RecordSpelled(a: string, b: string, c: string, inner: string)
    requires AllSpace(a) && AllSpace(b) && AllSpace(c) && Trimmed(inner) && inner != [] && '\n' !in inner
    ensures RecordValue(RECORD + a + KEY + b + "," + c + inner + ">") == Some(inner)
  {
    var s, value := RECORD + a + KEY + b + "," + c + inner + ">", c + inner;
    var comma := "," + value;
    var key := KEY + (b + comma);
    assert s[|s| - 1..] == ">";
    assert s[|RECORD|..|s| - 1] == a + key;
    SkipSpace(a, key);
    assert key[0] == 's' && StripLeft(key) == key;
    assert key[|KEY|..] == b + comma;
    SkipSpace(b, comma);
    assert StripLeft(comma) == comma && comma[1..] == value;
    SkipSpace(c, inner);
    assert StripLeft(inner) == inner;
    StripPadded(inner);
  }

  lemma {:induction false} ReadRecord(a: string, b: string, c: string, inner: string)
    requires AllSpace(a) && AllSpace(b) && AllSpace(c) && Trimmed(inner) && inner != [] && '\n' !in inner
    ensures ReadMember(RECORD + a + KEY + b + "," + c + inner + ">")
         == match ReadType(inner) case None => None case Some(t) => Some(Record(t))
  {
    hide IsNumeral, IsWord, IsLiteral, ReadType, RecordValue;
    var s := RECORD + a + KEY + b + "," + c + inner + ">";
    RecordSpelled(a, b, c, inner);
    assert s[|s| - 1] == '>';
    Bracketed(s);
    assert s[0] == 'R' && ARRAY[0] == 'A';
    assert s[|s| - 2..] != "[]" by { assert s[|s| - 2..][1] == '>'; }
  }

  lemma PrintedRecord(inner: string)
    ensures RECORD + KEY + ", " + inner + ">" == RECORD + [] + KEY + [] + "," + " " + inner + ">"
  {
  }

  lemma ReadOpaque(s: string)
    requires s != [] && Opaque(s)
    ensures ReadMember(s) == Some(Inline(s))
  {
  }

  lemma {:induction false} ReadPrintedMember(m: Member)
    requires Printable(m)
    ensures ReadMember(PrintMember(m)) == Some(m)
    decreases m, 0
  {
    hide ReadMember, ReadType, IsNumeral, IsWord, Run, Pieces, Members, Whole;
    match m {
      case Word(name) => ReadPlain(name);
      case Numeral(text) => ReadPlain(text);
      case Quoted(q, body) => ReadQuoted(q, body);
      case Suffix(elem) =>
        MemberSolid(elem);
        ReadPrintedMember(elem);
        ReadSuffix(PrintMember(elem));
      case Generic(elems) =>
        TypeSolid(elems);
        ReadPrinted(elems);
        ReadArray(PrintType(elems));
      case Record(value) =>
        TypeSolid(value);
        ReadPrinted(value);
        PrintedRecord(PrintType(value));
        ReadRecord([], [], " ", PrintType(value));
      case Inline(text) => ReadOpaque(text);
    }
  }

  lemma ReadQuoted(q: char, body: string)
    requires IsQuote(q)
    ensures ReadMember([q] + body + [q]) == Some(Quoted(q, body))
  {
    hide IsNumeral, IsWord, ReadType;
    var s := [q] + body + [q];
    assert s[0] == q && s[|s| - 1] == q && s[1..|s| - 1] == body;
  }

  lemma {:induction false} ReadPrintedAll(ms: seq<Member>, bound: nat)
    requires forall i :: 0 <= i < |ms| ==> Printable(ms[i])
    requires forall s :: s in PrintAll(ms) ==> |s| <= bound
    ensures ReadAll(PrintAll(ms), bound) == Some(ms)
    decreases ms, 0
  {
    hide ReadMember, Printable, PrintMember;
    if ms != [] {
      var printed := PrintAll(ms);
      assert printed[1..] == PrintAll(ms[1..]);
      ReadPrintedMember(ms[0]);
      ReadPrintedAll(ms[1..], bound);
      assert ms == [ms[0]] + ms[1..];
    }
  }

  /** Reading a printed type gives the type back, at every depth; in particular
      the splitter finds exactly the members that were printed. */
  lemma {:induction false} ReadPrinted(t: TsType)
    requires PrintableType(t)
    ensures ReadType(PrintType(t)) == Some(t)
    ensures Members(PrintType(t)) == Some(PrintMembers(t))
    decreases t, 1
  {
    hide ReadMember, ReadAll, Printable, PrintMember, PrintAll, Members, Pieces, Run;
    var text, ms := PrintType(t), PrintMembers(t);
    TypeSolid(t);
    MembersShort(text);
    ReadPrintedMember(t.first);
    ReadPrintedAll(t.rest, |text|);
    ReadAllCons(ms, |text|);
  }

  lemma ReadAllCons(ms: seq<string>, bound: nat)
    requires ms != [] && forall m :: m in ms ==> |m| <= bound
    ensures ReadAll(ms, bound) ==
            match ReadMember(ms[0])
            case None => None
            case Some(r) => match ReadAll(ms[1..], bound) case None => None case Some(rs) => Some([r] + rs)
  {
  }
}
