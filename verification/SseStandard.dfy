/**
 The event-stream standard, line by line, and the frame decoder held to it on
 every stream.
*/
module SseStandard {
  import opened Strings
  import opened SseFrames

  // The standard

  /** Lines end in CRLF, LF or CR; the last one is what no line ending follows. */
  function Lines(s: string): (r: seq<string>)
    ensures r != []
    decreases s
  {
    if s == [] then [[]]
    else if |s| >= 2 && s[0] == '\r' && s[1] == '\n' then [[]] + Lines(s[2..])
    else if s[0] == '\r' || s[0] == '\n' then [[]] + Lines(s[1..])
    else
      var rest := Lines(s[1..]);
      [[s[0]] + rest[0]] + rest[1..]
  }

  /** What a nonempty line does to the data buffer.  A line that starts with a colon
      is a comment; one without a colon is a field with an empty value. */
  function Process(line: string, buffer: string): string {
    var k := ColonIndex(line);
    if k == 0 then buffer
    else
      var field, value := line[..k], if k < |line| then line[k + 1..] else [];
      var stripped := if value != [] && value[0] == ' ' then value[1..] else value;
      if field == "data" then buffer + stripped + "\n" else buffer
  }

  /** An empty line dispatches the buffer without its last line feed, if it is not
      empty; at the end of the stream the buffer is dropped. */
  function Interpret(lines: seq<string>, buffer: string): seq<string> {
    if lines == [] then []
    else if lines[0] == [] then
      (if buffer == [] then [] else [buffer[..|buffer| - 1]]) + Interpret(lines[1..], [])
    else Interpret(lines[1..], Process(lines[0], buffer))
  }

  function Dispatch(text: string): seq<string> {
    var lines := Lines(text);
    Interpret(lines[..|lines| - 1], [])
  }

  // Lines

  /** Normalising the endings keeps the lines. */
  lemma {:induction false} LinesNormalize(s: string)
    ensures Lines(s) == Split(Normalize(s), "\n")
    decreases s
  {
    if |s| >= 2 && s[0] == '\r' && s[1] == '\n' {
      LinesNormalize(s[2..]);
      NormalizeStep(s, 2, '\n');
    } else if s != [] {
      LinesNormalize(s[1..]);
      NormalizeStep(s, 1, if s[0] == '\r' then '\n' else s[0]);
    }
  }

  lemma NormalizeStep(s: string, k: nat, c: char)
    requires k <= |s| && Normalize(s) == [c] + Normalize(s[k..])
    ensures Split(Normalize(s), "\n") ==
            var rest := Split(Normalize(s[k..]), "\n");
            if c == '\n' then [[]] + rest else [[c] + rest[0]] + rest[1..]
  {
    hide Normalize;
    var t := Normalize(s);
    assert t[1..] == Normalize(s[k..]) && t[0] == c;
    assert "\n" <= t <==> c == '\n';
  }

  predicate NoPair(f: string) { forall i :: 0 <= i < |f| - 1 ==> !(f[i] == '\n' && f[i + 1] == '\n') }

  /** Without two line feeds in a row only the first and the last line can be empty. */
  lemma {:induction false} InnerLines(f: string)
    requires NoPair(f)
    ensures forall i :: 1 <= i < |Split(f, "\n")| - 1 ==> Split(f, "\n")[i] != []
    ensures f != [] && f[|f| - 1] != '\n' ==> Split(f, "\n")[|Split(f, "\n")| - 1] != []
    ensures f != [] && f[0] != '\n' ==> Split(f, "\n")[0] != []
    decreases f
  {
    if f != [] {
      InnerLines(f[1..]);
      if f[0] == '\n' {
        assert "\n" <= f && f[|"\n"|..] == f[1..];
        if |f| > 1 { assert f[1..][0] != '\n'; }
      } else {
        assert !("\n" <= f);
      }
    }
  }

  // Gathering data

  /** The data buffer after these data lines. */
  function Buffer(data: seq<string>): string {
    if data == [] then [] else Buffer(data[..|data| - 1]) + data[|data| - 1] + "\n"
  }

  lemma {:induction false} BufferJoins(data: seq<string>)
    requires data != []
    ensures Buffer(data) == Join(data, "\n") + "\n"
    decreases |data|
  {
    var n := |data| - 1;
    if n == 0 {
      assert data[..0] == [];
    } else {
      BufferJoins(data[..n]);
      JoinLast(data, "\n");
    }
  }

  lemma {:induction false} JoinLast(data: seq<string>, sep: string)
    requires |data| > 1
    ensures Join(data, sep) == Join(data[..|data| - 1], sep) + sep + data[|data| - 1]
    decreases |data|
  {
    var n := |data| - 1;
    if n > 1 {
      JoinLast(data[1..], sep);
      assert data[..n][1..] == data[1..][..n - 1];
      assert data[0] + sep + (Join(data[1..][..n - 1], sep) + sep + data[n]) ==
             (data[0] + sep + Join(data[1..][..n - 1], sep)) + sep + data[n];
    } else {
      assert data[1..] == [data[1]] && data[..1] == [data[0]];
    }
  }

  lemma DataProcessed(line: string, data: seq<string>)
    ensures Process(line, Buffer(data)) == Buffer(data + DataOf(line))
  {
    var more := data + DataOf(line);
    if DataOf(line) == [] {
      assert more == data;
    } else {
      assert more[..|data|] == data;
    }
  }

  lemma {:induction false} DataLinesFirst(line: string, lines: seq<string>)
    ensures DataLines([line] + lines) == DataOf(line) + DataLines(lines)
    decreases |lines|
  {
    hide DataOf;
    var all := [line] + lines;
    if lines == [] {
      assert all[..0] == [];
    } else {
      var n := |lines| - 1;
      DataLinesFirst(line, lines[..n]);
      assert all[..n + 1] == [line] + lines[..n];
    }
  }

  /** Nonempty lines only fill the buffer. */
  lemma {:induction false} Gather(a: seq<string>, b: seq<string>, data: seq<string>)
    requires forall i :: 0 <= i < |a| ==> a[i] != []
    ensures Interpret(a + b, Buffer(data)) == Interpret(b, Buffer(data + DataLines(a)))
    decreases a
  {
    hide DataOf, Process, Buffer, DataLines;
    if a == [] {
      assert a + b == b;
      assert DataLines(a) == [] by { NoLines(); }
      assert data + [] == data;
    } else {
      assert (a + b)[1..] == a[1..] + b && (a + b)[0] == a[0];
      DataProcessed(a[0], data);
      Gather(a[1..], b, data + DataOf(a[0]));
      assert a == [a[0]] + a[1..];
      DataLinesFirst(a[0], a[1..]);
      assert data + DataOf(a[0]) + DataLines(a[1..]) == data + (DataOf(a[0]) + DataLines(a[1..]));
    }
  }

  lemma NoLines()
    ensures DataLines([]) == [] && Buffer([]) == []
  {
  }

  /** From an empty buffer an empty first line changes nothing. */
  lemma GatherFrame(a: seq<string>, b: seq<string>)
    requires forall i :: 1 <= i < |a| ==> a[i] != []
    ensures Interpret(a + b, []) == Interpret(b, Buffer(DataLines(a)))
  {
    hide DataOf, Process, Buffer, DataLines;
    NoLines();
    if a != [] && a[0] == [] {
      var rest := a[1..];
      assert (a + b)[1..] == rest + b && (a + b)[0] == [];
      Gather(rest, b, []);
      assert a == [a[0]] + rest;
      DataLinesFirst(a[0], rest);
      EmptyLineHasNoData();
    } else {
      Gather(a, b, []);
      assert [] + DataLines(a) == DataLines(a);
    }
  }

  lemma EmptyLineHasNoData()
    ensures DataOf([]) == []
  {
  }

  lemma EmptyLine(more: seq<string>, buffer: string)
    ensures Interpret([[]] + more, buffer) ==
            (if buffer == [] then [] else [buffer[..|buffer| - 1]]) + Interpret(more, [])
  {
    assert ([[]] + more)[1..] == more;
  }

  /** The payload of one frame. */
  lemma OnePayload(f: string)
    ensures var data := DataLines(Split(f, "\n"));
      PayloadsOf([f]) == if data == [] then [] else [Join(data, "\n")]
  {
    hide DataLines, Split, Join;
    assert [f][..0] == [];
  }

  /** The lines of a complete frame and the empty line after it dispatch its payload. */
  lemma FrameDispatches(f: string, more: seq<string>)
    requires forall i :: 1 <= i < |Split(f, "\n")| ==> Split(f, "\n")[i] != []
    ensures Interpret(Split(f, "\n") + ([[]] + more), []) == PayloadsOf([f]) + Interpret(more, [])
  {
    hide DataLines, Split, Interpret, PayloadsOf, Buffer, Join;
    var lines := Split(f, "\n");
    var data := DataLines(lines);
    GatherFrame(lines, [[]] + more);
    EmptyLine(more, Buffer(data));
    OnePayload(f);
    NoLines();
    if data != [] {
      BufferJoins(data);
      assert (Join(data, "\n") + "\n")[..|Join(data, "\n")|] == Join(data, "\n");
    }
  }

  // The first blank line

  lemma {:induction false} FirstBlank(t: string) returns (found: bool, f: string, rest: string)
    ensures if found then t == f + "\n\n" + rest && Free(f, "\n\n" + rest, "\n\n") else Free(t, [], "\n\n")
    decreases t
  {
    f, rest := [], [];
    if t == [] {
      found := false;
    } else if "\n\n" <= t {
      found, rest := true, t[2..];
    } else {
      found, f, rest := FirstBlank(t[1..]);
      if found {
        var g := [t[0]] + f;
        assert g + "\n\n" + rest == t;
        FreeLonger(t[0], f, "\n\n" + rest, t);
        f := g;
      } else {
        assert [t[0]] + t[1..] == t;
        FreeLonger(t[0], t[1..], [], t);
      }
    }
  }

  lemma FreeLonger(c: char, a: string, b: string, t: string)
    requires Free(a, b, "\n\n") && !("\n\n" <= t) && t == [c] + a + b
    ensures Free([c] + a, b, "\n\n")
  {
    forall i | 0 <= i < |[c] + a| ensures !("\n\n" <= ([c] + a + b)[i..]) {
      if i == 0 {
        assert ([c] + a + b)[0..] == t;
      } else {
        assert ([c] + a + b)[i..] == (a + b)[i - 1..];
      }
    }
  }

  /** A text in which no blank line starts, before more text or at the end. */
  lemma FreeHasNoPair(f: string, b: string)
    requires Free(f, b, "\n\n")
    ensures NoPair(f)
    ensures f != [] && b != [] && b[0] == '\n' ==> f[|f| - 1] != '\n'
  {
    var g := f + b;
    forall i | 0 <= i < |f| && i + 1 < |g| ensures !(g[i] == '\n' && g[i + 1] == '\n') {
      var w := g[i..];
      assert w[0] == g[i] && w[1] == g[i + 1];
    }
    assert forall i :: 0 <= i < |f| ==> g[i] == f[i];
    if f != [] && b != [] {
      assert g[|f|] == b[0] && g[|f| - 1] == f[|f| - 1];
    }
  }

  // Main result

  lemma {:induction false} FramesInterpret(t: string)
    ensures var lines, frames := Split(t, "\n"), Split(t, "\n\n");
      Interpret(lines[..|lines| - 1], []) == PayloadsOf(frames[..|frames| - 1])
    decreases |t|
  {
    hide Interpret, PayloadsOf, Split, Free, NoPair;
    var lines := Split(t, "\n");
    var found, f, rest := FirstBlank(t);
    if found {
      var first, after := Split(f, "\n"), Split(rest, "\n");
      FreeHasNoPair(f, "\n\n" + rest);
      InnerLines(f);
      SplitBlank(t, f, rest);
      assert lines[..|lines| - 1] == first + ([[]] + after[..|after| - 1]);
      FrameLines(f);
      FrameDispatches(f, after[..|after| - 1]);
      SplitStep(f, rest, "\n\n");
      FramesInterpret(rest);
      var frames, later := Split(t, "\n\n"), Split(rest, "\n\n");
      assert frames[..|frames| - 1] == [f] + later[..|later| - 1];
      PayloadsAppend([f], later[..|later| - 1]);
    } else {
      FreeHasNoPair(t, []);
      SplitFree(t, "\n\n");
      TailIsDropped(t);
      assert [t][..0] == [];
      NothingLeft([]);
    }
  }

  /** Lines after the last blank line dispatch nothing. */
  lemma TailIsDropped(t: string)
    requires NoPair(t)
    ensures var lines := Split(t, "\n"); Interpret(lines[..|lines| - 1], []) == []
  {
    hide Split, NoPair, Interpret;
    InnerLines(t);
    var lines := Split(t, "\n");
    var whole := lines[..|lines| - 1];
    forall i | 1 <= i < |whole| ensures whole[i] != [] {
      assert whole[i] == Split(t, "\n")[i];
    }
    GatherFrame(whole, []);
    assert whole + [] == whole;
    NothingLeft(Buffer(DataLines(whole)));
  }

  lemma FrameLines(f: string)
    requires NoPair(f) && (f != [] ==> f[|f| - 1] != '\n')
    ensures forall i :: 1 <= i < |Split(f, "\n")| ==> Split(f, "\n")[i] != []
  {
    InnerLines(f);
  }

  lemma NothingLeft(buffer: string)
    ensures Interpret([], buffer) == [] && PayloadsOf([]) == []
  {
  }

  lemma SplitBlank(t: string, f: string, rest: string)
    requires t == f + "\n\n" + rest
    ensures Split(t, "\n") == Split(f, "\n") + ([[]] + Split(rest, "\n"))
  {
    hide Split;
    var none: string := [];
    assert t == f + "\n" + (none + "\n" + rest);
    SplitAround(f, none + "\n" + rest, '\n');
    SplitAround(none, rest, '\n');
    SplitNone();
  }

  lemma SplitNone()
    ensures Split([], "\n") == [[]]
  {
  }

  /** On every stream, with any mixture of line endings, the frame decoder returns
      the payloads the standard dispatches. */
  lemma DecodeIsStandard(text: string)
    ensures Decode(text) == Dispatch(text)
  {
    LinesNormalize(text);
    FramesInterpret(Normalize(text));
  }

  // The verdict

  /** The payloads that are objects. */
  function ObjectPlaces(judge: string -> Judged, payloads: seq<string>): set<nat> {
    set i: nat | i < |payloads| && judge(payloads[i]).Fields?
  }

  lemma {:induction false} NoProblemsIff(judge: string -> Judged, payloads: seq<string>)
    ensures Problems(judge, payloads) == 0 <==> forall p :: p in payloads ==> judge(p) == Fields(0)
    decreases payloads
  {
    if payloads != [] {
      var n := |payloads| - 1;
      NoProblemsIff(judge, payloads[..n]);
      assert payloads == payloads[..n] + [payloads[n]];
    }
  }

  lemma {:induction false} ObjectsCounted(judge: string -> Judged, payloads: seq<string>)
    ensures Objects(judge, payloads) == |ObjectPlaces(judge, payloads)|
    decreases payloads
  {
    if payloads != [] {
      var n := |payloads| - 1;
      ObjectsCounted(judge, payloads[..n]);
      var before := ObjectPlaces(judge, payloads[..n]);
      assert ObjectPlaces(judge, payloads) == before + if judge(payloads[n]).Fields? then {n} else {};
      assert n !in before;
    }
  }

  /** A stream has no error exactly if the standard dispatches something and every
      payload is an object without forbidden fields; its complete events are the
      payloads that are objects. */
  lemma StreamPasses(text: string, judge: string -> Judged)
    ensures var complete := Objects(judge, Decode(text));
      && (Problems(judge, Decode(text)) + (if complete == 0 then 1 else 0) == 0 <==>
            Dispatch(text) != [] && forall p :: p in Dispatch(text) ==> judge(p) == Fields(0))
      && complete == |ObjectPlaces(judge, Dispatch(text))|
  {
    hide Decode, Dispatch, Problems, Objects;
    var payloads := Dispatch(text);
    DecodeIsStandard(text);
    NoProblemsIff(judge, payloads);
    ObjectsCounted(judge, payloads);
    if payloads == [] {
      assert ObjectPlaces(judge, payloads) == {};
    } else if judge(payloads[0]) == Fields(0) {
      assert 0 in ObjectPlaces(judge, payloads);
    } else {
      assert payloads[0] in payloads;
    }
  }
}
