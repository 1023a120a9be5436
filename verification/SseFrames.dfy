/**
 The event-stream decoder of the HTTP contract check: line endings are
 normalised, complete frames end in a blank line, and the data lines of a frame
 make one payload (HTML Living Standard, sections 9.2.5 and 9.2.6).
*/
module SseFrames {
  import opened Strings

  // Line endings

  function ReplaceCrLf(s: string): string {
    if |s| >= 2 && s[0] == '\r' && s[1] == '\n' then ['\n'] + ReplaceCrLf(s[2..])
    else if s == [] then [] else [s[0]] + ReplaceCrLf(s[1..])
  }

  function ReplaceCr(s: string): string {
    if s == [] then [] else [if s[0] == '\r' then '\n' else s[0]] + ReplaceCr(s[1..])
  }

  function Normalize(s: string): string { ReplaceCr(ReplaceCrLf(s)) }

  /** The text with another line ending. */
  function WithEnding(s: string, ending: string): string {
    if s == [] then [] else (if s[0] == '\n' then ending else [s[0]]) + WithEnding(s[1..], ending)
  }

  predicate NoCr(s: string) { '\r' !in s }

  lemma {:induction false} CrLfKeeps(s: string)
    requires NoCr(s)
    ensures ReplaceCrLf(s) == s && ReplaceCr(s) == s
    decreases s
  {
    if s != [] {
      assert s[0] in s;
      assert forall c :: c in s[1..] ==> c in s;
      CrLfKeeps(s[1..]);
    }
  }

  lemma {:induction false} CrLfUndone(s: string)
    requires NoCr(s)
    ensures ReplaceCrLf(WithEnding(s, "\r\n")) == s
    decreases s
  {
    if s != [] {
      assert s[0] in s;
      assert forall c :: c in s[1..] ==> c in s;
      CrLfUndone(s[1..]);
      var t := WithEnding(s, "\r\n");
      if s[0] == '\n' {
        assert t[2..] == WithEnding(s[1..], "\r\n");
      } else {
        assert t[1..] == WithEnding(s[1..], "\r\n");
      }
    }
  }

  lemma {:induction false} CrUndone(s: string)
    requires NoCr(s)
    ensures ReplaceCr(WithEnding(s, "\r")) == s
    ensures '\n' !in WithEnding(s, "\r")
    decreases s
  {
    if s != [] {
      assert s[0] in s;
      assert forall c :: c in s[1..] ==> c in s;
      CrUndone(s[1..]);
      assert WithEnding(s, "\r")[1..] == WithEnding(s[1..], "\r");
    }
  }

  lemma {:induction false} NoPairsToReplace(s: string)
    requires '\n' !in s
    ensures ReplaceCrLf(s) == s
    decreases s
  {
    if s != [] {
      assert forall c :: c in s[1..] ==> c in s;
      if |s| >= 2 { assert s[1] in s; }
      NoPairsToReplace(s[1..]);
    }
  }

  /** A stream written with LF, CRLF or CR throughout normalises to the same text. */
  lemma {:induction false} EndingsAlike(s: string)
    requires NoCr(s)
    ensures Normalize(s) == s
    ensures Normalize(WithEnding(s, "\r\n")) == s
    ensures Normalize(WithEnding(s, "\r")) == s
  {
    CrLfKeeps(s);
    CrLfUndone(s);
    CrUndone(s);
    NoPairsToReplace(WithEnding(s, "\r"));
  }

  // Decoding

  /** The value a line adds to its frame, if it is a data line. */
  function DataOf(line: string): seq<string> {
    var k := ColonIndex(line);
    var field, value := line[..k], if k < |line| then line[k + 1..] else [];
    if field != "data" then []
    else [if value != [] && value[0] == ' ' then value[1..] else value]
  }

  function ColonIndex(line: string): (k: nat)
    ensures k <= |line|
  {
    if line == [] || line[0] == ':' then 0 else 1 + ColonIndex(line[1..])
  }

  function DataLines(lines: seq<string>): seq<string> {
    if lines == [] then [] else DataLines(lines[..|lines| - 1]) + DataOf(lines[|lines| - 1])
  }

  function PayloadsOf(frames: seq<string>): seq<string> {
    if frames == [] then []
    else
      var n := |frames| - 1;
      var data := DataLines(Split(frames[n], "\n"));
      PayloadsOf(frames[..n]) + if data == [] then [] else [Join(data, "\n")]
  }

  /** The payloads of the complete frames; the last piece is never complete. */
  function Decode(text: string): seq<string> {
    var frames := Split(Normalize(text), "\n\n");
    PayloadsOf(frames[..|frames| - 1])
  }

  /** Whether one payload is an object, and how many forbidden fields it has. */
  datatype Judged = NotAnObject | Fields(forbidden: nat)

  function Problems(judge: string -> Judged, payloads: seq<string>): nat {
    if payloads == [] then 0
    else
      var n := |payloads| - 1;
      Problems(judge, payloads[..n])
      + match judge(payloads[n]) case NotAnObject => 1 case Fields(k) => k
  }

  function Objects(judge: string -> Judged, payloads: seq<string>): nat {
    if payloads == [] then 0
    else
      var n := |payloads| - 1;
      Objects(judge, payloads[..n]) + if judge(payloads[n]).Fields? then 1 else 0
  }

  method CollectData(frame: string) returns (data: seq<string>)
    ensures data == DataLines(Split(frame, "\n"))
  {
    var lines := Split(frame, "\n");
    data := [];
    for k := 0 to |lines|
      invariant data == DataLines(lines[..k])
    {
      assert lines[..k + 1][..k] == lines[..k];
      data := data + DataOf(lines[k]);
    }
    assert lines[..|lines|] == lines;
  }

  lemma OneMore(judge: string -> Judged, payloads: seq<string>, p: string)
    ensures Problems(judge, payloads + [p]) ==
            Problems(judge, payloads) + match judge(p) case NotAnObject => 1 case Fields(k) => k
    ensures Objects(judge, payloads + [p]) == Objects(judge, payloads) + if judge(p).Fields? then 1 else 0
  {
    assert (payloads + [p])[..|payloads|] == payloads;
  }

  /** The frame loop of `tabmail_sse_errors`, after the header checks. */
  method SseErrors(text: string, judge: string -> Judged) returns (errors: nat, complete: nat)
    ensures complete == Objects(judge, Decode(text))
    ensures errors == Problems(judge, Decode(text)) + if complete == 0 then 1 else 0
  {
    hide Problems, Objects, Split, Normalize, DataLines, Join;
    var pieces := Split(Normalize(text), "\n\n");
    var frames := pieces[..|pieces| - 1];
    errors, complete := 0, 0;
    NoneYet(judge);
    for i := 0 to |frames|
      invariant errors == Problems(judge, PayloadsOf(frames[..i]))
      invariant complete == Objects(judge, PayloadsOf(frames[..i]))
    {
      var data := CollectData(frames[i]);
      ghost var before := PayloadsOf(frames[..i]);
      assert frames[..i + 1][..i] == frames[..i];
      if data == [] {
        assert before + [] == before;
        continue;
      }
      OneMore(judge, before, Join(data, "\n"));
      match judge(Join(data, "\n")) {
        case NotAnObject => errors := errors + 1;
        case Fields(k) =>
          errors := errors + k;
          complete := complete + 1;
      }
    }
    assert frames[..|frames|] == frames;
    if complete == 0 {
      errors := errors + 1;
    }
  }

  lemma NoneYet(judge: string -> Judged)
    ensures Problems(judge, []) == 0 && Objects(judge, []) == 0
  {
  }

  // Encoding

  function Labelled(lines: seq<string>): (r: seq<string>)
    ensures |r| == |lines| && forall i :: 0 <= i < |r| ==> r[i] == "data: " + lines[i]
  {
    seq(|lines|, i requires 0 <= i < |lines| => "data: " + lines[i])
  }

  /** One data line for each line of the payload, with the one optional space. */
  function FrameText(payload: string): string { Join(Labelled(Split(payload, "\n")), "\n") }

  function Encode(payloads: seq<string>): string {
    if payloads == [] then [] else FrameText(payloads[0]) + "\n\n" + Encode(payloads[1..])
  }

  /** Every newline is followed by something else than a newline. */
  predicate NoBlankLine(a: string) {
    forall i :: 0 <= i < |a| && a[i] == '\n' ==> i + 1 < |a| && a[i + 1] != '\n'
  }

  lemma {:induction false} JoinedHasNoBlank(lines: seq<string>)
    requires lines != [] && forall i :: 0 <= i < |lines| ==> Lacks(lines[i], '\n') && lines[i] != []
    ensures NoBlankLine(Join(lines, "\n")) && Join(lines, "\n") != [] && Join(lines, "\n")[0] == lines[0][0]
    decreases lines
  {
    if |lines| > 1 {
      JoinedHasNoBlank(lines[1..]);
      var head, tail := lines[0] + "\n", Join(lines[1..], "\n");
      assert lines[0][0] in lines[0] && lines[1][0] in lines[1];
      assert forall k :: 0 <= k < |lines[0]| ==> lines[0][k] in lines[0];
      assert Join(lines, "\n") == head + tail;
      forall i | 0 <= i < |head + tail| && (head + tail)[i] == '\n'
        ensures i + 1 < |head + tail| && (head + tail)[i + 1] != '\n'
      {
        if i >= |head| { assert tail[i - |head|] == '\n'; }
      }
    } else {
      assert forall i :: 0 <= i < |lines[0]| ==> lines[0][i] in lines[0];
    }
  }

  lemma NoBlankIsFree(a: string, b: string)
    requires NoBlankLine(a)
    ensures Free(a, b, "\n\n")
  {
    forall i | 0 <= i < |a| ensures !("\n\n" <= (a + b)[i..]) {
      var w := (a + b)[i..];
      assert |w| >= 2 ==> w[0] == a[i] && w[1] == (a + b)[i + 1];
    }
  }

  lemma FrameHasNoBlank(payload: string)
    ensures NoBlankLine(FrameText(payload))
  {
    JoinSplit(payload, '\n');
    var lines := Labelled(Split(payload, "\n"));
    forall i | 0 <= i < |lines| ensures Lacks(lines[i], '\n') && lines[i] != [] {
      assert Lacks(Split(payload, "\n")[i], '\n');
      assert '\n' !in "data: ";
    }
    JoinedHasNoBlank(lines);
  }

  lemma LabelledData(line: string)
    ensures DataOf("data: " + line) == [line]
  {
    var s := "data: " + line;
    assert s[1..] == "ata: " + line && s[1..][1..] == "ta: " + line && s[2..][1..] == "a: " + line;
    assert s[1..][1..][1..] == "a: " + line && s[1..][1..][1..][1..] == ": " + line;
    assert ColonIndex(": " + line) == 0;
    assert ColonIndex("a: " + line) == 1;
    assert ColonIndex("ta: " + line) == 2;
    assert ColonIndex("ata: " + line) == 3;
    assert ColonIndex(s) == 4;
    assert s[..4] == "data" && s[5..] == " " + line;
    assert (" " + line)[1..] == line;
  }

  lemma {:induction false} LabelledLines(lines: seq<string>)
    ensures DataLines(Labelled(lines)) == lines
    decreases |lines|
  {
    if lines != [] {
      var n := |lines| - 1;
      assert Labelled(lines)[..n] == Labelled(lines[..n]);
      LabelledLines(lines[..n]);
      LabelledData(lines[n]);
      assert lines == lines[..n] + [lines[n]];
    }
  }

  /** Decoding one encoded frame gives its payload. */
  lemma {:induction false} FrameDecodes(payload: string)
    ensures DataLines(Split(FrameText(payload), "\n")) != []
    ensures Join(DataLines(Split(FrameText(payload), "\n")), "\n") == payload
  {
    JoinSplit(payload, '\n');
    var lines := Split(payload, "\n");
    forall i | 0 <= i < |lines| ensures Lacks(Labelled(lines)[i], '\n') {
      assert '\n' !in "data: ";
    }
    SplitJoined(Labelled(lines), '\n');
    LabelledLines(lines);
  }

  function FrameTexts(payloads: seq<string>): seq<string> {
    if payloads == [] then [] else [FrameText(payloads[0])] + FrameTexts(payloads[1..])
  }

  lemma {:induction false} EncodedFrames(payloads: seq<string>, tail: string)
    requires Split(tail, "\n\n") == [tail]
    ensures Split(Encode(payloads) + tail, "\n\n") == FrameTexts(payloads) + [tail]
    decreases payloads
  {
    hide Split, Free, NoBlankLine, FrameText;
    if payloads == [] {
      assert [] + tail == tail;
    } else {
      var frame, rest := FrameText(payloads[0]), Encode(payloads[1..]) + tail;
      FrameHasNoBlank(payloads[0]);
      NoBlankIsFree(frame, "\n\n" + rest);
      SplitStep(frame, rest, "\n\n");
      assert Encode(payloads) + tail == frame + "\n\n" + rest;
      EncodedFrames(payloads[1..], tail);
    }
  }

  lemma {:induction false} PayloadsAppend(a: seq<string>, b: seq<string>)
    ensures PayloadsOf(a + b) == PayloadsOf(a) + PayloadsOf(b)
    decreases b
  {
    hide DataLines, Split, Join;
    if b == [] {
      assert a + b == a;
    } else {
      var n := |b| - 1;
      PayloadsAppend(a, b[..n]);
      assert (a + b)[..|a| + n] == a + b[..n];
    }
  }

  lemma {:induction false} FramesDecode(payloads: seq<string>)
    ensures PayloadsOf(FrameTexts(payloads)) == payloads
    decreases payloads
  {
    if payloads != [] {
      var frame := FrameText(payloads[0]);
      FramesDecode(payloads[1..]);
      FrameDecodes(payloads[0]);
      PayloadsAppend([frame], FrameTexts(payloads[1..]));
      assert [frame][..0] == [] && PayloadsOf([]) == [];
      assert PayloadsOf([frame]) == [payloads[0]];
      assert payloads == [payloads[0]] + payloads[1..];
    }
  }

  lemma {:induction false} EncodeKeepsCr(payloads: seq<string>)
    requires forall i :: 0 <= i < |payloads| ==> NoCr(payloads[i])
    ensures NoCr(Encode(payloads))
    decreases payloads
  {
    if payloads != [] {
      JoinSplit(payloads[0], '\n');
      FrameNoCr(Split(payloads[0], "\n"));
      EncodeKeepsCr(payloads[1..]);
    }
  }

  lemma {:induction false} FrameNoCr(lines: seq<string>)
    requires NoCr(Join(lines, "\n"))
    ensures NoCr(Join(Labelled(lines), "\n"))
    decreases lines
  {
    if lines != [] {
      assert '\r' !in "data: ";
      if |lines| > 1 {
        assert Join(lines, "\n") == lines[0] + "\n" + Join(lines[1..], "\n");
        assert NoCr(Join(lines[1..], "\n")) by {
          assert forall c :: c in Join(lines[1..], "\n") ==> c in Join(lines, "\n");
        }
        assert NoCr(lines[0]) by { assert forall c :: c in lines[0] ==> c in Join(lines, "\n"); }
        FrameNoCr(lines[1..]);
        assert Labelled(lines)[1..] == Labelled(lines[1..]);
      }
    }
  }

  /** Payloads of any number of lines, with any leading spaces, come back in
      order; an unterminated tail adds nothing; line endings do not matter. */
  lemma {:induction false} DecodeUndoesEncode(payloads: seq<string>, tail: string)
    requires NoCr(tail) && forall i :: 0 <= i < |payloads| ==> NoCr(payloads[i])
    requires Split(tail, "\n\n") == [tail]
    ensures var stream := Encode(payloads) + tail;
      Decode(stream) == payloads && Decode(WithEnding(stream, "\r\n")) == payloads
      && Decode(WithEnding(stream, "\r")) == payloads
  {
    var stream := Encode(payloads) + tail;
    EncodeKeepsCr(payloads);
    EndingsAlike(stream);
    EncodedFrames(payloads, tail);
    var pieces := Split(stream, "\n\n");
    assert pieces[..|pieces| - 1] == FrameTexts(payloads);
    FramesDecode(payloads);
  }
}
