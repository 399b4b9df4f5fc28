/** The streaming parser of the flow stream (client/web/antrea-ui-components/src/lib/flow-stream.ts) and the frames the
    server writes for it (pkg/handlers/flowstream/handler.go).

    The parser sees the stream in chunks cut anywhere. The main results: cutting does not matter, for exactly the streams
    without a "\r\r\n"; and whatever the server writes, the client reads back. */
module SseParser {
  import opened Wrappers

  datatype SseEvent = SseEvent(eventType: string, data: string)

  datatype Parsed = Parsed(events: seq<SseEvent>, remaining: string)

  // ---------------------------------------------------------------- strings

  predicate OccursAt(s: string, w: string, i: nat) {
    i + |w| <= |s| && s[i..i + |w|] == w
  }

  predicate StartsWith(s: string, w: string) {
    w <= s
  }

  function IndexFrom(s: string, w: string, i: nat): (r: Option<nat>)
    ensures r.Some? ==> r.value + |w| <= |s|
    decreases |s| - i
  {
    if i + |w| > |s| then None else if OccursAt(s, w, i) then Some(i) else IndexFrom(s, w, i + 1)
  }

  /** The leftmost occurrence of a word. */
  function IndexOf(s: string, w: string): (r: Option<nat>)
    ensures r.Some? ==> r.value + |w| <= |s|
  {
    IndexFrom(s, w, 0)
  }

  ghost predicate IsLeftmost(s: string, w: string, i: nat) {
    OccursAt(s, w, i) && forall j: nat | j < i :: !OccursAt(s, w, j)
  }

  lemma {:induction false} IndexFromIs(s: string, w: string, from: nat, i: nat)
    requires from <= i && IsLeftmost(s, w, i)
    ensures IndexFrom(s, w, from) == Some(i)
    decreases i - from
  {
    if from < i {
      IndexFromIs(s, w, from + 1, i);
    }
  }

  lemma {:induction false} IndexFromFinds(s: string, w: string, from: nat)
    requires forall j: nat | j < from :: !OccursAt(s, w, j)
    ensures IndexFrom(s, w, from).Some? ==> IsLeftmost(s, w, IndexFrom(s, w, from).value)
    ensures IndexFrom(s, w, from).None? ==> forall j: nat :: !OccursAt(s, w, j)
    decreases |s| - from
  {
    if from + |w| <= |s| && !OccursAt(s, w, from) {
      IndexFromFinds(s, w, from + 1);
    }
  }

  lemma IndexOfIs(s: string, w: string, i: nat)
    ensures IndexOf(s, w) == Some(i) <==> IsLeftmost(s, w, i)
  {
    IndexFromFinds(s, w, 0);
    if IsLeftmost(s, w, i) {
      IndexFromIs(s, w, 0, i);
    }
  }

  /** JavaScript's split: cut at every occurrence, scanning from the left. */
  function Split(s: string, w: string): (parts: seq<string>)
    requires w != ""
    ensures |parts| > 0
  {
    match IndexOf(s, w)
    case None => [s]
    case Some(i) => [s[..i]] + Split(s[i + |w|..], w)
  }

  lemma {:induction false} PartsAreFrom(s: string, w: string)
    requires w != ""
    ensures forall part, c | part in Split(s, w) && c in part :: c in s
  {
    match IndexOf(s, w)
    case None =>
    case Some(i) => PartsAreFrom(s[i + |w|..], w);
  }

  /** JavaScript's replace(/\r\n/g, '\n'). */
  function Normalize(s: string): string {
    if s == "" then ""
    else if |s| >= 2 && s[0] == '\r' && s[1] == '\n' then "\n" + Normalize(s[2..])
    else [s[0]] + Normalize(s[1..])
  }

  /** The white space and line terminators that JavaScript's trim removes. */
  predicate IsSpace(c: char) {
    || '\t' <= c <= '\r' || c == ' ' || c == '\U{00A0}' || c == '\U{1680}' || '\U{2000}' <= c <= '\U{200A}'
    || c == '\U{2028}' || c == '\U{2029}' || c == '\U{202F}' || c == '\U{205F}' || c == '\U{3000}' || c == '\U{FEFF}'
  }

  function TrimStart(s: string): (r: string)
    ensures r == "" || !IsSpace(r[0])
    ensures |r| <= |s| && r == s[|s| - |r|..] && forall i | 0 <= i < |s| - |r| :: IsSpace(s[i])
  {
    if s == "" then "" else if IsSpace(s[0]) then TrimStart(s[1..]) else s
  }

  function TrimEnd(s: string): (r: string)
    ensures r == "" || !IsSpace(r[|r| - 1])
    ensures r <= s && forall i | |r| <= i < |s| :: IsSpace(s[i])
  {
    if s == "" then "" else if IsSpace(s[|s| - 1]) then TrimEnd(s[..|s| - 1]) else s
  }

  function Trim(s: string): string {
    TrimEnd(TrimStart(s))
  }

  predicate IsTrimmed(s: string) {
    s == "" || (!IsSpace(s[0]) && !IsSpace(s[|s| - 1]))
  }

  // ---------------------------------------------------------------- what a block says

  predicate IsEventLine(line: string) {
    StartsWith(line, "event:")
  }

  predicate IsDataLine(line: string) {
    StartsWith(line, "data:")
  }

  function DataValue(line: string): string
    requires IsDataLine(line)
  {
    if StartsWith(line, "data: ") then line[6..] else line[5..]
  }

  function DataValues(lines: seq<string>): seq<string> {
    if lines == [] then []
    else
      var last := lines[|lines| - 1];
      DataValues(lines[..|lines| - 1]) + if IsDataLine(last) then [DataValue(last)] else []
  }

  function WithoutLeadingEmpty(values: seq<string>): (r: seq<string>)
    ensures r == [] || r[0] != ""
  {
    if values == [] then []
    else if values[0] != "" then values
    else WithoutLeadingEmpty(values[1..])
  }

  function Joined(values: seq<string>): string {
    if values == [] then ""
    else if |values| == 1 then values[0]
    else Joined(values[..|values| - 1]) + "\n" + values[|values| - 1]
  }

  /** The data of a block: its data lines, one per line, without the empty ones it starts with. */
  function DataOf(lines: seq<string>): string {
    Joined(WithoutLeadingEmpty(DataValues(lines)))
  }

  /** The type of a block: what its last event line says, if it has one. */
  function TypeOf(lines: seq<string>): string {
    if lines == [] then "message"
    else
      var last := lines[|lines| - 1];
      if IsEventLine(last) then Trim(last[6..]) else TypeOf(lines[..|lines| - 1])
  }

  function BlockEvents(block: string): seq<SseEvent> {
    var lines := Split(block, "\n");
    if DataOf(lines) == "" then [] else [SseEvent(TypeOf(lines), DataOf(lines))]
  }

  function AllEvents(blocks: seq<string>): seq<SseEvent> {
    FlatMap(BlockEvents, blocks)
  }

  lemma {:induction false} WithoutLeadingEmptySnoc(values: seq<string>, v: string)
    ensures WithoutLeadingEmpty(values + [v]) ==
              if WithoutLeadingEmpty(values) == [] && v == "" then [] else WithoutLeadingEmpty(values) + [v]
  {
    if values == [] {
      assert values + [v] == [v];
    } else if values[0] == "" {
      WithoutLeadingEmptySnoc(values[1..], v);
      assert (values + [v])[1..] == values[1..] + [v];
    }
  }

  lemma JoinedNonEmpty(values: seq<string>)
    requires values != [] && values[0] != ""
    ensures Joined(values) != ""
  {
  }

  /** What one more data line does to the data of a block. */
  lemma DataOfSnoc(lines: seq<string>, line: string)
    ensures IsDataLine(line) ==>
              DataOf(lines + [line]) == DataOf(lines) + (if DataOf(lines) != "" then "\n" else "") + DataValue(line)
    ensures !IsDataLine(line) ==> DataOf(lines + [line]) == DataOf(lines)
  {
    assert (lines + [line])[..|lines|] == lines;
    if IsDataLine(line) {
      var kept := WithoutLeadingEmpty(DataValues(lines));
      WithoutLeadingEmptySnoc(DataValues(lines), DataValue(line));
      if kept != [] {
        JoinedNonEmpty(kept);
        assert (kept + [DataValue(line)])[..|kept|] == kept;
      }
    } else {
      assert DataValues(lines + [line]) == DataValues(lines);
    }
  }

  lemma {:induction false} NoDataLines(lines: seq<string>)
    requires forall line | line in lines :: !IsDataLine(line)
    ensures DataOf(lines) == ""
  {
    if lines != [] {
      NoDataLines(lines[..|lines| - 1]);
      DataOfSnoc(lines[..|lines| - 1], lines[|lines| - 1]);
      assert lines == lines[..|lines| - 1] + [lines[|lines| - 1]];
    }
  }

  lemma HeadIn(line: string)
    requires IsDataLine(line)
    ensures 'd' in line
  {
    assert line[0] == 'd';
  }

  /** A block that trims to nothing has no event, so skipping it loses nothing. */
  lemma BlankBlockHasNoEvent(block: string)
    requires Trim(block) == ""
    ensures BlockEvents(block) == []
  {
    assert forall c | c in block :: IsSpace(c);
    PartsAreFrom(block, "\n");
    forall line | line in Split(block, "\n") ensures !IsDataLine(line) {
      if IsDataLine(line) {
        HeadIn(line);
      }
    }
    NoDataLines(Split(block, "\n"));
  }

  // ---------------------------------------------------------------- the parser

  const SEPARATOR := "\n\n"

  datatype Pieces = Pieces(complete: seq<string>, rest: string)

  function After(blocks: seq<string>, p: Pieces): Pieces {
    Pieces(blocks + p.complete, p.rest)
  }

  lemma AfterTwice(a: seq<string>, b: seq<string>, p: Pieces)
    ensures After(a, After(b, p)) == After(a + b, p)
  {
  }

  /** The blocks that a separator ends, and what follows the last separator. */
  function Cut(s: string): Pieces {
    match IndexOf(s, SEPARATOR)
    case None => Pieces([], s)
    case Some(i) =>
      After([s[..i]], Cut(s[i + 2..]))
  }

  lemma {:induction false} CutIsSplit(s: string)
    ensures Split(s, SEPARATOR) == Cut(s).complete + [Cut(s).rest]
  {
    match IndexOf(s, SEPARATOR)
    case None =>
    case Some(i) => CutIsSplit(s[i + 2..]);
  }

  /** One call on a whole text: its complete blocks give the events, what follows the last separator remains. */
  function Parse(text: string): Parsed {
    var pieces := Cut(Normalize(text));
    Parsed(AllEvents(pieces.complete), pieces.rest)
  }

  lemma OneMoreBlock(blocks: seq<string>, k: nat)
    requires k < |blocks|
    ensures AllEvents(blocks[..k + 1]) == AllEvents(blocks[..k]) + BlockEvents(blocks[k])
  {
    assert blocks[..k + 1][..k] == blocks[..k];
  }

  /** parseSSEBuffer. */
  method ParseSSEBuffer(buffer: string) returns (parsed: seq<SseEvent>, remaining: string)
    ensures Parsed(parsed, remaining) == Parse(buffer)
  {
    parsed := [];
    var normalized := Normalize(buffer);
    var blocks := Split(normalized, SEPARATOR);
    CutIsSplit(normalized);
    remaining := blocks[|blocks| - 1];
    blocks := blocks[..|blocks| - 1];
    for k := 0 to |blocks|
      invariant parsed == AllEvents(blocks[..k])
    {
      OneMoreBlock(blocks, k);
      var block := blocks[k];
      if Trim(block) == "" {
        BlankBlockHasNoEvent(block);
      } else {
        var eventType, data := ReadBlock(block);
        if data != "" {
          parsed := parsed + [SseEvent(eventType, data)];
        }
      }
    }
    assert blocks[..|blocks|] == blocks;
  }

  /** The inner loop of parseSSEBuffer. */
  method ReadBlock(block: string) returns (eventType: string, data: string)
    ensures eventType == TypeOf(Split(block, "\n")) && data == DataOf(Split(block, "\n"))
  {
    eventType, data := "message", "";
    var lines := Split(block, "\n");
    for i := 0 to |lines|
      invariant eventType == TypeOf(lines[..i]) && data == DataOf(lines[..i])
    {
      var line := lines[i];
      OneMoreLine(lines, i);
      if StartsWith(line, "event:") {
        eventType := Trim(line[6..]);
      } else if StartsWith(line, "data:") {
        var value := if StartsWith(line, "data: ") then line[6..] else line[5..];
        data := data + (if data != "" then "\n" else "") + value;
      }
    }
    assert lines[..|lines|] == lines;
  }

  lemma OneMoreLine(lines: seq<string>, i: nat)
    requires i < |lines|
    ensures var line, before := lines[i], lines[..i];
            && TypeOf(lines[..i + 1]) == (if IsEventLine(line) then Trim(line[6..]) else TypeOf(before))
            && DataOf(lines[..i + 1]) == (if IsDataLine(line) then DataOf(before) + (if DataOf(before) != "" then "\n" else "") + DataValue(line)
                                          else DataOf(before))
            && !(IsEventLine(line) && IsDataLine(line))
  {
    assert lines[..i + 1] == lines[..i] + [lines[i]] && lines[..i + 1][..i] == lines[..i];
    DataOfSnoc(lines[..i], lines[i]);
    assert IsEventLine(lines[i]) ==> lines[i][0] == 'e';
  }

  function Concat(chunks: seq<string>): string {
    if chunks == [] then "" else Concat(chunks[..|chunks| - 1]) + chunks[|chunks| - 1]
  }

  /** What the read loop has emitted and still holds after some chunks. */
  function Feed(chunks: seq<string>): Parsed {
    if chunks == [] then Parsed([], "")
    else
      var before := Feed(chunks[..|chunks| - 1]);
      var p := Parse(before.remaining + chunks[|chunks| - 1]);
      Parsed(before.events + p.events, p.remaining)
  }

  /** The read loop of connect, up to the end of the stream. */
  method ReadLoop(chunks: seq<string>) returns (emitted: seq<SseEvent>, buffer: string)
    ensures Parsed(emitted, buffer) == Feed(chunks)
    ensures !HasCrCrLf(Concat(chunks)) ==> Parsed(emitted, buffer) == Parse(Concat(chunks))
  {
    emitted, buffer := [], "";
    for k := 0 to |chunks|
      invariant Parsed(emitted, buffer) == Feed(chunks[..k])
    {
      assert chunks[..k + 1][..k] == chunks[..k];
      buffer := buffer + chunks[k];
      var parsed, remaining := ParseSSEBuffer(buffer);
      buffer := remaining;
      emitted := emitted + parsed;
    }
    assert chunks[..|chunks|] == chunks;
    if !HasCrCrLf(Concat(chunks)) {
      CleanChunks(chunks);
    }
  }

  // ---------------------------------------------------------------- normalising piecewise

  predicate EndsInCr(s: string) {
    s != "" && s[|s| - 1] == '\r'
  }

  /** Normalising one more character. */
  function Snoc(normalized: string, c: char): string {
    if c == '\n' && EndsInCr(normalized) then normalized[..|normalized| - 1] + "\n" else normalized + [c]
  }

  lemma SnocAfter(head: string, tail: string, c: char)
    requires tail != "" || !EndsInCr(head)
    ensures Snoc(head + tail, c) == head + Snoc(tail, c)
  {
    if tail != "" {
      assert EndsInCr(head + tail) <==> EndsInCr(tail);
      assert (head + tail)[..|head + tail| - 1] == head + tail[..|tail| - 1];
    } else {
      assert head + tail == head;
    }
  }

  lemma {:induction false} NormalizeSnoc(s: string, c: char)
    ensures Normalize(s + [c]) == Snoc(Normalize(s), c)
  {
    if s == "" {
    } else if |s| == 1 {
      assert s[1..] == "" && (s + [c])[1..] == [c] && (s + [c])[2..] == "";
      assert Normalize([c]) == [c];
    } else {
      var k := if s[0] == '\r' && s[1] == '\n' then 2 else 1;
      var head := if k == 2 then "\n" else [s[0]];
      assert (s + [c])[k..] == s[k..] + [c];
      NormalizeSnoc(s[k..], c);
      SnocAfter(head, Normalize(s[k..]), c);
    }
  }

  /** A start that is already normalised, and after which no "\r\n" can straddle, stays as it is. */
  lemma {:induction false} NormalizeAfter(s: string, head: string, tail: string, more: string)
    requires Normalize(s) == head + tail && !EndsInCr(head) && Normalize(tail) == tail
    ensures Normalize(s + more) == head + Normalize(tail + more)
  {
    if more == "" {
      assert s + more == s && tail + more == tail;
    } else {
      var init, c := more[..|more| - 1], more[|more| - 1];
      NormalizeAfter(s, head, tail, init);
      assert more == init + [c];
      NormalizeSnocTo(s, init, c);
      NormalizeSnocTo(tail, init, c);
      SnocAfter(head, Normalize(tail + init), c);
    }
  }

  lemma NormalizeSnocTo(s: string, init: string, c: char)
    ensures Normalize(s + (init + [c])) == Snoc(Normalize(s + init), c)
  {
    var t := s + init;
    assert s + (init + [c]) == t + [c];
    NormalizeSnoc(t, c);
  }

  predicate EndsInCrLf(s: string) {
    |s| >= 2 && s[|s| - 2] == '\r' && s[|s| - 1] == '\n'
  }

  ghost predicate HasCrLf(s: string) {
    exists i: nat :: i + 1 < |s| && s[i] == '\r' && s[i + 1] == '\n'
  }

  ghost predicate HasCrCrLf(s: string) {
    exists i: nat :: i + 2 < |s| && s[i] == '\r' && s[i + 1] == '\r' && s[i + 2] == '\n'
  }

  lemma {:induction false} NormalIfNoCrLf(s: string)
    requires !HasCrLf(s)
    ensures Normalize(s) == s
  {
    if s != "" {
      assert !HasCrLf(s[1..]) by {
        assert forall i: nat | i < |s| - 1 :: s[1..][i] == s[i + 1];
      }
      NormalIfNoCrLf(s[1..]);
    }
  }

  predicate EndsInCrCr(s: string) {
    |s| >= 2 && s[|s| - 2] == '\r' && s[|s| - 1] == '\r'
  }

  /** Normalising leaves a "\r\n" behind exactly where there was a "\r\r\n". */
  lemma {:induction false} LeftoverCrLf(s: string)
    ensures EndsInCr(Normalize(s)) <==> EndsInCr(s)
    ensures EndsInCrCr(Normalize(s)) <==> EndsInCrCr(s)
    ensures HasCrLf(Normalize(s)) <==> HasCrCrLf(s)
  {
    if s != "" {
      var init, c := s[..|s| - 1], s[|s| - 1];
      LeftoverCrLf(init);
      assert s == init + [c];
      NormalizeSnoc(init, c);
      var n := Normalize(init);
      CrLfSnoc(n, c);
      assert HasCrCrLf(s) <==> HasCrCrLf(init) || (c == '\n' && EndsInCrCr(init)) by {
        CrCrLfSnoc(init, c);
      }
    }
  }

  lemma CrLfSnoc(n: string, c: char)
    ensures HasCrLf(Snoc(n, c)) <==> HasCrLf(n) || (c == '\n' && EndsInCrCr(n))
  {
    var r := Snoc(n, c);
    if HasCrLf(n) {
      var i: nat :| i + 1 < |n| && n[i] == '\r' && n[i + 1] == '\n';
      assert r[i] == '\r' && r[i + 1] == '\n';
    } else if c == '\n' && EndsInCrCr(n) {
      assert r[|n| - 2] == '\r' && r[|n| - 1] == '\n';
    } else {
      forall i: nat | i + 1 < |r| ensures !(r[i] == '\r' && r[i + 1] == '\n') {
        assert i + 2 < |r| ==> r[i] == n[i] && r[i + 1] == n[i + 1];
      }
    }
  }

  lemma CrCrLfSnoc(s: string, c: char)
    ensures HasCrCrLf(s + [c]) <==> HasCrCrLf(s) || (c == '\n' && EndsInCrCr(s))
  {
    var r := s + [c];
    if HasCrCrLf(s) {
      var i: nat :| i + 2 < |s| && s[i] == '\r' && s[i + 1] == '\r' && s[i + 2] == '\n';
      assert r[i] == '\r' && r[i + 1] == '\r' && r[i + 2] == '\n';
    } else if c == '\n' && EndsInCrCr(s) {
      assert r[|s| - 2] == '\r' && r[|s| - 1] == '\r' && r[|s|] == '\n';
    } else {
      forall i: nat | i + 2 < |r| ensures !(r[i] == '\r' && r[i + 1] == '\r' && r[i + 2] == '\n') {
        assert i + 3 < |r| ==> r[i] == s[i] && r[i + 1] == s[i + 1] && r[i + 2] == s[i + 2];
      }
    }
  }

  // ---------------------------------------------------------------- splitting piecewise

  /** The complete blocks with their separators. */
  function Head(s: string): (head: string)
    ensures head == "" || (|head| >= 2 && head[|head| - 2] == head[|head| - 1] == '\n')
  {
    match IndexOf(s, SEPARATOR)
    case None => ""
    case Some(i) =>
      IndexOfIs(s, SEPARATOR, i);
      assert s[i..i + 2] == SEPARATOR;
      s[..i + 2] + Head(s[i + 2..])
  }

  lemma {:induction false} HeadAndRest(s: string)
    ensures s == Head(s) + Cut(s).rest
  {
    match IndexOf(s, SEPARATOR) {
      case None =>
      case Some(i) =>
        HeadAndRest(s[i + 2..]);
        FirstCut(s, i);
    }
  }

  /** Another rest in place of the rest gives the same complete blocks, followed by whatever the new rest gives. */
  lemma {:induction false} SplitAfter(s: string, rest: string)
    ensures Cut(Head(s) + rest) == After(Cut(s).complete, Cut(rest))
  {
    match IndexOf(s, SEPARATOR) {
      case None =>
        assert Head(s) + rest == rest;
      case Some(i) =>
        var tail, t := s[i + 2..], Head(s) + rest;
        assert t == s[..i + 2] + (Head(tail) + rest);
        calc {
          Cut(t);
          { SameFirstBlock(s, t, i); }
          After([s[..i]], Cut(Head(tail) + rest));
          { SplitAfter(tail, rest); }
          After([s[..i]], After(Cut(tail).complete, Cut(rest)));
          { AfterTwice([s[..i]], Cut(tail).complete, Cut(rest)); }
          After([s[..i]] + Cut(tail).complete, Cut(rest));
        }
    }
  }

  lemma SameFirstBlock(s: string, t: string, i: nat)
    requires IndexOf(s, SEPARATOR) == Some(i) && i + 2 <= |t| && t[..i + 2] == s[..i + 2]
    ensures Cut(t) == After([s[..i]], Cut(t[i + 2..]))
  {
    SamePrefix(s, t, i);
    assert IndexOf(t, SEPARATOR) == Some(i) by { SameFirstCut(s, t, i); }
    assert Cut(t) == After([t[..i]], Cut(t[i + 2..]));
  }

  lemma SamePrefix(s: string, t: string, i: nat)
    requires i + 2 <= |s| && i + 2 <= |t| && t[..i + 2] == s[..i + 2]
    ensures t[..i] == s[..i]
  {
    assert t[..i] == t[..i + 2][..i];
  }

  lemma FirstCut(s: string, i: nat)
    requires IndexOf(s, SEPARATOR) == Some(i)
    ensures s == s[..i + 2] + s[i + 2..] && s[i] == s[i + 1] == '\n'
  {
    IndexOfIs(s, SEPARATOR, i);
    assert s[i..i + 2] == SEPARATOR;
  }

  lemma SameFirstCut(s: string, t: string, i: nat)
    requires IndexOf(s, SEPARATOR) == Some(i) && i + 2 <= |t| && t[..i + 2] == s[..i + 2]
    ensures IndexOf(t, SEPARATOR) == Some(i)
  {
    IndexOfIs(s, SEPARATOR, i);
    assert forall j: nat | j <= i :: OccursAt(t, SEPARATOR, j) <==> OccursAt(s, SEPARATOR, j) by {
      forall j: nat | j <= i ensures OccursAt(t, SEPARATOR, j) <==> OccursAt(s, SEPARATOR, j) {
        assert t[j..j + 2] == t[..i + 2][j..j + 2] && s[j..j + 2] == s[..i + 2][j..j + 2];
      }
    }
    IndexOfIs(t, SEPARATOR, i);
  }

  // ---------------------------------------------------------------- cutting the stream into chunks

  /** If what remains of a text is normalised, parsing it piecewise is parsing it whole. */
  lemma ParseAfter(text: string, more: string)
    requires Normalize(Parse(text).remaining) == Parse(text).remaining
    ensures Parse(text + more)
         == Parsed(Parse(text).events + Parse(Parse(text).remaining + more).events, Parse(Parse(text).remaining + more).remaining)
  {
    var n, rest := Normalize(text), Parse(text).remaining;
    var next := Normalize(rest + more);
    HeadAndRest(n);
    SplitAfter(n, next);
    NormalizeAfter(text, Head(n), rest, more);
    FlatMapConcat(BlockEvents, Cut(n).complete, Cut(next).complete);
  }

  lemma RestIsNormal(text: string)
    requires !HasCrCrLf(text)
    ensures Normalize(Parse(text).remaining) == Parse(text).remaining
  {
    LeftoverCrLf(text);
    var n := Normalize(text);
    HeadAndRest(n);
    assert !HasCrLf(Cut(n).rest) by {
      assert forall i: nat | i < |Cut(n).rest| :: Cut(n).rest[i] == n[|Head(n)| + i];
    }
    NormalIfNoCrLf(Cut(n).rest);
  }

  lemma PrefixHasNoCrCrLf(s: string, t: string)
    requires s <= t && !HasCrCrLf(t)
    ensures !HasCrCrLf(s)
  {
  }

  lemma {:induction false} CleanChunks(chunks: seq<string>)
    requires !HasCrCrLf(Concat(chunks))
    ensures Feed(chunks) == Parse(Concat(chunks))
  {
    if chunks == [] {
      assert IndexOf("", SEPARATOR).None?;
    } else {
      var init, last := chunks[..|chunks| - 1], chunks[|chunks| - 1];
      PrefixHasNoCrCrLf(Concat(init), Concat(chunks));
      CleanChunks(init);
      RestIsNormal(Concat(init));
      ParseAfter(Concat(init), last);
    }
  }

  /** A stream can be cut anywhere, at every point of it, without changing what the read loop has emitted and holds, if and
      only if it nowhere contains "\r\r\n". */
  lemma ChunkingInvariance(text: string)
    ensures (forall chunks | Concat(chunks) <= text :: Feed(chunks) == Parse(Concat(chunks))) <==> !HasCrCrLf(text)
  {
    if HasCrCrLf(text) {
      var i: nat :| i + 2 < |text| && text[i] == '\r' && text[i + 1] == '\r' && text[i + 2] == '\n';
      CutAfterCrCrLf(text[..i + 3]);
      assert Concat([text[..i + 3], ""]) == text[..i + 3];
    } else {
      forall chunks | Concat(chunks) <= text ensures Feed(chunks) == Parse(Concat(chunks)) {
        PrefixHasNoCrCrLf(Concat(chunks), text);
        CleanChunks(chunks);
      }
    }
  }

  predicate EndsInCrCrLf(s: string) {
    |s| >= 3 && s[|s| - 3] == s[|s| - 2] == '\r' && s[|s| - 1] == '\n'
  }

  lemma TailEndsInCrLf(head: string, rest: string)
    requires head == "" || (|head| >= 2 && head[|head| - 2] == head[|head| - 1] == '\n')
    ensures EndsInCrLf(head + rest) ==> EndsInCrLf(rest)
  {
    if |rest| >= 2 {
      assert (head + rest)[|head + rest| - 2] == rest[|rest| - 2];
    } else if head != "" {
      assert (head + rest)[|head + rest| - 2] == '\n';
    }
  }

  lemma RestEndsInCrLf(n: string)
    requires EndsInCrLf(n)
    ensures EndsInCrLf(Cut(n).rest)
  {
    HeadAndRest(n);
    TailEndsInCrLf(Head(n), Cut(n).rest);
  }

  /** A text that ends in "\r\r\n" leaves a rest that ends in "\r\n". */
  lemma RestAfterCrCrLf(text: string)
    requires EndsInCrCrLf(text)
    ensures EndsInCrLf(Parse(text).remaining)
  {
    var init := text[..|text| - 1];
    assert EndsInCrLf(Normalize(text)) by {
      assert text == init + ['\n'];
      LeftoverCrLf(init);
      NormalizeSnoc(init, '\n');
    }
    RestEndsInCrLf(Normalize(text));
  }

  /** Right after a "\r\r\n" even an empty chunk changes what the loop holds: the "\r\n" that normalising left behind is
      normalised again. */
  lemma CutAfterCrCrLf(text: string)
    requires EndsInCrCrLf(text)
    ensures Concat([text, ""]) == text && Feed([text, ""]) != Parse(text)
  {
    assert [text, ""][..1] == [text] && [text][..0] == [];
    assert Concat([text]) == text;
    FeedOne(text);
    RestAfterCrCrLf(text);
    var rest := Parse(text).remaining;
    assert rest + "" == rest;
    NormalizeShrinks(rest);
    HeadAndRest(Normalize(rest));
  }

  lemma FeedOne(text: string)
    ensures Feed([text]) == Parse(text)
  {
    assert [text][..0] == [] && "" + text == text;
  }

  lemma NormalizeShrinks(s: string)
    requires EndsInCrLf(s)
    ensures |Normalize(s)| < |s|
  {
    var init := s[..|s| - 1];
    assert s == init + ['\n'];
    NormalizeSnoc(init, '\n');
    LeftoverCrLf(init);
    NormalizeNoLonger(init);
  }

  lemma NormalizeNoLonger(s: string)
    ensures |Normalize(s)| <= |s|
  {
  }

  // ---------------------------------------------------------------- what the server writes

  /** The two things the server writes: comments, which only keep the connection alive, and events. */
  datatype Written = Comment(text: string) | Message(eventType: string, data: string)

  const PREAMBLE := Comment(" stream-open")
  const KEEPALIVE := Comment(" keepalive")

  function Frame(w: Written): string {
    match w
    case Comment(text) => ":" + text + SEPARATOR
    case Message(eventType, data) => "event:" + eventType + "\ndata:" + data + SEPARATOR
  }

  function Wire(ws: seq<Written>): string {
    FlatMap(Frame, ws)
  }

  function Sent(w: Written): seq<SseEvent> {
    match w
    case Comment(_) => []
    case Message(eventType, data) => [SseEvent(eventType, data)]
  }

  predicate OneLine(s: string) {
    '\r' !in s && '\n' !in s
  }

  /** What a frame can carry: text on one line, as JSON and the server's event types are. */
  predicate Plain(w: Written) {
    match w
    case Comment(text) => OneLine(text)
    case Message(eventType, data) => OneLine(eventType) && OneLine(data)
  }

  predicate ReadsBack(w: Written) {
    w.Message? ==> IsTrimmed(w.eventType) && w.data != "" && w.data[0] != ' '
  }

  predicate OneBlock(body: string) {
    && '\r' !in body
    && (body == "" || body[|body| - 1] != '\n')
    && forall i | 0 <= i < |body| - 1 :: body[i] != '\n' || body[i + 1] != '\n'
  }

  lemma CutOneBlock(body: string)
    requires OneBlock(body)
    ensures Cut(body + SEPARATOR) == Pieces([body], "")
  {
    var text := body + SEPARATOR;
    assert IsLeftmost(text, SEPARATOR, |body|) by {
      forall j: nat | j < |body| ensures !OccursAt(text, SEPARATOR, j) {
        assert text[j..j + 2][0] == text[j] && text[j..j + 2][1] == text[j + 1];
      }
    }
    IndexOfIs(text, SEPARATOR, |body|);
    assert text[|body| + 2..] == "" && text[..|body|] == body;
  }

  lemma ParseOneBlock(body: string)
    requires OneBlock(body)
    ensures Parse(body + SEPARATOR) == Parsed(BlockEvents(body), "")
  {
    var text := body + SEPARATOR;
    assert Normalize(text) == text by {
      assert forall i: nat | i < |text| :: text[i] != '\r';
      NormalIfNoCrLf(text);
    }
    CutOneBlock(body);
    assert [body][..0] == [];
  }

  lemma NewlineOccurs(s: string, i: nat)
    ensures OccursAt(s, "\n", i) <==> i < |s| && s[i] == '\n'
  {
    assert i < |s| ==> s[i..i + 1] == [s[i]];
  }

  lemma OnlyLine(s: string)
    requires '\n' !in s
    ensures Split(s, "\n") == [s]
  {
    if IndexOf(s, "\n").Some? {
      IndexOfIs(s, "\n", IndexOf(s, "\n").value);
      NewlineOccurs(s, IndexOf(s, "\n").value);
    }
  }

  lemma TwoLines(s: string, t: string)
    requires '\n' !in s && '\n' !in t
    ensures Split(s + "\n" + t, "\n") == [s, t]
  {
    var text := s + "\n" + t;
    assert IsLeftmost(text, "\n", |s|) by {
      forall j: nat | j <= |s| ensures OccursAt(text, "\n", j) <==> j == |s| {
        NewlineOccurs(text, j);
        assert j < |s| ==> text[j] == s[j];
      }
    }
    IndexOfIs(text, "\n", |s|);
    assert text[..|s|] == s && text[|s| + 1..] == t;
    OnlyLine(t);
  }

  lemma TrimmedIffKept(s: string)
    ensures Trim(s) == s <==> IsTrimmed(s)
  {
  }

  /** A comment gives nothing. */
  lemma ParseComment(text: string)
    requires OneLine(text)
    ensures Parse(Frame(Comment(text))) == Parsed([], "")
  {
    ParseOneBlock(":" + text);
    OnlyLine(":" + text);
    NoDataLines([":" + text]);
  }

  /** An event comes back as it was written exactly when its type has no white space around it, and its data is not empty
      and does not begin with a space. */
  lemma ParseMessage(w: Written)
    requires w.Message? && Plain(w)
    ensures Parse(Frame(w)) == Parsed(Sent(w), "") <==> ReadsBack(w)
  {
    MessageIsItsLines(w);
    MessageLines(w);
    TrimmedIffKept(w.eventType);
  }

  lemma MessageIsItsLines(w: Written)
    requires w.Message? && Plain(w)
    ensures var lines := ["event:" + w.eventType, "data:" + w.data];
            Parse(Frame(w)) == Parsed(if DataOf(lines) == "" then [] else [SseEvent(TypeOf(lines), DataOf(lines))], "")
  {
    var first, second := "event:" + w.eventType, "data:" + w.data;
    assert Frame(w) == first + "\n" + second + SEPARATOR;
    ParseOneBlock(first + "\n" + second);
    TwoLines(first, second);
  }

  lemma MessageLines(w: Written)
    requires w.Message?
    ensures var lines := ["event:" + w.eventType, "data:" + w.data];
            && TypeOf(lines) == Trim(w.eventType)
            && DataOf(lines) == if w.data != "" && w.data[0] == ' ' then w.data[1..] else w.data
  {
    var first, second := "event:" + w.eventType, "data:" + w.data;
    assert first[0] == 'e' && second[0] == 'd';
    assert [first, second] == [first] + [second] && [first, second][..1] == [first];
    NoDataLines([first]);
    DataOfSnoc([first], second);
    assert first[6..] == w.eventType && second[5..] == w.data;
    assert StartsWith(second, "data: ") <==> w.data != "" && w.data[0] == ' ';
  }

  /** Where nothing remains, parsing goes on as from the start. */
  lemma ParseAtBoundary(before: string, more: string)
    requires Parse(before).remaining == ""
    ensures Parse(before + more) == Parsed(Parse(before).events + Parse(more).events, Parse(more).remaining)
  {
    assert "" + more == more;
    ParseAfter(before, more);
  }

  lemma EmptyAtBoundary(before: string, nothing: string, after: string)
    requires Parse(before).remaining == "" && Parse(nothing) == Parsed([], "")
    ensures Parse(before + nothing + after) == Parse(before + after)
  {
    ParseAtBoundary(before, nothing);
    assert Parse(before + nothing) == Parse(before);
    ParseAtBoundary(before + nothing, after);
    ParseAtBoundary(before, after);
  }

  /** A comment put where a frame ends changes nothing, in any stream. */
  lemma CommentsAreInvisible(before: string, comment: Written, after: string)
    requires Parse(before).remaining == "" && comment.Comment? && Plain(comment)
    ensures Parse(before + Frame(comment) + after) == Parse(before + after)
  {
    assert Parse(Frame(comment)) == Parsed([], "") by { ParseComment(comment.text); }
    EmptyAtBoundary(before, Frame(comment), after);
  }

  /** The two comments that the server writes are of that kind. */
  lemma ServerCommentsArePlain()
    ensures Plain(PREAMBLE) && Plain(KEEPALIVE)
  {
  }

  /** So neither the opening comment nor any keep-alive the server puts between its frames is ever seen. */
  lemma ServerCommentsAreInvisible(before: string, comment: Written, after: string)
    requires Parse(before).remaining == "" && (comment == PREAMBLE || comment == KEEPALIVE)
    ensures Parse(before + Frame(comment) + after) == Parse(before + after)
  {
    assert comment.Comment? && Plain(comment) by { ServerCommentsArePlain(); }
    CommentsAreInvisible(before, comment, after);
  }

  lemma ParseFrame(before: string, w: Written)
    requires Plain(w) && ReadsBack(w) && Parse(before).remaining == ""
    ensures Parse(before + Frame(w)) == Parsed(Parse(before).events + Sent(w), "")
  {
    ParseAtBoundary(before, Frame(w));
    if w.Comment? { ParseComment(w.text); } else { ParseMessage(w); }
  }

  lemma FrameHasNoCr(w: Written)
    requires Plain(w)
    ensures '\r' !in Frame(w)
  {
  }

  lemma {:induction false} WireReadsBack(ws: seq<Written>)
    requires forall w | w in ws :: Plain(w) && ReadsBack(w)
    ensures Parse(Wire(ws)) == Parsed(FlatMap(Sent, ws), "") && '\r' !in Wire(ws)
  {
    if ws == [] {
      assert Cut("") == Pieces([], "");
    } else {
      var init, last := ws[..|ws| - 1], ws[|ws| - 1];
      WireReadsBack(init);
      ParseFrame(Wire(init), last);
      FrameHasNoCr(last);
    }
  }

  /** From server to client: however the network cuts what the server writes, the read loop has at any time emitted the first
      of the events written, in order, and all of them once everything has arrived. */
  lemma ClientReadsWhatServerWrites(ws: seq<Written>, chunks: seq<string>)
    requires forall w | w in ws :: Plain(w) && ReadsBack(w)
    requires Concat(chunks) <= Wire(ws)
    ensures Feed(chunks).events <= FlatMap(Sent, ws)
    ensures Concat(chunks) == Wire(ws) ==> Feed(chunks) == Parsed(FlatMap(Sent, ws), "")
  {
    var got, wire := Concat(chunks), Wire(ws);
    WireReadsBack(ws);
    NoCrInPrefix(got, wire);
    CleanChunks(chunks);
    ParsePrefix(got, wire);
  }

  lemma NoCrInPrefix(s: string, t: string)
    requires s <= t && '\r' !in t
    ensures !HasCrCrLf(s)
  {
    assert forall i: nat | i < |s| :: s[i] == t[i] && t[i] in t;
  }

  lemma ParsePrefix(s: string, t: string)
    requires s <= t && !HasCrCrLf(s)
    ensures Parse(s).events <= Parse(t).events
  {
    RestIsNormal(s);
    ParseAfter(s, t[|s|..]);
    assert s + t[|s|..] == t;
  }
}
