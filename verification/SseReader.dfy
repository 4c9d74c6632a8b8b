/** The terminal-response reader: one pass over borrowed lines, against the reader that rewrites and splits. A `char`
    here is a Unicode scalar, so that white space of several bytes is one character, and a body that is not UTF-8 has
    no text. */
module SseReader {
  import opened Prelude

  /** JSON parsing, the JSON-RPC test and Unicode white space, as the libraries provide them. */
  datatype Library<!V> = Library(parse: string -> Option<V>, isResponse: V -> bool, isSpace: char -> bool)

  datatype UnaccountedReason = Unparseable | MediaType

  /** All that agreement needs of JSON: leading newlines do not matter, and nothing is not a value. */
  ghost predicate IgnoresLeadingNewlines<V(!new)>(lib: Library<V>) {
    && lib.parse("").None?
    && forall s {:trigger lib.parse("\n" + s)} :: lib.parse("\n" + s) == lib.parse(s)
  }

  const DATA := "data:"

  function TrimStart<V>(lib: Library<V>, s: string): string {
    if s != "" && lib.isSpace(s[0]) then TrimStart(lib, s[1..]) else s
  }

  function TrimEnd<V>(lib: Library<V>, s: string): string {
    if s != "" && lib.isSpace(s[|s| - 1]) then TrimEnd(lib, s[..|s| - 1]) else s
  }

  function BeforeSemicolon(s: string): string {
    if s == "" || s[0] == ';' then "" else [s[0]] + BeforeSemicolon(s[1..])
  }

  function AsciiLower(c: char): char {
    if 'A' <= c <= 'Z' then 'a' + (c - 'A') else c
  }

  predicate EqualIgnoringCase(a: string, b: string) {
    |a| == |b| && forall i | 0 <= i < |a| :: AsciiLower(a[i]) == AsciiLower(b[i])
  }

  /** Equal up to the case of ASCII letters, and in nothing else. */
  lemma EqualUpToCase(a: string, b: string)
    ensures EqualIgnoringCase(a, b) <==>
            && |a| == |b|
            && forall i | 0 <= i < |a| ::
                 || a[i] == b[i]
                 || ('A' <= a[i] <= 'Z' && b[i] as int == a[i] as int + 32)
                 || ('A' <= b[i] <= 'Z' && a[i] as int == b[i] as int + 32)
  {
  }

  predicate HasMediaType<V>(lib: Library<V>, contentType: string, expected: string) {
    EqualIgnoringCase(TrimEnd(lib, TrimStart(lib, BeforeSemicolon(contentType))), expected)
  }

  const JSON := "application/json"

  const EVENT_STREAM := "text/event-stream"

  // ---------------------------------------------------------------- the media type

  predicate AllSpace<V>(lib: Library<V>, s: string) {
    forall c | c in s :: lib.isSpace(c) && c != ';'
  }

  /** A media type as written: no parameters, and no space at either end. */
  predicate Bare<V>(lib: Library<V>, s: string) {
    s != "" && ';' !in s && !lib.isSpace(s[0]) && !lib.isSpace(s[|s| - 1])
  }

  lemma {:induction false} SemicolonEnds(a: string, b: string)
    requires ';' !in a && (b == "" || b[0] == ';')
    ensures BeforeSemicolon(a + b) == a
  {
    if a == "" {
      assert a + b == b;
    } else {
      assert (a + b)[1..] == a[1..] + b;
      SemicolonEnds(a[1..], b);
    }
  }

  lemma {:induction false} TrimmedStart<V>(lib: Library<V>, before: string, s: string)
    requires AllSpace(lib, before) && (s == "" || !lib.isSpace(s[0]))
    ensures TrimStart(lib, before + s) == s
  {
    if before == "" {
      assert before + s == s;
    } else {
      assert before[0] in before && (before + s)[1..] == before[1..] + s;
      TrimmedStart(lib, before[1..], s);
    }
  }

  lemma {:induction false} TrimmedEnd<V>(lib: Library<V>, s: string, after: string)
    requires AllSpace(lib, after) && (s == "" || !lib.isSpace(s[|s| - 1]))
    ensures TrimEnd(lib, s + after) == s
  {
    if after == "" {
      assert s + after == s;
    } else {
      var n := |after| - 1;
      assert after[n] in after && (s + after)[..|s + after| - 1] == s + after[..n];
      TrimmedEnd(lib, s, after[..n]);
    }
  }

  /** Space around a media type, its letters' case and whatever parameters follow do not change which one it is. */
  lemma MediaTypeTolerates<V>(lib: Library<V>, before: string, name: string, after: string, parameters: string,
                              expected: string)
    requires AllSpace(lib, before) && AllSpace(lib, after) && Bare(lib, name)
    requires parameters == "" || parameters[0] == ';'
    ensures HasMediaType(lib, before + name + after + parameters, expected) <==> EqualIgnoringCase(name, expected)
  {
    SemicolonEnds(before + name + after, parameters);
    assert before + name + after == before + (name + after);
    TrimmedStart(lib, before, name + after);
    TrimmedEnd(lib, name, after);
  }

  /** The two media types the reader knows exclude each other. */
  lemma OneMediaType<V>(lib: Library<V>, contentType: string)
    ensures !(HasMediaType(lib, contentType, JSON) && HasMediaType(lib, contentType, EVENT_STREAM))
  {
  }

  predicate IsData(line: string) {
    DATA <= line
  }

  function ValueOf<V>(lib: Library<V>, line: string): string
    requires IsData(line)
  {
    TrimStart(lib, line[|DATA|..])
  }

  /** What the stream answers once an event is over: its payload, when that parses to a response, or else what it
      answered before. */
  function TakeTerminal<V>(lib: Library<V>, data: string, terminal: Option<V>): Option<V> {
    if data == "" then terminal
    else
      var value := lib.parse(data);
      if value.Some? && lib.isResponse(value.value) then value else terminal
  }

  // ---------------------------------------------------------------- the single-pass reader

  /** The text cut at each of its terminators, of which `\r\n` is one and not two. */
  function SseLines(text: string): (lines: seq<string>)
    ensures lines != []
  {
    if text == "" then [""]
    else if text[0] == '\r' && |text| > 1 && text[1] == '\n' then [""] + SseLines(text[2..])
    else if text[0] == '\r' || text[0] == '\n' then [""] + SseLines(text[1..])
    else Prepend(text[0], SseLines(text[1..]))
  }

  function Prepend(c: char, lines: seq<string>): (longer: seq<string>)
    requires lines != []
    ensures longer != []
  {
    [[c] + lines[0]] + lines[1..]
  }

  function Push(data: string, value: string): string {
    (if data == "" then "" else data + "\n") + value
  }

  /** The loop of the reader over the lines still to come. */
  function Stream<V>(lib: Library<V>, lines: seq<string>, data: string, terminal: Option<V>): Option<V> {
    if lines == [] then TakeTerminal(lib, data, terminal)
    else if lines[0] == "" then Stream(lib, lines[1..], "", TakeTerminal(lib, data, terminal))
    else if IsData(lines[0]) then Stream(lib, lines[1..], Push(data, ValueOf(lib, lines[0])), terminal)
    else Stream(lib, lines[1..], data, terminal)
  }

  /** `str::find(['\n', '\r'])`, or the length when there is none. */
  function FindBreak(text: string): (at: nat)
    ensures at <= |text| && (at < |text| ==> text[at] == '\n' || text[at] == '\r')
    ensures forall i | 0 <= i < at :: text[i] != '\n' && text[i] != '\r'
  {
    if text == "" || text[0] == '\n' || text[0] == '\r' then 0 else 1 + FindBreak(text[1..])
  }

  function TerminatorWidth(after: string): nat {
    if "\r\n" <= after then 2 else 1
  }

  predicate IsBreak(c: char) {
    c == '\n' || c == '\r'
  }

  lemma {:induction false} FirstLine(text: string)
    ensures var at := FindBreak(text);
            if at == |text| then SseLines(text) == [text]
            else SseLines(text) == [text[..at]] + SseLines(text[at + TerminatorWidth(text[at..])..])
  {
    if text != "" && !IsBreak(text[0]) {
      FirstLine(text[1..]);
      var at := FindBreak(text[1..]);
      if at < |text[1..]| {
        LongerLine(text, at, TerminatorWidth(text[1..][at..]), SseLines(text[1..]));
      } else {
        assert text == [text[0]] + text[1..];
      }
    } else if text != "" {
      assert text[..0] == "" && text[0..] == text;
      BreakFirst(text);
    }
  }

  lemma BreakFirst(text: string)
    requires text != "" && IsBreak(text[0])
    ensures SseLines(text) == [""] + SseLines(text[TerminatorWidth(text)..])
  {
    assert "\r\n" <= text <==> text[0] == '\r' && |text| > 1 && text[1] == '\n';
  }

  /** A character in front of the first line becomes part of it. */
  lemma LongerLine(text: string, at: nat, width: nat, lines: seq<string>)
    requires text != "" && at + width < |text|
    requires lines == [text[1..][..at]] + SseLines(text[1..][at + width..])
    ensures text[1..][at..] == text[at + 1..]
    ensures Prepend(text[0], lines) == [text[..at + 1]] + SseLines(text[at + 1 + width..])
  {
    assert text[1..][at + width..] == text[at + 1 + width..];
    assert text[..at + 1] == [text[0]] + text[1..][..at];
    assert lines[1..] == SseLines(text[at + 1 + width..]);
  }

  method TerminalResponse<V>(lib: Library<V>, contentType: string, body: Option<string>)
      returns (result: Result<V, UnaccountedReason>)
    ensures HasMediaType(lib, contentType, JSON) ==>
              result == if body.Some? && lib.parse(body.value).Some? && lib.isResponse(lib.parse(body.value).value)
                        then Ok(lib.parse(body.value).value) else Err(Unparseable)
    ensures HasMediaType(lib, contentType, EVENT_STREAM) ==>
              var terminal := if body.Some? then Stream(lib, SseLines(body.value), "", None) else None;
              result == if terminal.Some? then Ok(terminal.value) else Err(Unparseable)
    ensures !HasMediaType(lib, contentType, JSON) && !HasMediaType(lib, contentType, EVENT_STREAM)
            ==> result == Err(MediaType)
  {
    OneMediaType(lib, contentType);
    if HasMediaType(lib, contentType, JSON) {
      // Bytes that are not UTF-8 are not JSON either.
      var value := if body.Some? then lib.parse(body.value) else None;
      return if value.Some? && lib.isResponse(value.value) then Ok(value.value) else Err(Unparseable);
    }
    if !HasMediaType(lib, contentType, EVENT_STREAM) {
      return Err(MediaType);
    }
    if body.None? {
      return Err(Unparseable);
    }
    var terminal := ReadStream(lib, body.value);
    return if terminal.Some? then Ok(terminal.value) else Err(Unparseable);
  }

  /** The lines of what is left to read; nothing is left after the last line. */
  function LinesOf(rest: Option<string>): seq<string> {
    if rest.Some? then SseLines(rest.value) else []
  }

  /** What follows the first line. */
  function AfterLine(text: string): (rest: Option<string>)
    ensures rest.Some? ==> |rest.value| < |text|
  {
    var at := FindBreak(text);
    if at == |text| then None else Some(text[at + TerminatorWidth(text[at..])..])
  }

  lemma LinesFromFirst(text: string)
    ensures SseLines(text) == [text[..FindBreak(text)]] + LinesOf(AfterLine(text))
  {
    FirstLine(text);
    if FindBreak(text) == |text| {
      assert text[..FindBreak(text)] == text && [text] + [] == [text];
    }
  }

  lemma StreamFront<V>(lib: Library<V>, line: string, more: seq<string>, data: string, terminal: Option<V>)
    ensures Stream(lib, [line] + more, data, terminal) ==
            if line == "" then Stream(lib, more, "", TakeTerminal(lib, data, terminal))
            else if IsData(line) then Stream(lib, more, Push(data, ValueOf(lib, line)), terminal)
            else Stream(lib, more, data, terminal)
  {
    assert ([line] + more)[1..] == more;
  }

  /** The pass over the lines of an event stream, borrowed one at a time. */
  method ReadStream<V>(lib: Library<V>, text: string) returns (terminal: Option<V>)
    ensures terminal == Stream(lib, SseLines(text), "", None)
  {
    terminal := None;
    var data := "";
    var rest := Some(text);
    while rest.Some?
      invariant Stream(lib, SseLines(text), "", None) == Stream(lib, LinesOf(rest), data, terminal)
      decreases rest.Some?, if rest.Some? then |rest.value| else 0
    {
      var remaining := rest.value;
      LinesFromFirst(remaining);
      var line := remaining[..FindBreak(remaining)];
      rest := AfterLine(remaining);
      StreamFront(lib, line, LinesOf(rest), data, terminal);
      if line == "" {
        terminal := TakeTerminal(lib, data, terminal);
        data := "";
      } else if DATA <= line {
        if data != "" {
          data := data + "\n";
        }
        data := data + TrimStart(lib, line[|DATA|..]);
      }
    }
    terminal := TakeTerminal(lib, data, terminal);
  }

  // ---------------------------------------------------------------- the buffered reader

  function ReplaceCrLf(text: string): string {
    if text == "" then ""
    else if text[0] == '\r' && |text| > 1 && text[1] == '\n' then "\n" + ReplaceCrLf(text[2..])
    else [text[0]] + ReplaceCrLf(text[1..])
  }

  function ReplaceCr(text: string): string {
    if text == "" then "" else [if text[0] == '\r' then '\n' else text[0]] + ReplaceCr(text[1..])
  }

  function Normalise(text: string): string {
    ReplaceCr(ReplaceCrLf(text))
  }

  /** Where the first blank line begins, or the length when there is none. */
  function FindBlank(text: string): (at: nat)
    ensures at <= |text| && (at < |text| ==> at + 2 <= |text| && text[at..at + 2] == "\n\n")
  {
    if text == "" then 0 else if "\n\n" <= text then 0 else 1 + FindBlank(text[1..])
  }

  function SplitBlank(text: string): seq<string>
    decreases |text|
  {
    var at := FindBlank(text);
    if at == |text| then [text] else [text[..at]] + SplitBlank(text[at + 2..])
  }

  /** Split on every newline; there is one line more than there are newlines. */
  function SplitLf(text: string): (lines: seq<string>)
    ensures lines != []
  {
    if text == "" then [""]
    else if text[0] == '\n' then [""] + SplitLf(text[1..])
    else Prepend(text[0], SplitLf(text[1..]))
  }

  /** `str::lines` on text without carriage returns: the empty line after a final newline is left out. */
  function RustLines(text: string): seq<string> {
    var lines := SplitLf(text);
    if lines[|lines| - 1] == "" then lines[..|lines| - 1] else lines
  }

  function Values<V>(lib: Library<V>, lines: seq<string>): seq<string> {
    if lines == [] then []
    else Values(lib, lines[..|lines| - 1]) + if IsData(lines[|lines| - 1]) then [ValueOf(lib, lines[|lines| - 1])]
         else []
  }

  function Join(values: seq<string>): string {
    if values == [] then ""
    else if |values| == 1 then values[0]
    else Join(values[..|values| - 1]) + "\n" + values[|values| - 1]
  }

  function Buffered<V>(lib: Library<V>, events: seq<string>, terminal: Option<V>): Option<V> {
    if events == [] then terminal
    else Buffered(lib, events[1..], TakeTerminal(lib, Join(Values(lib, RustLines(events[0]))), terminal))
  }

  function BufferedTerminalResponse<V>(lib: Library<V>, text: string): Option<V> {
    Buffered(lib, SplitBlank(Normalise(text)), None)
  }

  // ---------------------------------------------------------------- the payload of one event

  /** What the single pass collects for an event with these data values. */
  function Payload(values: seq<string>): string {
    if values == [] then "" else Push(Payload(values[..|values| - 1]), values[|values| - 1])
  }

  function StripNewlines(s: string): string {
    if s != "" && s[0] == '\n' then StripNewlines(s[1..]) else s
  }

  predicate OneLine(s: string) {
    '\n' !in s
  }

  lemma {:induction false} StripAppend(a: string, b: string)
    ensures StripNewlines(a + b) == if StripNewlines(a) == "" then StripNewlines(b) else StripNewlines(a) + b
  {
    if a == "" {
      assert a + b == b;
    } else if a[0] == '\n' {
      assert (a + b)[1..] == a[1..] + b;
      StripAppend(a[1..], b);
    }
  }

  /** The single pass collects the buffered payload without its leading newlines. */
  lemma {:induction false} PayloadIsStripped(values: seq<string>)
    requires forall v | v in values :: OneLine(v)
    ensures Payload(values) == StripNewlines(Join(values))
  {
    if |values| == 1 {
      assert OneLine(values[0]);
      assert Payload(values[..0]) == "";
      assert "" + values[0] == values[0];
    } else if |values| > 1 {
      var init, last := values[..|values| - 1], values[|values| - 1];
      PayloadIsStripped(init);
      assert OneLine(last);
      StripAppend(Join(init) + "\n", last);
      StripAppend(Join(init), "\n");
      assert StripNewlines("\n") == "";
      assert StripNewlines(last) == last;
      assert "" + last == last;
    }
  }

  lemma {:induction false} StripKeepsMeaning<V(!new)>(lib: Library<V>, s: string, terminal: Option<V>)
    requires IgnoresLeadingNewlines(lib)
    ensures lib.parse(StripNewlines(s)) == lib.parse(s)
    ensures TakeTerminal(lib, StripNewlines(s), terminal) == TakeTerminal(lib, s, terminal)
  {
    if s != "" && s[0] == '\n' {
      StripKeepsMeaning(lib, s[1..], terminal);
      assert s == "\n" + s[1..];
      assert lib.parse("\n" + s[1..]) == lib.parse(s[1..]);
    }
  }

  lemma {:induction false} TrimmedIsOneLine<V>(lib: Library<V>, s: string)
    requires OneLine(s)
    ensures OneLine(TrimStart(lib, s))
  {
    if s != "" && lib.isSpace(s[0]) {
      TrimmedIsOneLine(lib, s[1..]);
    }
  }

  lemma {:induction false} ValuesAreOneLine<V>(lib: Library<V>, lines: seq<string>)
    requires forall l | l in lines :: OneLine(l)
    ensures forall v | v in Values(lib, lines) :: OneLine(v)
  {
    if lines != [] {
      ValuesAreOneLine(lib, lines[..|lines| - 1]);
      var last := lines[|lines| - 1];
      if IsData(last) {
        assert last in lines && OneLine(last);
        TrimmedIsOneLine(lib, last[|DATA|..]);
      }
    }
  }

  lemma {:induction false} SplitLfIsOneLine(text: string)
    ensures forall l | l in SplitLf(text) :: OneLine(l)
  {
    if text != "" {
      SplitLfIsOneLine(text[1..]);
      var rest := SplitLf(text[1..]);
      assert rest[0] in rest;
    }
  }

  // ---------------------------------------------------------------- the two readers see the same lines

  lemma {:induction false} NormalisedLines(text: string)
    ensures SplitLf(Normalise(text)) == SseLines(text)
    decreases |text|
  {
    if text != "" {
      if text[0] == '\r' && |text| > 1 && text[1] == '\n' {
        NormalisedLines(text[2..]);
        assert ReplaceCrLf(text)[1..] == ReplaceCrLf(text[2..]);
      } else {
        NormalisedLines(text[1..]);
        assert ReplaceCrLf(text)[1..] == ReplaceCrLf(text[1..]);
      }
    }
  }

  /** Newlines that no other newline follows end lines that are not blank, inside the text. */
  predicate NoBlankPair(text: string) {
    forall i | 0 <= i < |text| - 1 :: !(text[i] == '\n' && text[i + 1] == '\n')
  }

  lemma {:induction false} FindBlankIsFirst(text: string)
    ensures var at := FindBlank(text);
            && NoBlankPair(text[..at])
            && (at < |text| && at > 0 ==> text[at - 1] != '\n')
  {
    if text != "" && !("\n\n" <= text) {
      FindBlankIsFirst(text[1..]);
      StartsBlank(text);
      var before := text[1..][..FindBlank(text[1..])];
      assert text[..FindBlank(text)] == [text[0]] + before;
      LongerWithoutPair(text[0], before);
    }
  }

  lemma LongerWithoutPair(c: char, text: string)
    requires NoBlankPair(text) && !(c == '\n' && text != "" && text[0] == '\n')
    ensures NoBlankPair([c] + text)
  {
    assert forall i | 0 < i <= |text| :: ([c] + text)[i] == text[i - 1];
  }

  lemma StartsBlank(text: string)
    ensures "\n\n" <= text <==> |text| >= 2 && text[0] == '\n' && text[1] == '\n'
  {
  }

  lemma {:induction false} InteriorIsNotBlank(text: string)
    requires NoBlankPair(text)
    ensures forall i | 0 < i < |SplitLf(text)| - 1 :: SplitLf(text)[i] != ""
    ensures text != "" && text[|text| - 1] != '\n' && |SplitLf(text)| > 1 ==> SplitLf(text)[|SplitLf(text)| - 1] != ""
    ensures text != "" && text[0] != '\n' ==> SplitLf(text)[0] != ""
    ensures text != "" && text[|text| - 1] != '\n' && |SplitLf(text)| == 1 ==> SplitLf(text)[0] != ""
  {
    if text != "" {
      assert forall i | 0 <= i < |text[1..]| :: text[1..][i] == text[i + 1];
      InteriorIsNotBlank(text[1..]);
    }
  }

  lemma {:induction false} SplitLfConcat(a: string, b: string)
    ensures SplitLf(a + "\n" + b) == SplitLf(a) + SplitLf(b)
  {
    var whole := a + "\n" + b;
    if a == "" {
      assert whole == "\n" + b && whole[1..] == b;
    } else {
      assert whole[1..] == a[1..] + "\n" + b && whole[0] == a[0];
      SplitLfConcat(a[1..], b);
    }
  }

  // ---------------------------------------------------------------- and read them alike

  lemma {:induction false} StreamOverEvent<V>(lib: Library<V>, lines: seq<string>, more: seq<string>,
                                              values: seq<string>, terminal: Option<V>)
    requires forall i | 0 <= i < |lines| :: lines[i] != ""
    ensures Stream(lib, lines + more, Payload(values), terminal) ==
            Stream(lib, more, Payload(values + Values(lib, lines)), terminal)
    decreases |lines|
  {
    if lines == [] {
      assert lines + more == more && values + [] == values;
    } else {
      assert (lines + more)[1..] == lines[1..] + more;
      ValuesFront(lib, lines);
      if IsData(lines[0]) {
        var v := ValueOf(lib, lines[0]);
        assert (values + [v])[..|values|] == values;
        StreamOverEvent(lib, lines[1..], more, values + [v], terminal);
        assert values + [v] + Values(lib, lines[1..]) == values + Values(lib, lines);
      } else {
        StreamOverEvent(lib, lines[1..], more, values, terminal);
        assert Values(lib, lines) == Values(lib, lines[1..]);
      }
    }
  }

  lemma {:induction false} ValuesFront<V>(lib: Library<V>, lines: seq<string>)
    requires lines != []
    ensures Values(lib, lines) == (if IsData(lines[0]) then [ValueOf(lib, lines[0])] else []) + Values(lib, lines[1..])
  {
    if |lines| > 1 {
      ValuesFront(lib, lines[..|lines| - 1]);
      assert lines[..|lines| - 1][1..] == lines[1..][..|lines| - 2];
    }
  }

  /** A blank line in front of an event changes nothing. */
  lemma StreamFromBlank<V>(lib: Library<V>, lines: seq<string>, more: seq<string>, terminal: Option<V>)
    requires lines != [] && forall i | 0 < i < |lines| :: lines[i] != ""
    ensures Stream(lib, lines + more, "", terminal) == Stream(lib, more, Payload(Values(lib, lines)), terminal)
  {
    if lines[0] == "" {
      assert (lines + more)[1..] == lines[1..] + more;
      StreamOverEvent(lib, lines[1..], more, [], terminal);
      ValuesFront(lib, lines);
      assert [] + Values(lib, lines[1..]) == Values(lib, lines[1..]) == Values(lib, lines);
    } else {
      StreamOverEvent(lib, lines, more, [], terminal);
      assert [] + Values(lib, lines) == Values(lib, lines);
    }
  }

  lemma ValuesOfRustLines<V>(lib: Library<V>, text: string)
    ensures Values(lib, RustLines(text)) == Values(lib, SplitLf(text))
  {
  }

  /** What the reader takes from an event is what the buffered reader takes. */
  lemma EventAgrees<V(!new)>(lib: Library<V>, event: string, terminal: Option<V>)
    requires IgnoresLeadingNewlines(lib)
    ensures TakeTerminal(lib, Payload(Values(lib, SplitLf(event))), terminal) ==
            TakeTerminal(lib, Join(Values(lib, RustLines(event))), terminal)
  {
    var values := Values(lib, SplitLf(event));
    SplitLfIsOneLine(event);
    ValuesAreOneLine(lib, SplitLf(event));
    PayloadIsStripped(values);
    StripKeepsMeaning(lib, Join(values), terminal);
    ValuesOfRustLines(lib, event);
  }

  lemma StreamEnd<V>(lib: Library<V>, payload: string, terminal: Option<V>)
    ensures Stream(lib, [], payload, terminal) == TakeTerminal(lib, payload, terminal)
    ensures Stream(lib, [""], payload, terminal) == TakeTerminal(lib, payload, terminal)
  {
    assert [""][1..] == [];
  }

  lemma ValuesBlank<V>(lib: Library<V>, lines: seq<string>)
    ensures Values(lib, lines + [""]) == Values(lib, lines)
  {
    assert (lines + [""])[..|lines|] == lines;
  }

  /** An event at the end of the text, with or without a final newline. */
  lemma StreamLastEvent<V>(lib: Library<V>, lines: seq<string>, terminal: Option<V>)
    requires lines != [] && forall i | 0 < i < |lines| :: lines[i] != ""
    ensures Stream(lib, lines, "", terminal) == TakeTerminal(lib, Payload(Values(lib, lines)), terminal)
    ensures Stream(lib, lines + [""], "", terminal) == TakeTerminal(lib, Payload(Values(lib, lines)), terminal)
  {
    StreamFromBlank(lib, lines, [], terminal);
    StreamFromBlank(lib, lines, [""], terminal);
    StreamEnd(lib, Payload(Values(lib, lines)), terminal);
    assert lines + [] == lines;
  }

  lemma StreamLastLines<V>(lib: Library<V>, lines: seq<string>, terminal: Option<V>)
    requires lines != [] && forall i | 0 < i < |lines| - 1 :: lines[i] != ""
    ensures Stream(lib, lines, "", terminal) == TakeTerminal(lib, Payload(Values(lib, lines)), terminal)
  {
    var n := |lines| - 1;
    if n > 0 && lines[n] == "" {
      var init := lines[..n];
      assert lines == init + [""];
      StreamLastEvent(lib, init, terminal);
      ValuesBlank(lib, init);
    } else {
      StreamLastEvent(lib, lines, terminal);
    }
  }

  lemma LastEventAgrees<V(!new)>(lib: Library<V>, event: string, terminal: Option<V>)
    requires IgnoresLeadingNewlines(lib) && NoBlankPair(event)
    ensures Stream(lib, SplitLf(event), "", terminal)
            == TakeTerminal(lib, Join(Values(lib, RustLines(event))), terminal)
  {
    InteriorIsNotBlank(event);
    StreamLastLines(lib, SplitLf(event), terminal);
    EventAgrees(lib, event, terminal);
  }

  lemma NextEventAgrees<V(!new)>(lib: Library<V>, event: string, rest: string, terminal: Option<V>)
    requires IgnoresLeadingNewlines(lib) && NoBlankPair(event) && (event != "" ==> event[|event| - 1] != '\n')
    ensures Stream(lib, SplitLf(event + "\n" + ("\n" + rest)), "", terminal) ==
            Stream(lib, SplitLf(rest), "", TakeTerminal(lib, Join(Values(lib, RustLines(event))), terminal))
  {
    SplitLfConcat(event, "\n" + rest);
    assert ("\n" + rest)[1..] == rest;
    InteriorIsNotBlank(event);
    StreamFromBlank(lib, SplitLf(event), [""] + SplitLf(rest), terminal);
    assert ([""] + SplitLf(rest))[1..] == SplitLf(rest);
    EventAgrees(lib, event, terminal);
  }

  lemma AroundBlank(text: string, at: nat)
    requires at + 2 <= |text| && text[at] == '\n' && text[at + 1] == '\n'
    ensures text == text[..at] + "\n" + ("\n" + text[at + 2..])
  {
    assert text[at..at + 2] == "\n" + "\n";
    assert text == text[..at] + text[at..at + 2] + text[at + 2..];
  }

  /** The first event and what follows its blank line. */
  lemma SplitBlankStep(text: string)
    ensures var at := FindBlank(text);
            if at == |text| then SplitBlank(text) == [text] + [] && NoBlankPair(text)
            else
              var event, rest := text[..at], text[at + 2..];
              && text == event + "\n" + ("\n" + rest) && SplitBlank(text) == [event] + SplitBlank(rest)
              && NoBlankPair(event) && (event != "" ==> event[|event| - 1] != '\n')
  {
    var at := FindBlank(text);
    FindBlankIsFirst(text);
    assert text[..|text|] == text;
    if at < |text| {
      assert text[at..at + 2][0] == '\n' && text[at..at + 2][1] == '\n';
      AroundBlank(text, at);
    }
  }

  lemma {:induction false} StreamIsBuffered<V(!new)>(lib: Library<V>, text: string, terminal: Option<V>)
    requires IgnoresLeadingNewlines(lib)
    ensures Stream(lib, SplitLf(text), "", terminal) == Buffered(lib, SplitBlank(text), terminal)
    decreases |text|
  {
    var at := FindBlank(text);
    SplitBlankStep(text);
    if at == |text| {
      LastEventAgrees(lib, text, terminal);
      BufferedStep(lib, text, [], terminal);
    } else {
      var event, rest := text[..at], text[at + 2..];
      NextEventAgrees(lib, event, rest, terminal);
      StreamIsBuffered(lib, rest, TakeTerminal(lib, Join(Values(lib, RustLines(event))), terminal));
      BufferedStep(lib, event, SplitBlank(rest), terminal);
    }
  }

  lemma BufferedStep<V>(lib: Library<V>, event: string, events: seq<string>, terminal: Option<V>)
    ensures Buffered(lib, [event] + events, terminal) ==
            Buffered(lib, events, TakeTerminal(lib, Join(Values(lib, RustLines(event))), terminal))
  {
    assert ([event] + events)[1..] == events;
  }

  /** The single pass answers what the rewriting reader answers, on every text and every mix of terminators. */
  lemma ReadersAgree<V(!new)>(lib: Library<V>, text: string)
    requires IgnoresLeadingNewlines(lib)
    ensures Stream(lib, SseLines(text), "", None) == BufferedTerminalResponse(lib, text)
  {
    NormalisedLines(text);
    StreamIsBuffered(lib, Normalise(text), None);
  }

  // ---------------------------------------------------------------- which response is answered

  /** The lines between blank lines. */
  function Events(lines: seq<string>): (events: seq<seq<string>>)
    ensures events != []
  {
    if lines == [] then [[]]
    else
      var rest := Events(lines[1..]);
      if lines[0] == "" then [[]] + rest else [[lines[0]] + rest[0]] + rest[1..]
  }

  /** An event says a JSON-RPC response: the payload of its data lines parses to one. */
  ghost predicate Says<V>(lib: Library<V>, event: seq<string>, v: V) {
    var payload := Payload(Values(lib, event));
    payload != "" && lib.parse(payload) == Some(v) && lib.isResponse(v)
  }

  ghost predicate Silent<V(!new)>(lib: Library<V>, event: seq<string>) {
    forall v :: !Says(lib, event, v)
  }

  /** `v` is what the last event with a response says. */
  ghost predicate LastSaid<V(!new)>(lib: Library<V>, events: seq<seq<string>>, v: V) {
    exists j | 0 <= j < |events| :: Says(lib, events[j], v) && forall k | j < k < |events| :: Silent(lib, events[k])
  }

  ghost predicate AllSilent<V(!new)>(lib: Library<V>, events: seq<seq<string>>) {
    forall j | 0 <= j < |events| :: Silent(lib, events[j])
  }

  function Fold<V>(lib: Library<V>, events: seq<seq<string>>, terminal: Option<V>): Option<V> {
    if events == [] then terminal
    else Fold(lib, events[1..], TakeTerminal(lib, Payload(Values(lib, events[0])), terminal))
  }

  lemma TakenOrSilent<V(!new)>(lib: Library<V>, event: seq<string>, terminal: Option<V>)
    ensures var taken := TakeTerminal(lib, Payload(Values(lib, event)), terminal);
            if Silent(lib, event) then taken == terminal else taken.Some? && Says(lib, event, taken.value)
  {
    var payload := Payload(Values(lib, event));
    if payload != "" && lib.parse(payload).Some? && lib.isResponse(lib.parse(payload).value) {
      assert Says(lib, event, lib.parse(payload).value);
    }
  }

  lemma {:induction false} FoldAnswers<V(!new)>(lib: Library<V>, events: seq<seq<string>>, terminal: Option<V>)
    ensures AllSilent(lib, events) ==> Fold(lib, events, terminal) == terminal
    ensures !AllSilent(lib, events) ==>
              Fold(lib, events, terminal).Some? && LastSaid(lib, events, Fold(lib, events, terminal).value)
  {
    if events != [] {
      var rest := events[1..];
      var taken := TakeTerminal(lib, Payload(Values(lib, events[0])), terminal);
      TakenOrSilent(lib, events[0], terminal);
      FoldAnswers(lib, rest, taken);
      if AllSilent(lib, rest) {
        assert forall k | 0 < k < |events| :: Silent(lib, events[k]) by {
          assert forall k | 0 < k < |events| :: events[k] == rest[k - 1];
        }
      } else {
        var v := Fold(lib, rest, taken).value;
        var j :| 0 <= j < |rest| && Says(lib, rest[j], v) && forall k | j < k < |rest| :: Silent(lib, rest[k]);
        assert Says(lib, events[j + 1], v);
        forall k | j + 1 < k < |events| ensures Silent(lib, events[k]) {
          assert events[k] == rest[k - 1];
        }
      }
    }
  }

  lemma EventGrows<V>(lib: Library<V>, lines: seq<string>)
    requires lines != [] && lines[0] != ""
    ensures var events, rest := Events(lines), Events(lines[1..]);
            && events[1..] == rest[1..]
            && Values(lib, events[0])
                 == (if IsData(lines[0]) then [ValueOf(lib, lines[0])] else []) + Values(lib, rest[0])
  {
    var rest := Events(lines[1..]);
    var first := [lines[0]] + rest[0];
    assert first[1..] == rest[0];
    assert ([first] + rest[1..])[1..] == rest[1..];
    ValuesFront(lib, first);
  }

  /** The payload with what an event still adds. */
  function Collected<V>(lib: Library<V>, values: seq<string>, event: seq<string>): string {
    Payload(values + Values(lib, event))
  }

  lemma CollectedStep<V>(lib: Library<V>, values: seq<string>, line: string, event: seq<string>, rest: seq<string>)
    requires Values(lib, event) == (if IsData(line) then [ValueOf(lib, line)] else []) + Values(lib, rest)
    ensures IsData(line) ==>
              && Collected(lib, values, event) == Collected(lib, values + [ValueOf(lib, line)], rest)
              && Push(Payload(values), ValueOf(lib, line)) == Payload(values + [ValueOf(lib, line)])
    ensures !IsData(line) ==> Collected(lib, values, event) == Collected(lib, values, rest)
  {
    if IsData(line) {
      var v := ValueOf(lib, line);
      assert (values + [v])[..|values|] == values;
      assert values + [v] + Values(lib, rest) == values + Values(lib, event);
    } else {
      assert [] + Values(lib, rest) == Values(lib, rest);
    }
  }

  /** The pass over lines is a pass over events: what is already collected belongs to the first. */
  lemma {:induction false} StreamIsFold<V>(lib: Library<V>, lines: seq<string>, values: seq<string>,
                                           terminal: Option<V>)
    ensures var events := Events(lines);
            Stream(lib, lines, Payload(values), terminal)
            == Fold(lib, events[1..], TakeTerminal(lib, Collected(lib, values, events[0]), terminal))
    decreases |lines|
  {
    var events := Events(lines);
    if lines == [] {
      assert values + [] == values && events[1..] == [];
    } else if lines[0] == "" {
      BlankEvent(lib, lines, values, terminal);
      StreamIsFold(lib, lines[1..], [], TakeTerminal(lib, Payload(values), terminal));
    } else {
      EventGrows(lib, lines);
      CollectedStep(lib, values, lines[0], events[0], Events(lines[1..])[0]);
      StreamIsFold(lib, lines[1..], if IsData(lines[0]) then values + [ValueOf(lib, lines[0])] else values, terminal);
    }
  }

  lemma BlankEvent<V>(lib: Library<V>, lines: seq<string>, values: seq<string>, terminal: Option<V>)
    requires lines != [] && lines[0] == ""
    ensures var events, rest := Events(lines), Events(lines[1..]);
            && Collected(lib, values, events[0]) == Payload(values) && Payload([]) == ""
            && Fold(lib, events[1..], TakeTerminal(lib, Payload(values), terminal))
               == Fold(lib, rest[1..],
                       TakeTerminal(lib, Collected(lib, [], rest[0]), TakeTerminal(lib, Payload(values), terminal)))
  {
    var rest := Events(lines[1..]);
    assert ([[]] + rest)[1..] == rest;
    assert values + [] == values;
    assert [] + Values(lib, rest[0]) == Values(lib, rest[0]);
  }

  /** The answer to a stream is what its last event with a response says, and there is none only if no event says
      one. */
  lemma LastResponseIsAnswered<V(!new)>(lib: Library<V>, text: string)
    ensures var answer := Stream(lib, SseLines(text), "", None);
            var events := Events(SseLines(text));
            && (answer.None? <==> AllSilent(lib, events))
            && (forall v :: answer == Some(v) <==> LastSaid(lib, events, v))
  {
    var lines := SseLines(text);
    var events := Events(lines);
    StreamIsFold(lib, lines, [], None);
    assert Collected(lib, [], events[0]) == Payload(Values(lib, events[0])) by {
      assert [] + Values(lib, events[0]) == Values(lib, events[0]);
    }
    assert Stream(lib, lines, "", None) == Fold(lib, events, None);
    FoldAnswers(lib, events, None);
    forall v, u | LastSaid(lib, events, v) && LastSaid(lib, events, u) ensures v == u {
      OneLastResponse(lib, events, v, u);
    }
    forall v | LastSaid(lib, events, v) ensures !AllSilent(lib, events) {
      var j :| 0 <= j < |events| && Says(lib, events[j], v);
      assert !Silent(lib, events[j]);
    }
  }

  lemma OneLastResponse<V(!new)>(lib: Library<V>, events: seq<seq<string>>, v: V, u: V)
    requires LastSaid(lib, events, v) && LastSaid(lib, events, u)
    ensures v == u
  {
    var i :| 0 <= i < |events| && Says(lib, events[i], v) && forall k | i < k < |events| :: Silent(lib, events[k]);
    var j :| 0 <= j < |events| && Says(lib, events[j], u) && forall k | j < k < |events| :: Silent(lib, events[k]);
    assert !Silent(lib, events[i]) && !Silent(lib, events[j]);
  }

  // ---------------------------------------------------------------- what lines, values and payloads are

  /** A data line's value is what follows the field name and any space; other lines are no data. */
  lemma DataLine<V>(lib: Library<V>, line: string, space: string, value: string)
    requires AllSpace(lib, space) && (value == "" || !lib.isSpace(value[0]))
    ensures IsData("data:" + (space + value)) && ValueOf(lib, "data:" + (space + value)) == value
    ensures IsData(line) ==> line == "data:" + line[5..]
  {
    assert ("data:" + (space + value))[|DATA|..] == space + value;
    TrimmedStart(lib, space, value);
  }

  /** Splitting at newlines loses nothing. */
  lemma {:induction false} JoinOfLines(text: string)
    ensures Join(SplitLf(text)) == text
  {
    if text != "" {
      JoinOfLines(text[1..]);
      var rest := SplitLf(text[1..]);
      if text[0] == '\n' {
        JoinFront("", rest);
      } else {
        JoinGrows(text[0], rest);
      }
    }
  }

  lemma {:induction false} JoinFront(first: string, rest: seq<string>)
    requires rest != []
    ensures Join([first] + rest) == first + "\n" + Join(rest)
  {
    var n := |rest| - 1;
    assert ([first] + rest)[..n + 1] == [first] + rest[..n];
    if n > 0 {
      JoinFront(first, rest[..n]);
    } else {
      assert [first] + rest[..0] == [first];
    }
  }

  lemma PrependFront(c: char, lines: seq<string>)
    requires |lines| > 1
    ensures var n := |lines| - 1;
            Prepend(c, lines)[..n] == Prepend(c, lines[..n]) && Prepend(c, lines)[n] == lines[n]
                && |Prepend(c, lines)| == n + 1
  {
  }

  lemma {:induction false} JoinGrows(c: char, lines: seq<string>)
    requires lines != []
    ensures Join(Prepend(c, lines)) == [c] + Join(lines)
  {
    var n := |lines| - 1;
    if n > 0 {
      PrependFront(c, lines);
      JoinGrows(c, lines[..n]);
      assert [c] + Join(lines[..n]) + "\n" + lines[n] == [c] + (Join(lines[..n]) + "\n" + lines[n]);
    }
  }

  /** Values are joined by newlines, so that splitting the payload gives them back. */
  lemma {:induction false} LinesOfJoin(values: seq<string>)
    requires values != [] && forall v | v in values :: OneLine(v)
    ensures SplitLf(Join(values)) == values
  {
    var n := |values| - 1;
    OneLineSplits(values[n]);
    if n > 0 {
      LinesOfJoin(values[..n]);
      SplitLfConcat(Join(values[..n]), values[n]);
      assert values == values[..n] + [values[n]];
    }
  }

  lemma {:induction false} OneLineSplits(v: string)
    requires OneLine(v)
    ensures SplitLf(v) == [v]
  {
    if v != "" {
      OneLineSplits(v[1..]);
      assert v == [v[0]] + v[1..];
    }
  }
}
