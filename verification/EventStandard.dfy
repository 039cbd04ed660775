/** Event stream interpretation as section 9.2.6 of the WHATWG HTML Living Standard has
    it, written independently of the decoder, and the decoder's agreement with it. The
    fields "id" and "retry" change neither an event's type nor its data, and are left out. */
module EventStandard {
  import opened Basics
  import opened EventStream
  import opened EventRoundTrip

  function MessageName(): Bytes { [109, 101, 115, 115, 97, 103, 101] }
  function Bom(): Bytes { [0xEF, 0xBB, 0xBF] }

  lemma MessageIsSpelled()
    ensures MessageName() == Ascii("message")
  {
  }

  /** An event as a listener sees it: its type is never empty. */
  datatype Dispatched = Dispatched(evType: Bytes, data: Bytes)

  datatype Buffers = Buffers(data: Bytes, evType: Bytes)

  datatype FirstLine = Unfinished | Found(line: Bytes, rest: Bytes)

  /** Lines end at a CR LF pair, a single LF or a single CR. */
  function CutLine(s: Bytes): (f: FirstLine)
    ensures f.Found? ==> |f.rest| < |s|
  {
    if s == [] then Unfinished
    else if s[0] == LF then Found([], s[1..])
    else if s[0] == CR then Found([], if |s| > 1 && s[1] == LF then s[2..] else s[1..])
    else
      var f := CutLine(s[1..]);
      if f.Found? then Found([s[0]] + f.line, f.rest) else Unfinished
  }

  /** The characters before the first colon, or the whole line. */
  function NameOf(line: Bytes): Bytes {
    if line == [] || line[0] == COLON then [] else [line[0]] + NameOf(line[1..])
  }

  /** Those after it but for one leading space, or the empty string. */
  function ValueOf(line: Bytes): Bytes {
    if line == [] then []
    else if line[0] != COLON then ValueOf(line[1..])
    else if |line| > 1 && line[1] == SPACE then line[2..]
    else line[1..]
  }

  function Process(b: Buffers, line: Bytes): Buffers
    requires line != []
  {
    if line[0] == COLON then b
    else if NameOf(line) == DataName() then b.(data := b.data + ValueOf(line) + [LF])
    else if NameOf(line) == EventName() then b.(evType := ValueOf(line))
    else b
  }

  /** What a stream dispatches. Whatever is pending at its end is discarded, and an
      unfinished last line is never the blank one that would dispatch. */
  function Interpret(b: Buffers, s: Bytes): seq<Dispatched>
    decreases |s|
  {
    match CutLine(s)
    case Unfinished => []
    case Found(line, rest) =>
      if line != [] then Interpret(Process(b, line), rest)
      else if b.data == [] then Interpret(Buffers([], []), rest)
      else [Dispatch(b)] + Interpret(Buffers([], []), rest)
  }

  function Dispatch(b: Buffers): Dispatched
    requires b.data != []
  {
    Dispatched(
      if b.evType == [] then MessageName() else b.evType,
      if b.data[|b.data| - 1] == LF then b.data[..|b.data| - 1] else b.data)
  }

  /** One leading byte order mark is ignored. */
  function StandardEvents(s: Bytes): seq<Dispatched> {
    Interpret(Buffers([], []), if Bom() <= s then s[|Bom()|..] else s)
  }

  // ---------------------------------------------------------------- agreement

  /** Every carriage return is half of a CR LF pair. */
  predicate NoBareCr(s: Bytes) {
    forall i :: 0 <= i < |s| && s[i] == CR ==> i + 1 < |s| && s[i + 1] == LF
  }

  function Shown(events: seq<Event>): seq<Dispatched> {
    if events == [] then [] else
    var ev := events[0];
    [Dispatched(if ev.evType == [] then MessageName() else ev.evType, ev.data)] + Shown(events[1..])
  }

  lemma {:induction false} NamesAgree(line: Bytes)
    ensures NameOf(line) == line[..IndexOf(line, COLON)]
  {
    if line != [] && line[0] != COLON {
      NamesAgree(line[1..]);
      assert line[..IndexOf(line, COLON)] == [line[0]] + line[1..][..IndexOf(line[1..], COLON)];
    }
  }

  lemma {:induction false} ValuesAgree(line: Bytes)
    ensures ValueOf(line) == ParseField(line).value
  {
    var i := IndexOf(line, COLON);
    if line != [] && line[0] != COLON {
      ValuesAgree(line[1..]);
      assert i < |line| ==> line[i + 1..] == line[1..][i..];
    } else if |line| > 1 {
      assert line[1..][1..] == line[2..];
    }
  }

  lemma FieldsAgree(line: Bytes)
    ensures ParseField(line) == Field(NameOf(line), ValueOf(line))
  {
    NamesAgree(line);
    ValuesAgree(line);
    assert line[..|line|] == line;
  }

  lemma NoBareCrDrop(s: Bytes, n: nat)
    requires NoBareCr(s) && n <= |s|
    ensures NoBareCr(s[n..])
  {
    assert forall k :: 0 <= k < |s| - n ==> s[n..][k] == s[k + n];
  }

  /** The first line with its newline, or all there is. */
  function RawLine(s: Bytes): Bytes {
    if IndexOf(s, LF) < |s| then s[..IndexOf(s, LF) + 1] else s
  }

  /** The line a reader finds that only looks for newlines, as the decoder does. */
  function CutAtNewline(s: Bytes): FirstLine {
    var i := IndexOf(s, LF);
    if i == |s| then Unfinished else Found(TrimEol(s[..i + 1]), s[i + 1..])
  }

  lemma {:induction false} RawLineGrows(s: Bytes)
    requires s != [] && s[0] != LF
    ensures RawLine(s) == [s[0]] + RawLine(s[1..])
  {
  }

  lemma NoBareCrGrows(b: Byte, line: Bytes)
    requires b != CR
    ensures NoBareCr([b] + line) <==> NoBareCr(line)
  {
    var all := [b] + line;
    assert forall i :: 0 <= i < |line| ==> all[i + 1] == line[i];
    if NoBareCr(all) {
      forall i | 0 <= i < |line| && line[i] == CR ensures i + 1 < |line| && line[i + 1] == LF {
        assert all[i + 1] == CR;
      }
    }
  }

  function Prepended(b: Byte, f: FirstLine): FirstLine {
    if f.Found? then Found([b] + f.line, f.rest) else Unfinished
  }

  lemma PrependedDiffer(b: Byte, f: FirstLine, g: FirstLine)
    ensures Prepended(b, f) == Prepended(b, g) <==> f == g
  {
    if f.Found? && g.Found? {
      assert ([b] + f.line)[1..] == f.line && ([b] + g.line)[1..] == g.line;
    }
  }

  lemma {:induction false} CutsGrow(s: Bytes)
    requires s != [] && s[0] != CR && s[0] != LF
    ensures CutLine(s) == Prepended(s[0], CutLine(s[1..]))
    ensures CutAtNewline(s) == Prepended(s[0], CutAtNewline(s[1..]))
  {
    hide TrimEol;
    assert IndexOf(s, LF) == 1 + IndexOf(s[1..], LF);
    if IndexOf(s, LF) < |s| {
      LineGrows(s);
    }
  }

  lemma {:induction false} ReturnsDiffer(s: Bytes)
    requires s != [] && s[0] == CR
    ensures CutLine(s) == CutAtNewline(s) <==> NoBareCr(RawLine(s))
  {
    hide TrimEol;
    if |s| > 1 && s[1] == LF {
      assert IndexOf(s, LF) == 1 && RawLine(s) == [CR, LF];
      assert s[..2] == [CR] + [LF];
      TrimEolOfLine([CR]);
    } else {
      RawLineGrows(s);
      assert RawLine(s)[0] == CR && (|RawLine(s)| > 1 ==> RawLine(s)[1] != LF);
    }
  }

  /** For every input: both cut the same first line exactly if it has no bare carriage return. */
  lemma {:induction false} LinesAgreeIff(s: Bytes)
    ensures CutLine(s) == CutAtNewline(s) <==> NoBareCr(RawLine(s))
  {
    if s == [] {
      assert RawLine(s) == [];
    } else if s[0] == LF {
      assert RawLine(s) == [LF] && s[..1][..0] == [];
    } else if s[0] == CR {
      ReturnsDiffer(s);
    } else {
      hide CutLine, CutAtNewline, NoBareCr, Prepended, IndexOf;
      CutsGrow(s);
      PrependedDiffer(s[0], CutLine(s[1..]), CutAtNewline(s[1..]));
      RawLineGrows(s);
      NoBareCrGrows(s[0], RawLine(s[1..]));
      LinesAgreeIff(s[1..]);
    }
  }

  lemma {:induction false} LinesAgree(s: Bytes)
    requires NoBareCr(s)
    ensures CutLine(s) == CutAtNewline(s)
  {
    LinesAgreeIff(s);
  }

  lemma {:induction false} LineGrows(s: Bytes)
    requires s != [] && s[0] != CR && s[0] != LF && IndexOf(s, LF) < |s|
    ensures var i := IndexOf(s, LF);
            TrimEol(s[..i + 1]) == [s[0]] + TrimEol(s[1..][..i]) && s[i + 1..] == s[1..][i..]
  {
    var i := IndexOf(s, LF);
    assert s[..i + 1] == [s[0]] + s[1..][..i];
    TrimEolSkips(s[0], s[1..][..i]);
  }

  lemma TrimEolSkips(b: Byte, line: Bytes)
    requires b != CR && line != [] && line[|line| - 1] == LF
    ensures TrimEol([b] + line) == [b] + TrimEol(line)
  {
    var bare := line[..|line| - 1];
    assert ([b] + line)[..|line|] == [b] + bare;
    if EndsInCr(bare) {
      assert ([b] + bare)[..|bare|] == [b] + bare[..|bare| - 1];
    }
  }

  /** The two states of affairs midway through an event. */
  predicate Matches(st: Building, b: Buffers) {
    st.evType == b.evType && b.data == if st.sawData then st.data + [LF] else []
  }

  lemma AbsorbAgrees(st: Building, b: Buffers, line: Bytes)
    requires Matches(st, b) && line != [] && (st.sawData || st.data == [])
    ensures var next := Absorb(st, line);
            Matches(next, Process(b, line)) && (next.sawData || next.data == [])
  {
    FieldsAgree(line);
  }

  lemma DispatchAgrees(st: Building, b: Buffers, more: seq<Event>)
    requires Matches(st, b) && st.sawData
    ensures Shown([Event(st.evType, st.data)] + more) == [Dispatch(b)] + Shown(more)
  {
    assert b.data[..|b.data| - 1] == st.data;
    assert ([Event(st.evType, st.data)] + more)[1..] == more;
  }

  lemma {:induction false} DecodeAgrees(
      st: Building, b: Buffers, s: Bytes, end: Ending, buf: Buffering, maxLine: nat)
    requires NoBareCr(s) && Matches(st, b) && (st.sawData || st.data == [])
    ensures var d := Decode(st, s, end, buf, maxLine);
            && Shown(d.events) <= Interpret(b, s)
            && (d.err != LineTooLong ==> Shown(d.events) == Interpret(b, s))
    decreases |s|
  {
    hide Absorb, Process, TrimEol, IndexOf, CutLine;
    LinesAgree(s);
    var c := NextLine(s, end, buf, maxLine);
    if c.Line? {
      NoBareCrDrop(s, IndexOf(s, LF) + 1);
      if c.line != [] {
        AbsorbAgrees(st, b, c.line);
        DecodeAgrees(Absorb(st, c.line), Process(b, c.line), c.rest, end, buf, maxLine);
      } else {
        DecodeAgrees(Idle(), Buffers([], []), c.rest, end, buf, maxLine);
        if st.sawData {
          DispatchAgrees(st, b, Decode(Idle(), c.rest, end, buf, maxLine).events);
        }
      }
    }
  }

  /** On input without a bare carriage return or a byte order mark, the decoder gives the
      standard's events, cut short only by a line over its limit. */
  lemma {:induction false} DecoderRefinesStandard(s: Bytes, end: Ending, buf: Buffering, maxLine: nat)
    ensures var d := Decode(Idle(), s, end, buf, maxLine);
            NoBareCr(s) && !(Bom() <= s) ==>
              && Shown(d.events) <= StandardEvents(s)
              && (d.err != LineTooLong ==> Shown(d.events) == StandardEvents(s))
  {
    if NoBareCr(s) && !(Bom() <= s) {
      DecodeAgrees(Idle(), Buffers([], []), s, end, buf, maxLine);
    }
  }

  // ---------------------------------------------------------------- disagreement

  predicate OneLine(s: Bytes) {
    CR !in s && LF !in s
  }

  lemma {:induction false} CutLineOf(line: Bytes, rest: Bytes)
    requires OneLine(line)
    ensures CutLine(line + [LF] + rest) == Found(line, rest)
    ensures (rest == [] || rest[0] != LF) ==> CutLine(line + [CR] + rest) == Found(line, rest)
  {
    if line == [] {
      assert line + [LF] + rest == [LF] + rest && line + [CR] + rest == [CR] + rest;
    } else {
      CutLineOf(line[1..], rest);
      assert (line + [LF] + rest)[1..] == line[1..] + [LF] + rest;
      assert (line + [CR] + rest)[1..] == line[1..] + [CR] + rest;
      assert line == [line[0]] + line[1..];
    }
  }

  lemma ProcessData(b: Buffers, value: Bytes)
    ensures Process(b, DataPrefix() + value) == b.(data := b.data + value + [LF])
  {
    var line := DataPrefix() + value;
    ParseNamed(DataName(), value);
    assert DataName() + [COLON, SPACE] + value == line;
    FieldsAgree(line);
  }

  /** A blank line at the end. */
  lemma BlankLast(b: Buffers, end: Ending, buf: Buffering, maxLine: nat, st: Building)
    requires b.data != [] && maxLine > 0
    ensures Interpret(b, [LF]) == [Dispatch(b)]
    ensures Decode(st, [LF], end, buf, maxLine).events == if st.sawData then [Event(st.evType, st.data)] else []
  {
    assert [LF][1..] == [] && TrimEol([LF]) == [];
    assert Interpret(Buffers([], []), []) == [];
    assert Decode(Idle(), [], end, buf, maxLine).events == [];
  }

  lemma InterpretLine(b: Buffers, line: Bytes, eol: Byte, rest: Bytes)
    requires OneLine(line) && line != [] && (eol == LF || (eol == CR && rest != [] && rest[0] != LF))
    ensures Interpret(b, line + [eol] + rest) == Interpret(Process(b, line), rest)
  {
    CutLineOf(line, rest);
  }

  lemma DecodeLine(st: Building, line: Bytes, rest: Bytes, end: Ending, buf: Buffering, maxLine: nat)
    requires LF !in line && line != [] && !EndsInCr(line) && |line| < maxLine
    ensures Decode(st, line + [LF] + rest, end, buf, maxLine) == Decode(Absorb(st, line), rest, end, buf, maxLine)
  {
    NextLineOf(line, rest, end, buf, maxLine);
  }

  lemma DispatchOne(value: Bytes)
    ensures Dispatch(Buffers(value + [LF], [])) == Dispatched(MessageName(), value)
  {
    assert (value + [LF])[..|value|] == value;
  }

  lemma MarkedIsNoData(line: Bytes)
    requires Bom() <= line
    ensures Absorb(Idle(), line) == Idle().(dirty := true)
  {
    var name := ParseField(line).name;
    assert name[0] == 0xEF;
    assert DataName()[0] == 100 && EventName()[0] == 101;
  }

  // ---------------------------------------------------------------- a byte order mark

  /** All but the first line. */
  function AfterFirst(s: Bytes): Bytes {
    if IndexOf(s, LF) < |s| then s[IndexOf(s, LF) + 1..] else []
  }

  lemma {:induction false} MarkedNextLine(s: Bytes, end: Ending, buf: Buffering, maxLine: nat)
    ensures var c := NextLine(Bom() + s, end, buf, maxLine);
            && (c.Line? ==> IndexOf(s, LF) < |s| && Bom() <= c.line && c.rest == AfterFirst(s))
            && (!c.Line? && !c.TooLong? ==> IndexOf(s, LF) == |s|)
  {
    hide NextLine, IndexOf, TrimCr, Whole;
    var i := IndexOf(s, LF);
    IndexOfIsFirst(s, LF);
    if i < |s| {
      var line := Bom() + s[..i];
      assert Bom() + s == line + [LF] + s[i + 1..];
      NextLineOf(line, s[i + 1..], end, buf, maxLine);
      MarkStays(s[..i]);
    } else {
      assert s[..i] == s;
      NoLine(Bom() + s, end, buf, maxLine);
    }
  }

  lemma {:induction false} MarkStays(line: Bytes)
    ensures Bom() <= TrimCr(Bom() + line)
  {
  }

  lemma {:induction false} NoLine(s: Bytes, end: Ending, buf: Buffering, maxLine: nat)
    requires LF !in s
    ensures !NextLine(s, end, buf, maxLine).Line?
  {
    IndexOfNone(s, LF);
  }

  /** Behind a byte order mark the first line is lost on the decoder: what it gives are the
      events of the rest, cut short only by a line over its limit. */
  lemma {:induction false} MarkHidesFirstLine(s: Bytes, end: Ending, buf: Buffering, maxLine: nat)
    requires NoBareCr(s)
    ensures var d := Decode(Idle(), Bom() + s, end, buf, maxLine);
            && Shown(d.events) <= Interpret(Buffers([], []), AfterFirst(s))
            && (d.err != LineTooLong ==> Shown(d.events) == Interpret(Buffers([], []), AfterFirst(s)))
  {
    hide Interpret, Absorb;
    var c := NextLine(Bom() + s, end, buf, maxLine);
    MarkedNextLine(s, end, buf, maxLine);
    NothingInterpreted();
    if c.Line? {
      MarkedIsNoData(c.line);
      NoBareCrDrop(s, IndexOf(s, LF) + 1);
      DecodeAgrees(Idle().(dirty := true), Buffers([], []), c.rest, end, buf, maxLine);
    }
  }

  lemma NothingInterpreted()
    ensures Interpret(Buffers([], []), []) == []
  {
  }

  /** What is pending at the first blank line, if there is one. */
  function AtBlank(b: Buffers, s: Bytes): Option<Buffers>
    decreases |s|
  {
    match CutLine(s)
    case Unfinished => None
    case Found(line, rest) => if line == [] then Some(b) else AtBlank(Process(b, line), rest)
  }

  /** Whether a type is given before the first blank line. */
  predicate NamesType(s: Bytes)
    decreases |s|
  {
    match CutLine(s)
    case Unfinished => false
    case Found(line, rest) => line != [] && (NameOf(line) == EventName() || NamesType(rest))
  }

  lemma {:induction false} ProcessAdds(b: Buffers, line: Bytes)
    requires line != []
    ensures Process(b, line).data == b.data + Process(Buffers([], []), line).data
    ensures Process(b, line).evType == if NameOf(line) == EventName() then ValueOf(line) else b.evType
  {
    var none := Process(Buffers([], []), line);
    if NameOf(line) == DataName() {
      assert none.data == ValueOf(line) + [LF];
      assert b.data + ValueOf(line) + [LF] == b.data + (ValueOf(line) + [LF]);
    }
  }

  /** What was pending before the first lines stays in front of what they add. */
  lemma {:induction false} AtBlankAdds(b: Buffers, s: Bytes)
    ensures var none := AtBlank(Buffers([], []), s);
            AtBlank(b, s) == if none.None? then None
                             else Some(Buffers(b.data + none.value.data,
                                               if NamesType(s) then none.value.evType else b.evType))
    decreases |s|
  {
    hide Process;
    assert b.data + [] == b.data;
    var f := CutLine(s);
    if f.Found? && f.line != [] {
      var none := Process(Buffers([], []), f.line);
      ProcessAdds(b, f.line);
      ProcessAdds(Buffers([], []), f.line);
      AtBlankAdds(Process(b, f.line), f.rest);
      AtBlankAdds(none, f.rest);
      var rest := AtBlank(Buffers([], []), f.rest);
      if rest.Some? {
        assert (b.data + none.data) + rest.value.data == b.data + (none.data + rest.value.data);
      }
    }
  }

  /** What the first blank line dispatches. */
  function AtFirst(b: Buffers): seq<Dispatched> {
    if b.data == [] then [] else [Dispatch(b)]
  }

  function AfterBlank(s: Bytes): Bytes
    decreases |s|
  {
    match CutLine(s)
    case Unfinished => []
    case Found(line, rest) => if line == [] then rest else AfterBlank(rest)
  }

  lemma {:induction false} InterpretFromBlank(b: Buffers, s: Bytes)
    ensures Interpret(b, s) == if AtBlank(b, s).None? then []
                               else AtFirst(AtBlank(b, s).value) + Interpret(Buffers([], []), AfterBlank(s))
    decreases |s|
  {
    var f := CutLine(s);
    if f.Found? && f.line != [] {
      InterpretFromBlank(Process(b, f.line), f.rest);
    }
  }

  /** The first line matters: there is a blank line for it to count at, and it is data, or
      it is a type other than the default, for an event that gets no other. */
  predicate FirstLineMatters(s: Bytes) {
    var f := CutLine(s);
    && f.Found?
    && var none := AtBlank(Buffers([], []), f.rest);
    && none.Some?
    && (|| NameOf(f.line) == DataName()
        || (&& NameOf(f.line) == EventName() && none.value.data != [] && !NamesType(f.rest)
            && ValueOf(f.line) != [] && ValueOf(f.line) != MessageName()))
  }

  lemma DataShows(a: Bytes, b: Buffers)
    ensures AtFirst(Buffers(a + [LF] + b.data, b.evType)) != AtFirst(b)
  {
    var all := a + [LF] + b.data;
    if b.data != [] {
      assert all[|all| - 1] == b.data[|b.data| - 1];
    }
  }

  lemma BlankIsNoField()
    ensures NameOf([]) != DataName() && NameOf([]) != EventName()
  {
  }

  /** What the first line adds shows in what is dispatched exactly if it matters. */
  lemma {:induction false} FirstLineShows(line: Bytes, rest: Bytes, b: Buffers, none: Buffers)
    requires line != [] && AtBlank(Buffers([], []), rest) == Some(none)
    requires AtBlank(Process(Buffers([], []), line), rest) == Some(b)
    ensures AtFirst(b) != AtFirst(none) <==>
            || NameOf(line) == DataName()
            || (&& NameOf(line) == EventName() && none.data != [] && !NamesType(rest)
                && ValueOf(line) != [] && ValueOf(line) != MessageName())
  {
    hide AtBlank, NamesType, ValueOf, MessageName;
    var first := Process(Buffers([], []), line);
    BlankIsNoField();
    AtBlankAdds(first, rest);
    AtBlankAdds(Buffers([], []), rest);
    if NameOf(line) == DataName() {
      assert [] + ValueOf(line) + [LF] == ValueOf(line) + [LF];
      DataShows(ValueOf(line), none);
    } else {
      assert first.data == [] && [] + none.data == none.data;
    }
  }

  /** On any stream behind a byte order mark, and no line over the limit, the decoder and the
      standard give the same events exactly if the first line does not matter. */
  lemma {:induction false} MarkAgreesIff(s: Bytes, end: Ending, buf: Buffering, maxLine: nat)
    ensures var d := Decode(Idle(), Bom() + s, end, buf, maxLine);
            NoBareCr(s) && d.err != LineTooLong ==>
              (Shown(d.events) == StandardEvents(Bom() + s) <==> !FirstLineMatters(s))
  {
    hide Decode, Interpret, AtBlank, NamesType, Process, Dispatch;
    var d := Decode(Idle(), Bom() + s, end, buf, maxLine);
    if NoBareCr(s) && d.err != LineTooLong {
      MarkHidesFirstLine(s, end, buf, maxLine);
      assert (Bom() + s)[3..] == s;
      FirstLineCounts(s);
    }
  }

  /** The events change when the first line is left out exactly if it matters. */
  lemma {:induction false} FirstLineCounts(s: Bytes)
    requires NoBareCr(s)
    ensures Interpret(Buffers([], []), AfterFirst(s)) == Interpret(Buffers([], []), s) <==> !FirstLineMatters(s)
  {
    LinesAgree(s);
    NothingInterpreted();
    hide AtBlank, NamesType, Process, Dispatch, TrimEol, NameOf, ValueOf, MessageName, AtFirst, AfterBlank;
    var none, f := Buffers([], []), CutLine(s);
    if f.Found? {
      if f.line == [] {
        BlankIsNoField();
      } else {
        var first := Process(none, f.line);
        InterpretFromBlank(none, f.rest);
        InterpretFromBlank(first, f.rest);
        AtBlankAdds(first, f.rest);
        if AtBlank(none, f.rest).Some? {
          FirstLineShows(f.line, f.rest, AtBlank(first, f.rest).value, AtBlank(none, f.rest).value);
          FrontsDiffer(AtFirst(AtBlank(first, f.rest).value), AtFirst(AtBlank(none, f.rest).value),
                       Interpret(none, AfterBlank(f.rest)));
        }
      }
    }
  }

  lemma FrontsDiffer(a: seq<Dispatched>, b: seq<Dispatched>, rest: seq<Dispatched>)
    ensures a + rest == b + rest <==> a == b
  {
    if a + rest == b + rest {
      assert (a + rest)[..|a|] == a && (b + rest)[..|b|] == b;
    }
  }

  /** The decoder reads a leading byte order mark as part of the first field's name: the
      standard gives an event and the decoder none. */
  lemma {:induction false} MarkIsRead(value: Bytes, end: Ending, buf: Buffering, maxLine: nat)
    requires OneLine(value) && |value| + 10 <= maxLine
    ensures var s := Bom() + (DataPrefix() + value) + [LF] + [LF];
            && StandardEvents(s) == [Dispatched(MessageName(), value)]
            && Decode(Idle(), s, end, buf, maxLine).events == []
  {
    hide Interpret, Decode, Process, Absorb, Dispatch, MessageName;
    var line := DataPrefix() + value;
    var s := Bom() + line + [LF] + [LF];
    assert s[3..] == line + [LF] + [LF] && Bom() <= s;
    InterpretLine(Buffers([], []), line, LF, [LF]);
    ProcessData(Buffers([], []), value);
    assert [] + value + [LF] == value + [LF];
    DispatchOne(value);
    DecodeLine(Idle(), Bom() + line, [LF], end, buf, maxLine);
    MarkedIsNoData(Bom() + line);
    BlankLast(Buffers(value + [LF], []), end, buf, maxLine, Idle().(dirty := true));
  }

  /** A bare carriage return ends a line for the standard and not for the decoder. */
  lemma {:induction false} ReturnIsData(a: Bytes, b: Bytes, end: Ending, buf: Buffering, maxLine: nat)
    requires OneLine(a) && OneLine(b) && |a| + |b| + 14 <= maxLine
    ensures var s := DataPrefix() + a + [CR] + (DataPrefix() + b + [LF] + [LF]);
            && StandardEvents(s) == [Dispatched(MessageName(), a + [LF] + b)]
            && Decode(Idle(), s, end, buf, maxLine).events == [Event([], a + [CR] + (DataPrefix() + b))]
  {
    hide Interpret, Decode, Process, Absorb, Dispatch, MessageName;
    var first, second := DataPrefix() + a, DataPrefix() + b;
    var s := first + [CR] + (second + [LF] + [LF]);
    assert !(Bom() <= s) by {
      assert s[0] == 100;
    }
    InterpretLine(Buffers([], []), first, CR, second + [LF] + [LF]);
    ProcessData(Buffers([], []), a);
    InterpretLine(Buffers([] + a + [LF], []), second, LF, [LF]);
    ProcessData(Buffers([] + a + [LF], []), b);
    DispatchOne(a + [LF] + b);
    assert [] + a + [LF] + b + [LF] == (a + [LF] + b) + [LF];
    var value := a + [CR] + second;
    assert s == (DataPrefix() + value) + [LF] + [LF];
    DecodeLine(Idle(), DataPrefix() + value, [LF], end, buf, maxLine);
    AbsorbData(Idle(), value);
    assert [] + value == value;
    BlankLast(Buffers((a + [LF] + b) + [LF], []), end, buf, maxLine, Building(value, [], true, true));
  }
}
