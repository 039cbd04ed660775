/** The encoder, and what the decoder makes of its output cut off anywhere. */
module EventRoundTrip {
  import opened Basics
  import opened EventStream

  function EventPrefix(): Bytes { [101, 118, 101, 110, 116, 58, 32] }
  function DataPrefix(): Bytes { [100, 97, 116, 97, 58, 32] }

  // ---------------------------------------------------------------- encoding

  /** Data cut at its newlines. */
  function Segments(data: Bytes): (segs: seq<Bytes>)
    ensures segs != [] && Join(segs) == data
    ensures forall seg <- segs :: LF !in seg
    decreases |data|
  {
    var i := IndexOf(data, LF);
    IndexOfIsFirst(data, LF);
    if i == |data| then [data]
    else
      assert data == data[..i] + [LF] + data[i + 1..];
      [data[..i]] + Segments(data[i + 1..])
  }

  function Join(segs: seq<Bytes>): Bytes
    requires segs != []
  {
    if |segs| == 1 then segs[0] else segs[0] + [LF] + Join(segs[1..])
  }

  function DataLines(segs: seq<Bytes>): seq<Bytes> {
    if segs == [] then [] else [DataPrefix() + segs[0]] + DataLines(segs[1..])
  }

  function FieldLines(ev: Event): (lines: seq<Bytes>)
    ensures lines != []
  {
    var lines := DataLines(Segments(ev.data));
    if ev.evType == [] then lines else [EventPrefix() + ev.evType] + lines
  }

  function Flat(lines: seq<Bytes>): Bytes {
    if lines == [] then [] else lines[0] + [LF] + Flat(lines[1..])
  }

  function Encode(ev: Event): Bytes {
    Flat(FieldLines(ev)) + [LF]
  }

  function EncodeAll(events: seq<Event>): Bytes {
    if events == [] then [] else Encode(events[0]) + EncodeAll(events[1..])
  }

  /** The types the encoder refuses. */
  predicate Sendable(ev: Event) {
    LF !in ev.evType && CR !in ev.evType
  }

  datatype Written = Wrote(bytes: Bytes) | Refused

  /** One event in wire format, or a refusal. */
  method WriteEvent(ev: Event) returns (w: Written)
    ensures w == if Sendable(ev) then Wrote(Encode(ev)) else Refused
    ensures w.Refused? <==> 10 in ev.evType || 13 in ev.evType
  {
    if CR in ev.evType || LF in ev.evType {
      return Refused;
    }
    var buf: Bytes := [];
    if ev.evType != [] {
      buf := EventPrefix() + ev.evType + [LF];
    }
    var segs := Segments(ev.data);
    Opening(ev);
    assert segs[0..] == segs;
    ghost var fields := Flat(FieldLines(ev));
    assert Completes(buf, segs, 0, fields);
    hide *;
    var i := 0;
    while i < |segs|
      invariant 0 <= i <= |segs| && Completes(buf, segs, i, fields)
    {
      OneMoreSegment(buf, segs, i, fields);
      buf := buf + DataPrefix() + segs[i] + [LF];
      i := i + 1;
    }
    NoMoreSegments(buf, segs, fields);
    w := Wrote(buf + [LF]);
    Encoded(ev);
  }

  /** With the segments from i on still to come, this much of the fields is written. */
  ghost predicate Completes(buf: Bytes, segs: seq<Bytes>, i: nat, fields: Bytes) {
    i <= |segs| && buf + Flat(DataLines(segs[i..])) == fields
  }

  lemma Encoded(ev: Event)
    ensures Encode(ev) == Flat(FieldLines(ev)) + [LF]
  {
  }

  lemma Opening(ev: Event)
    ensures Flat(FieldLines(ev))
            == (if ev.evType == [] then [] else EventPrefix() + ev.evType + [LF]) + Flat(DataLines(Segments(ev.data)))
  {
    var lines := DataLines(Segments(ev.data));
    assert ([EventPrefix() + ev.evType] + lines)[1..] == lines;
  }

  lemma NoMoreSegments(buf: Bytes, segs: seq<Bytes>, fields: Bytes)
    requires Completes(buf, segs, |segs|, fields)
    ensures buf == fields
  {
    assert segs[|segs|..] == [] && Flat(DataLines([])) == [];
    assert buf + [] == buf;
  }

  lemma OneMoreSegment(buf: Bytes, segs: seq<Bytes>, i: nat, fields: Bytes)
    requires i < |segs| && Completes(buf, segs, i, fields)
    ensures Completes(buf + DataPrefix() + segs[i] + [LF], segs, i + 1, fields)
  {
    var rest := segs[i..];
    var line, more := DataPrefix() + segs[i], Flat(DataLines(segs[i + 1..]));
    assert rest[1..] == segs[i + 1..];
    assert DataLines(rest)[1..] == DataLines(rest[1..]);
    Regroup(buf, DataPrefix(), segs[i]);
    Regroup(buf, line, [LF]);
    Regroup(buf, line + [LF], more);
  }

  function Ascii(s: string): Bytes
    requires forall c <- s :: c < 128 as char
  {
    seq(|s|, i requires 0 <= i < |s| => assert s[i] in s; s[i] as int as Byte)
  }

  /** The bytes that names and punctuation stand for. */
  lemma WireNames()
    ensures DataName() == Ascii("data") && EventName() == Ascii("event")
    ensures [COLON, SPACE, CR, LF] == Ascii(": \r\n")
  {
  }

  /** One line of data on the wire, to the letter. */
  lemma {:induction false} OnTheWire(ev: Event)
    requires LF !in ev.data
    ensures Encode(ev) == (if ev.evType == [] then [] else Ascii("event: ") + ev.evType + Ascii("\n"))
                          + (Ascii("data: ") + ev.data + Ascii("\n\n"))
  {
    IndexOfNone(ev.data, LF);
    Opening(ev);
    assert Segments(ev.data) == [ev.data];
    assert DataLines([ev.data]) == [DataPrefix() + ev.data];
    assert Flat([DataPrefix() + ev.data]) == DataPrefix() + ev.data + [LF];
    assert Ascii("\n") == [LF] && Ascii("\n\n") == [LF] + [LF];
    assert Ascii("event: ") == EventPrefix() && Ascii("data: ") == DataPrefix();
  }

  // ---------------------------------------------------------------- decoding it again

  function Trimmed(segs: seq<Bytes>): (r: seq<Bytes>)
    ensures |r| == |segs|
  {
    if segs == [] then [] else [TrimCr(segs[0])] + Trimmed(segs[1..])
  }

  /** What arrives: every line of the data loses one carriage return at its end. */
  function Received(ev: Event): Event {
    Event(ev.evType, Join(Trimmed(Segments(ev.data))))
  }

  function AllReceived(events: seq<Event>): (r: seq<Event>)
    ensures |r| == |events|
  {
    if events == [] then [] else [Received(events[0])] + AllReceived(events[1..])
  }

  predicate LineFits(line: Bytes, maxLine: nat) {
    |line| + 1 <= maxLine
  }

  predicate AllFit(lines: seq<Bytes>, maxLine: nat) {
    lines == [] || (LineFits(lines[0], maxLine) && AllFit(lines[1..], maxLine))
  }

  /** Every line of the event's encoding is within the decoder's limit. */
  predicate Fits(ev: Event, maxLine: nat) {
    AllFit(FieldLines(ev), maxLine)
  }

  /** Events the encoder accepts and the decoder's limit allows. */
  predicate AllPass(events: seq<Event>, maxLine: nat) {
    events == [] || (Sendable(events[0]) && Fits(events[0], maxLine) && AllPass(events[1..], maxLine))
  }

  /** A line that holds a field: it has a name, and no newline. */
  predicate IsField(line: Bytes) {
    line != [] && line[0] != COLON && line[0] != CR && LF !in line
  }

  predicate AllFields(lines: seq<Bytes>) {
    lines == [] || (IsField(lines[0]) && AllFields(lines[1..]))
  }

  function Fold(st: Building, lines: seq<Bytes>): Building
    requires AllFields(lines)
    decreases |lines|
  {
    if lines == [] then st else Fold(Absorb(st, TrimCr(lines[0])), lines[1..])
  }

  lemma FieldDecodes(st: Building, line: Bytes, rest: Bytes, end: Ending, buf: Buffering, maxLine: nat)
    requires IsField(line) && LineFits(line, maxLine)
    ensures Decode(st, line + [LF] + rest, end, buf, maxLine)
            == Decode(Absorb(st, TrimCr(line)), rest, end, buf, maxLine)
    ensures Absorb(st, TrimCr(line)).dirty
  {
    NextLineOf(line, rest, end, buf, maxLine);
  }

  lemma {:induction false} FieldsDecode(st: Building, lines: seq<Bytes>, rest: Bytes, end: Ending, buf: Buffering,
                                        maxLine: nat)
    requires AllFields(lines) && AllFit(lines, maxLine)
    ensures Decode(st, Flat(lines) + rest, end, buf, maxLine) == Decode(Fold(st, lines), rest, end, buf, maxLine)
    decreases |lines|
  {
    if lines == [] {
      assert Flat(lines) + rest == rest;
    } else {
      var more := Flat(lines[1..]) + rest;
      assert Flat(lines) + rest == lines[0] + [LF] + more;
      FieldDecodes(st, lines[0], more, end, buf, maxLine);
      FieldsDecode(Absorb(st, TrimCr(lines[0])), lines[1..], rest, end, buf, maxLine);
    }
  }

  lemma PartFails(st: Building, line: Bytes, k: nat, buf: Buffering, maxLine: nat)
    requires IsField(line) && LineFits(line, maxLine) && 0 < k <= |line|
    ensures Decode(st, line[..k], Clean, buf, maxLine) == Drained([], UnexpectedEof)
  {
    IndexOfNone(line[..k], LF);
  }

  /** The first k bytes of the lines. */
  function FlatCut(lines: seq<Bytes>, k: nat): Bytes {
    if k == 0 || lines == [] then []
    else if k <= |lines[0]| then lines[0][..k]
    else lines[0] + [LF] + FlatCut(lines[1..], k - |lines[0]| - 1)
  }

  lemma {:induction false} FlatCutIsPrefix(lines: seq<Bytes>, k: nat)
    requires k <= |Flat(lines)|
    ensures FlatCut(lines, k) == Flat(lines)[..k]
  {
    if k > 0 && k > |lines[0]| {
      FlatCutIsPrefix(lines[1..], k - |lines[0]| - 1);
    }
  }

  lemma FlatCutSteps(lines: seq<Bytes>, k: nat)
    requires 0 < k <= |Flat(lines)|
    ensures lines != []
    ensures k <= |lines[0]| ==> FlatCut(lines, k) == lines[0][..k]
    ensures k > |lines[0]| ==>
        && k - |lines[0]| - 1 <= |Flat(lines[1..])|
        && FlatCut(lines, k) == lines[0] + [LF] + FlatCut(lines[1..], k - |lines[0]| - 1)
  {
  }

  lemma NothingDecodes(st: Building, buf: Buffering, maxLine: nat)
    ensures Decode(st, [], Clean, buf, maxLine) == Drained([], if st.dirty then UnexpectedEof else Eof)
  {
  }

  lemma AbsorbsDirty(st: Building, line: Bytes)
    requires IsField(line)
    ensures TrimCr(line) != [] && Absorb(st, TrimCr(line)).dirty
  {
  }

  /** Cut among an event's fields: no event, and an unexpected end unless nothing came at all. */
  lemma {:induction false} FieldsCut(st: Building, lines: seq<Bytes>, k: nat, buf: Buffering, maxLine: nat)
    requires AllFields(lines) && k <= |Flat(lines)| && AllFit(lines, maxLine)
    ensures Decode(st, FlatCut(lines, k), Clean, buf, maxLine)
            == Drained([], if k == 0 && !st.dirty then Eof else UnexpectedEof)
    decreases |lines|
  {
    if k == 0 {
      NothingDecodes(st, buf, maxLine);
    } else {
      FlatCutSteps(lines, k);
      hide Decode, Absorb, TrimCr, IsField, Flat, FlatCut;
      var line := lines[0];
      if k <= |line| {
        PartFails(st, line, k, buf, maxLine);
      } else {
        AbsorbsDirty(st, line);
        FieldDecodes(st, line, FlatCut(lines[1..], k - |line| - 1), Clean, buf, maxLine);
        FieldsCut(Absorb(st, TrimCr(line)), lines[1..], k - |line| - 1, buf, maxLine);
      }
    }
  }

  lemma {:induction false} DataLinesAreFields(segs: seq<Bytes>)
    requires forall seg <- segs :: LF !in seg
    ensures AllFields(DataLines(segs))
  {
    if segs != [] {
      DataLinesAreFields(segs[1..]);
      assert DataLines(segs)[1..] == DataLines(segs[1..]);
    }
  }

  lemma FieldLinesAreFields(ev: Event)
    requires Sendable(ev)
    ensures AllFields(FieldLines(ev))
  {
    DataLinesAreFields(Segments(ev.data));
    if ev.evType != [] {
      assert FieldLines(ev)[1..] == DataLines(Segments(ev.data));
    }
  }

  lemma ParseNamed(name: Bytes, value: Bytes)
    requires COLON !in name
    ensures ParseField(name + [COLON, SPACE] + value) == Field(name, value)
  {
    var line := name + [COLON] + ([SPACE] + value);
    assert line == name + [COLON, SPACE] + value;
    IndexOfFirst(name, COLON, [SPACE] + value);
    assert line[..|name|] == name && line[|name| + 1..] == [SPACE] + value;
  }

  lemma DataLineTrims(seg: Bytes)
    requires LF !in seg
    ensures IsField(DataPrefix() + seg) && TrimCr(DataPrefix() + seg) == DataPrefix() + TrimCr(seg)
  {
    if EndsInCr(seg) {
      assert (DataPrefix() + seg)[..6 + |seg| - 1] == DataPrefix() + seg[..|seg| - 1];
    }
  }

  lemma AbsorbData(st: Building, value: Bytes)
    ensures Absorb(st, DataPrefix() + value)
            == Building((if st.sawData then st.data + [LF] else st.data) + value, st.evType, true, true)
  {
    ParseNamed(DataName(), value);
    assert DataName() + [COLON, SPACE] + value == DataPrefix() + value;
  }

  lemma AbsorbType(st: Building, evType: Bytes)
    requires evType != [] && CR !in evType
    ensures TrimCr(EventPrefix() + evType) == EventPrefix() + evType
    ensures Absorb(st, EventPrefix() + evType) == st.(evType := evType, dirty := true)
  {
    ParseNamed(EventName(), evType);
    assert EventName() + [COLON, SPACE] + evType == EventPrefix() + evType;
  }

  /** The decoder's join: each later line comes after a newline. */
  function JoinOnto(data: Bytes, segs: seq<Bytes>): Bytes
    decreases |segs|
  {
    if segs == [] then data else JoinOnto(data + [LF] + TrimCr(segs[0]), segs[1..])
  }

  lemma {:induction false} JoinOntoIsJoin(lead: Bytes, segs: seq<Bytes>)
    requires segs != []
    ensures JoinOnto(lead + TrimCr(segs[0]), segs[1..]) == lead + Join(Trimmed(segs))
    decreases |segs|
  {
    var first := TrimCr(segs[0]);
    assert Trimmed(segs)[0] == first && Trimmed(segs)[1..] == Trimmed(segs[1..]);
    if |segs| > 1 {
      JoinOntoIsJoin(lead + first + [LF], segs[1..]);
      Regroup(lead + first, [LF], Join(Trimmed(segs[1..])));
      Regroup(lead, first, [LF] + Join(Trimmed(segs[1..])));
      Regroup(first, [LF], Join(Trimmed(segs[1..])));
    }
  }

  lemma {:induction false} FoldMore(st: Building, segs: seq<Bytes>)
    requires st.sawData && st.dirty && forall seg <- segs :: LF !in seg
    ensures AllFields(DataLines(segs))
    ensures Fold(st, DataLines(segs)) == st.(data := JoinOnto(st.data, segs))
    decreases |segs|
  {
    DataLinesAreFields(segs);
    if segs != [] {
      DataLineTrims(segs[0]);
      AbsorbData(st, TrimCr(segs[0]));
      assert DataLines(segs)[1..] == DataLines(segs[1..]);
      FoldMore(Absorb(st, DataPrefix() + TrimCr(segs[0])), segs[1..]);
    }
  }

  lemma FoldData(evType: Bytes, dirty: bool, segs: seq<Bytes>)
    requires segs != [] && forall seg <- segs :: LF !in seg
    ensures AllFields(DataLines(segs))
    ensures Fold(Building([], evType, false, dirty), DataLines(segs))
            == Building(Join(Trimmed(segs)), evType, true, true)
  {
    DataLinesAreFields(segs);
    var st := Building([], evType, false, dirty);
    DataLineTrims(segs[0]);
    AbsorbData(st, TrimCr(segs[0]));
    assert DataLines(segs)[1..] == DataLines(segs[1..]);
    FoldMore(Absorb(st, DataPrefix() + TrimCr(segs[0])), segs[1..]);
    JoinOntoIsJoin([], segs);
    assert [] + TrimCr(segs[0]) == TrimCr(segs[0]) && [] + Join(Trimmed(segs)) == Join(Trimmed(segs));
  }

  lemma FoldEvent(ev: Event)
    requires Sendable(ev)
    ensures AllFields(FieldLines(ev))
    ensures Fold(Idle(), FieldLines(ev)) == Building(Received(ev).data, ev.evType, true, true)
  {
    FieldLinesAreFields(ev);
    var segs := Segments(ev.data);
    if ev.evType == [] {
      assert FieldLines(ev) == DataLines(segs);
      FoldData([], false, segs);
    } else {
      AbsorbType(Idle(), ev.evType);
      assert FieldLines(ev)[1..] == DataLines(segs);
      FoldData(ev.evType, true, segs);
    }
  }

  lemma BlankDispatches(st: Building, rest: Bytes, end: Ending, buf: Buffering, maxLine: nat)
    requires st.sawData && maxLine > 0
    ensures Decode(st, [LF] + rest, end, buf, maxLine)
            == Decode(Idle(), rest, end, buf, maxLine).After([Event(st.evType, st.data)])
  {
    assert [] + [LF] + rest == [LF] + rest;
    NextLineOf([], rest, end, buf, maxLine);
  }

  /** A whole encoded event decodes to what is received of it, and the rest follows. */
  lemma EventDecodes(ev: Event, rest: Bytes, end: Ending, buf: Buffering, maxLine: nat)
    requires Sendable(ev) && Fits(ev, maxLine)
    ensures Decode(Idle(), Encode(ev) + rest, end, buf, maxLine)
            == Decode(Idle(), rest, end, buf, maxLine).After([Received(ev)])
  {
    var lines := FieldLines(ev);
    FoldEvent(ev);
    assert Encode(ev) + rest == Flat(lines) + ([LF] + rest) by {
      Regroup(Flat(lines), [LF], rest);
    }
    FieldsDecode(Idle(), lines, [LF] + rest, end, buf, maxLine);
    BlankDispatches(Fold(Idle(), lines), rest, end, buf, maxLine);
  }

  lemma EventCut(ev: Event, k: nat, buf: Buffering, maxLine: nat)
    requires Sendable(ev) && Fits(ev, maxLine) && k < |Encode(ev)|
    ensures Decode(Idle(), Encode(ev)[..k], Clean, buf, maxLine)
            == Drained([], if k == 0 then Eof else UnexpectedEof)
  {
    FieldLinesAreFields(ev);
    FieldsCut(Idle(), FieldLines(ev), k, buf, maxLine);
    assert Encode(ev)[..k] == FlatCut(FieldLines(ev), k) by {
      FlatCutIsPrefix(FieldLines(ev), k);
    }
  }

  /** How many events lie wholly within the first k bytes. */
  function Contained(events: seq<Event>, k: nat): (n: nat)
    ensures n <= |events|
  {
    if events == [] || k < |Encode(events[0])| then 0
    else 1 + Contained(events[1..], k - |Encode(events[0])|)
  }

  predicate OnBoundary(events: seq<Event>, k: nat) {
    k == |EncodeAll(events[..Contained(events, k)])|
  }

  lemma OneMoreEvent(events: seq<Event>, k: nat)
    requires events != [] && k >= |Encode(events[0])|
    ensures var left := k - |Encode(events[0])|;
            && (OnBoundary(events, k) <==> OnBoundary(events[1..], left))
            && AllReceived(events[..Contained(events, k)])
               == [Received(events[0])] + AllReceived(events[1..][..Contained(events[1..], left)])
  {
    var c := Contained(events, k);
    assert events[..c][1..] == events[1..][..c - 1];
  }

  /** The first k bytes of all the events. */
  function CutAt(events: seq<Event>, k: nat): Bytes {
    if events == [] then []
    else
      var first := Encode(events[0]);
      if k < |first| then first[..k] else first + CutAt(events[1..], k - |first|)
  }

  lemma {:induction false} CutAtIsPrefix(events: seq<Event>, k: nat)
    requires k <= |EncodeAll(events)|
    ensures CutAt(events, k) == EncodeAll(events)[..k]
  {
    if events != [] && k >= |Encode(events[0])| {
      CutAtIsPrefix(events[1..], k - |Encode(events[0])|);
    }
  }

  lemma FirstDecodes(events: seq<Event>, k: nat, buf: Buffering, maxLine: nat)
    requires events != [] && Sendable(events[0]) && Fits(events[0], maxLine)
    ensures var n := |Encode(events[0])|;
            Decode(Idle(), CutAt(events, k), Clean, buf, maxLine)
            == if k < n then Drained([], if k == 0 then Eof else UnexpectedEof)
               else Decode(Idle(), CutAt(events[1..], k - n), Clean, buf, maxLine).After([Received(events[0])])
  {
    hide Encode, Decode;
    var n := |Encode(events[0])|;
    if k < n {
      EventCut(events[0], k, buf, maxLine);
    } else {
      EventDecodes(events[0], CutAt(events[1..], k - n), Clean, buf, maxLine);
    }
  }

  lemma {:induction false} CutAtDecodes(events: seq<Event>, k: nat, buf: Buffering, maxLine: nat)
    requires AllPass(events, maxLine)
    requires k <= |EncodeAll(events)|
    ensures Decode(Idle(), CutAt(events, k), Clean, buf, maxLine)
            == Drained(AllReceived(events[..Contained(events, k)]),
                       if OnBoundary(events, k) then Eof else UnexpectedEof)
    decreases |events|
  {
    NothingDecodes(Idle(), buf, maxLine);
    hide Encode, Decode;
    if events != [] {
      FirstDecodes(events, k, buf, maxLine);
      var n := |Encode(events[0])|;
      if k >= n {
        CutAtDecodes(events[1..], k - n, buf, maxLine);
        OneMoreEvent(events, k);
      }
    }
  }

  /** The round trip at every cut: exactly the events wholly received come out, and the
      end is clean exactly when the cut falls between events. */
  lemma CutDecodes(events: seq<Event>, k: nat, buf: Buffering, maxLine: nat)
    requires AllPass(events, maxLine)
    requires k <= |EncodeAll(events)|
    ensures Decode(Idle(), EncodeAll(events)[..k], Clean, buf, maxLine)
            == Drained(AllReceived(events[..Contained(events, k)]),
                       if OnBoundary(events, k) then Eof else UnexpectedEof)
  {
    CutAtIsPrefix(events, k);
    CutAtDecodes(events, k, buf, maxLine);
  }

  // ---------------------------------------------------------------- when nothing is lost

  lemma {:induction false} JoinLosesOnlyCrs(segs: seq<Bytes>)
    requires segs != []
    ensures |Join(Trimmed(segs))| <= |Join(segs)|
    ensures |Join(Trimmed(segs))| == |Join(segs)| <==> Trimmed(segs) == segs
    ensures Trimmed(segs) == segs <==> forall seg <- segs :: !EndsInCr(seg)
    decreases |segs|
  {
    assert Trimmed(segs)[1..] == Trimmed(segs[1..]);
    if |segs| > 1 {
      JoinLosesOnlyCrs(segs[1..]);
      assert segs == [segs[0]] + segs[1..];
      assert (forall seg <- segs :: !EndsInCr(seg))
        <==> !EndsInCr(segs[0]) && forall seg <- segs[1..] :: !EndsInCr(seg);
    }
  }

  predicate NoCrAtLineEnd(ev: Event) {
    forall seg <- Segments(ev.data) :: !EndsInCr(seg)
  }

  lemma ReceivedIsSent(ev: Event)
    ensures Received(ev) == ev <==> NoCrAtLineEnd(ev)
  {
    JoinLosesOnlyCrs(Segments(ev.data));
  }

  lemma {:induction false} TooLongFails(st: Building, lines: seq<Bytes>, rest: Bytes, end: Ending, buf: Buffering,
                                        maxLine: nat)
    requires AllFields(lines) && !AllFit(lines, maxLine)
    ensures Decode(st, Flat(lines) + rest, end, buf, maxLine) == Drained([], LineTooLong)
    decreases |lines|
  {
    var more := Flat(lines[1..]) + rest;
    assert Flat(lines) + rest == lines[0] + [LF] + more;
    NextLineOf(lines[0], more, end, buf, maxLine);
    if LineFits(lines[0], maxLine) {
      TooLongFails(Absorb(st, TrimCr(lines[0])), lines[1..], rest, end, buf, maxLine);
    }
  }

  /** An event survives the wire exactly when no line of its data ends in a carriage
      return and no line of its encoding is too long. */
  lemma RoundTripIff(ev: Event, buf: Buffering, maxLine: nat)
    requires Sendable(ev)
    ensures Decode(Idle(), Encode(ev), Clean, buf, maxLine) == Drained([ev], Eof)
            <==> NoCrAtLineEnd(ev) && Fits(ev, maxLine)
  {
    FieldLinesAreFields(ev);
    if Fits(ev, maxLine) {
      EventDecodes(ev, [], Clean, buf, maxLine);
      assert Encode(ev) + [] == Encode(ev);
      ReceivedIsSent(ev);
      assert [Received(ev)][0] == Received(ev) && [ev][0] == ev;
    } else {
      TooLongFails(Idle(), FieldLines(ev), [LF], Clean, buf, maxLine);
    }
  }
}
