/** Server-sent events as bytes: lines, fields, and what a decoder makes of a stream. */
module EventStream {

  newtype Byte = x: int | 0 <= x < 0x100
  type Bytes = seq<Byte>

  const LF: Byte := 10
  const CR: Byte := 13
  const SPACE: Byte := 32
  const COLON: Byte := 58

  function DataName(): Bytes { [100, 97, 116, 97] }
  function EventName(): Bytes { [101, 118, 101, 110, 116] }

  datatype Event = Event(evType: Bytes, data: Bytes)

  /** How the byte source ends: cleanly, or with an error of its own. */
  datatype Ending = Clean | Broken(code: int)

  datatype Error = Eof | UnexpectedEof | LineTooLong | Lost(code: int)

  /** The reader in front of the source: its buffer's size, and whether the source
      reports its end along with its last bytes rather than after them. */
  datatype Buffering = Buffering(size: Size, eager: bool)
  type Size = n: nat | n > 0 witness 1

  // ---------------------------------------------------------------- lines

  /** Where a byte first occurs, or the length if it does not. */
  function IndexOf(s: Bytes, b: Byte): (i: nat)
    ensures i <= |s| && (i < |s| ==> s[i] == b)
  {
    if s == [] || s[0] == b then 0 else 1 + IndexOf(s[1..], b)
  }

  lemma {:induction false} IndexOfIsFirst(s: Bytes, b: Byte)
    ensures b !in s[..IndexOf(s, b)]
  {
    if s != [] && s[0] != b {
      IndexOfIsFirst(s[1..], b);
      assert s[..IndexOf(s, b)] == [s[0]] + s[1..][..IndexOf(s[1..], b)];
    }
  }

  lemma {:induction false} IndexOfDrop(s: Bytes, b: Byte, m: nat)
    requires m <= IndexOf(s, b)
    ensures IndexOf(s, b) == m + IndexOf(s[m..], b)
  {
    if m == 0 {
      assert s[0..] == s;
    } else {
      IndexOfDrop(s[1..], b, m - 1);
      assert s[1..][m - 1..] == s[m..];
    }
  }

  lemma {:induction false} IndexOfFirst(a: Bytes, b: Byte, rest: Bytes)
    requires b !in a
    ensures IndexOf(a + [b] + rest, b) == |a|
  {
    if a == [] {
      assert (a + [b] + rest)[0] == b;
    } else {
      IndexOfFirst(a[1..], b, rest);
      assert (a + [b] + rest)[1..] == a[1..] + [b] + rest;
    }
  }

  lemma {:induction false} IndexOfNone(a: Bytes, b: Byte)
    requires b !in a
    ensures IndexOf(a, b) == |a|
  {
    if a != [] {
      IndexOfNone(a[1..], b);
    }
  }

  predicate EndsInCr(s: Bytes) {
    s != [] && s[|s| - 1] == CR
  }

  function TrimCr(s: Bytes): (r: Bytes)
    ensures r <= s && (r == s <==> !EndsInCr(s))
  {
    if EndsInCr(s) then s[..|s| - 1] else s
  }

  /** One newline off the end, then one carriage return. */
  function TrimEol(s: Bytes): Bytes {
    TrimCr(if s != [] && s[|s| - 1] == LF then s[..|s| - 1] else s)
  }

  lemma TrimEolOfLine(a: Bytes)
    ensures TrimEol(a + [LF]) == TrimCr(a)
  {
    assert (a + [LF])[..|a|] == a;
  }

  /** What asking for the next line finds. */
  datatype Cut = Line(line: Bytes, rest: Bytes) | TooLong | Ended | Partial | Failed(code: int)

  /** How much of an unterminated tail of n bytes arrives as full buffers. */
  function Whole(n: nat, buf: Buffering): nat
  {
    if n < buf.size || (buf.eager && n == buf.size) then 0 else buf.size + Whole(n - buf.size, buf)
  }

  lemma {:induction false} WholeIsPart(n: nat, buf: Buffering)
    ensures Whole(n, buf) <= n
  {
    if n >= buf.size && !(buf.eager && n == buf.size) {
      WholeIsPart(n - buf.size, buf);
    }
  }

  /** The first line, as a reader that sees the whole input finds it. A raw line counts
      with its terminator. The buffer matters in one case only: whether an unterminated
      line is already known to be too long when the source breaks. */
  function NextLine(s: Bytes, end: Ending, buf: Buffering, maxLine: nat): (c: Cut)
    ensures c.Line? ==> |c.rest| < |s|
  {
    var i := IndexOf(s, LF);
    if i < |s| then
      if i + 1 > maxLine then TooLong else Line(TrimEol(s[..i + 1]), s[i + 1..])
    else if end.Broken? then
      if Whole(|s|, buf) > maxLine then TooLong else Failed(end.code)
    else if s == [] then Ended
    else if |s| > maxLine then TooLong
    else Partial
  }

  lemma NextLineOf(line: Bytes, rest: Bytes, end: Ending, buf: Buffering, maxLine: nat)
    requires LF !in line
    ensures NextLine(line + [LF] + rest, end, buf, maxLine)
            == if |line| + 1 > maxLine then TooLong else Line(TrimCr(line), rest)
  {
    IndexOfFirst(line, LF, rest);
    TrimEolOfLine(line);
    var s := line + [LF] + rest;
    assert s[..|line| + 1] == line + [LF] && s[|line| + 1..] == rest;
  }

  /** A line is refused only for being too long, and at a clean end always then. */
  lemma TooLongMeansTooLong(s: Bytes, end: Ending, buf: Buffering, maxLine: nat)
    ensures var raw := if IndexOf(s, LF) < |s| then IndexOf(s, LF) + 1 else |s|;
            && (NextLine(s, end, buf, maxLine).TooLong? ==> raw > maxLine)
            && (end.Clean? && raw > maxLine ==> NextLine(s, end, buf, maxLine).TooLong?)
  {
    WholeIsPart(|s|, buf);
  }

  // ---------------------------------------------------------------- events

  /** The event under construction. */
  datatype Building = Building(data: Bytes, evType: Bytes, sawData: bool, dirty: bool)

  function Idle(): Building { Building([], [], false, false) }

  datatype Field = Field(name: Bytes, value: Bytes)

  function ParseField(line: Bytes): Field {
    var i := IndexOf(line, COLON);
    if i == |line| then Field(line, [])
    else
      var value := line[i + 1..];
      Field(line[..i], if value != [] && value[0] == SPACE then value[1..] else value)
  }

  /** One line that is not blank. */
  function Absorb(st: Building, line: Bytes): Building
    requires line != []
  {
    if line[0] == COLON then st else
    var f := ParseField(line);
    if f.name == DataName() then
      st.(data := (if st.sawData then st.data + [LF] else st.data) + f.value, sawData := true, dirty := true)
    else if f.name == EventName() then
      st.(evType := f.value, dirty := true)
    else
      st.(dirty := true)
  }

  /** All that draining a decoder gives. */
  datatype Drained = Drained(events: seq<Event>, err: Error) {
    function After(es: seq<Event>): Drained { Drained(es + events, err) }
  }

  lemma AfterAfter(d: Drained, es: seq<Event>, fs: seq<Event>)
    ensures d.After(fs).After(es) == d.After(es + fs)
  {
    assert es + (fs + d.events) == es + fs + d.events;
  }

  /** The stream's meaning: the events of the whole input, and how it ends. */
  function Decode(st: Building, s: Bytes, end: Ending, buf: Buffering, maxLine: nat): Drained
    decreases |s|
  {
    match NextLine(s, end, buf, maxLine)
    case TooLong => Drained([], LineTooLong)
    case Partial => Drained([], UnexpectedEof)
    case Ended => Drained([], if st.dirty then UnexpectedEof else Eof)
    case Failed(code) => Drained([], Lost(code))
    case Line(line, rest) =>
      if line != [] then Decode(Absorb(st, line), rest, end, buf, maxLine)
      else if !st.sawData then Decode(Idle(), rest, end, buf, maxLine)
      else Decode(Idle(), rest, end, buf, maxLine).After([Event(st.evType, st.data)])
  }

  /** A source that breaks is reported as it broke, and one that ends cleanly by whether it
      ended between events, unless a line was too long first. */
  lemma {:induction false} EndsAsItsSource(st: Building, s: Bytes, end: Ending, buf: Buffering, maxLine: nat)
    ensures var err := Decode(st, s, end, buf, maxLine).err;
            || err == LineTooLong
            || (if end.Broken? then err == Lost(end.code) else err == Eof || err == UnexpectedEof)
    ensures Decode(st, s, end, buf, maxLine).err == Eof && s != [] ==> s[|s| - 1] == LF
    decreases |s|
  {
    var c := NextLine(s, end, buf, maxLine);
    if c.Line? {
      assert c.rest != [] ==> c.rest[|c.rest| - 1] == s[|s| - 1];
      EndsAsItsSource(if c.line != [] then Absorb(st, c.line) else Idle(), c.rest, end, buf, maxLine);
    }
  }

  /** A cleanly ending stream reads the same through every buffer. */
  lemma {:induction false} BufferDoesNotShow(st: Building, s: Bytes, one: Buffering, other: Buffering, maxLine: nat)
    ensures Decode(st, s, Clean, one, maxLine) == Decode(st, s, Clean, other, maxLine)
    decreases |s|
  {
    var c := NextLine(s, Clean, one, maxLine);
    if c.Line? {
      if c.line != [] {
        BufferDoesNotShow(Absorb(st, c.line), c.rest, one, other, maxLine);
      } else {
        BufferDoesNotShow(Idle(), c.rest, one, other, maxLine);
      }
    }
  }
}
