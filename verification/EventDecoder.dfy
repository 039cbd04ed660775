/** The decoder of an event stream: a stateful parser over a bounded buffer. */
module EventDecoder {
  import opened Basics
  import opened EventStream

  datatype Slice = Delimited(chunk: Bytes) | BufferFull(chunk: Bytes) | AtEnd(chunk: Bytes)

  /** The buffered reader: what its source still has to give, and how it gives it. */
  class Reader {
    const end: Ending
    const buf: Buffering
    var rest: Bytes

    constructor (bytes: Bytes, end: Ending, buf: Buffering)
      ensures rest == bytes && this.end == end && this.buf == buf
    {
      rest, this.end, this.buf := bytes, end, buf;
    }

    /** Bytes up to and including a newline, at most one buffer of them. */
    method ReadSlice() returns (r: Slice)
      modifies this
      ensures |r.chunk| <= |old(rest)| && r.chunk == old(rest)[..|r.chunk|] && rest == old(rest)[|r.chunk|..]
      ensures var n, i := |r.chunk|, IndexOf(old(rest), LF);
              match r
              case Delimited(_) => n == i + 1
              case BufferFull(_) => n == buf.size <= i && (buf.eager ==> n < |old(rest)|)
              case AtEnd(_) => n == i == |old(rest)| && (n < buf.size || (buf.eager && n == buf.size))
    {
      var i := IndexOf(rest, LF);
      if i < |rest| && i < buf.size {
        r := Delimited(rest[..i + 1]);
        rest := rest[i + 1..];
      } else if |rest| < buf.size || (buf.eager && |rest| == buf.size) {
        r := AtEnd(rest);
        rest := [];
      } else {
        r := BufferFull(rest[..buf.size]);
        rest := rest[buf.size..];
      }
    }
  }

  /** Midway through a line: acc came in full buffers and held no newline. */
  ghost predicate UpTo(all: Bytes, acc: Bytes, rest: Bytes, buf: Buffering) {
    && |acc| <= |all| && acc == all[..|acc|] && rest == all[|acc|..]
    && IndexOf(all, LF) == |acc| + IndexOf(rest, LF)
    && Whole(|all|, buf) == |acc| + Whole(|rest|, buf)
  }

  lemma Joined(all: Bytes, n: nat, m: nat)
    requires n + m <= |all|
    ensures all[..n] + all[n..][..m] == all[..n + m] && all[n..][m..] == all[n + m..]
  {
  }

  lemma FullBuffer(all: Bytes, acc: Bytes, left: Bytes, buf: Buffering)
    requires UpTo(all, acc, left, buf) && buf.size <= IndexOf(left, LF)
    requires buf.eager ==> |left| > buf.size
    ensures UpTo(all, acc + left[..buf.size], left[buf.size..], buf)
  {
    hide IndexOf;
    Joined(all, |acc|, buf.size);
    IndexOfDrop(left, LF, buf.size);
    WholeBuffer(|left|, buf);
  }

  lemma WholeBuffer(n: nat, buf: Buffering)
    requires n >= buf.size && !(buf.eager && n == buf.size)
    ensures Whole(n, buf) == buf.size + Whole(n - buf.size, buf)
  {
  }

  /** Once more than a line's worth has come, the line is refused however it goes on. */
  lemma LongHead(all: Bytes, acc: Bytes, rest: Bytes, end: Ending, buf: Buffering, maxLine: nat)
    requires UpTo(all, acc, rest, buf) && |acc| > maxLine
    ensures NextLine(all, end, buf, maxLine) == TooLong
  {
  }

  lemma Remainder(all: Bytes, acc: Bytes, left: Bytes, end: Ending, buf: Buffering, maxLine: nat)
    requires UpTo(all, acc, left, buf) && IndexOf(left, LF) == |left| && |acc| <= maxLine
    requires |left| < buf.size || (buf.eager && |left| == buf.size)
    ensures NextLine(all, end, buf, maxLine)
            == if end.Broken? then Failed(end.code)
               else if acc == [] && left == [] then Ended
               else if |acc| + |left| > maxLine then TooLong else Partial
  {
  }

  lemma LineFound(all: Bytes, acc: Bytes, left: Bytes, chunk: Bytes, rest: Bytes,
                  end: Ending, buf: Buffering, maxLine: nat)
    requires UpTo(all, acc, left, buf) && IndexOf(left, LF) + 1 == |chunk| <= |left|
    requires chunk == left[..|chunk|] && rest == left[|chunk|..]
    ensures NextLine(all, end, buf, maxLine)
            == if |acc| + |chunk| > maxLine then TooLong else Line(TrimEol(acc + chunk), rest)
  {
    hide IndexOf, NextLine, TrimEol, Whole;
    Joined(all, |acc|, |chunk|);
    Measured(all, |acc| + |chunk|, end, buf, maxLine);
  }

  lemma Measured(all: Bytes, n: nat, end: Ending, buf: Buffering, maxLine: nat)
    requires IndexOf(all, LF) + 1 == n <= |all|
    ensures NextLine(all, end, buf, maxLine) == if n > maxLine then TooLong else Line(TrimEol(all[..n]), all[n..])
  {
  }

  datatype Next = Got(event: Event) | Stopped(error: Error)

  class Decoder {
    const r: Reader
    const maxLine: nat
    var data: Bytes
    var evType: Bytes
    var sawData: bool
    var dirty: bool
    var err: Option<Error>

    constructor (r: Reader, maxLine: nat)
      ensures this.r == r && this.maxLine == maxLine
      ensures Meaning() == Decode(Idle(), r.rest, r.end, r.buf, maxLine)
    {
      this.r, this.maxLine := r, maxLine;
      data, evType, sawData, dirty, err := [], [], false, false, None;
    }

    ghost function Current(): Building
      reads this
    {
      Building(data, evType, sawData, dirty)
    }

    /** What draining it from here gives. */
    ghost function Meaning(): Drained
      reads this, r
    {
      if err.Some? then Drained([], err.value)
      else Decode(Current(), r.rest, r.end, r.buf, maxLine)
    }

    method ReadLine() returns (c: Cut)
      modifies r
      ensures c == NextLine(old(r.rest), r.end, r.buf, maxLine)
      ensures c.Line? ==> r.rest == c.rest
    {
      ghost var all := r.rest;
      assert all[..0] == [] && all[0..] == all && UpTo(all, [], all, r.buf);
      hide *;
      var acc: Bytes := [];
      while true
        invariant |acc| <= maxLine && UpTo(all, acc, r.rest, r.buf)
        decreases |r.rest|
      {
        ghost var left := r.rest;
        var slice := r.ReadSlice();
        match slice {
          case BufferFull(chunk) =>
            FullBuffer(all, acc, left, r.buf);
            if |acc| + |chunk| > maxLine {
              LongHead(all, acc + chunk, r.rest, r.end, r.buf, maxLine);
              return TooLong;
            }
            acc := acc + chunk;
          case AtEnd(chunk) =>
            Remainder(all, acc, left, r.end, r.buf, maxLine);
            if r.end.Broken? {
              return Failed(r.end.code);
            }
            if acc == [] && chunk == [] {
              return Ended;
            }
            if |acc| + |chunk| > maxLine {
              return TooLong;
            }
            return Partial;
          case Delimited(chunk) =>
            LineFound(all, acc, left, chunk, r.rest, r.end, r.buf, maxLine);
            if |acc| + |chunk| > maxLine {
              return TooLong;
            }
            if |acc| > 0 {
              return Line(TrimEol(acc + chunk), r.rest);
            }
            assert acc + chunk == chunk;
            return Line(TrimEol(chunk), r.rest);
        }
      }
    }

    /** The next event in the stream's meaning; an error ends it for good. */
    method NextEvent() returns (n: Next)
      modifies this, r
      ensures n.Got? ==> old(Meaning()) == Meaning().After([n.event])
      ensures n.Stopped? ==> old(Meaning()) == Drained([], n.error) == Meaning()
    {
      if err.Some? {
        return Stopped(err.value);
      }
      while true
        invariant err.None? && Meaning() == old(Meaning())
        decreases |r.rest|
      {
        var cut := ReadLine();
        match cut {
          case Partial =>
            n := Fail(UnexpectedEof);
            return;
          case Ended =>
            n := Fail(if dirty then UnexpectedEof else Eof);
            return;
          case TooLong =>
            n := Fail(LineTooLong);
            return;
          case Failed(code) =>
            n := Fail(Lost(code));
            return;
          case Line(line, _) =>
            if line == [] {
              if !sawData {
                Reset();
                continue;
              }
              var event := Event(evType, data);
              Reset();
              return Got(event);
            }
            if line[0] == COLON {
              continue;
            }
            var f := ParseField(line);
            dirty := true;
            if f.name == DataName() {
              if sawData {
                data := data + [LF];
              }
              data := data + f.value;
              sawData := true;
            } else if f.name == EventName() {
              evType := f.value;
            }
        }
      }
    }

    method Fail(e: Error) returns (n: Next)
      modifies this`err
      ensures err == Some(e) && n == Stopped(e)
    {
      err := Some(e);
      n := Stopped(e);
    }

    method Reset()
      modifies this`data, this`evType, this`sawData, this`dirty
      ensures Current() == Idle()
    {
      data, evType, sawData, dirty := [], [], false, false;
    }

    method Drain() returns (events: seq<Event>, e: Error)
      modifies this, r
      ensures Drained(events, e) == old(Meaning())
    {
      events := [];
      ghost var all, left := Meaning(), Meaning();
      while true
        invariant left == Meaning() && all == left.After(events)
        decreases |left.events|
      {
        var n := NextEvent();
        match n {
          case Got(event) =>
            left := Meaning();
            AfterAfter(left, events, [event]);
            events := events + [event];
          case Stopped(error) =>
            return events, error;
        }
      }
    }
  }
}
