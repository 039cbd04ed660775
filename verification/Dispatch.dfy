/** One request against a ladder of upstream targets: what is tried, what the client is
    sent, and what the outcome says about it. */
module Dispatch {
  import opened Basics
  import opened Metering

  datatype ProviderError = ProviderError(kind: string, statusCode: int, message: string, retryable: bool)

  /** An error as far as it is ever asked about: which sentinels it wraps, the provider
      error it wraps, and its text. */
  datatype Error = Error(eof: bool, canceled: bool, timedOut: bool, provider: Option<ProviderError>, text: string)

  datatype StreamEvent = StreamEvent(raw: string, usage: Option<TokenUsage>, terminal: bool, usageOnly: bool)

  /** All a target does when asked: it refuses, or streams events and ends with an error. */
  datatype Upstream = Refuses(error: Error) | Streams(events: seq<StreamEvent>, end: Error)

  datatype Target = Target(ref: string, model: string, upstream: Upstream) {
    function Name(): (name: string)
      ensures name != ""
    {
      if ref == "" then "unnamed:" + model else ref
    }

    /** The error before a first event, if there is no first event. */
    function Failure(): Option<Error> {
      match upstream
      case Refuses(error) => Some(error)
      case Streams(events, end) => if events == [] then Some(end) else None
    }
  }

  datatype Status = Unset | Done | Exhausted | Truncated | ClientDisconnect | PolicyBlocked

  datatype AttemptFailure = AttemptFailure(kind: string, statusCode: int, message: string, retryable: bool)

  datatype Attempt = Attempt(target: string, failure: Option<AttemptFailure>)

  class Outcome {
    var status: Status
    var attempts: seq<Attempt>
    var usage: TokenUsage
    var ttftMs: int

    constructor ()
      ensures status == Unset && attempts == [] && usage == TokenUsage(0, 0, 0, 0, 0) && ttftMs == 0
    {
      status, attempts, usage, ttftMs := Unset, [], NoUsage(), 0;
    }

    /** The target that served, or nothing. */
    function ChosenTarget(): string
      reads this
    {
      if attempts == [] || attempts[|attempts| - 1].failure.Some? then "" else attempts[|attempts| - 1].target
    }

    predicate Passes()
      reads this
    {
      && status != Unset
      && (status == Exhausted ==> ttftMs == 0 && ChosenTarget() == "")
      && (status != Exhausted && attempts != [] ==> ChosenTarget() != "")
    }

    method Append(a: Attempt)
      modifies this`attempts
      ensures attempts == old(attempts) + [a]
      ensures ChosenTarget() == if a.failure.Some? then "" else a.target
    {
      attempts := attempts + [a];
    }
  }

  // ---------------------------------------------------------------- the client's side

  datatype Wire = StatusLine(code: int) | Body(raw: string) | ErrorEvent(cause: string) | ErrorBody(message: string)

  /** The response: what was written to it, and for how many more writes and flushes the
      client will stay. A body written before any status line brings one with it. */
  class Connection {
    var log: seq<Wire>
    var headed: bool
    var patience: nat

    ghost predicate Valid()
      reads this
    {
      headed <==> StatusLines(log) > 0
    }

    constructor (patience: nat)
      ensures log == [] && Valid() && this.patience == patience
    {
      log, headed, this.patience := [], false, patience;
    }

    method WriteHeader(code: int)
      requires Valid()
      modifies this`log, this`headed
      ensures Valid() && headed && log == old(log) + [StatusLine(code)]
    {
      StatusLinesAppend(log, StatusLine(code));
      log := log + [StatusLine(code)];
      headed := true;
    }

    method Flush() returns (ok: bool)
      modifies this`patience
      ensures ok <==> old(patience) > 0
      ensures patience == old(patience) - if ok then 1 else 0
    {
      ok := patience > 0;
      if ok {
        patience := patience - 1;
      }
    }

    method Write(w: Wire) returns (ok: bool)
      requires Valid() && !w.StatusLine?
      modifies this
      ensures Valid()
      ensures ok <==> old(patience) > 0
      ensures patience == old(patience) - if ok then 1 else 0
      ensures log == if ok then old(log) + Headed(w, old(headed)) else old(log)
      ensures headed == (ok || old(headed))
    {
      hide StatusLines;
      ok := Flush();
      if ok {
        if !headed {
          Regroup(log, [StatusLine(200)], [w]);
          WriteHeader(200);
        }
        StatusLinesAppend(log, w);
        log := log + [w];
      }
    }
  }

  /** What goes out when something is written. */
  function Headed(w: Wire, headed: bool): seq<Wire> {
    if headed then [w] else [StatusLine(200)] + [w]
  }

  function StatusLines(log: seq<Wire>): nat {
    if log == [] then 0
    else StatusLines(log[..|log| - 1]) + if log[|log| - 1].StatusLine? then 1 else 0
  }

  lemma StatusLinesAppend(log: seq<Wire>, w: Wire)
    ensures StatusLines(log + [w]) == StatusLines(log) + if w.StatusLine? then 1 else 0
  {
    assert (log + [w])[..|log|] == log;
  }

  class ClientStream {
    const w: Connection
    const stream: bool
    var committed: bool

    constructor (w: Connection, stream: bool)
      ensures this.w == w && this.stream == stream && !committed
    {
      this.w, this.stream, committed := w, stream, false;
    }

    ghost predicate Valid()
      reads this, w
    {
      w.Valid() && (committed ==> w.headed)
    }

    /** The status line goes out once; a second call writes nothing and fails. */
    method Commit() returns (ok: bool)
      requires Valid()
      modifies this, w
      ensures Valid() && committed
      ensures ok <==> !old(committed) && old(w.patience) > 0
      ensures w.patience == old(w.patience) - if ok then 1 else 0
      ensures w.log == old(w.log) + if old(committed) then [] else [StatusLine(200)]
    {
      if committed {
        return false;
      }
      committed := true;
      w.WriteHeader(200);
      ok := w.Flush();
    }

    /** What is written may land although the flush after it fails. */
    method Send(ev: StreamEvent) returns (ok: bool)
      requires Valid()
      modifies w
      ensures Valid()
      ensures var open := committed || !stream;
              && ok == (open && old(w.patience) >= Ops(stream, 1))
              && w.patience == (if !open then old(w.patience) else if ok then old(w.patience) - Ops(stream, 1) else 0)
              && w.log == if open && old(w.patience) > 0 then old(w.log) + Headed(Body(ev.raw), old(w.headed))
                          else old(w.log)
      ensures committed ==> w.log == if old(w.patience) > 0 then old(w.log) + [Body(ev.raw)] else old(w.log)
    {
      hide StatusLines;
      if !stream {
        ok := w.Write(Body(ev.raw));
        return;
      }
      if !committed {
        return false;
      }
      ok := w.Write(Body(ev.raw));
      if ok {
        ok := w.Flush();
      }
    }

    method SendError(cause: string) returns (ok: bool)
      requires Valid()
      modifies w
      ensures Valid()
      ensures ok <==> committed && old(w.patience) >= 2
      ensures w.patience == if !committed then old(w.patience) else if ok then old(w.patience) - 2 else 0
      ensures w.log == if committed && old(w.patience) > 0 then old(w.log) + [ErrorEvent(cause)] else old(w.log)
    {
      hide StatusLines;
      if !committed {
        return false;
      }
      ok := w.Write(ErrorEvent(cause));
      if ok {
        ok := w.Flush();
      }
    }
  }

  /** Writes and flushes that so many events take: on a stream each is flushed. */
  function Ops(stream: bool, n: nat): (ops: nat)
    ensures ops >= n
  {
    if stream then 2 * n else n
  }

  // ---------------------------------------------------------------- relaying

  /** What the client should see of a stream: all but the usage it did not ask for. */
  function Wanted(events: seq<StreamEvent>, wantsUsage: bool): seq<Wire> {
    if events == [] then []
    else
      var n := |events| - 1;
      Wanted(events[..n], wantsUsage) + if events[n].usageOnly && !wantsUsage then [] else [Body(events[n].raw)]
  }

  /** The last usage reported, or the one before. */
  function Reported(before: TokenUsage, events: seq<StreamEvent>): TokenUsage {
    if events == [] then before
    else
      var n := |events| - 1;
      if events[n].usage.Some? then events[n].usage.value else Reported(before, events[..n])
  }

  /** The events sent on, by their places in the stream: in order, and all but those that
      just carry usage nobody asked for. */
  ghost predicate SentOn(from: seq<nat>, events: seq<StreamEvent>, wantsUsage: bool, sent: seq<Wire>) {
    && |from| == |sent| && (forall i, j :: 0 <= i < j < |from| ==> from[i] < from[j])
    && (forall n: nat :: n in from <==> n < |events| && (wantsUsage || !events[n].usageOnly))
    && forall i :: 0 <= i < |from| ==> from[i] < |events| && sent[i] == Body(events[from[i]].raw)
  }

  lemma {:induction false} WantedIs(events: seq<StreamEvent>, wantsUsage: bool) returns (from: seq<nat>)
    ensures SentOn(from, events, wantsUsage, Wanted(events, wantsUsage))
  {
    from := [];
    if events != [] {
      var n := |events| - 1;
      from := WantedIs(events[..n], wantsUsage);
      var sent := Wanted(events[..n], wantsUsage);
      hide Wanted;
      if wantsUsage || !events[n].usageOnly {
        OneMoreSent(from, events[..n], wantsUsage, sent, events[n]);
        from := from + [n];
      }
      assert events[..n] + [events[n]] == events;
      assert Wanted(events, wantsUsage)
             == if wantsUsage || !events[n].usageOnly then sent + [Body(events[n].raw)] else sent by {
        OneMoreRelayed(events, n, wantsUsage, NoUsage());
        assert events[..n + 1] == events;
      }
    }
  }

  lemma OneMoreSent(from: seq<nat>, events: seq<StreamEvent>, wantsUsage: bool, sent: seq<Wire>, ev: StreamEvent)
    requires SentOn(from, events, wantsUsage, sent) && (wantsUsage || !ev.usageOnly)
    ensures SentOn(from + [|events|], events + [ev], wantsUsage, sent + [Body(ev.raw)])
  {
    var more := from + [|events|];
    forall n: nat ensures n in more <==> n in from || n == |events| {
      assert n == |events| ==> more[|from|] == n;
      if n in from {
        var i :| 0 <= i < |from| && from[i] == n;
        assert more[i] == n;
      }
    }
  }

  /** The usage kept is that of the last event to report any. */
  lemma {:induction false} ReportedIs(before: TokenUsage, events: seq<StreamEvent>, i: nat)
    requires forall j :: i < j < |events| ==> events[j].usage.None?
    ensures i < |events| && events[i].usage.Some? ==> Reported(before, events) == events[i].usage.value
    ensures (forall j :: 0 <= j < |events| ==> events[j].usage.None?) ==> Reported(before, events) == before
  {
    if events != [] {
      ReportedIs(before, events[..|events| - 1], i);
    }
  }

  /** How relaying to a client that stays for so many writes and flushes ends after n events,
      and what was sent by then. */
  ghost predicate Relayed(up: Upstream, wantsUsage: bool, stream: bool, patience: nat, n: nat,
                          status: Status, sent: seq<Wire>)
    requires up.Streams? && 0 < n <= |up.events|
  {
    var all := Wanted(up.events[..n], wantsUsage);
    var ended := n == |up.events| && !up.events[n - 1].terminal;
    match status
    case Done => sent == all && (up.events[n - 1].terminal || (ended && up.end.eof))
    case ClientDisconnect =>
      || (sent == all && ended && !up.end.eof && (up.end.canceled || up.end.timedOut))
      || GaveOut(Wanted(up.events[..n - 1], wantsUsage), all, stream, patience, sent)
    case Truncated =>
      && ended && !up.end.eof && !up.end.canceled && !up.end.timedOut
      && sent == if Ops(stream, |all|) == patience then all else all + [ErrorEvent(up.end.text)]
    case _ => false
  }

  /** The client stayed for all but the last event, which was written if there was no more
      than its flush left to fail. */
  ghost predicate GaveOut(front: seq<Wire>, all: seq<Wire>, stream: bool, patience: nat, sent: seq<Wire>) {
    && front < all
    && Ops(stream, |front|) <= patience < Ops(stream, |all|)
    && sent == if Ops(stream, |front|) == patience then front else all
  }

  predicate NoneTerminal(events: seq<StreamEvent>) {
    forall i :: 0 <= i < |events| ==> !events[i].terminal
  }

  lemma OneMoreRelayed(events: seq<StreamEvent>, i: nat, wantsUsage: bool, before: TokenUsage)
    requires i < |events|
    ensures Wanted(events[..i + 1], wantsUsage)
            == if events[i].usageOnly && !wantsUsage then Wanted(events[..i], wantsUsage)
               else Wanted(events[..i], wantsUsage) + [Body(events[i].raw)]
    ensures Reported(before, events[..i + 1])
            == if events[i].usage.Some? then events[i].usage.value else Reported(before, events[..i])
  {
    assert events[..i + 1][..i] == events[..i];
  }

  /** The log since, and how many of the writes and flushes the client would stay for are left. */
  ghost predicate Wrote(before: seq<Wire>, stream: bool, patience: nat, sent: seq<Wire>, log: seq<Wire>, left: nat) {
    log == before + sent && Ops(stream, |sent|) + left == patience
  }

  lemma WroteMore(before: seq<Wire>, stream: bool, patience: nat, sent: seq<Wire>, log: seq<Wire>, left: nat, w: Wire)
    requires Wrote(before, stream, patience, sent, log, left)
    ensures left >= Ops(stream, 1) ==> Wrote(before, stream, patience, sent + [w], log + [w], left - Ops(stream, 1))
  {
  }

  lemma StopsWhenSendFails(up: Upstream, wantsUsage: bool, before: seq<Wire>, stream: bool, patience: nat,
                           log: seq<Wire>, left: nat, i: nat)
    requires up.Streams? && i < |up.events| && (wantsUsage || !up.events[i].usageOnly)
    requires Wrote(before, stream, patience, Wanted(up.events[..i], wantsUsage), log, left) && left < Ops(stream, 1)
    ensures var landed := if left > 0 then [Body(up.events[i].raw)] else [];
            var sent := Wanted(up.events[..i], wantsUsage) + landed;
            Relayed(up, wantsUsage, stream, patience, i + 1, ClientDisconnect, sent) && log + landed == before + sent
  {
    OneMoreRelayed(up.events, i, wantsUsage, NoUsage());
    assert Wanted(up.events[..i], wantsUsage) + [] == Wanted(up.events[..i], wantsUsage);
  }

  lemma StopsWhenStreamEnds(up: Upstream, wantsUsage: bool, stream: bool, patience: nat, n: nat)
    requires up.Streams? && 0 < n <= |up.events|
    ensures var all := Wanted(up.events[..n], wantsUsage);
            && (up.events[n - 1].terminal ==> Relayed(up, wantsUsage, stream, patience, n, Done, all))
            && (n == |up.events| && !up.events[n - 1].terminal ==>
                  (if up.end.eof then Relayed(up, wantsUsage, stream, patience, n, Done, all)
                   else if up.end.canceled || up.end.timedOut then
                     Relayed(up, wantsUsage, stream, patience, n, ClientDisconnect, all)
                   else
                     Relayed(up, wantsUsage, stream, patience, n, Truncated,
                             if Ops(stream, |all|) == patience then all else all + [ErrorEvent(up.end.text)])))
  {
  }

  lemma OneMoreNotTerminal(events: seq<StreamEvent>, i: nat)
    requires i < |events| && NoneTerminal(events[..i]) && !events[i].terminal
    ensures NoneTerminal(events[..i + 1])
  {
  }

  lemma NothingRelayed(events: seq<StreamEvent>, wantsUsage: bool, usage: TokenUsage, before: seq<Wire>, stream: bool,
                       patience: nat)
    ensures Wanted(events[..0], wantsUsage) == [] && Reported(usage, events[..0]) == usage
    ensures NoneTerminal(events[..0]) && Wrote(before, stream, patience, [], before, patience)
  {
  }

  /** Forwards a stream until it ends, its terminal event is through, or the client goes. */
  method Relay(up: Upstream, wantsUsage: bool, out: ClientStream, o: Outcome)
    returns (ghost n: nat, ghost sent: seq<Wire>)
    requires up.Streams? && up.events != [] && out.Valid() && out.committed
    modifies o`status, o`usage, out.w
    ensures out.Valid()
    ensures 0 < n <= |up.events| && NoneTerminal(up.events[..n - 1])
    ensures o.usage == Reported(old(o.usage), up.events[..n])
    ensures out.w.log == old(out.w.log) + sent
    ensures Relayed(up, wantsUsage, out.stream, old(out.w.patience), n, o.status, sent)
  {
    var i := 0;
    ghost var before, patience := out.w.log, out.w.patience;
    sent := [];
    hide *;
    NothingRelayed(up.events, wantsUsage, o.usage, before, out.stream, patience);
    while true
      invariant 0 <= i < |up.events| && NoneTerminal(up.events[..i])
      invariant out.Valid() && Wrote(before, out.stream, patience, sent, out.w.log, out.w.patience)
      invariant sent == Wanted(up.events[..i], wantsUsage)
      invariant o.usage == Reported(old(o.usage), up.events[..i])
      decreases |up.events| - i
    {
      n := i + 1;
      var ok;
      ok, sent := Forward(up, i, wantsUsage, out, o, before, patience, old(o.usage), sent);
      if !ok {
        return;
      }
      if up.events[i].terminal {
        o.status := Done;
        StopsWhenStreamEnds(up, wantsUsage, out.stream, patience, n);
        WroteIsLogged(before, out.stream, patience, sent, out.w.log, out.w.patience);
        return;
      }
      if i + 1 < |up.events| {
        OneMoreNotTerminal(up.events, i);
        i := i + 1;
        continue;
      }
      assert up.events[..n] == up.events;
      sent := StreamEnded(up, wantsUsage, out, o, before, patience, sent);
      return;
    }
  }

  lemma WroteIsLogged(before: seq<Wire>, stream: bool, patience: nat, sent: seq<Wire>, log: seq<Wire>, left: nat)
    requires Wrote(before, stream, patience, sent, log, left)
    ensures log == before + sent && (Ops(stream, |sent|) == patience <==> left == 0)
  {
  }

  /** Sends one event on, if it is wanted, and notes its usage. */
  method Forward(up: Upstream, i: nat, wantsUsage: bool, out: ClientStream, o: Outcome,
                 ghost before: seq<Wire>, ghost patience: nat, ghost usage: TokenUsage, ghost sent: seq<Wire>)
    returns (ok: bool, ghost all: seq<Wire>)
    requires up.Streams? && i < |up.events| && out.Valid() && out.committed
    requires sent == Wanted(up.events[..i], wantsUsage) && o.usage == Reported(usage, up.events[..i])
    requires Wrote(before, out.stream, patience, sent, out.w.log, out.w.patience)
    modifies o`status, o`usage, out.w
    ensures out.Valid() && o.usage == Reported(usage, up.events[..i + 1])
    ensures ok ==> Wrote(before, out.stream, patience, all, out.w.log, out.w.patience)
    ensures ok ==> all == Wanted(up.events[..i + 1], wantsUsage)
    ensures !ok ==> out.w.log == before + all && Relayed(up, wantsUsage, out.stream, patience, i + 1, o.status, all)
  {
    hide *;
    var ev := up.events[i];
    OneMoreRelayed(up.events, i, wantsUsage, usage);
    if ev.usage.Some? {
      o.usage := ev.usage.value;
    }
    var skip := ev.usageOnly && !wantsUsage;
    if skip {
      return true, sent;
    }
    ghost var log, left := out.w.log, out.w.patience;
    WroteMore(before, out.stream, patience, sent, log, left, Body(ev.raw));
    ok := out.Send(ev);
    all := sent + [Body(ev.raw)];
    if !ok {
      o.status := ClientDisconnect;
      StopsWhenSendFails(up, wantsUsage, before, out.stream, patience, log, left, i);
      all := sent + if left > 0 then [Body(ev.raw)] else [];
    }
  }

  /** How a stream that was read to its end is accounted for. */
  method StreamEnded(up: Upstream, wantsUsage: bool, out: ClientStream, o: Outcome,
                     ghost before: seq<Wire>, ghost patience: nat, ghost sent: seq<Wire>)
    returns (ghost all: seq<Wire>)
    requires up.Streams? && up.events != [] && !up.events[|up.events| - 1].terminal && out.Valid() && out.committed
    requires sent == Wanted(up.events, wantsUsage)
    requires Wrote(before, out.stream, patience, sent, out.w.log, out.w.patience)
    modifies o`status, out.w
    ensures out.Valid() && out.w.log == before + all
    ensures Relayed(up, wantsUsage, out.stream, patience, |up.events|, o.status, all)
  {
    hide *;
    assert up.events[..|up.events|] == up.events;
    StopsWhenStreamEnds(up, wantsUsage, out.stream, patience, |up.events|);
    WroteIsLogged(before, out.stream, patience, sent, out.w.log, out.w.patience);
    all := sent;
    if up.end.eof {
      o.status := Done;
    } else if up.end.canceled || up.end.timedOut {
      o.status := ClientDisconnect;
    } else {
      o.status := Truncated;
      WroteMore(before, out.stream, patience, sent, out.w.log, out.w.patience, ErrorEvent(up.end.text));
      if out.w.patience > 0 {
        all := sent + [ErrorEvent(up.end.text)];
      }
      var _ := out.SendError(up.end.text);
    }
  }

  // ---------------------------------------------------------------- the ladder

  /** Whether the next target may be tried after this error. */
  predicate Retryable(err: Error) {
    !err.canceled && !err.timedOut && (err.provider.Some? ==> err.provider.value.retryable)
  }

  /** What is recorded of a failed attempt. */
  function FailureOf(err: Error): (f: AttemptFailure)
    ensures f.retryable <==> Retryable(err)
  {
    var f := match err.provider
      case Some(pe) => AttemptFailure(pe.kind, pe.statusCode, pe.message, pe.retryable)
      case None => AttemptFailure("unknown", 0, err.text, true);
    if err.canceled then f.(kind := "client_disconnect", retryable := false)
    else if err.timedOut then f.(kind := "timeout", retryable := false)
    else f
  }

  function AttemptOn(t: Target): Attempt {
    var err := t.Failure();
    Attempt(t.Name(), if err.Some? then Some(FailureOf(err.value)) else None)
  }

  /** How many targets fail, one after another, in a way that lets the next be tried. */
  function Climbed(ladder: seq<Target>): (k: nat)
    ensures k <= |ladder|
    ensures forall i :: 0 <= i < k ==> ladder[i].Failure().Some? && Retryable(ladder[i].Failure().value)
    ensures k < |ladder| ==> ladder[k].Failure().None? || !Retryable(ladder[k].Failure().value)
  {
    if ladder == [] || ladder[0].Failure().None? || !Retryable(ladder[0].Failure().value) then 0
    else 1 + Climbed(ladder[1..])
  }

  /** A target serves if the ladder gets to it and it yields an event. */
  predicate Serves(ladder: seq<Target>) {
    Climbed(ladder) < |ladder| && ladder[Climbed(ladder)].Failure().None?
  }

  /** The attempts are the first targets of the ladder, in order and truly told. */
  predicate Recorded(attempts: seq<Attempt>, ladder: seq<Target>) {
    && |attempts| <= |ladder|
    && forall i :: 0 <= i < |attempts| ==> attempts[i] == AttemptOn(ladder[i])
  }

  method TryTarget(t: Target, wantsUsage: bool, out: ClientStream, o: Outcome)
    returns (done: bool, err: Option<Error>, ghost n: nat, ghost sent: seq<Wire>)
    requires out.Valid() && !out.committed
    modifies o, out, out.w
    ensures out.Valid() && done == t.Failure().None? == out.committed
    ensures !done ==>
        && err == t.Failure()
        && unchanged(o) && unchanged(out.w)
    ensures done ==>
        && o.status != Exhausted && o.Passes()
        && o.attempts == old(o.attempts) + [AttemptOn(t)]
        && out.w.log == old(out.w.log) + [StatusLine(200)] + sent
        && Delivered(t.upstream, wantsUsage, out.stream, old(out.w.patience), n, old(o.usage), o.status, o.usage, sent)
  {
    if t.upstream.Refuses? {
      return false, Some(t.upstream.error), 0, [];
    }
    if t.upstream.events == [] {
      return false, Some(t.upstream.end), 0, [];
    }
    var elapsed: int := *;
    o.ttftMs := elapsed;
    o.Append(Attempt(t.Name(), None));
    var ok := out.Commit();
    if !ok {
      o.status := ClientDisconnect;
      return true, None, 0, [];
    }
    n, sent := Relay(t.upstream, wantsUsage, out, o);
    done, err := true, None;
  }

  /** After the status line, n events were read and relayed; none if the client had
      already gone. */
  ghost predicate Delivered(up: Upstream, wantsUsage: bool, stream: bool, patience: nat, n: nat,
                            usageBefore: TokenUsage, status: Status, usage: TokenUsage, sent: seq<Wire>) {
    && up.Streams? && n <= |up.events|
    && usage == Reported(usageBefore, up.events[..n])
    && (n == 0 <==> patience == 0)
    && if n == 0 then status == ClientDisconnect && sent == []
       else NoneTerminal(up.events[..n - 1]) && Relayed(up, wantsUsage, stream, patience - 1, n, status, sent)
  }

  lemma {:induction false} WantedOfPrefix(events: seq<StreamEvent>, n: nat, wantsUsage: bool)
    requires n <= |events|
    ensures Wanted(events[..n], wantsUsage) <= Wanted(events, wantsUsage)
  {
    if n == |events| {
      assert events[..n] == events;
    } else {
      var m := |events| - 1;
      WantedOfPrefix(events[..m], n, wantsUsage);
      assert events[..m][..n] == events[..n];
    }
  }

  /** The client sees a prefix of what it should of the serving stream, all of it if the
      stream broke off, and then perhaps a word about that. */
  lemma ClientSeesAPrefix(up: Upstream, wantsUsage: bool, stream: bool, patience: nat, n: nat, before: TokenUsage,
                          status: Status, usage: TokenUsage, sent: seq<Wire>)
    requires Delivered(up, wantsUsage, stream, patience, n, before, status, usage, sent)
    ensures || sent <= Wanted(up.events, wantsUsage)
            || (status == Truncated && sent == Wanted(up.events, wantsUsage) + [ErrorEvent(up.end.text)])
    ensures status == Truncated ==> Wanted(up.events, wantsUsage) <= sent
  {
    if n > 0 {
      WantedOfPrefix(up.events, n, wantsUsage);
      WantedOfPrefix(up.events, n - 1, wantsUsage);
      assert n == |up.events| ==> up.events[..n] == up.events;
    }
  }

  /** A client that stays to the end gets the whole stream up to its terminal event. The
      request is then done; without such an event it is if the stream ended cleanly, it is
      taken for abandoned if its context ended, and is otherwise broken off, which the client
      is told. */
  lemma {:induction false} WhoStaysGetsAll(
      up: Upstream, wantsUsage: bool, stream: bool, patience: nat, n: nat, before: TokenUsage, status: Status,
      usage: TokenUsage, sent: seq<Wire>, last: nat)
    requires Delivered(up, wantsUsage, stream, patience, n, before, status, usage, sent)
    requires patience > 1 + 2 * |up.events| && last < |up.events|
    requires forall i :: 0 <= i < last ==> !up.events[i].terminal
    requires up.events[last].terminal || last == |up.events| - 1
    ensures usage == Reported(before, up.events[..last + 1])
    ensures var all := Wanted(up.events[..last + 1], wantsUsage);
            if up.events[last].terminal || up.end.eof then status == Done && sent == all
            else if up.end.canceled || up.end.timedOut then status == ClientDisconnect && sent == all
            else status == Truncated && sent == all + [ErrorEvent(up.end.text)]
  {
    WantedIsShort(up.events[..n], wantsUsage);
    NoneBefore(up.events, n - 1);
  }

  lemma NoneBefore(events: seq<StreamEvent>, n: nat)
    requires n <= |events| && NoneTerminal(events[..n])
    ensures forall i :: 0 <= i < n ==> !events[i].terminal
  {
    forall i | 0 <= i < n ensures !events[i].terminal {
      assert events[..n][i] == events[i];
    }
  }

  lemma {:induction false} WantedIsShort(events: seq<StreamEvent>, wantsUsage: bool)
    ensures |Wanted(events, wantsUsage)| <= |events|
  {
    if events != [] {
      WantedIsShort(events[..|events| - 1], wantsUsage);
    }
  }

  /** What an attempt says of its target: whether it served, that is sent an event, and if it
      did not the provider's own account of why, if it gave one. */
  lemma ToldTruly(attempts: seq<Attempt>, ladder: seq<Target>, i: nat)
    requires Recorded(attempts, ladder) && i < |attempts|
    ensures attempts[i].target == if ladder[i].ref != "" then ladder[i].ref else "unnamed:" + ladder[i].model
    ensures attempts[i].failure.None? <==> ladder[i].upstream.Streams? && ladder[i].upstream.events != []
    ensures attempts[i].failure.Some? ==>
        var f := attempts[i].failure.value;
        var err := if ladder[i].upstream.Refuses? then ladder[i].upstream.error else ladder[i].upstream.end;
        && (err.provider.Some? ==>
              f.statusCode == err.provider.value.statusCode && f.message == err.provider.value.message)
        && (err.provider.None? ==> f.statusCode == 0 && f.message == err.text)
        && (err.canceled ==> f.kind == "client_disconnect")
        && (!err.canceled && err.timedOut ==> f.kind == "timeout")
        && (!err.canceled && !err.timedOut ==>
              f.kind == if err.provider.Some? then err.provider.value.kind else "unknown")
        && (f.retryable <==>
              !err.canceled && !err.timedOut && (err.provider.Some? ==> err.provider.value.retryable))
  {
    assert attempts[i] == AttemptOn(ladder[i]);
  }

  lemma RecordedMore(attempts: seq<Attempt>, ladder: seq<Target>)
    requires |attempts| < |ladder| && Recorded(attempts, ladder)
    ensures var t := ladder[|attempts|];
            && Recorded(attempts + [AttemptOn(t)], ladder)
            && AttemptOn(t).target != "" && AttemptOn(t).failure.Some? == t.Failure().Some?
  {
  }

  /** The ladder goes on after failures that let it, and after no other. */
  lemma {:induction false} ClimbedTells(attempts: seq<Attempt>, ladder: seq<Target>)
    requires Recorded(attempts, ladder)
    requires |attempts| == if Climbed(ladder) < |ladder| then Climbed(ladder) + 1 else |ladder|
    ensures forall i :: 0 <= i < |attempts| - 1 ==> attempts[i].failure.Some? && attempts[i].failure.value.retryable
    ensures 0 < |attempts| < |ladder| ==>
        attempts[|attempts| - 1].failure.Some? ==> !attempts[|attempts| - 1].failure.value.retryable
    ensures Serves(ladder) <==> attempts != [] && attempts[|attempts| - 1].failure.None?
  {
    forall i | 0 <= i < |attempts| - 1 ensures attempts[i].failure.Some? && attempts[i].failure.value.retryable {
      assert attempts[i] == AttemptOn(ladder[i]);
    }
    if attempts != [] {
      assert attempts[|attempts| - 1] == AttemptOn(ladder[|attempts| - 1]);
    }
  }

  /** Climbs the ladder until a target serves or failing over would not help. */
  method Run(ladder: seq<Target>, wantsUsage: bool, out: ClientStream)
    returns (o: Outcome, ghost n: nat, ghost sent: seq<Wire>)
    requires out.Valid() && !out.committed
    modifies out, out.w
    ensures fresh(o) && out.Valid() && o.Passes()
    ensures o.status != Unset && (o.status == Exhausted ==> o.ttftMs == 0)
    ensures Recorded(o.attempts, ladder)
    ensures |o.attempts| == if Climbed(ladder) < |ladder| then Climbed(ladder) + 1 else |ladder|
    ensures out.committed <==> Serves(ladder)
    ensures o.status == Exhausted <==> !Serves(ladder)
    ensures !Serves(ladder) ==> out.w.log == old(out.w.log) && o.usage == NoUsage()
    ensures Serves(ladder) ==>
        && out.w.log == old(out.w.log) + [StatusLine(200)] + sent
        && Delivered(ladder[Climbed(ladder)].upstream, wantsUsage, out.stream, old(out.w.patience), n, NoUsage(),
                     o.status, o.usage, sent)
  {
    assert Recorded([], ladder);
    hide Climbed, Serves, Delivered, Recorded, AttemptOn, Target.Failure, Target.Name;
    hide Retryable, FailureOf, StatusLines;
    o := new Outcome();
    n, sent := 0, [];
    for i := 0 to |ladder|
      invariant out.Valid() && !out.committed && unchanged(out.w)
      invariant fresh(o) && |o.attempts| == i && Recorded(o.attempts, ladder) && i <= Climbed(ladder)
      invariant o.ChosenTarget() == ""
      invariant o.usage == NoUsage() && o.ttftMs == 0
    {
      RecordedMore(o.attempts, ladder);
      var done, err;
      done, err, n, sent := TryTarget(ladder[i], wantsUsage, out, o);
      if done {
        return;
      }
      o.Append(AttemptOn(ladder[i]));
      if !Retryable(err.value) {
        break;
      }
    }
    o.status := Exhausted;
  }
}
