/**
 The Server-Sent Events wrapper of a log stream, on decoded text: each complete
 line becomes one event, a partial line waits for the next chunk, and pings fill
 the silences. The last part is the client side of the WHATWG HTML Standard.
 */
module SseStream {
  import opened Common
  import opened Strings

  const PING := ": ping\n\n"

  /** The events of the non-empty ones among `lines`. */
  function EventsOf(lines: seq<string>): string {
    if lines == [] then ""
    else (if lines[0] == "" then "" else "data: " + lines[0] + "\n\n") + EventsOf(lines[1..])
  }

  function SseData(payload: string): string {
    EventsOf(Split(payload, '\n'))
  }

  lemma EventsFrom(lines: seq<string>, i: nat, out: string)
    requires i <= |lines|
    ensures out + EventsOf(lines[i..]) ==
      if i == |lines| then out
      else if lines[i] == "" then out + EventsOf(lines[i + 1..])
      else out + ("data: " + lines[i] + "\n\n") + EventsOf(lines[i + 1..])
  {
    if i < |lines| {
      assert lines[i..][1..] == lines[i + 1..];
      var rest := EventsOf(lines[i + 1..]);
      hide EventsOf;
      assert out + ("data: " + lines[i] + "\n\n" + rest) == out + ("data: " + lines[i] + "\n\n") + rest;
    }
  }

  method EncodeEvents(payload: string) returns (out: string)
    ensures out == SseData(payload)
  {
    hide Split, EventsOf;
    var lines := Split(payload, '\n');
    out := "";
    var i := 0;
    while i < |lines|
      invariant 0 <= i <= |lines|
      invariant out + EventsOf(lines[i..]) == EventsOf(lines)
    {
      EventsFrom(lines, i, out);
      if lines[i] != "" {
        out := out + ("data: " + lines[i] + "\n\n");
      }
      i := i + 1;
    }
    EventsFrom(lines, i, out);
  }

  // ----- the wrapper -----

  datatype Event = Chunk(text: string) | End | Fail | Ping | Cancel

  datatype Wrap = Wrap(pending: string, stopped: bool, errored: bool, out: seq<string>)

  const OPEN := Wrap("", false, false, [])

  /** The length up to and including the last newline. */
  function CompleteLength(s: string): (n: nat)
    ensures n <= |s|
    ensures n > 0 ==> s[n - 1] == '\n'
    ensures forall k :: n <= k < |s| ==> s[k] != '\n'
  {
    if s == "" then 0 else if s[|s| - 1] == '\n' then |s| else CompleteLength(s[..|s| - 1])
  }

  function Step(w: Wrap, e: Event): Wrap {
    match e
    case Chunk(text) =>
      if w.stopped then w
      else
        var s := w.pending + text;
        var n := CompleteLength(s);
        if n == 0 then w.(pending := s)
        else w.(pending := s[n..], out := w.out + [SseData(s[..n])])
    case End =>
      if w.stopped then w
      else w.(stopped := true, out := w.out + (if w.pending == "" then [] else [SseData(w.pending)]))
    case Fail => if w.stopped then w else w.(stopped := true, errored := true)
    case Ping => if w.stopped then w else w.(out := w.out + [PING])
    case Cancel => w.(stopped := true)
  }

  function Run(w: Wrap, events: seq<Event>): Wrap
    decreases |events|
  {
    if events == [] then w else Step(Run(w, events[..|events| - 1]), events[|events| - 1])
  }

  method LastNewline(s: string) returns (n: nat)
    ensures n == CompleteLength(s)
  {
    n := |s|;
    while n > 0 && s[n - 1] != '\n'
      invariant 0 <= n <= |s|
      invariant CompleteLength(s) == CompleteLength(s[..n])
    {
      assert s[..n][..n - 1] == s[..n - 1];
      n := n - 1;
    }
    if n > 0 {
      assert s[..n][n - 1] == '\n';
    }
  }

  class SseWrap {
    var pending: string
    var stopped: bool
    var errored: bool
    var out: seq<string>

    ghost function View(): Wrap
      reads this
    {
      Wrap(pending, stopped, errored, out)
    }

    constructor ()
      ensures View() == OPEN
    {
      pending, stopped, errored, out := "", false, false, [];
    }

    /** A read of the upstream settles with text. */
    method OnChunk(text: string)
      modifies this
      ensures View() == Step(old(View()), Chunk(text))
    {
      if stopped {
        return;
      }
      pending := pending + text;
      var last := LastNewline(pending);
      if last > 0 {
        var encoded := EncodeEvents(pending[..last]);
        out := out + [encoded];
        pending := pending[last..];
      }
    }

    /** A read settles with the end of the upstream. */
    method OnEnd()
      modifies this
      ensures View() == Step(old(View()), End)
    {
      if stopped {
        return;
      }
      if pending != "" {
        var encoded := EncodeEvents(pending);
        out := out + [encoded];
      }
      stopped := true;
    }

    method OnFail()
      modifies this
      ensures View() == Step(old(View()), Fail)
    {
      if !stopped {
        errored := true;
      }
      stopped := true;
    }

    method OnPing()
      modifies this
      ensures View() == Step(old(View()), Ping)
    {
      if !stopped {
        out := out + [PING];
      }
    }

    method OnCancel()
      modifies this
      ensures View() == Step(old(View()), Cancel)
    {
      stopped := true;
    }
  }

  // ----- chunking does not matter -----

  function Received(events: seq<Event>): string
    decreases |events|
  {
    if events == [] then ""
    else
      var last := events[|events| - 1];
      Received(events[..|events| - 1]) + (if last.Chunk? then last.text else "")
  }

  predicate OnlyData(events: seq<Event>) {
    forall k :: 0 <= k < |events| ==> events[k].Chunk? || events[k].Ping?
  }

  /** What was sent, pings dropped. */
  function DataOf(out: seq<string>): string
    decreases |out|
  {
    if out == [] then "" else DataOf(out[..|out| - 1]) + (if out[|out| - 1] == PING then "" else out[|out| - 1])
  }

  lemma EventsOfIsNoPing(lines: seq<string>)
    ensures EventsOf(lines) == "" || EventsOf(lines)[0] == 'd'
  {
  }

  lemma DataOfSnoc(out: seq<string>, payload: string)
    ensures DataOf(out + [SseData(payload)]) == DataOf(out) + SseData(payload)
    ensures DataOf(out + [PING]) == DataOf(out)
  {
    EventsOfIsNoPing(Split(payload, '\n'));
    assert (out + [SseData(payload)])[..|out|] == out;
    assert (out + [PING])[..|out|] == out;
  }

  /** Cutting a text behind a newline cuts its events there. */
  lemma {:induction false} DataAppend(a: string, b: string)
    requires a == "" || a[|a| - 1] == '\n'
    ensures SseData(a + b) == SseData(a) + SseData(b)
    decreases |a|
  {
    hide SseData;
    if a == "" {
      assert a + b == b;
      EmptyData();
    } else {
      var first, rest := CutAtFirst(a, '\n');
      assert a + b == first + ['\n'] + (rest + b);
      assert rest != "" ==> rest[|rest| - 1] == a[|a| - 1];
      DataAppend(rest, b);
      DataCons(first, rest);
      DataCons(first, rest + b);
    }
  }

  lemma DataCons(first: string, rest: string)
    requires '\n' !in first
    ensures SseData(first + ['\n'] + rest) == EventsOf([first]) + SseData(rest)
  {
    SplitCons(first, rest, '\n');
    var lines := [first] + Split(rest, '\n');
    assert lines[1..] == Split(rest, '\n');
    assert EventsOf([first]) == if first == "" then "" else "data: " + first + "\n\n";
  }

  lemma CompleteLengthIs(s: string, n: nat)
    requires n <= |s| && (n > 0 ==> s[n - 1] == '\n') && forall k :: n <= k < |s| ==> s[k] != '\n'
    ensures CompleteLength(s) == n
  {
  }

  /** At every point the client has the events of the complete lines received, and the rest is pending. */
  lemma {:induction false} SentSoFar(events: seq<Event>)
    requires OnlyData(events)
    ensures var w := Run(OPEN, events);
            var text := Received(events);
            var n := CompleteLength(text);
            !w.stopped && w.pending == text[n..] && DataOf(w.out) == SseData(text[..n])
    decreases |events|
  {
    hide SseData, CompleteLength;
    if events == [] {
      EmptyData();
    } else {
      var init, last := events[..|events| - 1], events[|events| - 1];
      SentSoFar(init);
      var w, text := Run(OPEN, init), Received(init);
      if last.Ping? {
        DataOfSnoc(w.out, "");
        assert text + "" == text;
      } else {
        ChunkSent(w, text, last.text);
      }
    }
  }

  lemma CutAfter(done: string, s: string, n: nat)
    requires n <= |s|
    ensures (done + s)[..|done| + n] == done + s[..n] && (done + s)[|done| + n..] == s[n..]
  {
  }

  lemma ChunkSent(w: Wrap, text: string, more: string)
    requires !w.stopped && w.pending == text[CompleteLength(text)..]
    requires DataOf(w.out) == SseData(text[..CompleteLength(text)])
    ensures var v := Step(w, Chunk(more));
            var n := CompleteLength(text + more);
            !v.stopped && v.pending == (text + more)[n..] && DataOf(v.out) == SseData((text + more)[..n])
  {
    hide SseData, CompleteLength, DataOf;
    var c := CompleteLength(text);
    var done, s := text[..c], w.pending + more;
    var n := CompleteLength(s);
    Regroup(text, c, more);
    CompleteOfAppend(done, s);
    CutAfter(done, s, n);
    if n == 0 {
      assert done + s[..0] == done && s[0..] == s;
    } else {
      DataAppend(done, s[..n]);
      DataOfSnoc(w.out, s[..n]);
    }
  }

  lemma Regroup(text: string, c: nat, more: string)
    requires c <= |text|
    ensures text + more == text[..c] + (text[c..] + more)
  {
  }

  lemma CompleteOfAppend(a: string, b: string)
    requires a == "" || a[|a| - 1] == '\n'
    ensures CompleteLength(a + b) == |a| + CompleteLength(b)
  {
    var n := CompleteLength(b);
    assert forall k :: |a| + n <= k < |a + b| ==> (a + b)[k] == b[k - |a|];
    CompleteLengthIs(a + b, |a| + n);
  }

  /** Whatever the chunks and wherever the pings fall, the whole stream carries the events of the whole text. */
  lemma WholeStream(events: seq<Event>)
    requires OnlyData(events)
    ensures DataOf(Run(OPEN, events + [End]).out) == SseData(Received(events))
  {
    hide SseData, DataOf, CompleteLength;
    var text, w := Received(events), Run(OPEN, events);
    var n := CompleteLength(text);
    SentSoFar(events);
    assert (events + [End])[..|events|] == events;
    assert text[..n] + text[n..] == text;
    DataAppend(text[..n], text[n..]);
    DataOfSnoc(w.out, w.pending);
    EmptyData();
    assert w.out + [] == w.out;
    assert SseData(text[..n]) + "" == SseData(text[..n]);
  }

  lemma EmptyData()
    ensures SseData("") == ""
  {
    assert Split("", '\n') == [""];
  }

  /** Once the client has cancelled, or the upstream has ended or failed, nothing more is sent. */
  lemma {:induction false} NothingAfterStop(w: Wrap, events: seq<Event>)
    requires w.stopped
    ensures Run(w, events) == w
    decreases |events|
  {
    if events != [] {
      NothingAfterStop(w, events[..|events| - 1]);
    }
  }

  /** What puts an end to the stream. */
  predicate Stops(e: Event) {
    e.End? || e.Fail? || e.Cancel?
  }

  ghost predicate StillOpen(events: seq<Event>, k: nat)
    requires k <= |events|
  {
    forall j :: 0 <= j < k ==> !Stops(events[j])
  }

  /** How many of `items` are pings, and how many pings fell due before the stream stopped. */
  function PingsIn(items: seq<string>): nat {
    if items == [] then 0 else PingsIn(items[..|items| - 1]) + if items[|items| - 1] == ": ping\n\n" then 1 else 0
  }

  ghost function PingsDue(events: seq<Event>): nat
    decreases |events|
  {
    if events == [] then 0
    else
      var n := |events| - 1;
      PingsDue(events[..n]) + if events[n].Ping? && StillOpen(events, n) then 1 else 0
  }

  lemma PingsSnoc(items: seq<string>, item: string)
    ensures PingsIn(items + [item]) == PingsIn(items) + if item == ": ping\n\n" then 1 else 0
  {
    assert (items + [item])[..|items|] == items;
  }

  lemma {:induction false} EventsAreNoPing(lines: seq<string>)
    ensures EventsOf(lines) == "" || EventsOf(lines)[0] == 'd'
  {
    if lines != [] {
      EventsAreNoPing(lines[1..]);
    }
  }

  lemma DataIsNoPing(payload: string)
    ensures SseData(payload) != ": ping\n\n"
  {
    EventsAreNoPing(Split(payload, '\n'));
    hide EventsOf;
    assert ": ping\n\n"[0] == ':';
  }

  lemma StepPings(w: Wrap, e: Event)
    ensures PingsIn(Step(w, e).out) == PingsIn(w.out) + if e.Ping? && !w.stopped then 1 else 0
  {
    hide SseData, CompleteLength, PingsIn;
    forall payload
      ensures PingsIn(w.out + [SseData(payload)]) == PingsIn(w.out)
    {
      DataIsNoPing(payload);
      PingsSnoc(w.out, SseData(payload));
    }
    PingsSnoc(w.out, PING);
    assert w.out + [] == w.out;
  }

  /**
   The first of an end, a failure and a cancel stops the stream, and it is an error
   only when that is a failure. Every ping that falls due before then is sent, as
   it stands, and none after.
   */
  lemma {:induction false} StopsAtTheFirst(events: seq<Event>)
    ensures var w := Run(OPEN, events);
            && (w.stopped <==> !StillOpen(events, |events|))
            && (w.errored <==> exists k: nat :: k < |events| && events[k].Fail? && StillOpen(events, k))
            && PingsIn(w.out) == PingsDue(events)
    decreases |events|
  {
    hide PingsIn, SseData, CompleteLength;
    if events != [] {
      var n := |events| - 1;
      var init := events[..n];
      StopsAtTheFirst(init);
      StepPings(Run(OPEN, init), events[n]);
      assert forall k: nat :: k <= n ==> (StillOpen(events, k) <==> StillOpen(init, k));
      assert StillOpen(events, n + 1) <==> StillOpen(events, n) && !Stops(events[n]);
    } else {
      assert PingsIn([]) == 0 by {
        NoPings();
      }
    }
  }

  lemma NoPings()
    ensures PingsIn([]) == 0
  {
  }

  // ----- the client: sections 9.2.5 and 9.2.6 of the WHATWG HTML Standard -----

  predicate EndsLine(c: char) {
    c == '\r' || c == '\n'
  }

  function LineLength(s: string): (n: nat)
    ensures n <= |s|
    ensures n < |s| ==> EndsLine(s[n])
    ensures forall k :: 0 <= k < n ==> !EndsLine(s[k])
  {
    if s == "" || EndsLine(s[0]) then 0 else 1 + LineLength(s[1..])
  }

  /** What a line of the stream adds to the data buffer. */
  function DataField(line: string): string {
    var colon := Find(line, ':');
    if line[..colon] != "data" then ""
    else if colon == |line| then "\n"
    else
      var value := line[colon + 1..];
      (if value != "" && value[0] == ' ' then value[1..] else value) + "\n"
  }

  /** What follows a line of length `n`; CR LF ends one line, not two. */
  function AfterLine(s: string, n: nat): (rest: string)
    requires n < |s|
    ensures |rest| < |s|
  {
    if s[n] == '\r' && n + 1 < |s| && s[n + 1] == '\n' then s[n + 2..] else s[n + 1..]
  }

  /** The data of the events dispatched from `s`, with `data` already in the data buffer. */
  function Dispatched(s: string, data: string): seq<string>
    decreases |s|
  {
    var n := LineLength(s);
    if n == |s| then []
    else
      var rest := AfterLine(s, n);
      if n == 0 then (if data == "" then [] else [data[..|data| - 1]]) + Dispatched(rest, "")
      else Dispatched(rest, data + DataField(s[..n]))
  }

  function NonEmpty(lines: seq<string>): seq<string> {
    if lines == [] then [] else (if lines[0] == "" then [] else [lines[0]]) + NonEmpty(lines[1..])
  }

  /** A carriage return, if there is one, ends the line. */
  predicate ReturnOnlyAtEnd(line: string) {
    forall k :: 0 <= k < |line| - 1 ==> line[k] != '\r'
  }

  function DropReturn(line: string): string {
    if line != "" && line[|line| - 1] == '\r' then line[..|line| - 1] else line
  }

  function DropReturns(lines: seq<string>): seq<string> {
    if lines == [] then [] else [DropReturn(lines[0])] + DropReturns(lines[1..])
  }

  /** What comes after `s` is parsed as if it stood alone. */
  ghost predicate Clean(s: string) {
    forall rest :: Dispatched(s + rest, "") == Dispatched(s, "") + Dispatched(rest, "")
  }

  lemma LineLengthIs(s: string, n: nat)
    requires n < |s| && EndsLine(s[n]) && forall k :: 0 <= k < n ==> !EndsLine(s[k])
    ensures LineLength(s) == n
  {
  }

  /** One line, its terminator, and what follows. */
  lemma DispatchLine(line: string, end: string, rest: string, data: string)
    requires forall k :: 0 <= k < |line| ==> !EndsLine(line[k])
    requires end == "\n" || end == "\r\n"
    ensures Dispatched(line + end + rest, data) ==
            if line == "" then (if data == "" then [] else [data[..|data| - 1]]) + Dispatched(rest, "")
            else Dispatched(rest, data + DataField(line))
  {
    var s := line + end + rest;
    LineLengthIs(s, |line|);
    assert s[..|line|] == line && s[|line| + |end|..] == rest;
  }

  lemma PingIsSilent(rest: string)
    ensures Dispatched(PING + rest, "") == Dispatched(rest, "")
  {
    var line := ": ping";
    assert PING + rest == line + "\n" + ("" + "\n" + rest);
    DispatchLine(line, "\n", "" + "\n" + rest, "");
    DispatchLine("", "\n", rest, "");
    assert line[0] == ':' && line[..0] == "";
    FindIs(line, ':', 0);
    assert DataField(line) == "";
  }

  lemma FieldOfEvent(value: string)
    ensures DataField("data: " + value) == value + "\n"
  {
    var line := "data: " + value;
    assert line[..4] == "data" && line[4] == ':' && line[5..] == " " + value;
    FindIs(line, ':', 4);
    assert (" " + value)[1..] == value;
  }

  lemma EventDispatches(line: string, rest: string)
    requires '\n' !in line && ReturnOnlyAtEnd(line)
    ensures Dispatched("data: " + line + "\n\n" + rest, "") == [DropReturn(line)] + Dispatched(rest, "")
  {
    var value := DropReturn(line);
    var end := if value == line then "\n" else "\r\n";
    var text := "data: " + value;
    var tail := "" + "\n" + rest;
    if value != line {
      assert line == value + "\r";
    }
    assert "data: " + line + "\n\n" + rest == text + end + tail;
    DispatchLine(text, end, tail, "");
    DispatchLine("", "\n", rest, value + "\n");
    FieldOfEvent(value);
    assert "" + (value + "\n") == value + "\n" && (value + "\n")[..|value|] == value;
  }

  lemma OneMoreEvent(line: string, tail: string, more: seq<string>, rest: string)
    requires '\n' !in line && ReturnOnlyAtEnd(line)
    requires Dispatched(tail + rest, "") == DropReturns(more) + Dispatched(rest, "")
    ensures Dispatched("data: " + line + "\n\n" + tail + rest, "") == DropReturns([line] + more) + Dispatched(rest, "")
  {
    hide Dispatched;
    EventDispatches(line, tail + rest);
    assert "data: " + line + "\n\n" + tail + rest == "data: " + line + "\n\n" + (tail + rest);
    assert ([line] + more)[1..] == more;
  }

  lemma {:induction false} EventsDispatch(lines: seq<string>, rest: string)
    requires forall k :: 0 <= k < |lines| ==> '\n' !in lines[k] && ReturnOnlyAtEnd(lines[k])
    ensures Dispatched(EventsOf(lines) + rest, "") == DropReturns(NonEmpty(lines)) + Dispatched(rest, "")
    decreases |lines|
  {
    hide Dispatched, DropReturns, ReturnOnlyAtEnd;
    if lines == [] {
      assert "" + rest == rest;
      NoEvents(rest);
    } else {
      EventsDispatch(lines[1..], rest);
      if lines[0] == "" {
        assert EventsOf(lines) == EventsOf(lines[1..]);
        assert NonEmpty(lines) == NonEmpty(lines[1..]);
      } else {
        OneMoreEvent(lines[0], EventsOf(lines[1..]), NonEmpty(lines[1..]), rest);
      }
    }
  }

  lemma NoEvents(rest: string)
    ensures DropReturns([]) + Dispatched(rest, "") == Dispatched(rest, "")
  {
  }

  function Flatten(out: seq<string>): string
    decreases |out|
  {
    if out == [] then "" else Flatten(out[..|out| - 1]) + out[|out| - 1]
  }

  /** A piece the wrapper sends. */
  ghost predicate Piece(p: string) {
    p == PING || exists payload: string :: LinesEndClean(payload) && p == SseData(payload)
  }

  predicate LinesEndClean(text: string) {
    forall k :: 0 <= k < |Split(text, '\n')| ==> ReturnOnlyAtEnd(Split(text, '\n')[k])
  }

  lemma PingIsClean()
    ensures Clean(PING) && Dispatched(PING, "") == []
  {
    EmptyDispatchesNothing();
    hide Dispatched;
    PingIsSilent("");
    assert PING + "" == PING;
    forall rest: string
      ensures Dispatched(PING + rest, "") == Dispatched(PING, "") + Dispatched(rest, "")
    {
      PingIsSilent(rest);
    }
  }

  lemma DataIsClean(lines: seq<string>)
    requires forall k :: 0 <= k < |lines| ==> '\n' !in lines[k] && ReturnOnlyAtEnd(lines[k])
    ensures Clean(EventsOf(lines))
  {
    var p := EventsOf(lines);
    EmptyDispatchesNothing();
    hide Dispatched, EventsOf, DropReturns, NonEmpty, ReturnOnlyAtEnd;
    EventsDispatch(lines, "");
    assert p + "" == p;
    forall rest: string
      ensures Dispatched(p + rest, "") == Dispatched(p, "") + Dispatched(rest, "")
    {
      EventsDispatch(lines, rest);
    }
  }

  lemma PieceIsClean(p: string)
    requires Piece(p)
    ensures Clean(p) && (p == PING ==> Dispatched(p, "") == [])
  {
    hide Dispatched, Clean, EventsOf;
    PingIsClean();
    if p != PING {
      var payload: string :| LinesEndClean(payload) && p == SseData(payload);
      DataIsClean(Split(payload, '\n'));
    }
  }

  lemma CleanThen(a: string, rest: string)
    requires Clean(a)
    ensures Dispatched(a + rest, "") == Dispatched(a, "") + Dispatched(rest, "")
  {
  }

  lemma CleanConcatThen(a: string, b: string, rest: string)
    requires Clean(a) && Clean(b)
    ensures Dispatched(a + b, "") == Dispatched(a, "") + Dispatched(b, "")
    ensures Dispatched(a + b + rest, "") == Dispatched(a + b, "") + Dispatched(rest, "")
  {
    hide Dispatched, Clean;
    assert a + b + rest == a + (b + rest);
    CleanThen(a, b + rest);
    CleanThen(b, rest);
    CleanThen(a, b);
  }

  lemma CleanConcat(a: string, b: string)
    requires Clean(a) && Clean(b)
    ensures Clean(a + b) && Dispatched(a + b, "") == Dispatched(a, "") + Dispatched(b, "")
  {
    hide Dispatched;
    CleanConcatThen(a, b, "");
    forall rest: string
      ensures Dispatched(a + b + rest, "") == Dispatched(a + b, "") + Dispatched(rest, "")
    {
      CleanConcatThen(a, b, rest);
    }
  }

  /** Pings make no difference to the client. */
  lemma {:induction false} PingsAreIgnored(out: seq<string>)
    requires forall k :: 0 <= k < |out| ==> Piece(out[k])
    ensures Clean(Flatten(out)) && Clean(DataOf(out)) && Dispatched(Flatten(out), "") == Dispatched(DataOf(out), "")
    decreases |out|
  {
    if out == [] {
      CleanEmpty();
    } else {
      hide Dispatched, Clean, Piece;
      var init, last := out[..|out| - 1], out[|out| - 1];
      PingsAreIgnored(init);
      PieceIsClean(last);
      CleanConcat(Flatten(init), last);
      CleanConcat(DataOf(init), last);
      assert DataOf(init) + "" == DataOf(init);
    }
  }

  lemma CleanEmpty()
    ensures Clean("")
  {
    assert Dispatched("", "") == [];
    forall rest: string
      ensures Dispatched("" + rest, "") == Dispatched("", "") + Dispatched(rest, "")
    {
      assert "" + rest == rest;
    }
  }

  // ----- the client recovers the lines -----

  /** A carriage return is followed by a newline, if by anything. */
  predicate ReturnsPlaced(text: string) {
    forall k :: 0 <= k < |text| - 1 && text[k] == '\r' ==> text[k + 1] == '\n'
  }

  lemma PlacedPart(text: string, from: nat, to: nat)
    requires from <= to <= |text| && ReturnsPlaced(text)
    ensures ReturnsPlaced(text[from..to])
    ensures '\n' !in text[from..to] ==> ReturnOnlyAtEnd(text[from..to])
  {
    var part := text[from..to];
    assert forall k :: 0 <= k < |part| ==> part[k] == text[from + k];
    if '\n' !in part {
      forall k | 0 <= k < |part| - 1
        ensures part[k] != '\r'
      {
        assert part[k + 1] in part;
      }
    }
  }

  lemma CleanCons(first: string, rest: string)
    requires '\n' !in first && ReturnOnlyAtEnd(first) && LinesEndClean(rest)
    ensures LinesEndClean(first + ['\n'] + rest)
  {
    SplitCons(first, rest, '\n');
    hide Split, ReturnOnlyAtEnd;
    var lines, tail := Split(first + ['\n'] + rest, '\n'), Split(rest, '\n');
    assert forall k :: 0 < k < |lines| ==> lines[k] == tail[k - 1];
  }

  lemma {:induction false} PlacedLines(text: string)
    requires ReturnsPlaced(text)
    ensures LinesEndClean(text)
    decreases |text|
  {
    PlacedPart(text, 0, |text|);
    assert text[0..|text|] == text;
    if '\n' in text {
      var first, rest := CutAtFirst(text, '\n');
      PlacedPart(text, 0, |first|);
      PlacedPart(text, |first| + 1, |text|);
      assert text[0..|first|] == first && text[|first| + 1..|text|] == rest;
      hide ReturnsPlaced, LinesEndClean, ReturnOnlyAtEnd;
      PlacedLines(rest);
      CleanCons(first, rest);
    } else {
      assert Split(text, '\n') == [text];
    }
  }

  lemma RunLast(w: Wrap, events: seq<Event>)
    requires events != []
    ensures Run(w, events) == Step(Run(w, events[..|events| - 1]), events[|events| - 1])
  {
  }

  lemma PieceStep(w: Wrap, e: Event)
    requires e.Ping? || e.Chunk?
    requires forall k :: 0 <= k < |w.out| ==> Piece(w.out[k])
    requires e.Chunk? && !w.stopped ==> ReturnsPlaced(w.pending + e.text)
    ensures var v := Step(w, e);
            forall k :: 0 <= k < |v.out| ==> Piece(v.out[k])
  {
    hide SseData;
    if e.Chunk? {
      var s := w.pending + e.text;
      var n := CompleteLength(s);
      if !w.stopped {
        PlacedPart(s, 0, n);
        assert s[0..n] == s[..n];
        PlacedLines(s[..n]);
        DataIsPiece(s[..n]);
      }
    }
  }

  lemma TailGrows(text: string, more: string, c: nat)
    requires c <= |text|
    ensures (text + more)[c..|text + more|] == text[c..] + more
  {
  }

  lemma {:induction false} PiecesSent(events: seq<Event>)
    requires OnlyData(events) && ReturnsPlaced(Received(events))
    ensures var w := Run(OPEN, events);
            forall k :: 0 <= k < |w.out| ==> Piece(w.out[k])
    decreases |events|
  {
    hide SseData, CompleteLength, Piece, Step, ReturnsPlaced;
    if events != [] {
      RunLast(OPEN, events);
      hide Run;
      var init, last := events[..|events| - 1], events[|events| - 1];
      var text, whole := Received(init), Received(events);
      PlacedPart(whole, 0, |text|);
      assert whole[0..|text|] == text;
      PiecesSent(init);
      SentSoFar(init);
      var c := CompleteLength(text);
      PlacedPart(whole, c, |whole|);
      hide Received, OnlyData;
      if last.Chunk? {
        TailGrows(text, last.text, c);
      }
      PieceStep(Run(OPEN, init), last);
    }
  }

  lemma LastPieceIsClean(events: seq<Event>)
    requires OnlyData(events) && ReturnsPlaced(Received(events))
    ensures LinesEndClean(Run(OPEN, events).pending)
  {
    hide SseData, CompleteLength, Run, Received;
    var text, w := Received(events), Run(OPEN, events);
    SentSoFar(events);
    assert forall k :: 0 <= k < |w.pending| ==> w.pending[k] == text[CompleteLength(text) + k];
    PlacedLines(w.pending);
  }

  lemma PiecesAfterEnd(events: seq<Event>)
    requires OnlyData(events) && ReturnsPlaced(Received(events))
    ensures var out := Run(OPEN, events + [End]).out; forall k :: 0 <= k < |out| ==> Piece(out[k])
  {
    hide SseData, CompleteLength, Piece, Received, LinesEndClean;
    var w := Run(OPEN, events);
    PiecesSent(events);
    LastPieceIsClean(events);
    assert (events + [End])[..|events|] == events;
    DataIsPiece(w.pending);
  }

  /** When carriage returns only end lines, the client gets every non-empty line, in order, without them. */
  lemma ClientGetsLines(events: seq<Event>)
    requires OnlyData(events) && ReturnsPlaced(Received(events))
    ensures Dispatched(Flatten(Run(OPEN, events + [End]).out), "") == DropReturns(NonEmpty(Split(Received(events), '\n')))
  {
    hide Dispatched, EventsOf, Piece, CompleteLength, Received, Run, Flatten, OnlyData, DataOf, DropReturns, NonEmpty, Split;
    var text, out := Received(events), Run(OPEN, events + [End]).out;
    PiecesAfterEnd(events);
    WholeStream(events);
    PingsAreIgnored(out);
    PlacedLines(text);
    EventsDispatch(Split(text, '\n'), "");
    assert SseData(text) + "" == SseData(text);
    EmptyDispatchesNothing();
  }

  lemma DataIsPiece(payload: string)
    requires LinesEndClean(payload)
    ensures Piece(SseData(payload))
  {
  }

  lemma EmptyDispatchesNothing()
    ensures Dispatched("", "") == []
  {
  }

  predicate HasReturn(lines: seq<string>) {
    lines != [] && ('\r' in lines[0] || HasReturn(lines[1..]))
  }

  lemma HasReturnCons(line: string, lines: seq<string>)
    ensures HasReturn([line] + lines) <==> '\r' in line || HasReturn(lines)
  {
    assert ([line] + lines)[1..] == lines;
  }

  lemma EmptyHasNoReturn()
    ensures !HasReturn([])
  {
  }

  lemma DispatchedAfterBlank(data: string, rest: seq<string>)
    requires '\r' !in data && !HasReturn(rest)
    ensures !HasReturn((if data == "" then [] else [data[..|data| - 1]]) + rest)
  {
    if data == "" {
      assert [] + rest == rest;
    } else {
      HasReturnCons(data[..|data| - 1], rest);
    }
  }

  lemma FieldHasNoReturn(line: string)
    requires '\r' !in line
    ensures '\r' !in DataField(line)
  {
  }

  lemma LineHasNoReturn(s: string)
    ensures '\r' !in s[..LineLength(s)]
  {
    var n := LineLength(s);
    hide LineLength;
    assert forall k :: 0 <= k < n ==> s[..n][k] != '\r';
  }

  lemma {:induction false} NoReturnDispatched(s: string, data: string)
    requires '\r' !in data
    ensures !HasReturn(Dispatched(s, data))
    decreases |s|
  {
    hide LineLength, DataField, HasReturn, AfterLine;
    var n := LineLength(s);
    if n == |s| {
      EmptyHasNoReturn();
    } else {
      var rest := AfterLine(s, n);
      LineHasNoReturn(s);
      FieldHasNoReturn(s[..n]);
      NoReturnDispatched(rest, if n == 0 then "" else data + DataField(s[..n]));
      if n == 0 {
        DispatchedAfterBlank(data, Dispatched(rest, ""));
      }
    }
  }

  lemma {:induction false} NonEmptyKeepsReturns(lines: seq<string>)
    ensures HasReturn(NonEmpty(lines)) <==> HasReturn(lines)
  {
    if lines != [] {
      NonEmptyKeepsReturns(lines[1..]);
      HasReturnCons(lines[0], NonEmpty(lines[1..]));
      assert lines[0] == "" ==> NonEmpty(lines) == NonEmpty(lines[1..]);
    }
  }

  lemma {:induction false} ReturnInSomeLine(text: string)
    ensures '\r' in text <==> HasReturn(Split(text, '\n'))
    decreases |text|
  {
    if '\n' in text {
      var first, rest := CutAtFirst(text, '\n');
      ReturnInSomeLine(rest);
      SplitCons(first, rest, '\n');
      hide Split;
      HasReturnCons(first, Split(rest, '\n'));
    } else {
      assert Split(text, '\n') == [text];
    }
  }

  lemma {:induction false} NothingToDrop(lines: seq<string>)
    requires !HasReturn(lines)
    ensures DropReturns(lines) == lines
  {
    if lines != [] {
      NothingToDrop(lines[1..]);
    }
  }

  /** The client gets exactly the non-empty lines if and only if the text holds no carriage return. */
  lemma ExactlyLinesWithoutReturn(events: seq<Event>)
    requires OnlyData(events)
    ensures Dispatched(Flatten(Run(OPEN, events + [End]).out), "") == NonEmpty(Split(Received(events), '\n'))
            <==> '\r' !in Received(events)
  {
    hide Dispatched, Run, NonEmpty, DropReturns;
    var text := Received(events);
    ReturnInSomeLine(text);
    NonEmptyKeepsReturns(Split(text, '\n'));
    NoReturnDispatched(Flatten(Run(OPEN, events + [End]).out), "");
    if '\r' !in text {
      ClientGetsLines(events);
      NothingToDrop(NonEmpty(Split(text, '\n')));
    }
  }
}
