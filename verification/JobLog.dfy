/** The bounded, numbered log of a backup job, and the client that drains it by cursor. */
module JobLog {
  import opened Common

  const MAX_MESSAGE := 2000

  datatype Line = Line(number: int, message: string)

  datatype Log = Log(lines: seq<Line>, nextSeq: int, dropped: int)

  const EMPTY := Log([], 1, 0)

  function Shortened(message: string): string {
    if |message| <= MAX_MESSAGE then message else message[..MAX_MESSAGE]
  }

  /** `splice(0, n)`: drops the first `n` elements, or all of them. */
  function DropFirst<T>(s: seq<T>, n: int): seq<T> {
    if n <= 0 then s else if n >= |s| then [] else s[n..]
  }

  function Append(l: Log, cap: int, message: string): Log {
    var lines := l.lines + [Line(l.nextSeq, Shortened(message))];
    var overflow := |lines| - cap;
    if overflow > 0
    then Log(DropFirst(lines, overflow), l.nextSeq + 1, l.dropped + overflow)
    else Log(lines, l.nextSeq + 1, l.dropped)
  }

  /** The log after all of `messages`, in order. */
  function LogOf(messages: seq<string>, cap: int): Log
    decreases |messages|
  {
    if messages == [] then EMPTY else Append(LogOf(messages[..|messages| - 1], cap), cap, messages[|messages| - 1])
  }

  function After(lines: seq<Line>, cursor: int): seq<Line> {
    if lines == [] then [] else (if lines[0].number > cursor then [lines[0]] else []) + After(lines[1..], cursor)
  }

  /** Every message ever logged, numbered from 1. */
  function Numbered(messages: seq<string>): (lines: seq<Line>)
    ensures |lines| == |messages|
    ensures forall k :: 0 <= k < |lines| ==> lines[k] == Line(k + 1, Shortened(messages[k]))
  {
    seq(|messages|, k requires 0 <= k < |messages| => Line(k + 1, Shortened(messages[k])))
  }

  // ----- what the log holds -----

  lemma AppendHoldsNewest(messages: seq<string>, message: string, cap: int)
    requires cap >= 0
    ensures var dropped, now := Max(0, |messages| - cap), Max(0, |messages| + 1 - cap);
            Append(Log(Numbered(messages)[dropped..], |messages| + 1, dropped), cap, message)
              == Log(Numbered(messages + [message])[now..], |messages| + 2, now)
  {
    hide Shortened;
    var all, next := Numbered(messages), Numbered(messages + [message]);
    assert next == all + [Line(|messages| + 1, Shortened(message))];
  }

  /** With a cap of at least zero the log holds the newest lines, as many as the cap allows, and counts the rest. */
  lemma {:induction false} LogHoldsNewest(messages: seq<string>, cap: int)
    requires cap >= 0
    ensures var l := LogOf(messages, cap);
            && l.nextSeq == |messages| + 1
            && l.dropped == Max(0, |messages| - cap)
            && l.lines == Numbered(messages)[l.dropped..]
    decreases |messages|
  {
    if messages != [] {
      var init := messages[..|messages| - 1];
      LogHoldsNewest(init, cap);
      assert messages == init + [messages[|messages| - 1]];
      AppendHoldsNewest(init, messages[|messages| - 1], cap);
    }
  }

  /**
   Each retained line is numbered by its place among all messages and holds as much of
   its message as fits in 2000.
   */
  lemma LinesAreShortened(messages: seq<string>, cap: int, k: nat)
    requires cap >= 0 && k < |LogOf(messages, cap).lines|
    ensures var line := LogOf(messages, cap).lines[k];
            && 1 <= line.number <= |messages|
            && line.number == |messages| - |LogOf(messages, cap).lines| + 1 + k
            && line.message <= messages[line.number - 1]
            && |line.message| == (if |messages[line.number - 1]| < 2000 then |messages[line.number - 1]| else 2000)
    ensures |LogOf(messages, cap).lines| == if |messages| < cap then |messages| else cap
  {
    hide LogOf, Shortened;
    LogHoldsNewest(messages, cap);
    var l := LogOf(messages, cap);
    assert l.lines[k] == Numbered(messages)[l.dropped + k];
    ShortenedIs(messages[l.dropped + k]);
  }

  lemma ShortenedIs(message: string)
    ensures Shortened(message) <= message && |Shortened(message)| == if |message| < 2000 then |message| else 2000
  {
  }

  /** The retained numbers are the contiguous range `dropped + 1 .. nextSeq - 1`. */
  predicate Contiguous(l: Log) {
    && l.dropped >= 0 && l.nextSeq == l.dropped + |l.lines| + 1
    && forall k :: 0 <= k < |l.lines| ==> l.lines[k].number == l.dropped + 1 + k
  }

  /** Nothing bounds the configured cap from below; the numbering stays contiguous exactly when it is not negative. */
  lemma ContiguousIffCapNotNegative(cap: int)
    ensures (forall messages :: Contiguous(LogOf(messages, cap))) <==> cap >= 0
  {
    if cap >= 0 {
      forall messages
        ensures Contiguous(LogOf(messages, cap))
      {
        LogHoldsNewest(messages, cap);
      }
    } else {
      var messages := NegativeCapBreaksNumbering(cap);
    }
  }

  /** A negative cap counts more lines as dropped than were ever logged. */
  lemma NegativeCapBreaksNumbering(cap: int) returns (messages: seq<string>)
    requires cap < 0
    ensures |messages| == 1 && LogOf(messages, cap).dropped > 1 && !Contiguous(LogOf(messages, cap))
  {
    messages := ["line"];
    assert messages[..0] == [];
    assert LogOf(messages, cap) == Append(EMPTY, cap, "line");
  }

  // ----- polling -----

  lemma {:induction false} AfterIsSuffix(lines: seq<Line>, first: int, cursor: int)
    requires forall k :: 0 <= k < |lines| ==> lines[k].number == first + k
    ensures After(lines, cursor) == DropFirst(lines, cursor + 1 - first)
  {
    if lines != [] {
      assert forall k :: 0 <= k < |lines| - 1 ==> lines[1..][k] == lines[k + 1];
      AfterIsSuffix(lines[1..], first + 1, cursor);
      DropFirstCons(lines, cursor + 1 - first);
    }
  }

  lemma DropFirstCons(lines: seq<Line>, n: int)
    requires lines != []
    ensures DropFirst(lines, n) == if n > 0 then DropFirst(lines[1..], n - 1) else [lines[0]] + DropFirst(lines[1..], n - 1)
  {
    if n <= 0 {
      assert [lines[0]] + lines[1..] == lines;
    }
  }

  /**
   One poll: the client gets every line after its cursor except those evicted
   before the poll, of which there are exactly `max(0, dropped - cursor)`.
   */
  lemma PollGivesTheRest(messages: seq<string>, cap: int, cursor: int)
    requires cap >= 0 && 0 <= cursor <= |messages|
    ensures 0 <= LogOf(messages, cap).dropped <= |messages|
    ensures var l := LogOf(messages, cap);
            && After(l.lines, cursor) == Numbered(messages)[Max(cursor, l.dropped)..]
            && l.nextSeq - 1 == |messages|
  {
    LogHoldsNewest(messages, cap);
    hide After, LogOf, Shortened, DropFirst;
    var l, all := LogOf(messages, cap), Numbered(messages);
    AfterIsSuffix(l.lines, l.dropped + 1, cursor);
    DropFromSuffix(all, l.dropped, cursor);
  }

  lemma DropFromSuffix(all: seq<Line>, from: int, cursor: int)
    requires 0 <= from <= |all| && 0 <= cursor <= |all|
    ensures DropFirst(all[from..], cursor - from) == all[Max(cursor, from)..]
  {
  }

  /**
   Retrying a poll with the same cursor repeats what was returned and adds only what is
   new, as long as nothing was evicted.
   */
  lemma RetryExtends(messages: seq<string>, more: seq<string>, cap: int, cursor: int)
    requires cap >= 0 && 0 <= cursor <= |messages|
    requires LogOf(messages + more, cap).dropped <= cursor
    ensures After(LogOf(messages, cap).lines, cursor) <= After(LogOf(messages + more, cap).lines, cursor)
  {
    hide After, LogOf, Shortened, DropFirst;
    PollGivesTheRest(messages, cap, cursor);
    PollGivesTheRest(messages + more, cap, cursor);
    LogHoldsNewest(messages, cap);
    LogHoldsNewest(messages + more, cap);
    var all := Numbered(messages + more);
    assert all[..|messages|] == Numbered(messages);
    assert all[cursor..|messages|] <= all[cursor..];
    assert all[..|messages|][cursor..] == all[cursor..|messages|];
  }

  // ----- a whole session of one client -----

  datatype Event = Logged(message: string) | Polled

  /** The client's cursor, the lines it has received, and how many it was told it missed. */
  datatype Client = Client(cursor: int, got: seq<Line>, missed: int)

  datatype Session = Session(log: Log, client: Client)

  function Step(s: Session, cap: int, e: Event): Session {
    match e
    case Logged(message) => s.(log := Append(s.log, cap, message))
    case Polled =>
      s.(client := Client(
        s.log.nextSeq - 1,
        s.client.got + After(s.log.lines, s.client.cursor),
        s.client.missed + Max(0, s.log.dropped - s.client.cursor)))
  }

  function Run(cap: int, events: seq<Event>): Session
    decreases |events|
  {
    if events == [] then Session(EMPTY, Client(0, [], 0))
    else Step(Run(cap, events[..|events| - 1]), cap, events[|events| - 1])
  }

  function Messages(events: seq<Event>): seq<string>
    decreases |events|
  {
    if events == [] then []
    else
      var last := events[|events| - 1];
      Messages(events[..|events| - 1]) + (if last.Logged? then [last.message] else [])
  }

  predicate IncreasingSeq(lines: seq<Line>) {
    forall i, j :: 0 <= i < j < |lines| ==> lines[i].number < lines[j].number
  }

  /**
   What the client has is a list of true lines with increasing numbers, all at
   most its cursor; with those it was told it missed they make up every number
   up to the cursor.
   */
  predicate Faithful(c: Client, messages: seq<string>) {
    && 0 <= c.cursor <= |messages| && c.missed >= 0
    && IncreasingSeq(c.got)
    && (forall k :: 0 <= k < |c.got| ==>
          && 1 <= c.got[k].number <= c.cursor
          && c.got[k].message == Shortened(messages[c.got[k].number - 1]))
    && |c.got| + c.missed == c.cursor
  }

  lemma LoggedStep(s: Session, cap: int, messages: seq<string>, message: string)
    requires s.log == LogOf(messages, cap) && Faithful(s.client, messages)
    ensures var t := Step(s, cap, Logged(message));
            t.log == LogOf(messages + [message], cap) && Faithful(t.client, messages + [message])
  {
    assert (messages + [message])[..|messages|] == messages;
  }

  lemma PolledStep(s: Session, cap: int, messages: seq<string>)
    requires cap >= 0 && s.log == LogOf(messages, cap) && Faithful(s.client, messages)
    ensures Faithful(Step(s, cap, Polled).client, messages)
  {
    hide After, LogOf, Shortened, DropFirst, IncreasingSeq;
    assert 0 <= s.client.cursor <= |messages|;
    hide Faithful;
    PollGivesTheRest(messages, cap, s.client.cursor);
    AddSuffix(s.client, messages, Max(s.client.cursor, s.log.dropped));
  }

  lemma AddSuffix(c: Client, messages: seq<string>, from: int)
    requires Faithful(c, messages) && c.cursor <= from <= |messages|
    ensures Faithful(Client(|messages|, c.got + Numbered(messages)[from..], c.missed + (from - c.cursor)), messages)
  {
    hide Shortened;
    var news := Numbered(messages)[from..];
    var got := c.got + news;
    assert forall k :: 0 <= k < |news| ==> news[k] == Line(from + k + 1, Shortened(messages[from + k]));
    assert forall k :: |c.got| <= k < |got| ==> got[k] == news[k - |c.got|];
  }

  /** Exactly once, in order: any interleaving of logging and polling leaves the client faithful to the log. */
  lemma {:induction false} EachLineAtMostOnce(cap: int, events: seq<Event>)
    requires cap >= 0
    ensures Run(cap, events).log == LogOf(Messages(events), cap)
    ensures Faithful(Run(cap, events).client, Messages(events))
    decreases |events|
  {
    hide Step, LogOf, Faithful;
    if events == [] {
      NothingYet(cap);
    } else {
      var init, last := events[..|events| - 1], events[|events| - 1];
      EachLineAtMostOnce(cap, init);
      if last.Logged? {
        LoggedStep(Run(cap, init), cap, Messages(init), last.message);
      } else {
        PolledStep(Run(cap, init), cap, Messages(init));
        PolledKeepsLog(Run(cap, init), cap);
        assert Messages(init) + [] == Messages(init);
      }
    }
  }

  lemma NothingYet(cap: int)
    ensures LogOf([], cap) == EMPTY && Faithful(Client(0, [], 0), [])
  {
  }

  lemma PolledKeepsLog(s: Session, cap: int)
    ensures Step(s, cap, Polled).log == s.log
  {
  }

  lemma {:induction false} AfterKeeps(lines: seq<Line>, cursor: int, line: Line)
    ensures line in After(lines, cursor) <==> line in lines && line.number > cursor
  {
    if lines != [] {
      AfterKeeps(lines[1..], cursor, line);
      assert line in lines <==> line == lines[0] || line in lines[1..];
    }
  }

  /**
   A poll brings the client up to the last line logged, and gives it every line past
   its cursor that is still there.
   */
  lemma PollCatchesUp(cap: int, events: seq<Event>)
    requires cap >= 0
    ensures var before, after := Run(cap, events), Run(cap, events + [Polled]);
            && after.log == before.log && after.client.cursor == |Messages(events)|
            && before.client.got <= after.client.got
            && forall line :: line in before.log.lines && line.number > before.client.cursor ==> line in after.client.got
  {
    assert (events + [Polled])[..|events|] == events;
    EachLineAtMostOnce(cap, events);
    LogHoldsNewest(Messages(events), cap);
    var s := Run(cap, events);
    forall line | line in s.log.lines && line.number > s.client.cursor
      ensures line in After(s.log.lines, s.client.cursor)
    {
      AfterKeeps(s.log.lines, s.client.cursor, line);
    }
  }

  /** A client that was never told of missed lines has received every line up to its cursor. */
  lemma NothingMissedIsEverything(cap: int, events: seq<Event>)
    requires cap >= 0 && Run(cap, events).client.missed == 0
    ensures 0 <= Run(cap, events).client.cursor <= |Messages(events)|
    ensures var c := Run(cap, events).client;
            c.got == Numbered(Messages(events))[..c.cursor]
  {
    EachLineAtMostOnce(cap, events);
    var c := Run(cap, events).client;
    FullList(c.got, c.cursor);
  }

  /** `n` increasing numbers between 1 and `n` are 1 to `n`. */
  lemma {:induction false} FullList(lines: seq<Line>, n: int)
    requires IncreasingSeq(lines) && |lines| == n
    requires forall k :: 0 <= k < |lines| ==> 1 <= lines[k].number <= n
    ensures forall k :: 0 <= k < |lines| ==> lines[k].number == k + 1
  {
    forall k | 0 <= k < |lines|
      ensures lines[k].number == k + 1
    {
      AtLeast(lines, 0, k);
      AtLeast(lines, k, |lines| - 1);
    }
  }

  lemma {:induction false} AtLeast(lines: seq<Line>, i: nat, j: nat)
    requires IncreasingSeq(lines) && i <= j < |lines|
    ensures lines[j].number - lines[i].number >= j - i
    decreases j - i
  {
    if i < j {
      AtLeast(lines, i, j - 1);
      assert lines[j - 1].number < lines[j].number;
    }
  }
}
