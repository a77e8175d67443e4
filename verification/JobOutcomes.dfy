/**
 What a job's record says at any point of any run, told from the events alone, and
 which requests and records the registry keeps.
 */
module JobOutcomes {
  import opened Common
  import JobLog
  import opened JobRegistry

  // ----- what one event does -----

  function Distance(a: int, b: int): nat {
    if a < b then b - a else a - b
  }

  /** The job an event is about, if it is about one that exists. */
  function About(e: Event): Option<nat> {
    match e
    case Request(_, _, _) => None
    case Log(id, _) => Some(id)
    case SetPhase(id, _) => Some(id)
    case Progress(id, _) => Some(id)
    case WorkReturns(id, _) => Some(id)
    case WorkThrows(id, _, _) => Some(id)
  }

  /** An event changes the record it is about and no other. */
  lemma OtherRecordsStay(r: Registry, cap: int, e: Event, id: nat)
    requires Inv(r) && Enabled(r, e) && id in r.jobs && About(e) != Some(id)
    ensures id in Step(r, cap, e).jobs ==> Step(r, cap, e).jobs[id] == r.jobs[id]
  {
    hide JobLog.Append;
  }

  /** What each event writes into the record it is about; a percentage becomes the nearest one there is. */
  lemma OwnRecordTells(r: Registry, cap: int, e: Event, id: nat)
    requires Inv(r) && Enabled(r, e) && id in r.jobs && About(e) == Some(id)
    ensures id in Step(r, cap, e).jobs
    ensures var a, b := r.jobs[id], Step(r, cap, e).jobs[id];
            && b.subject == a.subject && b.kind == a.kind
            && (e.Progress? ==> 0 <= b.percent <= 100 && forall p :: 0 <= p <= 100 ==> Distance(e.percent, b.percent) <= Distance(e.percent, p))
            && (e.WorkReturns? ==> b.percent == 100)
            && (!e.Progress? && !e.WorkReturns? ==> b.percent == a.percent)
            && (e.WorkReturns? || e.WorkThrows? ==> b.phase == Finished)
            && (e.SetPhase? ==> b.phase == e.phase)
            && (e.Log? || e.Progress? ==> b.phase == a.phase)
            && (!Settles(e, id) ==> b.status == a.status && b.finishedAt == a.finishedAt)
            && (!e.WorkThrows? ==> b.error == a.error)
            && (e.SetPhase? || e.Progress? ==> b.log == a.log)
  {
    hide JobLog.Append;
  }

  // ----- requests -----

  /** A request for `subject` is under way: it was accepted earlier, and its work has not settled. */
  ghost predicate Busy(states: seq<Registry>, events: seq<Event>, i: nat, subject: string)
    requires i < |states| <= |events| + 1
  {
    exists m: nat :: m < i && Accepts(states, events, m, subject) && NeverSettles(events, states[m].nextId, m, i)
  }

  predicate Accepts(states: seq<Registry>, events: seq<Event>, m: nat, subject: string)
    requires m < |events| && m + 1 < |states|
  {
    events[m].Request? && events[m].subject == subject && states[m + 1].nextId == states[m].nextId + 1
  }

  /** What a request that is not refused begins with. */
  lemma RequestBegins(r: Registry, cap: int, e: Event)
    requires e.Request?
    ensures var t := Step(r, cap, e);
            if exists id :: id in r.jobs && r.jobs[id].subject == e.subject && r.jobs[id].status.Running? then t == r
            else
              && t.nextId == r.nextId + 1 && t.settled == r.settled
              && r.nextId in t.jobs
              && t.jobs[r.nextId] == JobState(e.subject, e.kind, Running, Starting, 0, None, None, JobLog.Log([], 1, 0))
  {
  }

  lemma NumbersGrow(r: Registry, cap: int, e: Event)
    ensures var t := Step(r, cap, e);
            && r.nextId <= t.nextId <= r.nextId + 1
            && (t.nextId == r.nextId + 1 ==> e.Request?)
  {
    hide JobLog.Append;
  }

  /** Every job there ever was began with an accepted request for its subject. */
  lemma {:induction false} EveryJobWasRequested(states: seq<Registry>, cap: int, events: seq<Event>, i: nat, id: nat) returns (m: nat)
    requires Run(states, cap, events) && i < |states| && id < states[i].nextId
    ensures m < i && events[m].Request? && states[m].nextId == id && states[m + 1].nextId == id + 1
    ensures id in states[i].jobs ==> states[i].jobs[id].subject == events[m].subject && states[i].jobs[id].kind == events[m].kind
  {
    hide Step, Enabled;
    OneRunningJobPerSubject(states, cap, events, i - 1);
    NumbersGrow(states[i - 1], cap, events[i - 1]);
    if id < states[i - 1].nextId {
      m := EveryJobWasRequested(states, cap, events, i - 1, id);
      OutcomeStep(states[i - 1], cap, events[i - 1], id);
    } else {
      m := i - 1;
      RequestBegins(states[m], cap, events[m]);
    }
  }

  lemma AcceptedIsUnsettled(states: seq<Registry>, cap: int, events: seq<Event>, m: nat, i: nat)
    requires Run(states, cap, events) && m < i < |states| && events[m].Request? && states[m + 1].nextId == states[m].nextId + 1
    ensures var id := states[m].nextId;
            && id < states[i].nextId
            && (id !in states[i].settled <==> NeverSettles(events, id, m, i))
            && (id !in states[i].settled ==> id in states[i].jobs && states[i].jobs[id].status.Running?)
  {
    hide Step, Enabled;
    var id := states[m].nextId;
    OneRunningJobPerSubject(states, cap, events, m);
    OneRunningJobPerSubject(states, cap, events, m + 1);
    RequestBegins(states[m], cap, events[m]);
    var at := LeavesRunningOnce(states, cap, events, id, m + 1, i);
    if id !in states[i].settled {
      assert NeverSettles(events, id, m + 1, i);
    }
  }

  /**
   A request is refused exactly when an earlier one for the same subject is still under
   way; what other subjects do makes no difference.
   */
  lemma RefusedExactlyWhenBusy(states: seq<Registry>, cap: int, events: seq<Event>, i: nat)
    requires Run(states, cap, events) && i < |events| && events[i].Request?
    ensures states[i + 1].nextId == states[i].nextId <==> Busy(states, events, i, events[i].subject)
    ensures states[i + 1].nextId == states[i].nextId ==> states[i + 1] == states[i]
  {
    var subject := events[i].subject;
    RequestBegins(states[i], cap, events[i]);
    OneRunningJobPerSubject(states, cap, events, i);
    hide Step, Enabled, NeverSettles;
    if id :| id in states[i].jobs && states[i].jobs[id].subject == subject && states[i].jobs[id].status.Running? {
      var m := EveryJobWasRequested(states, cap, events, i, id);
      AcceptedIsUnsettled(states, cap, events, m, i);
      assert Accepts(states, events, m, subject);
    }
    if Busy(states, events, i, subject) {
      var m: nat :| m < i && Accepts(states, events, m, subject) && NeverSettles(events, states[m].nextId, m, i);
      AcceptedIsUnsettled(states, cap, events, m, i);
      var id := states[m].nextId;
      var same := EveryJobWasRequested(states, cap, events, i, id);
      OnlyOneBegan(states, cap, events, m, same, i);
    }
  }

  lemma {:induction false} NumbersGrowOverRun(states: seq<Registry>, cap: int, events: seq<Event>, a: nat, b: nat)
    requires Run(states, cap, events) && a <= b < |states|
    ensures states[a].nextId <= states[b].nextId
  {
    hide Step, Enabled;
    if a < b {
      NumbersGrowOverRun(states, cap, events, a, b - 1);
      NumbersGrow(states[b - 1], cap, events[b - 1]);
    }
  }

  lemma OnlyOneBegan(states: seq<Registry>, cap: int, events: seq<Event>, m: nat, n: nat, i: nat)
    requires Run(states, cap, events) && m < i < |states| && n < i
    requires states[m].nextId == states[n].nextId
    requires states[m + 1].nextId == states[m].nextId + 1 && states[n + 1].nextId == states[n].nextId + 1
    ensures m == n
  {
    hide Step, Enabled;
    if m < n {
      NumbersGrowOverRun(states, cap, events, m + 1, n);
    } else if n < m {
      NumbersGrowOverRun(states, cap, events, n + 1, m);
    }
  }

  /** A request may always be made, and until its work settles a job may report anything and end either way. */
  lemma AnythingMayCome(r: Registry, id: nat, message: string, phase: Phase, percent: int, now: int, error: string, subject: string, kind: Kind)
    requires Inv(r)
    ensures Enabled(r, Request(subject, kind, now))
    ensures id < r.nextId ==> Enabled(r, Event.Log(id, message)) && Enabled(r, SetPhase(id, phase)) && Enabled(r, Progress(id, percent))
    ensures id < r.nextId ==> (Enabled(r, WorkReturns(id, now)) <==> id in r.jobs && r.jobs[id].status.Running?)
    ensures Enabled(r, WorkThrows(id, now, error)) <==> Enabled(r, WorkReturns(id, now))
  {
  }

  // ----- which records are forgotten -----

  /** A record goes exactly when a request is accepted more than an hour after its job finished. */
  lemma ForgottenExactlyWhenOld(r: Registry, cap: int, e: Event, id: nat)
    requires Inv(r) && Enabled(r, e) && id in r.jobs
    ensures id !in Step(r, cap, e).jobs <==>
            && e.Request? && Step(r, cap, e).nextId == r.nextId + 1
            && r.jobs[id].finishedAt.Some? && e.now - r.jobs[id].finishedAt.value > 3_600_000
  {
    hide JobLog.Append;
  }

  // ----- what a job has said -----

  /** The line an event adds to the log of job `id`, if any. */
  function Reported(e: Event, id: nat, kind: Kind): seq<string> {
    match e
    case Log(i, message) => if i == id then [message] else []
    case WorkReturns(i, _) => if i == id then [if kind.Backup? then "Backup completed." else "Restore completed."] else []
    case WorkThrows(i, _, error) => if i == id then [(if kind.Backup? then "Backup failed: " else "Restore failed: ") + error] else []
    case _ => []
  }

  ghost function Said(events: seq<Event>, i: nat, j: nat, id: nat, kind: Kind): seq<string>
    requires i <= j <= |events|
  {
    if i == j then [] else Said(events, i, j - 1, id, kind) + Reported(events[j - 1], id, kind)
  }

  lemma LabelsAre(kind: Kind, error: string)
    ensures LabelFor(kind) + " completed." == if kind.Backup? then "Backup completed." else "Restore completed."
    ensures LabelFor(kind) + " failed: " + error == (if kind.Backup? then "Backup failed: " else "Restore failed: ") + error
  {
    if kind.Backup? {
      assert "Backup" + " completed." == "Backup completed." && "Backup" + " failed: " == "Backup failed: ";
    } else {
      assert "Restore" + " completed." == "Restore completed." && "Restore" + " failed: " == "Restore failed: ";
    }
  }

  lemma LogOfSnoc(messages: seq<string>, message: string, cap: int)
    ensures JobLog.LogOf(messages + [message], cap) == JobLog.Append(JobLog.LogOf(messages, cap), cap, message)
  {
    assert (messages + [message])[..|messages|] == messages;
  }

  lemma LogStep(r: Registry, cap: int, e: Event, id: nat, said: seq<string>)
    requires Inv(r) && Enabled(r, e) && id in r.jobs && id in Step(r, cap, e).jobs && r.jobs[id].log == JobLog.LogOf(said, cap)
    ensures Step(r, cap, e).jobs[id].log == JobLog.LogOf(said + Reported(e, id, r.jobs[id].kind), cap)
  {
    if About(e) == Some(id) && (e.Log? || Settles(e, id)) {
      LabelsAre(r.jobs[id].kind, if e.WorkThrows? then e.error else "");
      LogOfSnoc(said, Reported(e, id, r.jobs[id].kind)[0], cap);
    } else {
      assert said + [] == said;
      if About(e) == Some(id) {
        OwnRecordTells(r, cap, e, id);
      } else {
        OtherRecordsStay(r, cap, e, id);
      }
    }
    hide JobLog.Append, JobLog.LogOf;
  }

  /**
   For as long as it is kept, a job's log is what its reporter was told, in order,
   with one closing line that names how it ended, whatever other jobs did meanwhile.
   */
  lemma {:induction false} LogIsWhatWasReported(states: seq<Registry>, cap: int, events: seq<Event>, m: nat, j: nat)
    requires Run(states, cap, events) && m < j < |states|
    requires events[m].Request? && states[m + 1].nextId == states[m].nextId + 1
    ensures var id := states[m].nextId;
            id in states[j].jobs ==>
              && states[j].jobs[id].subject == events[m].subject && states[j].jobs[id].kind == events[m].kind
              && states[j].jobs[id].log == JobLog.LogOf(Said(events, m + 1, j, id, events[m].kind), cap)
  {
    hide Step, Enabled, JobLog.LogOf;
    var id := states[m].nextId;
    if j == m + 1 {
      RequestBegins(states[m], cap, events[m]);
      EmptyLog(cap);
    } else {
      LogIsWhatWasReported(states, cap, events, m, j - 1);
      OneRunningJobPerSubject(states, cap, events, j - 1);
      NumbersGrowOverRun(states, cap, events, m + 1, j - 1);
      OutcomeStep(states[j - 1], cap, events[j - 1], id);
      if id in states[j].jobs {
        LogStep(states[j - 1], cap, events[j - 1], id, Said(events, m + 1, j - 1, id, events[m].kind));
      }
    }
  }

  lemma EmptyLog(cap: int)
    ensures JobLog.LogOf([], cap) == JobLog.Log([], 1, 0)
  {
  }
}
