/**
 The registry of backup jobs: job records that change in place, a lookup by id,
 the per-subject check the routes make before they start one, and pruning.
 `JobState` and `Registry` are the abstract values of the two classes; the
 results over runs are about those.
 */
module JobRegistry {
  import opened Common
  import opened JobLog

  const FINISHED_TTL_MS := 60 * 60_000

  datatype Kind = Backup | Restore

  datatype JobStatus = Running | Succeeded | Failed

  datatype Phase =
    | Starting | PreparingRepository | EnforcingLimit | DumpingDatabases | Uploading
    | RestoringFiles | ImportingDatabases | Measuring | Finished

  datatype JobState = JobState(
    subject: string,
    kind: Kind,
    status: JobStatus,
    phase: Phase,
    percent: int,
    finishedAt: Option<int>,
    error: Option<string>,
    log: Log)

  function LabelFor(kind: Kind): string {
    if kind.Backup? then "Backup" else "Restore"
  }

  function NewJob(subject: string, kind: Kind): JobState {
    JobState(subject, kind, Running, Starting, 0, None, None, EMPTY)
  }

  function Clamp(percent: int): int {
    if percent < 0 then 0 else if percent > 100 then 100 else percent
  }

  function Succeed(j: JobState, cap: int, now: int): JobState {
    j.(status := Succeeded, phase := Finished, percent := 100, finishedAt := Some(now),
       log := Append(j.log, cap, LabelFor(j.kind) + " completed."))
  }

  function Fail(j: JobState, cap: int, now: int, error: string): JobState {
    j.(status := Failed, phase := Finished, finishedAt := Some(now), error := Some(error),
       log := Append(j.log, cap, LabelFor(j.kind) + " failed: " + error))
  }

  // ----- the registry as a value -----

  /** `settled` holds the jobs whose work has returned or thrown; the source's detached task does so once. */
  datatype Registry = Registry(jobs: map<nat, JobState>, nextId: nat, settled: set<nat>)

  const NO_JOBS := Registry(map[], 0, {})

  predicate Expired(j: JobState, now: int) {
    j.finishedAt.Some? && j.finishedAt.value < now - FINISHED_TTL_MS
  }

  function Prune(jobs: map<nat, JobState>, now: int): map<nat, JobState> {
    map id | id in jobs && !Expired(jobs[id], now) :: jobs[id]
  }

  predicate HasRunning(jobs: map<nat, JobState>, subject: string) {
    exists id :: id in jobs && jobs[id].subject == subject && jobs[id].status.Running?
  }

  datatype Event =
    | Request(subject: string, kind: Kind, now: int)
    | Log(id: nat, message: string)
    | SetPhase(id: nat, phase: Phase)
    | Progress(id: nat, percent: int)
    | WorkReturns(id: nat, now: int)
    | WorkThrows(id: nat, now: int, error: string)

  /** A job's reporter may be called at any time, its work settles once. */
  predicate Enabled(r: Registry, e: Event) {
    match e
    case Request(_, _, _) => true
    case WorkReturns(id, _) => id < r.nextId && id !in r.settled
    case WorkThrows(id, _, _) => id < r.nextId && id !in r.settled
    case Log(id, _) => id < r.nextId
    case SetPhase(id, _) => id < r.nextId
    case Progress(id, _) => id < r.nextId
  }

  function Update(r: Registry, id: nat, j: JobState): Registry {
    if id in r.jobs then r.(jobs := r.jobs[id := j]) else r
  }

  function Step(r: Registry, cap: int, e: Event): Registry {
    match e
    case Request(subject, kind, now) =>
      if HasRunning(r.jobs, subject) then r
      else Registry(Prune(r.jobs, now)[r.nextId := NewJob(subject, kind)], r.nextId + 1, r.settled)
    case Log(id, message) =>
      if id in r.jobs then Update(r, id, r.jobs[id].(log := Append(r.jobs[id].log, cap, message))) else r
    case SetPhase(id, phase) => if id in r.jobs then Update(r, id, r.jobs[id].(phase := phase)) else r
    case Progress(id, percent) => if id in r.jobs then Update(r, id, r.jobs[id].(percent := Clamp(percent))) else r
    case WorkReturns(id, now) =>
      (if id in r.jobs then Update(r, id, Succeed(r.jobs[id], cap, now)) else r).(settled := r.settled + {id})
    case WorkThrows(id, now, error) =>
      (if id in r.jobs then Update(r, id, Fail(r.jobs[id], cap, now, error)) else r).(settled := r.settled + {id})
  }

  ghost predicate Run(states: seq<Registry>, cap: int, events: seq<Event>) {
    && |states| == |events| + 1 && states[0] == NO_JOBS
    && forall i :: 0 <= i < |events| ==> Enabled(states[i], events[i]) && states[i + 1] == Step(states[i], cap, events[i])
  }

  // ----- what every run keeps -----

  /**
   At most one job of a subject is running, a job runs exactly until its work
   settles, and a finished time is recorded exactly then. A job that is running
   is still registered.
   */
  ghost predicate Inv(r: Registry) {
    && (forall id :: id in r.jobs ==> id < r.nextId)
    && (forall id :: id in r.settled ==> id < r.nextId)
    && (forall id :: id in r.jobs ==> (r.jobs[id].status.Running? <==> id !in r.settled))
    && (forall id :: id in r.jobs ==> (r.jobs[id].status.Running? <==> r.jobs[id].finishedAt.None?))
    && (forall id: nat :: id < r.nextId && id !in r.settled ==> id in r.jobs)
    && (forall a, b :: a in r.jobs && b in r.jobs && a != b && r.jobs[a].subject == r.jobs[b].subject ==>
          !(r.jobs[a].status.Running? && r.jobs[b].status.Running?))
  }

  lemma InvStep(r: Registry, cap: int, e: Event)
    requires Inv(r) && Enabled(r, e)
    ensures Inv(Step(r, cap, e))
  {
    hide Append;
  }

  lemma {:induction false} OneRunningJobPerSubject(states: seq<Registry>, cap: int, events: seq<Event>, i: nat)
    requires Run(states, cap, events) && i < |states|
    ensures Inv(states[i])
  {
    hide Step;
    if i > 0 {
      OneRunningJobPerSubject(states, cap, events, i - 1);
      InvStep(states[i - 1], cap, events[i - 1]);
    }
  }

  /** The event that makes job `id` leave `running`. */
  predicate Settles(e: Event, id: nat) {
    (e.WorkReturns? || e.WorkThrows?) && e.id == id
  }

  lemma OutcomeStep(r: Registry, cap: int, e: Event, id: nat)
    requires Inv(r) && Enabled(r, e) && id < r.nextId
    ensures var t := Step(r, cap, e);
            && id < t.nextId
            && (id in t.jobs ==> id in r.jobs)
            && (id !in r.settled ==> id in t.jobs)
            && (id in t.settled <==> id in r.settled || Settles(e, id))
            && (id in r.settled ==> !Settles(e, id))
            && (id in t.jobs && id in r.settled ==>
                  && t.jobs[id].status == r.jobs[id].status && t.jobs[id].error == r.jobs[id].error
                  && t.jobs[id].finishedAt == r.jobs[id].finishedAt)
            && (id in t.jobs ==> t.jobs[id].subject == r.jobs[id].subject && t.jobs[id].kind == r.jobs[id].kind)
  {
    hide Append;
  }

  ghost predicate NeverSettles(events: seq<Event>, id: nat, i: nat, j: nat)
    requires j <= |events|
  {
    forall k :: i <= k < j ==> !Settles(events[k], id)
  }

  /** The outcome of job `id` in `r` is the one event `e` gave it. */
  ghost predicate OutcomeIs(r: Registry, id: nat, e: Event)
    requires Settles(e, id) && id in r.jobs
  {
    && r.jobs[id].status == (if e.WorkReturns? then Succeeded else Failed)
    && r.jobs[id].finishedAt == Some(e.now)
    && (e.WorkThrows? ==> r.jobs[id].error == Some(e.error))
  }

  /**
   A job that exists at step `i` stays registered, and running, up to the one
   event that settles it; from then on, for as long as it is registered, its
   outcome is what that event gave it.
   */
  lemma {:induction false} LeavesRunningOnce(states: seq<Registry>, cap: int, events: seq<Event>, id: nat, i: nat, j: nat)
    returns (m: nat)
    requires Run(states, cap, events) && i <= j < |states| && id < states[i].nextId && id !in states[i].settled
    ensures id < states[j].nextId
    ensures id !in states[j].settled ==>
              NeverSettles(events, id, i, j) && id in states[j].jobs && states[j].jobs[id].status.Running?
    ensures id in states[j].settled ==>
              && i <= m < j && Settles(events[m], id)
              && NeverSettles(events, id, i, m) && NeverSettles(events, id, m + 1, j)
              && (id in states[j].jobs ==> OutcomeIs(states[j], id, events[m]))
  {
    hide Step, OutcomeIs;
    OneRunningJobPerSubject(states, cap, events, j);
    m := i;
    if i < j {
      m := LeavesRunningOnce(states, cap, events, id, i, j - 1);
      OneRunningJobPerSubject(states, cap, events, j - 1);
      OutcomeStep(states[j - 1], cap, events[j - 1], id);
      if id !in states[j - 1].settled && Settles(events[j - 1], id) {
        m := j - 1;
        SettledAs(states[j - 1], cap, events[j - 1], id);
      } else if id in states[j].settled && id in states[j].jobs {
        SameOutcome(states[j - 1], states[j], id, events[m]);
      }
    }
  }

  lemma SameOutcome(r: Registry, t: Registry, id: nat, e: Event)
    requires Settles(e, id) && id in r.jobs && id in t.jobs && OutcomeIs(r, id, e)
    requires t.jobs[id].status == r.jobs[id].status && t.jobs[id].error == r.jobs[id].error
    requires t.jobs[id].finishedAt == r.jobs[id].finishedAt
    ensures OutcomeIs(t, id, e)
  {
  }

  lemma SettledAs(r: Registry, cap: int, e: Event, id: nat)
    requires Inv(r) && Enabled(r, e) && Settles(e, id) && id in r.jobs
    ensures var t := Step(r, cap, e);
            id in t.jobs && OutcomeIs(t, id, e)
  {
    hide Append;
  }
}
