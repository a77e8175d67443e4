/** The registry's own code: job records and the map that holds them, changed in place. */
module JobCode {
  import opened Common
  import opened JobLog
  import opened JobRegistry

  class Job {
    const subject: string
    const kind: Kind
    var status: JobStatus
    var phase: Phase
    var percent: int
    var finishedAt: Option<int>
    var error: Option<string>
    var logs: seq<Line>
    var nextSeq: int
    var droppedLines: int

    ghost function View(): JobState
      reads this
    {
      JobState(subject, kind, status, phase, percent, finishedAt, error, JobLog.Log(logs, nextSeq, droppedLines))
    }

    constructor (subject: string, kind: Kind)
      ensures View() == NewJob(subject, kind)
    {
      this.subject, this.kind := subject, kind;
      status, phase, percent, finishedAt, error := Running, Starting, 0, None, None;
      logs, nextSeq, droppedLines := [], 1, 0;
    }

    method AppendLog(cap: int, message: string)
      modifies this`logs, this`nextSeq, this`droppedLines
      ensures View() == old(View()).(log := Append(old(View()).log, cap, message))
    {
      logs := logs + [Line(nextSeq, if |message| <= MAX_MESSAGE then message else message[..MAX_MESSAGE])];
      nextSeq := nextSeq + 1;
      var overflow := |logs| - cap;
      if overflow > 0 {
        logs := if overflow < |logs| then logs[overflow..] else [];
        droppedLines := droppedLines + overflow;
      }
    }

    method SetPhase(phase: Phase)
      modifies this`phase
      ensures View() == old(View()).(phase := phase)
    {
      this.phase := phase;
    }

    method Progress(percent: int)
      modifies this`percent
      ensures View() == old(View()).(percent := Clamp(percent))
    {
      var upper := if percent < 100 then percent else 100;
      this.percent := if upper > 0 then upper else 0;
    }

    /** The detached task, when the work returns. */
    method OnReturn(cap: int, now: int)
      modifies this
      ensures View() == Succeed(old(View()), cap, now)
    {
      status := Succeeded;
      phase := Finished;
      percent := 100;
      AppendLog(cap, LabelFor(kind) + " completed.");
      finishedAt := Some(now);
    }

    /** The detached task, when the work throws. */
    method OnThrow(cap: int, now: int, reason: string)
      modifies this
      ensures View() == Fail(old(View()), cap, now, reason)
    {
      status := Failed;
      phase := Finished;
      error := Some(reason);
      AppendLog(cap, LabelFor(kind) + " failed: " + reason);
      finishedAt := Some(now);
    }
  }

  /** What a poll returns, next to the job's state. */
  datatype Snapshot = Snapshot(job: JobState, logs: seq<Line>, latestSeq: int)

  class Jobs {
    const cap: int
    var jobs: map<nat, Job>
    var nextId: nat

    ghost predicate Valid()
      reads this
    {
      && (forall a, b :: a in jobs && b in jobs && a != b ==> jobs[a] != jobs[b])
      && (forall id :: id in jobs ==> id < nextId)
    }

    ghost function View(): map<nat, JobState>
      reads this, jobs.Values
    {
      map id | id in jobs :: jobs[id].View()
    }

    constructor (cap: int)
      ensures Valid() && this.cap == cap && View() == map[] && nextId == 0
    {
      this.cap := cap;
      jobs, nextId := map[], 0;
    }

    /** A scan of all records for a running one of this subject. */
    method HasRunningJob(subject: string) returns (running: bool)
      ensures running == HasRunning(View(), subject)
    {
      var left := jobs.Keys;
      while left != {}
        invariant left <= jobs.Keys
        invariant forall id :: id in jobs && id !in left ==> !(jobs[id].subject == subject && jobs[id].status.Running?)
        decreases |left|
      {
        var id :| id in left;
        if jobs[id].subject == subject && jobs[id].status.Running? {
          assert View()[id].subject == subject && View()[id].status.Running?;
          return true;
        }
        left := left - {id};
      }
      running := false;
    }

    method PruneFinishedJobs(now: int)
      requires Valid()
      modifies this`jobs
      ensures Valid() && jobs.Values <= old(jobs.Values)
      ensures View() == Prune(old(View()), now)
    {
      hide Prune;
      ghost var before, was := View(), jobs;
      var kept := KeepUnexpired(now);
      jobs := kept;
      ValuesShrink(jobs, was);
      PruneIs(before, View(), now);
    }

    /** The records that are not forgotten. */
    method KeepUnexpired(now: int) returns (kept: map<nat, Job>)
      ensures forall id :: id in kept <==> id in jobs && !Expired(jobs[id].View(), now)
      ensures forall id :: id in kept ==> kept[id] == jobs[id]
    {
      var cutoff := now - FINISHED_TTL_MS;
      kept := jobs;
      var left := jobs.Keys;
      while left != {}
        invariant left <= jobs.Keys
        invariant forall id :: id in kept <==> id in jobs && (id in left || !Expired(jobs[id].View(), now))
        invariant forall id :: id in kept ==> kept[id] == jobs[id]
        decreases |left|
      {
        var id :| id in left;
        if jobs[id].finishedAt.Some? && jobs[id].finishedAt.value < cutoff {
          kept := kept - {id};
        }
        left := left - {id};
      }
    }

    static lemma ValuesShrink(small: map<nat, Job>, large: map<nat, Job>)
      requires forall id :: id in small ==> id in large && small[id] == large[id]
      ensures small.Values <= large.Values
    {
    }

    static lemma PruneIs(before: map<nat, JobState>, after: map<nat, JobState>, now: int)
      requires forall id :: id in after <==> id in before && !Expired(before[id], now)
      requires forall id :: id in after ==> after[id] == before[id]
      ensures after == Prune(before, now)
    {
    }

    method Register(job: Job) returns (id: nat)
      requires Valid() && job !in jobs.Values
      modifies this`jobs, this`nextId
      ensures Valid() && id == old(nextId) && nextId == id + 1 && id in jobs && jobs[id] == job
      ensures View() == old(View())[id := job.View()]
    {
      id := nextId;
      jobs := jobs[id := job];
      nextId := nextId + 1;
    }

    method StartJob(subject: string, kind: Kind, now: int) returns (id: nat)
      requires Valid()
      modifies this`jobs, this`nextId
      ensures Valid() && id == old(nextId) && nextId == id + 1
      ensures id in jobs && fresh(jobs[id])
      ensures View() == Prune(old(View()), now)[id := NewJob(subject, kind)]
    {
      hide Prune, NewJob;
      PruneFinishedJobs(now);
      var job := new Job(subject, kind);
      id := Register(job);
    }

    /** A route: the check and the start with no await in between. */
    method RequestJob(subject: string, kind: Kind, now: int) returns (r: Result<nat, ()>)
      requires Valid()
      modifies this`jobs, this`nextId
      ensures Valid()
      ensures r.Err? <==> HasRunning(old(View()), subject)
      ensures forall g: Registry :: g.jobs == old(View()) && g.nextId == old(nextId) ==>
                var h := JobRegistry.Step(g, cap, Request(subject, kind, now));
                View() == h.jobs && nextId == h.nextId && h.settled == g.settled
    {
      var busy := HasRunningJob(subject);
      if busy {
        return Err(());
      }
      var id := StartJob(subject, kind, now);
      r := Ok(id);
    }

    method ReadJob(id: nat, afterSeq: int) returns (r: Result<Snapshot, ()>)
      ensures r.Err? <==> id !in View()
      ensures r.Ok? ==>
                && r.value.job == View()[id]
                && r.value.logs == After(View()[id].log.lines, afterSeq)
                && r.value.latestSeq == View()[id].log.nextSeq - 1
    {
      if id !in jobs {
        return Err(());
      }
      var job := jobs[id];
      var kept: seq<Line> := [];
      var i := 0;
      while i < |job.logs|
        invariant 0 <= i <= |job.logs|
        invariant kept + After(job.logs[i..], afterSeq) == After(job.logs, afterSeq)
      {
        assert job.logs[i..][1..] == job.logs[i + 1..];
        if job.logs[i].number > afterSeq {
          kept := kept + [job.logs[i]];
        }
        i := i + 1;
      }
      r := Ok(Snapshot(
        JobState(job.subject, job.kind, job.status, job.phase, job.percent, job.finishedAt, job.error,
                 JobLog.Log(job.logs, job.nextSeq, job.droppedLines)),
        kept, job.nextSeq - 1));
    }
  }
}
