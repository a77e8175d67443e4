/** How each `set` call ends, what the sweep does on the way, and what each launch reports. */
module DrainOutcomes {
  import opened Common
  import opened MaintenanceLatch
  import opened WorkerPool
  import opened DrainProtocol
  import opened DrainInvariants
  import opened DrainSafety

  // ----- what a finished call means -----

  predicate Finished(n: Node, k: nat) {
    k < |n.commands| && n.commands[k].status.Done?
  }

  /**
   A call that finishes was answered according to what it asked for. A resolved
   activation leaves the node open with no marker; a refused one changes neither.
   A drain leaves the node closed, whether it resolved or not.
   */
  lemma AnswerTells(n: Node, e: Event, k: nat)
    requires Inv(n) && Enabled(n, e) && !Finished(n, k) && Finished(Step(n, e), k)
    ensures k < |n.commands|
    ensures var m, o := Step(n, e), Step(n, e).commands[k].status.outcome;
            && (n.commands[k].enable ==> !o.AckActivated? && m.latch.enabled)
            && (!n.commands[k].enable ==> !o.AckDrained?)
            && (o.AckActivated? ==> !m.latch.enabled && !m.marker && !SignalAborted(m.latch, m.latch.signal))
            && (o.Rejected? && !n.commands[k].enable ==> m.latch == n.latch && m.marker == n.marker && m.onDisk == n.onDisk)
  {
    OthersKeepStatus(n, e, k);
    if OnCommand(e) {
      Finishes(n, e);
      CommandLatch(n, e);
      StatusOfCommand(n, e);
      DrainsDrain(n, e);
      if n.commands[k].status.InBody? {
        assert Suspended(n, k);
      }
    }
    hide CommandStep, WorkStep, CommandEnabled, WorkEnabled, LatchInv, ChainInv, BodyInv;
  }

  /** Each body is that of what was asked for; the later stretches are a drain's. */
  lemma DrainsDrain(n: Node, e: Event)
    requires OnCommand(e) && CommandEnabled(n, e) && BodiesInv(n)
    ensures e.command < |n.commands|
    ensures e.ActivateBody? <==> !n.commands[e.command].enable
    ensures e.DrainBody? ==> n.commands[e.command].status.Waiting?
    ensures !e.ActivateBody? && !e.DrainBody? ==> n.commands[e.command].status.InBody?
  {
    hide BodyInv;
  }

  // ----- exactly when a drain resolves -----

  /** An answer from the daemon that a drain cannot go on from, or has to report. */
  predicate FailsDrain(e: Event, k: nat) {
    || e == ListThrows(k)
    || (e.UnpauseReturns? && e.command == k && !e.ok)
    || (e.SweepStopReturns? && e.command == k && !e.ok)
  }

  ghost predicate NothingFailed(events: seq<Event>, i: nat, j: nat, k: nat)
    requires j <= |events|
  {
    forall m :: i < m < j ==> !FailsDrain(events[m], k)
  }

  /** What the status of a drain says about whether it went well so far. */
  predicate Remembers(s: Status, well: bool) {
    match s
    case Waiting => false
    case InBody(b) => if b.Sweeping? then b.failed == {} <==> well else well
    case Done(o) => o.AckDrained? <==> well
  }

  lemma DrainBegins(n: Node, e: Event)
    requires e.DrainBody? && CommandEnabled(n, e)
    ensures e.command < |CommandStep(n, e).commands|
    ensures Remembers(CommandStep(n, e).commands[e.command].status, e.write.Synced?)
  {
  }

  lemma OwnStretchRemembers(n: Node, e: Event, well: bool)
    requires OnCommand(e) && CommandEnabled(n, e) && e.command < |n.commands| && Remembers(n.commands[e.command].status, well)
    ensures e.command < |CommandStep(n, e).commands| && !n.commands[e.command].status.Done?
    ensures Remembers(CommandStep(n, e).commands[e.command].status, well && !FailsDrain(e, e.command))
  {
    if e.UnpauseReturns? || e.SweepStopReturns? {
      SweepRemembers(n, e, well);
    } else {
      hide Lists;
    }
  }

  lemma SweepRemembers(n: Node, e: Event, well: bool)
    requires e.UnpauseReturns? || e.SweepStopReturns?
    requires CommandEnabled(n, e) && Remembers(n.commands[e.command].status, well)
    ensures e.command < |CommandStep(n, e).commands| && !n.commands[e.command].status.Done?
    ensures Remembers(CommandStep(n, e).commands[e.command].status, well && e.ok)
  {
  }

  lemma DrainRemembers(n: Node, e: Event, k: nat, well: bool)
    requires Enabled(n, e) && k < |n.commands| && Remembers(n.commands[k].status, well) && !Crashes(e)
    ensures k < |Step(n, e).commands|
    ensures Remembers(Step(n, e).commands[k].status, well && !FailsDrain(e, k))
  {
    KeepsCommands(n, e);
    OthersKeepStatus(n, e, k);
    if OnCommand(e) && e.command == k {
      OwnStretchRemembers(n, e, well);
    }
    hide CommandStep, WorkStep, CommandEnabled, WorkEnabled;
  }

  lemma KeepsCommands(n: Node, e: Event)
    requires Enabled(n, e) && !Crashes(e)
    ensures |n.commands| <= |Step(n, e).commands|
  {
    if OnCommand(e) {
      CommandMovesOwn(n, e);
    } else if !e.CallSet? && !e.ClearPending? {
      OtherStep(n, e);
    }
    hide CommandStep, WorkStep, CommandEnabled, WorkEnabled;
  }

  lemma {:induction false} DrainRemembersOverRun(states: seq<Node>, events: seq<Event>, i: nat, j: nat, k: nat)
    requires Run(states, events) && i < j < |states| && events[i].DrainBody? && events[i].command == k
    requires forall m :: i < m < j ==> !Crashes(events[m])
    ensures k < |states[j].commands|
    ensures Remembers(states[j].commands[k].status, events[i].write.Synced? && NothingFailed(events, i, j, k))
  {
    hide Step, Enabled, Remembers;
    EventAt(states, events, j - 1);
    if j == i + 1 {
      DrainIsCommandStep(states[i], events[i]);
      DrainBegins(states[i], events[i]);
    } else {
      DrainRemembersOverRun(states, events, i, j - 1, k);
      DrainRemembers(states[j - 1], events[j - 1], k, events[i].write.Synced? && NothingFailed(events, i, j - 1, k));
    }
  }

  lemma DrainIsCommandStep(n: Node, e: Event)
    requires e.DrainBody? && Enabled(n, e)
    ensures CommandEnabled(n, e) && Step(n, e) == CommandStep(n, e)
  {
    hide CommandEnabled, CommandStep;
  }

  /**
   A drain that has finished resolved if and only if its marker was written and
   synced, its list call answered, and every unpause and stop of its sweep went
   well. Otherwise it was rejected.
   */
  lemma DrainResolvesExactlyWhenNothingFailed(states: seq<Node>, events: seq<Event>, i: nat, j: nat, k: nat)
    requires Run(states, events) && i < j < |states| && events[i].DrainBody? && events[i].command == k
    requires forall m :: i < m < j ==> !Crashes(events[m])
    ensures k < |states[j].commands|
    ensures states[j].commands[k].status.Done? ==>
              (DrainAcked(states[j], k) <==> events[i].write.Synced? && NothingFailed(events, i, j, k))
  {
    DrainRemembersOverRun(states, events, i, j, k);
  }

  /** Every call a drain makes to the daemon may fail, and a failure changes no container. */
  lemma AnyAnswerMayFail(n: Node, k: nat, w: nat)
    requires k < |n.commands| && n.commands[k].status.InBody?
    ensures n.commands[k].status.body.Listing? ==> Enabled(n, ListThrows(k)) && Step(n, ListThrows(k)).containers == n.containers
    ensures HoldsStage(n, k, w, Unpausing) ==>
              Enabled(n, UnpauseReturns(k, w, false)) && Step(n, UnpauseReturns(k, w, false)).containers == n.containers
    ensures HoldsStage(n, k, w, StopCalled) || HoldsStage(n, k, w, StopEffective) ==>
              Enabled(n, SweepStopReturns(k, w, false)) && Step(n, SweepStopReturns(k, w, false)).containers == n.containers
  {
  }

  /** The chain ends with the last call: once that has settled the next one waits for nothing. */
  lemma ChainIsForgotten(n: Node, k: nat, enable: bool)
    requires ChainInv(n) && n.up && Finished(n, k) && k == |n.commands| - 1
    ensures Enabled(n, ClearPending(k)) &&
            var m := Step(n, ClearPending(k));
            m.pending == None && Enabled(m, CallSet(enable)) &&
            var c := Step(m, CallSet(enable)).commands;
            |c| == k + 2 && c[k + 1] == Command(enable, None, Waiting)
  {
  }

  // ----- paused containers -----

  /** Worker `w` of drain `k` holds a container that was paused when it was listed. */
  predicate HoldsPaused(n: Node, k: nat, w: nat) {
    && InSweep(n, k)
    && var b := n.commands[k].status.body;
    w < |b.pool.slots| && b.pool.slots[w].Holding? && b.pool.slots[w].index < |b.todo| && b.todo[b.pool.slots[w].index].paused
  }

  /** Worker `w` of drain `k` is past the unpause of its container, or had none to do. */
  predicate PastUnpause(n: Node, k: nat, w: nat) {
    HoldsStage(n, k, w, StopCalled) || HoldsStage(n, k, w, StopEffective)
  }

  lemma SlotMoves(n: Node, e: Event, k: nat, w: nat)
    requires e.SweepBegins? || e.WorkerTakes? || e.UnpauseReturns? || e.DaemonStops? || e.SweepStopReturns?
    requires CommandEnabled(n, e) && e.command == k
    ensures HoldsPaused(CommandStep(n, e), k, w) && PastUnpause(CommandStep(n, e), k, w) ==>
              (HoldsPaused(n, k, w) && PastUnpause(n, k, w)) || (e == UnpauseReturns(k, w, true) && HoldsPaused(n, k, w))
    ensures HoldsStage(CommandStep(n, e), k, w, Unpausing) ==> HoldsStage(n, k, w, Unpausing) || HoldsPaused(CommandStep(n, e), k, w)
    ensures HoldsStage(n, k, w, Unpausing) && HoldsStage(CommandStep(n, e), k, w, Unpausing) && HoldsPaused(n, k, w) ==>
              HoldsPaused(CommandStep(n, e), k, w)
  {
  }

  lemma OtherStretchesKeepSlots(n: Node, e: Event, k: nat)
    requires Enabled(n, e) && InSweep(Step(n, e), k)
    requires !(OnCommand(e) && e.command == k && (e.SweepBegins? || e.WorkerTakes? || e.UnpauseReturns? || e.DaemonStops? || e.SweepStopReturns?))
    ensures k < |n.commands| && Step(n, e).commands[k] == n.commands[k]
  {
    OthersKeepStatus(n, e, k);
    if OnCommand(e) && e.command == k {
      NoSweepFrom(n, e);
    }
    hide CommandStep, WorkStep, CommandEnabled, WorkEnabled;
  }

  lemma NoSweepFrom(n: Node, e: Event)
    requires OnCommand(e) && CommandEnabled(n, e)
    requires !e.SweepBegins? && !e.WorkerTakes? && !e.UnpauseReturns? && !e.DaemonStops? && !e.SweepStopReturns?
    ensures !InSweep(CommandStep(n, e), e.command)
  {
    hide Lists;
  }

  lemma SlotStep(n: Node, e: Event, k: nat, w: nat)
    requires Enabled(n, e)
    ensures HoldsPaused(Step(n, e), k, w) && PastUnpause(Step(n, e), k, w) ==>
              (HoldsPaused(n, k, w) && PastUnpause(n, k, w)) || (e == UnpauseReturns(k, w, true) && HoldsPaused(n, k, w))
    ensures HoldsStage(Step(n, e), k, w, Unpausing) ==>
              HoldsPaused(Step(n, e), k, w) || (HoldsStage(n, k, w, Unpausing) && !HoldsPaused(n, k, w))
  {
    if InSweep(Step(n, e), k) {
      if OnCommand(e) && e.command == k && (e.SweepBegins? || e.WorkerTakes? || e.UnpauseReturns? || e.DaemonStops? || e.SweepStopReturns?) {
        SlotMoves(n, e, k, w);
      } else {
        OtherStretchesKeepSlots(n, e, k);
      }
    }
    hide CommandStep, WorkStep, CommandEnabled, WorkEnabled;
  }

  /** A container that was listed as paused is stopped only after its unpause has returned. */
  lemma {:induction false} PausedIsUnpausedFirst(states: seq<Node>, events: seq<Event>, j: nat, k: nat, w: nat)
    requires Run(states, events) && states[0].commands == [] && j < |states|
    requires HoldsPaused(states[j], k, w) && PastUnpause(states[j], k, w)
    ensures exists m: nat :: m < j && events[m] == UnpauseReturns(k, w, true) && HoldsPaused(states[m], k, w)
  {
    hide Step, Enabled, HoldsPaused, PastUnpause;
    if j == 0 {
      NothingHeldYet(states[0], k, w);
    } else {
      EventAt(states, events, j - 1);
      SlotStep(states[j - 1], events[j - 1], k, w);
      if HoldsPaused(states[j - 1], k, w) && PastUnpause(states[j - 1], k, w) {
        PausedIsUnpausedFirst(states, events, j - 1, k, w);
      }
    }
  }

  lemma NothingHeldYet(n: Node, k: nat, w: nat)
    requires n.commands == []
    ensures !HoldsPaused(n, k, w) && !HoldsStage(n, k, w, Unpausing)
  {
  }

  /** And no other container is unpaused. */
  lemma {:induction false} OnlyPausedIsUnpaused(states: seq<Node>, events: seq<Event>, j: nat, k: nat, w: nat)
    requires Run(states, events) && states[0].commands == [] && j < |states|
    requires HoldsStage(states[j], k, w, Unpausing)
    ensures HoldsPaused(states[j], k, w)
  {
    hide Step, Enabled, HoldsPaused, HoldsStage;
    if j == 0 {
      NothingHeldYet(states[0], k, w);
    } else {
      EventAt(states, events, j - 1);
      SlotStep(states[j - 1], events[j - 1], k, w);
      if HoldsStage(states[j - 1], k, w, Unpausing) {
        OnlyPausedIsUnpaused(states, events, j - 1, k, w);
      }
    }
  }

  // ----- every stretch gets closer to the end -----

  function SlotWork(s: Slot<Stage>): nat {
    match s
    case Retired => 0
    case Free => 1
    case Holding(_, stage) => if stage.Unpausing? then 4 else if stage.StopCalled? then 3 else 2
  }

  function SlotsWork(slots: seq<Slot<Stage>>): nat {
    if slots == [] then 0 else SlotWork(slots[0]) + SlotsWork(slots[1..])
  }

  /**
   What the sweep has still to do: what its workers hold, and four stretches at most
   for each container that is left.
   */
  function SweepWork(p: Pool<Stage>): nat
    requires p.next <= p.size
  {
    4 * (p.size - p.next) + SlotsWork(p.slots)
  }

  lemma {:induction false} SlotsWorkMoves(slots: seq<Slot<Stage>>, w: nat, s: Slot<Stage>)
    requires w < |slots|
    ensures SlotsWork(slots[w := s]) == SlotsWork(slots) - SlotWork(slots[w]) + SlotWork(s)
  {
    hide SlotWork;
    if w == 0 {
      assert slots[0 := s][1..] == slots[1..];
    } else {
      SlotsWorkMoves(slots[1..], w - 1, s);
      assert slots[w := s][1..] == slots[1..][w - 1 := s];
    }
  }

  /** How far a call has still to go: its stages, and within the sweep the work that is left. */
  function StagesLeft(s: Status): nat {
    match s
    case Waiting => 5
    case InBody(b) => if b.Settling? then 4 else if b.Listing? then 3 else if b.Listed? then 2 else 1
    case Done(_) => 0
  }

  predicate Closer(before: Status, after: Status) {
    || StagesLeft(after) < StagesLeft(before)
    || (&& before.InBody? && before.body.Sweeping? && after.InBody? && after.body.Sweeping?
        && before.body.pool.next <= before.body.pool.size && after.body.pool.next <= after.body.pool.size
        && SweepWork(after.body.pool) < SweepWork(before.body.pool))
  }

  lemma SlotGetsCloser(p: Pool<Stage>, q: Pool<Stage>, w: nat)
    requires Valid(p) && w < |p.slots| && q.size == p.size && p.next <= q.next <= q.size && |q.slots| == |p.slots|
    requires q.slots == p.slots[w := q.slots[w]]
    requires SlotWork(q.slots[w]) < SlotWork(p.slots[w]) + 4 * (q.next - p.next)
    ensures p.next <= p.size && SweepWork(q) < SweepWork(p)
  {
    SlotsWorkMoves(p.slots, w, q.slots[w]);
    hide SlotWork, SlotsWork;
  }

  lemma SweepMovesSlot(n: Node, e: Event)
    requires e.WorkerTakes? || e.UnpauseReturns? || e.DaemonStops? || e.SweepStopReturns?
    requires CommandEnabled(n, e) && Valid(n.commands[e.command].status.body.pool)
    ensures e.command < |CommandStep(n, e).commands| && InSweep(CommandStep(n, e), e.command)
    ensures var p, q := n.commands[e.command].status.body.pool, CommandStep(n, e).commands[e.command].status.body.pool;
            && e.worker < |p.slots| && q.size == p.size && p.next <= q.next <= q.size && |q.slots| == |p.slots|
            && q.slots == p.slots[e.worker := q.slots[e.worker]]
            && SlotWork(q.slots[e.worker]) < SlotWork(p.slots[e.worker]) + 4 * (q.next - p.next)
  {
    assert n.commands[e.command].status.body.pool.next <= n.commands[e.command].status.body.pool.size;
    hide Valid;
  }

  lemma SweepGetsCloser(n: Node, e: Event)
    requires e.WorkerTakes? || e.UnpauseReturns? || e.DaemonStops? || e.SweepStopReturns?
    requires CommandEnabled(n, e) && InSweep(n, e.command) && Valid(n.commands[e.command].status.body.pool)
    ensures e.command < |CommandStep(n, e).commands|
    ensures Closer(n.commands[e.command].status, CommandStep(n, e).commands[e.command].status)
  {
    SweepMovesSlot(n, e);
    hide CommandStep, CommandEnabled, SlotWork, SlotsWork, SweepWork;
    SlotGetsCloser(n.commands[e.command].status.body.pool, CommandStep(n, e).commands[e.command].status.body.pool, e.worker);
    hide Valid;
  }

  /** Every stretch of a call brings that call closer to its end, so no call goes on for ever by its own doing. */
  lemma EveryStretchGetsCloser(n: Node, e: Event)
    requires Inv(n) && Enabled(n, e) && OnCommand(e)
    ensures e.command < |n.commands| && e.command < |Step(n, e).commands|
    ensures Closer(n.commands[e.command].status, Step(n, e).commands[e.command].status)
  {
    StepOfCommand(n, e);
    CommandMovesOwn(n, e);
    if e.WorkerTakes? || e.UnpauseReturns? || e.DaemonStops? || e.SweepStopReturns? {
      assert BodyInv(n, n.commands[e.command].status.body);
      SweepGetsCloser(n, e);
    } else {
      StagesGetCloser(n, e);
    }
    hide Step, CommandStep, Closer, Inv, CommandEnabled;
  }

  lemma StagesGetCloser(n: Node, e: Event)
    requires OnCommand(e) && CommandEnabled(n, e)
    requires !e.WorkerTakes? && !e.UnpauseReturns? && !e.DaemonStops? && !e.SweepStopReturns?
    ensures e.command < |n.commands| && e.command < |CommandStep(n, e).commands|
    ensures StagesLeft(CommandStep(n, e).commands[e.command].status) < StagesLeft(n.commands[e.command].status)
  {
    hide Lists;
  }

  // ----- what a launch reports -----

  predicate Reports(p: LaunchPhase, ok: bool) {
    (p.Settled? || p.Reaped?) && p.ok == ok
  }

  /** The start of launch `l` returned with no drain begun since event `i`. */
  ghost predicate Undisturbed(events: seq<Event>, i: nat, j: nat, l: nat)
    requires j <= |events|
  {
    exists m: nat :: i < m < j && events[m] == StartReturns(l) && !DrainBetween(events, i, m)
  }

  lemma LaunchStep(n: Node, e: Event, l: nat)
    requires Enabled(n, e) && !Crashes(e) && l < |n.launches|
    ensures l < |Step(n, e).launches|
    ensures var p, q := n.launches[l].phase, Step(n, e).launches[l].phase;
            && (Reports(q, true) <==> Reports(p, true) || (e == StartReturns(l) && !Interrupted(n.latch, n.launches[l].generation)))
            && (e == StartReturns(l) ==> p.Starting? && !q.Starting?)
  {
    if OnCommand(e) {
      CommandFrame(n, e);
    } else if OnWork(e) {
      WorkStepLaunch(n, e, l);
    }
    hide CommandStep, WorkStep, CommandEnabled, WorkEnabled;
  }

  lemma WorkStepLaunch(n: Node, e: Event, l: nat)
    requires OnWork(e) && WorkEnabled(n, e) && l < |n.launches|
    ensures l < |WorkStep(n, e).launches|
    ensures var p, q := n.launches[l].phase, WorkStep(n, e).launches[l].phase;
            && (Reports(q, true) <==> Reports(p, true) || (e == StartReturns(l) && !Interrupted(n.latch, n.launches[l].generation)))
            && (e == StartReturns(l) ==> p.Starting? && !q.Starting?)
  {
  }

  lemma UndisturbedLast(events: seq<Event>, i: nat, j: nat, l: nat)
    requires i + 1 < j <= |events|
    ensures Undisturbed(events, i, j, l) <==>
            Undisturbed(events, i, j - 1, l) || (events[j - 1] == StartReturns(l) && !DrainBetween(events, i, j - 1))
  {
    hide DrainBetween;
  }

  /** A launch reports success exactly when its start returned before any drain began. */
  lemma {:induction false} LaunchReportsSuccessExactlyWhen(states: seq<Node>, events: seq<Event>, i: nat, j: nat)
    requires Run(states, events) && Inv(states[0]) && i < j < |states| && events[i].BeginLaunch?
    requires forall m :: i <= m < j ==> !Crashes(events[m])
    ensures var l := |states[i].launches|;
            l < |states[j].launches| && (Reports(states[j].launches[l].phase, true) <==> Undisturbed(events, i, j, l))
  {
    hide Step, Enabled, Inv, Undisturbed, DrainBetween, Reports;
    var l := |states[i].launches|;
    EventAt(states, events, i);
    BegunAt(states[i], events[i]);
    if j == i + 1 {
      NothingReturnedYet(events, i, l);
    } else {
      LaunchReportsSuccessExactlyWhen(states, events, i, j - 1);
      UndisturbedLast(events, i, j, l);
      GenerationTells(states, events, i, j - 1);
      EventAt(states, events, j - 1);
      hide Run;
      LaunchStep(states[j - 1], events[j - 1], l);
    }
  }

  lemma NothingReturnedYet(events: seq<Event>, i: nat, l: nat)
    requires i < |events|
    ensures !Undisturbed(events, i, i + 1, l)
  {
  }

  lemma GenerationTells(states: seq<Node>, events: seq<Event>, i: nat, j: nat)
    requires Run(states, events) && Inv(states[0]) && i < j < |states| && events[i].BeginLaunch?
    requires forall m :: i <= m < j ==> !Crashes(events[m])
    ensures var l := |states[i].launches|;
            l < |states[j].launches| && (Interrupted(states[j].latch, states[j].launches[l].generation) <==> DrainBetween(events, i, j))
  {
    hide Step, Enabled, Inv, DrainBetween;
    EventAt(states, events, i);
    BegunAt(states[i], events[i]);
    LatchRemembersDrain(states, events, i, j);
    EntriesAreKept(states, events, i + 1, j);
  }

  lemma BegunAt(n: Node, e: Event)
    requires e.BeginLaunch? && Enabled(n, e)
    ensures n.up && !n.latch.enabled && |Step(n, e).launches| == |n.launches| + 1
    ensures Step(n, e).launches[|n.launches|] == Launch(e.container, n.latch.generation, Starting)
    ensures !Reports(Step(n, e).launches[|n.launches|].phase, true)
  {
    WorkLaunches(n, e);
    hide CommandStep, CommandEnabled;
  }
}
