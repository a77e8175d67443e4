/** What every event of the drain protocol keeps. */
module DrainInvariants {
  import opened Common
  import opened MaintenanceLatch
  import opened WorkerPool
  import opened DrainProtocol

  /** The latch, the marker and what was accepted under them. */
  ghost predicate LatchInv(n: Node) {
    && Consistent(n.latch)
    && (n.up && n.marker ==> n.latch.enabled)
    && n.marker in n.onDisk
    && (!n.up ==> n.works == [] && n.launches == [] && n.commands == [] && n.pending.None?)
    && (forall k :: 0 <= k < |n.works| ==> n.works[k] <= n.latch.generation)
    && (n.latch.enabled ==> forall k :: 0 <= k < |n.works| ==> n.works[k] < n.latch.generation)
    && (forall l :: 0 <= l < |n.launches| ==> n.launches[l].generation <= n.latch.generation)
    && (n.latch.enabled ==> forall l :: 0 <= l < |n.launches| ==> n.launches[l].generation < n.latch.generation)
  }

  /** The promise chain: every command waits, directly or not, for all those called before it. */
  ghost predicate ChainInv(n: Node) {
    && (n.pending.None? ==> forall k :: 0 <= k < |n.commands| ==> n.commands[k].status.Done?)
    && (n.pending.Some? ==> n.pending.value == |n.commands| - 1)
    && (forall k :: 0 <= k < |n.commands| && n.commands[k].after.Some? ==> n.commands[k].after.value == k - 1)
    && (forall j, k :: 0 <= j < k < |n.commands| && n.commands[k].after.None? ==> n.commands[j].status.Done?)
    && (forall j, k :: 0 <= j < k < |n.commands| && !n.commands[k].status.Waiting? ==> n.commands[j].status.Done?)
  }

  ghost predicate NoneInFlight(n: Node) {
    forall l :: 0 <= l < |n.launches| ==> !n.launches[l].InFlight()
  }

  /** Container `c` is in the list and its stop has not taken effect yet. */
  ghost predicate StillListed(c: Container, b: Body)
    requires b.Sweeping?
  {
    exists i :: 0 <= i < |b.todo| && b.todo[i].container == c && i !in b.stopped && !StopSeen(b, i)
  }

  ghost predicate StopSeen(b: Body, i: nat)
    requires b.Sweeping?
  {
    exists w :: 0 <= w < |b.pool.slots| && b.pool.slots[w] == Holding(i, StopEffective)
  }

  ghost predicate InTodo(c: Container, todo: seq<Entry>) {
    exists i :: 0 <= i < |todo| && todo[i].container == c
  }

  ghost predicate DistinctEntries(todo: seq<Entry>) {
    forall i, j :: 0 <= i < j < |todo| ==> todo[i].container != todo[j].container
  }

  ghost predicate OnlyManaged(todo: seq<Entry>) {
    forall i :: 0 <= i < |todo| ==> todo[i].container.managed
  }

  ghost predicate BodyInv(n: Node, b: Body) {
    match b
    case Settling(waiting) =>
      forall l :: 0 <= l < |n.launches| && n.launches[l].InFlight() ==> l in waiting
    case Listing => NoneInFlight(n)
    case Listed(todo) =>
      && NoneInFlight(n) && DistinctEntries(todo) && OnlyManaged(todo)
      && forall c :: c in n.containers && c.managed && Live(n, c) ==> InTodo(c, todo)
    case Sweeping(todo, pool, stopped, failed) =>
      && NoneInFlight(n) && DistinctEntries(todo) && OnlyManaged(todo)
      && Valid(pool) && pool.size == |todo|
      && pool.done == stopped + failed && stopped !! failed
      && forall c :: c in n.containers && c.managed && Live(n, c) ==> StillListed(c, b)
  }

  /** While a drain is suspended the latch is closed, its marker is written, and its list is complete. */
  ghost predicate BodiesInv(n: Node) {
    forall k :: 0 <= k < |n.commands| && n.commands[k].status.InBody? ==>
      && n.commands[k].enable && n.up && n.latch.enabled && n.marker
      && BodyInv(n, n.commands[k].status.body)
  }

  ghost predicate Inv(n: Node) {
    LatchInv(n) && ChainInv(n) && BodiesInv(n)
  }

  // ----- one body at a time -----

  /**
   At most one body is suspended at any time, everything called before it has finished,
   and nothing after it has begun.
   */
  lemma OneBodyAtATime(n: Node, j: nat, k: nat)
    requires ChainInv(n) && j < k < |n.commands| && n.commands[j].status.InBody?
    ensures n.commands[k].status.Waiting?
  {
    assert n.commands[j].status.Done? || n.commands[k].status.Waiting?;
  }

  lemma RunnableIsNext(n: Node, k: nat)
    requires ChainInv(n) && BodyMayRun(n, k)
    ensures forall j :: 0 <= j < k ==> n.commands[j].status.Done?
    ensures forall j :: k <= j < |n.commands| ==> n.commands[j].status.Waiting?
  {
    if n.commands[k].after.Some? && k > 0 {
      assert !n.commands[k - 1].status.Waiting?;
    }
    forall j | k < j < |n.commands|
      ensures n.commands[j].status.Waiting?
    {
      assert n.commands[k].status.Done? || n.commands[j].status.Waiting?;
    }
  }

  // ----- what each group of events leaves alone -----

  /** Past its first stretch a body moves its own command and stops containers, and nothing else. */
  lemma BodyFrame(n: Node, e: Event)
    requires OnCommand(e) && CommandEnabled(n, e) && !e.ActivateBody? && !e.DrainBody?
    ensures var m := CommandStep(n, e);
            m == n.(commands := m.commands, containers := m.containers) && (!e.DaemonStops? ==> m.containers == n.containers)
  {
  }

  lemma CommandFrame(n: Node, e: Event)
    requires OnCommand(e) && CommandEnabled(n, e)
    ensures var m := CommandStep(n, e);
            && m.up == n.up && m.works == n.works && m.launches == n.launches && m.pending == n.pending
            && (!e.DaemonStops? ==> m.containers == n.containers)
  {
    if !e.ActivateBody? && !e.DrainBody? {
      BodyFrame(n, e);
      hide CommandStep;
    }
  }

  lemma CommandLatch(n: Node, e: Event)
    requires OnCommand(e) && CommandEnabled(n, e)
    ensures var m := CommandStep(n, e);
            && m.latch == (if e.DrainBody? then Drained(n.latch)
                           else if e.ActivateBody? && e.unlinked then Activated(n.latch) else n.latch)
            && m.marker == (if e.DrainBody? then n.marker || !e.write.CannotOpen?
                            else if e.ActivateBody? && e.unlinked then false else n.marker)
            && m.onDisk == (if e.DrainBody? && !e.write.CannotOpen? then n.onDisk + {true}
                            else if e.ActivateBody? && e.unlinked then n.onDisk + {false} else n.onDisk)
  {
    if !e.ActivateBody? && !e.DrainBody? {
      BodyFrame(n, e);
      hide CommandStep;
    }
  }

  lemma WorkFrame(n: Node, e: Event)
    requires OnWork(e) && WorkEnabled(n, e)
    ensures var m := WorkStep(n, e);
            && m == n.(works := m.works, launches := m.launches, containers := m.containers)
            && (!e.AcceptWork? ==> m.works == n.works)
            && (e.AcceptWork? ==> m.works == n.works + [n.latch.generation])
            && (!e.DaemonStarts? && !e.ContainerChanges? ==> m.containers == n.containers)
  {
  }

  lemma WorkLaunches(n: Node, e: Event)
    requires OnWork(e) && WorkEnabled(n, e)
    ensures var m := WorkStep(n, e);
            if e.BeginLaunch? then m.launches == n.launches + [Launch(e.container, n.latch.generation, Starting)]
            else |m.launches| == |n.launches|
                 && forall l :: 0 <= l < |n.launches| ==>
                      m.launches[l].generation == n.launches[l].generation && m.launches[l].container == n.launches[l].container
                      && (m.launches[l].InFlight() ==> n.launches[l].InFlight())
  {
  }

  // ----- preservation, group by group -----

  lemma LatchInvStep(n: Node, e: Event)
    requires LatchInv(n) && Enabled(n, e)
    ensures LatchInv(Step(n, e))
  {
    hide Step, Enabled;
    LatchMoves(n, e);
    WorksMove(n, e);
    LaunchesMove(n, e);
    var m := Step(n, e);
    hide Consistent;
    if m.launches != [] && |m.launches| == |n.launches| + 1 {
      assert forall l :: 0 <= l < |n.launches| ==> m.launches[l] == m.launches[..|n.launches|][l];
    }
  }

  /** The latch closes with a drain, opens with an activation, and starts over with a new process. */
  lemma LatchMoves(n: Node, e: Event)
    requires LatchInv(n) && Enabled(n, e)
    ensures var m := Step(n, e);
            && Consistent(m.latch) && (m.up && m.marker ==> m.latch.enabled) && m.marker in m.onDisk
            && (!m.up ==> m.works == [] && m.launches == [] && m.commands == [] && m.pending.None?)
            && (m.latch.generation >= n.latch.generation || (m.works == [] && m.launches == []))
            && (m.latch.enabled && !n.latch.enabled ==>
                  m.latch.generation > n.latch.generation || (m.works == [] && m.launches == []))
  {
    if OnCommand(e) {
      CommandFrame(n, e);
      CommandLatch(n, e);
    } else if OnWork(e) {
      WorkFrame(n, e);
    }
    hide CommandStep, WorkStep, CommandEnabled;
  }

  lemma WorksMove(n: Node, e: Event)
    requires Enabled(n, e)
    ensures var m := Step(n, e);
            m.works == n.works || m.works == [] || (!n.latch.enabled && m.latch == n.latch && m.works == n.works + [n.latch.generation])
  {
    if OnCommand(e) {
      CommandFrame(n, e);
    } else if OnWork(e) {
      WorkFrame(n, e);
    }
    hide CommandStep, WorkStep, CommandEnabled;
  }

  lemma LaunchesMove(n: Node, e: Event)
    requires Enabled(n, e)
    ensures var m := Step(n, e);
            || m.launches == []
            || (|m.launches| == |n.launches| && forall l :: 0 <= l < |n.launches| ==> m.launches[l].generation == n.launches[l].generation)
            || (!n.latch.enabled && m.latch == n.latch && |m.launches| == |n.launches| + 1
                && m.launches[..|n.launches|] == n.launches && m.launches[|n.launches|].generation == n.latch.generation)
  {
    if OnCommand(e) {
      CommandFrame(n, e);
    } else if OnWork(e) {
      WorkFrame(n, e);
      WorkLaunches(n, e);
    }
    hide CommandStep, WorkStep, CommandEnabled;
  }

  /** Moving a command on keeps the chain, as long as everything before it is done. */
  lemma StatusKeepsChain(n: Node, k: nat, status: Status)
    requires ChainInv(n) && k < |n.commands| && !n.commands[k].status.Done? && !status.Waiting?
    requires forall j :: 0 <= j < k ==> n.commands[j].status.Done?
    ensures ChainInv(SetStatus(n, k, status))
  {
    assert n.pending.Some?;
  }

  lemma OwnStatus(n: Node, e: Event)
    requires OnCommand(e) && CommandEnabled(n, e)
    ensures e.command < |n.commands| && !n.commands[e.command].status.Done?
    ensures var m := CommandStep(n, e);
            && |m.commands| == |n.commands| && !m.commands[e.command].status.Waiting?
            && m.commands == SetStatus(n, e.command, m.commands[e.command].status).commands
  {
    if e.ActivateBody? || e.DrainBody? {
    } else {
      hide BodyMayRun, Lists;
    }
  }

  /** A body's stretch moves only its own command. */
  lemma CommandMovesOwn(n: Node, e: Event)
    requires Enabled(n, e) && OnCommand(e)
    ensures e.command < |n.commands| && !n.commands[e.command].status.Done?
    ensures var m := Step(n, e);
            && |m.commands| == |n.commands| && !m.commands[e.command].status.Waiting?
            && m.commands == SetStatus(n, e.command, m.commands[e.command].status).commands
            && m.pending == n.pending
  {
    CommandFrame(n, e);
    OwnStatus(n, e);
    hide CommandStep, CommandEnabled;
  }

  lemma OtherStep(n: Node, e: Event)
    requires Enabled(n, e) && !OnCommand(e)
    requires !e.CallSet? && !e.ClearPending? && !e.ProcessDies? && !e.PowerFails?
    ensures Step(n, e).commands == n.commands && Step(n, e).pending == n.pending
  {
    if OnWork(e) {
      WorkFrame(n, e);
    }
    hide WorkStep;
  }

  lemma ChainInvStep(n: Node, e: Event)
    requires ChainInv(n) && Enabled(n, e)
    ensures ChainInv(Step(n, e))
  {
    if OnCommand(e) {
      CommandMovesOwn(n, e);
      if e.ActivateBody? || e.DrainBody? {
        RunnableIsNext(n, e.command);
      }
      StatusKeepsChain(n, e.command, Step(n, e).commands[e.command].status);
    } else if e.CallSet? || e.ClearPending? || e.ProcessDies? || e.PowerFails? {
      ChainInvOther(n, e);
    } else {
      OtherStep(n, e);
    }
  }

  lemma ChainInvOther(n: Node, e: Event)
    requires ChainInv(n) && Enabled(n, e)
    requires e.CallSet? || e.ClearPending? || e.ProcessDies? || e.PowerFails?
    ensures ChainInv(Step(n, e))
  {
    hide CommandEnabled, WorkEnabled, CommandStep, WorkStep;
    if e.ClearPending? && n.pending == Some(e.command) {
      assert forall j :: 0 <= j < e.command ==> n.commands[j].status.Done?;
    }
  }

  /** No launch begins in flight, and no managed container comes alive. */
  ghost predicate OnlyQuieter(n: Node, m: Node) {
    && |m.launches| >= |n.launches|
    && (forall l :: 0 <= l < |m.launches| && m.launches[l].InFlight() ==> l < |n.launches| && n.launches[l].InFlight())
    && (NoneInFlight(n) ==>
          forall c :: c in m.containers && c.managed && Live(m, c) ==> c in n.containers && Live(n, c))
  }

  lemma QuieterKeepsBody(n: Node, m: Node, b: Body)
    requires OnlyQuieter(n, m) && BodyInv(n, b)
    ensures BodyInv(m, b)
  {
  }

  lemma DaemonIsQuieter(n: Node, e: Event)
    requires (e.DaemonStarts? || e.ContainerChanges?) && WorkEnabled(n, e)
    ensures var m := WorkStep(n, e);
            NoneInFlight(n) ==> forall c :: c in m.containers && c.managed && Live(m, c) ==> c in n.containers && Live(n, c)
  {
  }

  lemma OtherStepIsQuieter(n: Node, e: Event)
    requires Enabled(n, e) && !OnCommand(e) && n.up && n.latch.enabled
    requires !e.ProcessDies? && !e.PowerFails?
    ensures var m := Step(n, e);
            OnlyQuieter(n, m) && m.up && m.latch == n.latch && m.marker == n.marker
  {
    if OnWork(e) {
      WorkFrame(n, e);
      WorkLaunches(n, e);
      if e.DaemonStarts? || e.ContainerChanges? {
        DaemonIsQuieter(n, e);
      }
      hide WorkStep;
    }
  }

  /** Only command `k` can be in its body. */
  ghost predicate SoleBody(n: Node, k: nat) {
    forall j :: 0 <= j < |n.commands| && n.commands[j].status.InBody? ==> j == k
  }

  lemma InBodyIsSole(n: Node, k: nat)
    requires ChainInv(n) && k < |n.commands| && n.commands[k].status.InBody?
    ensures SoleBody(n, k)
  {
    assert forall j :: 0 <= j < k ==> n.commands[j].status.Done?;
    forall j | k < j < |n.commands|
      ensures n.commands[j].status.Waiting?
    {
      OneBodyAtATime(n, k, j);
    }
  }

  lemma StatusOfCommand(n: Node, e: Event)
    requires Enabled(n, e) && OnCommand(e)
    ensures e.command < |n.commands| && (BodyMayRun(n, e.command) || n.commands[e.command].status.InBody?)
  {
  }

  lemma CommandIsSole(n: Node, e: Event)
    requires ChainInv(n) && Enabled(n, e) && OnCommand(e)
    ensures SoleBody(n, e.command) && SoleBody(Step(n, e), e.command)
  {
    CommandMovesOwn(n, e);
    StatusOfCommand(n, e);
    hide Step, Enabled;
    if n.commands[e.command].status.InBody? {
      InBodyIsSole(n, e.command);
    } else {
      RunnableIsNext(n, e.command);
    }
  }

  // ----- the stretches of one drain -----

  ghost predicate Suspended(n: Node, k: nat) {
    k < |n.commands| && n.commands[k].status.InBody? && n.commands[k].enable
    && n.up && n.latch.enabled && n.marker && BodyInv(n, n.commands[k].status.body)
  }

  lemma DrainBodySuspends(n: Node, e: Event)
    requires LatchInv(n) && e.DrainBody? && Enabled(n, e) && Step(n, e).commands[e.command].status.InBody?
    ensures Suspended(Step(n, e), e.command)
  {
  }

  lemma BeforeSweepStep(n: Node, e: Event)
    requires e.LaunchesSettled? || e.ListReturns? || e.SweepBegins?
    requires Enabled(n, e) && Suspended(n, e.command)
    ensures Suspended(Step(n, e), e.command)
  {
    var m := Step(n, e);
    match e
    case LaunchesSettled(k) =>
      assert NoneInFlight(n);
    case ListReturns(k, todo) =>
      assert Lists(n, todo);
      assert forall c :: c in n.containers && c.managed && Live(n, c) ==> InTodo(c, todo);
    case SweepBegins(k) =>
      var todo := n.commands[k].status.body.todo;
      FreshValid<Stage>(|todo|);
      var b := m.commands[k].status.body;
      forall c | c in n.containers && c.managed && Live(n, c)
        ensures StillListed(c, b)
      {
        var i :| 0 <= i < |todo| && todo[i].container == c;
        assert i !in b.stopped && !StopSeen(b, i);
      }
  }

  /** The entry a listed container is still waiting on survives when only slot `w` changes. */
  lemma ListedSurvives(n: Node, m: Node, b: Body, d: Body, w: nat)
    requires b.Sweeping? && d.Sweeping? && d.todo == b.todo
    requires w < |b.pool.slots| && |d.pool.slots| == |b.pool.slots|
    requires d.pool.slots == b.pool.slots[w := d.pool.slots[w]]
    requires !(d.pool.slots[w].Holding? && d.pool.slots[w].stage == StopEffective)
    requires forall i :: i in d.stopped ==> i in b.stopped || b.pool.slots[w] == Holding(i, StopEffective)
    requires m.containers == n.containers
    requires forall c :: c in n.containers && c.managed && Live(n, c) ==> StillListed(c, b)
    ensures forall c :: c in m.containers && c.managed && Live(m, c) ==> StillListed(c, d)
  {
    forall c | c in m.containers && c.managed && Live(m, c)
      ensures StillListed(c, d)
    {
      assert Live(n, c) && StillListed(c, b);
      var i :| 0 <= i < |b.todo| && b.todo[i].container == c && i !in b.stopped && !StopSeen(b, i);
      forall v | 0 <= v < |d.pool.slots|
        ensures d.pool.slots[v] != Holding(i, StopEffective)
      {
        assert v == w || d.pool.slots[v] == b.pool.slots[v];
      }
      assert i !in d.stopped && !StopSeen(d, i);
    }
  }

  lemma WorkerTakesStep(n: Node, e: Event)
    requires e.WorkerTakes? && Enabled(n, e) && Suspended(n, e.command)
    ensures Suspended(Step(n, e), e.command)
  {
    var b := n.commands[e.command].status.body;
    var stage := if b.pool.next < |b.todo| && b.todo[b.pool.next].paused then Unpausing else StopCalled;
    TakeValid(b.pool, e.worker, stage);
    ListedSurvives(n, Step(n, e), b, b.(pool := Take(b.pool, e.worker, stage)), e.worker);
  }

  lemma UnpauseStep(n: Node, e: Event)
    requires e.UnpauseReturns? && Enabled(n, e) && Suspended(n, e.command)
    ensures Suspended(Step(n, e), e.command)
  {
    var m := Step(n, e);
    var b := n.commands[e.command].status.body;
    AdvanceValid(b.pool, e.worker, StopCalled);
    ReleaseValid(b.pool, e.worker);
    ListedSurvives(n, m, b, m.commands[e.command].status.body, e.worker);
  }

  lemma DaemonStopsStep(n: Node, e: Event)
    requires e.DaemonStops? && Enabled(n, e) && Suspended(n, e.command)
    ensures Suspended(Step(n, e), e.command)
  {
    var m := Step(n, e);
    var b := n.commands[e.command].status.body;
    var d := m.commands[e.command].status.body;
    var i0 := b.pool.slots[e.worker].index;
    AdvanceValid(b.pool, e.worker, StopEffective);
    forall c | c in m.containers && c.managed && Live(m, c)
      ensures StillListed(c, d)
    {
      assert Live(n, c) && StillListed(c, b);
      var i :| 0 <= i < |b.todo| && b.todo[i].container == c && i !in b.stopped && !StopSeen(b, i);
      assert i != i0;
      forall v | 0 <= v < |d.pool.slots|
        ensures d.pool.slots[v] != Holding(i, StopEffective)
      {
        assert v == e.worker || d.pool.slots[v] == b.pool.slots[v];
      }
      assert i !in d.stopped && !StopSeen(d, i);
    }
  }

  lemma SweepStopStep(n: Node, e: Event)
    requires e.SweepStopReturns? && Enabled(n, e) && Suspended(n, e.command)
    ensures Suspended(Step(n, e), e.command)
  {
    var m := Step(n, e);
    var b := n.commands[e.command].status.body;
    ReleaseValid(b.pool, e.worker);
    ListedSurvives(n, m, b, m.commands[e.command].status.body, e.worker);
  }

  lemma StepOfCommand(n: Node, e: Event)
    requires Enabled(n, e) && OnCommand(e)
    ensures CommandEnabled(n, e) && Step(n, e) == CommandStep(n, e)
  {
    hide CommandEnabled, CommandStep;
  }

  lemma BodyEnds(n: Node, e: Event)
    requires OnCommand(e) && CommandEnabled(n, e)
    ensures e.ActivateBody? || e.ListThrows? || e.SweepEnds? ==>
              e.command < |CommandStep(n, e).commands| && CommandStep(n, e).commands[e.command].status.Done?
  {
  }

  /** A stretch of a drain that suspends again keeps what the drain relies on. */
  lemma CommandKeepsBody(n: Node, e: Event)
    requires Inv(n) && Enabled(n, e) && OnCommand(e) && Step(n, e).commands[e.command].status.InBody?
    ensures Suspended(Step(n, e), e.command)
  {
    StepOfCommand(n, e);
    OwnStatus(n, e);
    BodyEnds(n, e);
    assert !e.ActivateBody? && !e.DrainBody? ==> Suspended(n, e.command) by {
      hide Step, CommandStep;
    }
    hide Step, CommandStep, Suspended, Inv, CommandEnabled;
    match e
    case DrainBody(_, _) => DrainBodySuspends(n, e);
    case LaunchesSettled(_) => BeforeSweepStep(n, e);
    case ListReturns(_, _) => BeforeSweepStep(n, e);
    case SweepBegins(_) => BeforeSweepStep(n, e);
    case WorkerTakes(_, _) => WorkerTakesStep(n, e);
    case UnpauseReturns(_, _, _) => UnpauseStep(n, e);
    case DaemonStops(_, _) => DaemonStopsStep(n, e);
    case SweepStopReturns(_, _, _) => SweepStopStep(n, e);
    case _ =>
  }

  lemma BodiesInvCommand(n: Node, e: Event)
    requires Inv(n) && Enabled(n, e) && OnCommand(e)
    ensures BodiesInv(Step(n, e))
  {
    CommandMovesOwn(n, e);
    CommandIsSole(n, e);
    var m := Step(n, e);
    if m.commands[e.command].status.InBody? {
      CommandKeepsBody(n, e);
    }
    hide Step, Enabled, Inv, BodyInv;
  }

  lemma BodiesInvOther(n: Node, e: Event)
    requires Inv(n) && Enabled(n, e) && !OnCommand(e) && !e.ProcessDies? && !e.PowerFails?
    ensures BodiesInv(Step(n, e))
  {
    var m := Step(n, e);
    forall k | 0 <= k < |m.commands| && m.commands[k].status.InBody?
      ensures Suspended(m, k)
    {
      assert k < |n.commands| && m.commands[k] == n.commands[k] by {
        if !e.CallSet? && !e.ClearPending? {
          OtherStep(n, e);
        }
      }
      OtherStepIsQuieter(n, e);
      QuieterKeepsBody(n, m, n.commands[k].status.body);
    }
  }

  lemma BodiesInvStep(n: Node, e: Event)
    requires Inv(n) && Enabled(n, e)
    ensures BodiesInv(Step(n, e))
  {
    if OnCommand(e) {
      BodiesInvCommand(n, e);
    } else if !e.ProcessDies? && !e.PowerFails? {
      BodiesInvOther(n, e);
    }
  }

  /** Every event keeps the invariant, whatever it interleaves with. */
  lemma InvStep(n: Node, e: Event)
    requires Inv(n) && Enabled(n, e)
    ensures Inv(Step(n, e))
  {
    LatchInvStep(n, e);
    ChainInvStep(n, e);
    BodiesInvStep(n, e);
  }

  lemma InvInit(containers: map<Container, ContainerState>)
    ensures Inv(Init(containers))
  {
  }

  lemma {:induction false} InvOverRun(states: seq<Node>, events: seq<Event>, i: nat)
    requires Run(states, events) && Inv(states[0]) && i < |states|
    ensures Inv(states[i])
  {
    if i > 0 {
      InvOverRun(states, events, i - 1);
      InvStep(states[i - 1], events[i - 1]);
    }
  }
}
