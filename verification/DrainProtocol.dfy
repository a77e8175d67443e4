/**
 The drain/activate protocol as a state machine. Each stretch of agent code
 between two awaits is one event, and so is each thing the container daemon,
 a crash or a reboot may do in between.
 */
module DrainProtocol {
  import opened Common
  import opened MaintenanceLatch
  import opened WorkerPool

  // ----- containers and launches -----

  /** `managed` stands for the managed or backup-tool label, fixed when a container is created. */
  datatype Container = Container(name: nat, managed: bool)

  datatype ContainerState = Running | Paused | Restarting | Stopped

  datatype LaunchPhase = Starting | Stopping | Settled(ok: bool) | Reaped(ok: bool)

  datatype Launch = Launch(container: Container, generation: nat, phase: LaunchPhase) {
    predicate InFlight() {
      phase.Starting? || phase.Stopping?
    }
  }

  // ----- commands -----

  datatype Entry = Entry(container: Container, paused: bool)

  datatype Stage = Unpausing | StopCalled | StopEffective

  /** Where the body of a drain is suspended. */
  datatype Body =
    | Settling(waiting: set<nat>)
    | Listing
    | Listed(todo: seq<Entry>)
    | Sweeping(todo: seq<Entry>, pool: Pool<Stage>, stopped: set<nat>, failed: set<nat>)

  datatype Outcome = AckActivated | AckDrained(stopped: nat) | Rejected

  datatype Status = Waiting | InBody(body: Body) | Done(outcome: Outcome)

  /** One call of `set`; `after` is the pending call it chains on, if there was one. */
  datatype Command = Command(enable: bool, after: Option<nat>, status: Status)

  datatype MarkerWrite = CannotOpen | CannotSync | Synced

  /**
   The node. `marker` is the file as a reader sees it, `onDisk` whether a loss of
   power may leave it there or not: the folder it is in is never synced, so every
   change since the folder last reached the disk may or may not have been written.
   `works[k]` and `launches[k]` are the pieces of work and
   the launches the current process accepted, in order; `commands` its `set` calls.
   */
  datatype Node = Node(
    up: bool,
    latch: Latch,
    works: seq<nat>,
    launches: seq<Launch>,
    commands: seq<Command>,
    pending: Option<nat>,
    marker: bool,
    onDisk: set<bool>,
    containers: map<Container, ContainerState>)

  predicate Live(n: Node, c: Container) {
    c in n.containers && !n.containers[c].Stopped?
  }

  /** The managed containers a list call reports as running, paused or restarting. */
  predicate Lists(n: Node, todo: seq<Entry>) {
    && (forall i, j :: 0 <= i < j < |todo| ==> todo[i].container != todo[j].container)
    && (forall i :: 0 <= i < |todo| ==>
          && todo[i].container.managed && Live(n, todo[i].container)
          && (todo[i].paused <==> n.containers[todo[i].container].Paused?))
    && (forall c :: c in n.containers && c.managed && Live(n, c) ==>
          exists i :: 0 <= i < |todo| && todo[i].container == c)
  }

  datatype Event =
    // requests and launches
    | AcceptWork(context: Option<nat>)
    | BeginLaunch(container: Container, context: Option<nat>)
    | StartReturns(launch: nat)
    | StartThrows(launch: nat)
    | StopReturns(launch: nat)
    | Reap(launch: nat)
    // the daemon
    | DaemonStarts(launch: nat)
    | ContainerChanges(container: Container, state: ContainerState)
    // set()
    | CallSet(enable: bool)
    | ActivateBody(command: nat, unlinked: bool)
    | DrainBody(command: nat, write: MarkerWrite)
    | LaunchesSettled(command: nat)
    | ListReturns(command: nat, todo: seq<Entry>)
    | ListThrows(command: nat)
    | SweepBegins(command: nat)
    | WorkerTakes(command: nat, worker: nat)
    | UnpauseReturns(command: nat, worker: nat, ok: bool)
    | DaemonStops(command: nat, worker: nat)
    | SweepStopReturns(command: nat, worker: nat, ok: bool)
    | SweepEnds(command: nat)
    | ClearPending(command: nat)
    // the machine
    | FlushMarker
    | ProcessDies
    | PowerFails(left: bool)
    | Boots

  function Init(containers: map<Container, ContainerState>): Node {
    Node(true, INITIAL, [], [], [], None, false, {false}, containers)
  }

  predicate BodyMayRun(n: Node, k: nat) {
    && k < |n.commands| && n.commands[k].status.Waiting?
    && (n.commands[k].after.Some? ==>
          n.commands[k].after.value < |n.commands| && n.commands[n.commands[k].after.value].status.Done?)
  }

  predicate InSweep(n: Node, k: nat) {
    k < |n.commands| && n.commands[k].status.InBody? && n.commands[k].status.body.Sweeping?
  }

  predicate HoldsStage(n: Node, k: nat, w: nat, stage: Stage) {
    && InSweep(n, k)
    && var p := n.commands[k].status.body.pool;
    w < |p.slots| && p.slots[w].Holding? && p.slots[w].stage == stage
    && p.slots[w].index < |n.commands[k].status.body.todo|
  }

  /** The stretches of one command's body. */
  predicate OnCommand(e: Event) {
    e.ActivateBody? || e.DrainBody? || e.LaunchesSettled? || e.ListReturns? || e.ListThrows? || e.SweepBegins?
    || e.WorkerTakes? || e.UnpauseReturns? || e.DaemonStops? || e.SweepStopReturns? || e.SweepEnds?
  }

  /** What callers and launches do, and the daemon on its own. */
  predicate OnWork(e: Event) {
    e.AcceptWork? || e.BeginLaunch? || e.StartReturns? || e.StartThrows? || e.StopReturns? || e.Reap?
    || e.DaemonStarts? || e.ContainerChanges?
  }

  predicate CommandEnabled(n: Node, e: Event)
    requires OnCommand(e)
  {
    match e
    case ActivateBody(k, _) => BodyMayRun(n, k) && !n.commands[k].enable
    case DrainBody(k, _) => BodyMayRun(n, k) && n.commands[k].enable
    case LaunchesSettled(k) =>
      && k < |n.commands| && n.commands[k].status.InBody? && n.commands[k].status.body.Settling?
      && forall l :: l in n.commands[k].status.body.waiting && l < |n.launches| ==> !n.launches[l].InFlight()
    case ListReturns(k, todo) =>
      k < |n.commands| && n.commands[k].status.InBody? && n.commands[k].status.body.Listing? && Lists(n, todo)
    case ListThrows(k) =>
      k < |n.commands| && n.commands[k].status.InBody? && n.commands[k].status.body.Listing?
    case SweepBegins(k) =>
      k < |n.commands| && n.commands[k].status.InBody? && n.commands[k].status.body.Listed?
    case WorkerTakes(k, w) =>
      InSweep(n, k) && w < |n.commands[k].status.body.pool.slots| && n.commands[k].status.body.pool.slots[w].Free?
    case UnpauseReturns(k, w, _) => HoldsStage(n, k, w, Unpausing)
    case DaemonStops(k, w) => HoldsStage(n, k, w, StopCalled)
    // A stop call that resolves has seen its container not running.
    case SweepStopReturns(k, w, ok) => HoldsStage(n, k, w, StopEffective) || (!ok && HoldsStage(n, k, w, StopCalled))
    case SweepEnds(k) =>
      InSweep(n, k) && forall w :: 0 <= w < |n.commands[k].status.body.pool.slots| ==>
        n.commands[k].status.body.pool.slots[w].Retired?
  }

  predicate WorkEnabled(n: Node, e: Event)
    requires OnWork(e)
  {
    match e
    case AcceptWork(context) => n.up && Available(n.latch, context)
    case BeginLaunch(c, context) => n.up && Available(n.latch, context)
    case StartReturns(l) => l < |n.launches| && n.launches[l].phase.Starting?
    // A start call that threw takes no effect any more: only a start in flight can.
    case StartThrows(l) => l < |n.launches| && n.launches[l].phase.Starting?
    case StopReturns(l) => l < |n.launches| && n.launches[l].phase.Stopping?
    case Reap(l) => l < |n.launches| && n.launches[l].phase.Settled?
    case DaemonStarts(l) => l < |n.launches| && n.launches[l].phase.Starting?
    // Managed containers come alive only through a launch.
    case ContainerChanges(c, s) => !c.managed || Live(n, c) || s.Stopped?
  }

  predicate Enabled(n: Node, e: Event) {
    if OnCommand(e) then CommandEnabled(n, e)
    else if OnWork(e) then WorkEnabled(n, e)
    else match e
      case CallSet(_) => n.up
      case ClearPending(k) => k < |n.commands| && n.commands[k].status.Done?
      case FlushMarker => true
      case ProcessDies => n.up
      case PowerFails(left) => n.up && left in n.onDisk
      case Boots => !n.up
  }

  function SetPhase(n: Node, l: nat, phase: LaunchPhase): Node
    requires l < |n.launches|
  {
    n.(launches := n.launches[l := n.launches[l].(phase := phase)])
  }

  function SetStatus(n: Node, k: nat, status: Status): Node
    requires k < |n.commands|
  {
    n.(commands := n.commands[k := n.commands[k].(status := status)])
  }

  /** What survives the death of the process: the marker and the containers. */
  function Down(n: Node): Node {
    Node(false, INITIAL, [], [], [], None, n.marker, n.onDisk, n.containers)
  }

  /** The launches that have not left the set of starts. */
  function Unreaped(n: Node): set<nat> {
    set l: nat | l < |n.launches| && !n.launches[l].phase.Reaped?
  }

  function CommandStep(n: Node, e: Event): Node
    requires OnCommand(e) && CommandEnabled(n, e)
  {
    match e
    case ActivateBody(k, unlinked) =>
      if unlinked
      then SetStatus(n, k, Done(AckActivated)).(marker := false, onDisk := n.onDisk + {false}, latch := Activated(n.latch))
      else SetStatus(n, k, Done(Rejected))
    case DrainBody(k, write) =>
      SetStatus(n, k,
                if write.Synced? then InBody(Settling(Unreaped(n))) else Done(Rejected))
      .(latch := Drained(n.latch), marker := n.marker || !write.CannotOpen?,
        onDisk := if write.CannotOpen? then n.onDisk else n.onDisk + {true})
    case LaunchesSettled(k) => SetStatus(n, k, InBody(Listing))
    case ListReturns(k, todo) => SetStatus(n, k, InBody(Listed(todo)))
    case ListThrows(k) => SetStatus(n, k, Done(Rejected))
    case SweepBegins(k) =>
      var todo := n.commands[k].status.body.todo;
      SetStatus(n, k, InBody(Sweeping(todo, Fresh(|todo|), {}, {})))
    case WorkerTakes(k, w) =>
      var b := n.commands[k].status.body;
      var stage := if b.pool.next < |b.todo| && b.todo[b.pool.next].paused then Unpausing else StopCalled;
      SetStatus(n, k, InBody(b.(pool := Take(b.pool, w, stage))))
    case UnpauseReturns(k, w, ok) =>
      var b := n.commands[k].status.body;
      if ok
      then SetStatus(n, k, InBody(b.(pool := Advance(b.pool, w, StopCalled))))
      else SetStatus(n, k, InBody(b.(pool := Release(b.pool, w), failed := b.failed + {b.pool.slots[w].index})))
    case DaemonStops(k, w) =>
      var b := n.commands[k].status.body;
      SetStatus(n, k, InBody(b.(pool := Advance(b.pool, w, StopEffective))))
      .(containers := n.containers[b.todo[b.pool.slots[w].index].container := Stopped])
    case SweepStopReturns(k, w, ok) =>
      var b := n.commands[k].status.body;
      var i := b.pool.slots[w].index;
      SetStatus(n, k, InBody(if ok
                             then b.(pool := Release(b.pool, w), stopped := b.stopped + {i})
                             else b.(pool := Release(b.pool, w), failed := b.failed + {i})))
    case SweepEnds(k) =>
      var b := n.commands[k].status.body;
      SetStatus(n, k, Done(if b.failed == {} then AckDrained(|b.stopped|) else Rejected))
  }

  function WorkStep(n: Node, e: Event): Node
    requires OnWork(e) && WorkEnabled(n, e)
  {
    match e
    case AcceptWork(_) => n.(works := n.works + [n.latch.generation])
    case BeginLaunch(c, _) => n.(launches := n.launches + [Launch(c, n.latch.generation, Starting)])
    case StartReturns(l) =>
      SetPhase(n, l, if Interrupted(n.latch, n.launches[l].generation) then Stopping else Settled(true))
    case StartThrows(l) => SetPhase(n, l, Settled(false))
    case StopReturns(l) => SetPhase(n, l, Settled(false))
    case Reap(l) => SetPhase(n, l, Reaped(n.launches[l].phase.ok))
    case DaemonStarts(l) => n.(containers := n.containers[n.launches[l].container := Running])
    case ContainerChanges(c, s) => n.(containers := n.containers[c := s])
  }

  function Step(n: Node, e: Event): Node
    requires Enabled(n, e)
  {
    if OnCommand(e) then CommandStep(n, e)
    else if OnWork(e) then WorkStep(n, e)
    else match e
      case CallSet(enable) =>
        n.(commands := n.commands + [Command(enable, n.pending, Waiting)], pending := Some(|n.commands|))
      case ClearPending(k) => if n.pending == Some(k) then n.(pending := None) else n
      case FlushMarker => n.(onDisk := {n.marker})
      case ProcessDies => Down(n)
      case PowerFails(left) => Down(n).(marker := left, onDisk := {left})
      case Boots => n.(up := true, latch := if n.marker then Drained(INITIAL) else INITIAL)
  }

  // ----- runs -----

  /** `states[i + 1]` is `states[i]` after `events[i]`. */
  ghost predicate Run(states: seq<Node>, events: seq<Event>) {
    && |states| == |events| + 1
    && forall i :: 0 <= i < |events| ==>
         Enabled(states[i], events[i]) && states[i + 1] == Step(states[i], events[i])
  }
}
