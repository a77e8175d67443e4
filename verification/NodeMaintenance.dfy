/**
 The agent's own code for the drain, one method per stretch between awaits.
 Each method is proved to do to the latch, the marker and the launches what the
 step of `DrainProtocol` for that stretch does, so the results over runs are
 about these bodies.
 */
module NodeMaintenanceCode {
  import opened Common
  import opened MaintenanceLatch
  import opened WorkerPool
  import opened DrainProtocol

  /** How opening the marker at boot went; `Unreadable` is any failure but a missing file. */
  datatype MarkerProbe = Found | Missing | Unreadable

  class NodeMaintenance {
    const state: MaintenanceState
    var marker: bool
    var onDisk: set<bool>

    ghost predicate Valid()
      reads this, state, state.controllers
    {
      state.Valid()
    }

    /** The latch, the marker and the launches in flight of `n` are this object's. */
    ghost predicate Mirrors(n: Node)
      reads this, state, state.controllers
      requires Valid()
    {
      && n.up && n.latch == state.View() && n.marker == marker && n.onDisk == onDisk
      && state.nextTicket == |n.launches| && state.starts == Unreaped(n)
    }

    /** Boot, once the marker has been looked for; `found` is whether it could be opened. */
    constructor (state: MaintenanceState, found: bool, onDisk: set<bool>)
      requires state.Valid() && state.View() == INITIAL && state.starts == {} && state.nextTicket == 0
      modifies state`enabled, state`generation, state`closed, state.cancellation
      ensures this.state == state && Valid()
      ensures forall n :: Enabled(n, Boots) && n.launches == [] && n.marker == found && n.onDisk == onDisk ==>
                Mirrors(Step(n, Boots))
    {
      this.state := state;
      this.marker := found;
      this.onDisk := onDisk;
      new;
      if found {
        state.Enter();
      }
    }

    /** Boot: a marker that can neither be opened nor is missing keeps the agent from starting. */
    static method Start(state: MaintenanceState, probe: MarkerProbe, onDisk: set<bool>) returns (r: Option<NodeMaintenance>)
      requires state.Valid() && state.View() == INITIAL && state.starts == {} && state.nextTicket == 0
      modifies state`enabled, state`generation, state`closed, state.cancellation
      ensures r.None? <==> probe.Unreadable?
      ensures probe.Unreadable? ==> state.Valid() && state.View() == INITIAL
      ensures r.Some? ==> r.value.state == state && r.value.Valid()
      ensures r.Some? ==>
                forall n :: Enabled(n, Boots) && n.launches == [] && n.marker == probe.Found? && n.onDisk == onDisk ==>
                  r.value.Mirrors(Step(n, Boots))
    {
      if probe.Unreadable? {
        return None;
      }
      var node := new NodeMaintenance(state, probe.Found?, onDisk);
      r := Some(node);
    }

    // The stretches of `launch`, on the state this node shares with its callers.

    method BeginLaunch(container: Container, context: Option<nat>) returns (r: Result<Ticket, Refusal>)
      requires Valid()
      modifies state`starts, state`nextTicket
      ensures Valid()
      ensures r.Ok? <==> Available(old(state.View()), context)
      ensures forall n :: old(Mirrors(n)) && Enabled(n, DrainProtocol.BeginLaunch(container, context)) ==>
                r.Ok? && r.value.id == |n.launches| && Mirrors(Step(n, DrainProtocol.BeginLaunch(container, context)))
    {
      r := state.BeginLaunch(context);
    }

    /** After `await start()`: the launch stops what it started exactly when the protocol has it stopping. */
    method AfterStart(ticket: Ticket) returns (mustStop: bool)
      requires Valid()
      ensures forall n :: Mirrors(n) && Enabled(n, StartReturns(ticket.id)) && n.launches[ticket.id].generation == ticket.generation ==>
                && Mirrors(Step(n, StartReturns(ticket.id)))
                && Step(n, StartReturns(ticket.id)).launches[ticket.id].phase == if mustStop then Stopping else Settled(true)
    {
      mustStop := state.AfterStart(ticket);
    }

    /** The `finally` of `launch`. */
    method EndLaunch(ticket: Ticket)
      requires Valid()
      modifies state`starts
      ensures Valid()
      ensures forall n :: old(Mirrors(n)) && Enabled(n, Reap(ticket.id)) ==> Mirrors(Step(n, Reap(ticket.id)))
    {
      state.EndLaunch(ticket);
    }

    /** The whole body of `set(false)`. */
    method Activate(unlinked: bool) returns (outcome: Outcome)
      requires Valid()
      modifies this`marker, this`onDisk, state`enabled, state`cancellation, state`controllers
      ensures Valid()
      ensures outcome == if unlinked then AckActivated else Rejected
      ensures forall n, k :: old(Mirrors(n)) && Enabled(n, ActivateBody(k, unlinked)) ==>
                Mirrors(Step(n, ActivateBody(k, unlinked)))
    {
      if !unlinked {
        return Rejected;
      }
      marker, onDisk := false, onDisk + {false};
      state.Leave();
      outcome := AckActivated;
    }

    /** The body of `set(true)` up to its first await; `waiting` is the snapshot it waits for. */
    method BeginDrain(write: MarkerWrite) returns (waiting: Option<set<nat>>)
      requires Valid()
      modifies this`marker, this`onDisk
      modifies state`enabled, state`generation, state`closed, state.cancellation
      ensures Valid()
      ensures waiting == if write.Synced? then Some(state.starts) else None
      ensures forall n, k: nat :: old(Mirrors(n)) && Enabled(n, DrainBody(k, write)) ==>
                && Mirrors(Step(n, DrainBody(k, write)))
                && (waiting.Some? ==> Step(n, DrainBody(k, write)).commands[k].status == InBody(Settling(waiting.value)))
    {
      state.Enter();
      if write.CannotOpen? {
        return None;
      }
      marker, onDisk := true, onDisk + {true};
      if write.CannotSync? {
        return None;
      }
      waiting := Some(state.starts);
    }
  }

  /** The counters the four sweep workers share. */
  class Sweep {
    const todo: seq<Entry>
    var nextIndex: nat
    var stopped: nat
    var failures: seq<nat>

    ghost predicate Mirrors(b: Body)
      reads this
    {
      && b.Sweeping? && b.todo == todo && b.pool.size == |todo| && b.pool.next == nextIndex
      && |b.stopped| == stopped
      && (forall i :: i in b.failed <==> i in failures)
    }

    constructor (todo: seq<Entry>)
      ensures this.todo == todo && Mirrors(Sweeping(todo, Fresh(|todo|), {}, {}))
    {
      this.todo := todo;
      nextIndex, stopped, failures := 0, 0, [];
    }

    /** A worker's loop test: the index it takes, or none when it returns. */
    method Take() returns (taken: Option<nat>)
      modifies this`nextIndex
      ensures taken == if old(nextIndex) < |todo| then Some(old(nextIndex)) else None
      ensures forall b, w: nat, stage :: old(Mirrors(b)) && w < |b.pool.slots| ==>
                Mirrors(b.(pool := WorkerPool.Take(b.pool, w, stage)))
    {
      if nextIndex >= |todo| {
        return None;
      }
      taken := Some(nextIndex);
      nextIndex := nextIndex + 1;
    }

    method RecordStopped(i: nat)
      modifies this`stopped
      ensures forall b: Body, w: nat ::
                old(Mirrors(b)) && i !in b.stopped && w < |b.pool.slots| && b.pool.slots[w] == Holding(i, StopEffective) ==>
                Mirrors(b.(pool := Release(b.pool, w), stopped := b.stopped + {i}))
    {
      stopped := stopped + 1;
    }

    method RecordFailure(i: nat)
      modifies this`failures
      ensures forall b: Body, w: nat, stage ::
                old(Mirrors(b)) && w < |b.pool.slots| && b.pool.slots[w] == Holding(i, stage) ==>
                Mirrors(b.(pool := Release(b.pool, w), failed := b.failed + {i}))
    {
      failures := failures + [i];
    }

    /** The end of the sweep: it resolves only when nothing failed. */
    method Finish() returns (outcome: Outcome)
      ensures forall b :: Mirrors(b) ==> outcome == if b.failed == {} then AckDrained(|b.stopped|) else Rejected
    {
      outcome := if |failures| > 0 then Rejected else AckDrained(stopped);
      forall b | Mirrors(b)
        ensures b.failed == {} <==> |failures| == 0
      {
        if |failures| > 0 {
          assert failures[0] in b.failed;
        }
      }
    }
  }
}
