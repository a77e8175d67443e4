/**
 The execution latch of a node: enabled (drained) or not, a generation counter
 that invalidates work accepted before a drain, and one abort signal per
 activation period. The class is the object the agent shares; `Latch` is its
 abstract value, which the drain protocol uses step by step.
 */
module MaintenanceLatch {
  import opened Common

  /** `signal` numbers the abort controllers; `aborted` is the state of the current one. */
  datatype Latch = Latch(enabled: bool, generation: nat, signal: nat, aborted: bool)

  const INITIAL := Latch(false, 0, 0, false)

  function Drained(l: Latch): Latch {
    if l.enabled then l else Latch(true, l.generation + 1, l.signal, true)
  }

  function Activated(l: Latch): Latch {
    if l.enabled then Latch(false, l.generation, l.signal + 1, false) else l
  }

  /** The test of `assertAvailable`; `accepted` is the generation the caller's work carries, if any. */
  predicate Available(l: Latch, accepted: Option<nat>) {
    !l.enabled && (accepted.Some? ==> accepted.value == l.generation)
  }

  /** The test a launch makes once its start call has returned. */
  predicate Interrupted(l: Latch, generation: nat) {
    l.enabled || generation != l.generation
  }

  /** Whether the controller numbered `k` has been aborted. */
  predicate SignalAborted(l: Latch, k: nat) {
    k < l.signal || (k == l.signal && l.aborted)
  }

  ghost predicate Consistent(l: Latch) {
    && l.enabled == l.aborted
    && l.generation == l.signal + (if l.enabled then 1 else 0)
  }

  /** The listeners other than `gone`, in order. */
  function Others(listeners: seq<nat>, gone: nat): (r: seq<nat>)
    ensures forall l :: l in r <==> l in listeners && l != gone
  {
    if listeners == [] then []
    else (if listeners[0] == gone then [] else [listeners[0]]) + Others(listeners[1..], gone)
  }

  class AbortController {
    var aborted: bool

    constructor ()
      ensures !aborted
    {
      aborted := false;
    }

    method Abort()
      modifies this
      ensures aborted
    {
      aborted := true;
    }
  }

  /** What `launch` keeps between its awaits. */
  datatype Ticket = Ticket(id: nat, generation: nat)

  datatype Refusal = NodeInMaintenance

  class MaintenanceState {
    var enabled: bool
    var generation: nat
    var starts: set<nat>
    var listeners: seq<nat>
    var cancellation: AbortController
    var nextTicket: nat
    // The sessions closed so far, one entry for each call of a listener.
    var closed: seq<nat>
    // Every controller this object has handed out, oldest first.
    ghost var controllers: seq<AbortController>

    ghost predicate Valid()
      reads this, controllers
    {
      && |controllers| > 0
      && controllers[|controllers| - 1] == cancellation
      && (forall i, j :: 0 <= i < j < |controllers| ==> controllers[i] != controllers[j])
      && (forall i :: 0 <= i < |controllers| - 1 ==> controllers[i].aborted)
      && enabled == cancellation.aborted
      && generation == |controllers| - 1 + (if enabled then 1 else 0)
      && (forall t :: t in starts ==> t < nextTicket)
    }

    ghost function View(): (l: Latch)
      reads this, controllers
      requires Valid()
      ensures Consistent(l)
    {
      Latch(enabled, generation, |controllers| - 1, cancellation.aborted)
    }

    constructor ()
      ensures Valid() && fresh(controllers)
      ensures View() == INITIAL && starts == {} && nextTicket == 0 && listeners == [] && closed == []
    {
      var first := new AbortController();
      enabled, generation, starts, listeners, nextTicket, closed := false, 0, {}, [], 0, [];
      cancellation, controllers := first, [first];
    }

    method Enter()
      requires Valid()
      modifies this`enabled, this`generation, this`closed, cancellation
      ensures Valid() && View() == Drained(old(View()))
      ensures closed == old(closed) + (if old(enabled) then [] else listeners)
      ensures cancellation.aborted
    {
      if enabled {
        return;
      }
      enabled := true;
      generation := generation + 1;
      cancellation.Abort();
      var i := 0;
      while i < |listeners|
        invariant 0 <= i <= |listeners|
        invariant closed == old(closed) + listeners[..i]
        invariant Valid() && View() == Drained(old(View()))
      {
        closed := closed + [listeners[i]];
        i := i + 1;
      }
    }

    method Leave()
      requires Valid()
      modifies this`enabled, this`cancellation, this`controllers
      ensures Valid() && fresh(set c | c in controllers && c !in old(controllers))
      ensures View() == Activated(old(View()))
      ensures forall i :: 0 <= i < |old(controllers)| ==> i < |controllers| && controllers[i] == old(controllers)[i]
    {
      if enabled {
        var next := new AbortController();
        cancellation := next;
        controllers := controllers + [next];
      }
      enabled := false;
    }

    /** Accepts a piece of work and returns the context it runs under, or refuses it. */
    method RunWork(context: Option<nat>) returns (r: Result<nat, Refusal>)
      requires Valid()
      ensures r.Ok? <==> Available(View(), context)
      ensures r.Ok? ==> r.value == View().generation
    {
      if enabled || (context.Some? && context.value != generation) {
        return Err(NodeInMaintenance);
      }
      return Ok(generation);
    }

    method OnDrain(listener: nat)
      requires Valid()
      modifies this`listeners
      ensures Valid() && View() == old(View())
      ensures listeners == if listener in old(listeners) then old(listeners) else old(listeners) + [listener]
    {
      if listener !in listeners {
        listeners := listeners + [listener];
      }
    }

    /** What `onDrain` hands back: the session is not closed by later drains. */
    method Unregister(listener: nat)
      requires Valid()
      modifies this`listeners
      ensures Valid() && View() == old(View())
      ensures listener !in listeners && listeners == Others(old(listeners), listener)
    {
      listeners := Others(listeners, listener);
    }

    /** The first stretch of `launch`: the availability test and the registration in `starts`. */
    method BeginLaunch(context: Option<nat>) returns (r: Result<Ticket, Refusal>)
      requires Valid()
      modifies this`starts, this`nextTicket
      ensures Valid() && View() == old(View())
      ensures r.Ok? <==> Available(old(View()), context)
      ensures r.Ok? ==> r.value == Ticket(old(nextTicket), View().generation) && r.value.id !in old(starts)
      ensures nextTicket == if r.Ok? then old(nextTicket) + 1 else old(nextTicket)
      ensures starts == if r.Ok? then old(starts) + {r.value.id} else old(starts)
    {
      if enabled || (context.Some? && context.value != generation) {
        return Err(NodeInMaintenance);
      }
      r := Ok(Ticket(nextTicket, generation));
      starts := starts + {nextTicket};
      nextTicket := nextTicket + 1;
    }

    /** The stretch after `await start()`: whether the launch has to stop what it started. */
    method AfterStart(ticket: Ticket) returns (mustStop: bool)
      requires Valid()
      ensures mustStop <==> Interrupted(View(), ticket.generation)
    {
      mustStop := enabled || ticket.generation != generation;
    }

    method EndLaunch(ticket: Ticket)
      requires Valid()
      modifies this`starts
      ensures Valid() && View() == old(View())
      ensures starts == old(starts) - {ticket.id}
    {
      starts := starts - {ticket.id};
    }
  }
}
