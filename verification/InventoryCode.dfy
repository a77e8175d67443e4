/** The worker code of `discoverNodeServers`: its stretches between awaits, on the variables the workers share. */
module InventoryCode {
  import opened Common
  import opened ServerManifest
  import opened WorkerPool
  import opened ContainerDiscovery
  import opened NodeInventory

  class SharedInventory {
    const candidates: seq<Candidate>
    var next: nat
    var inventory: Inventory
    var blocked: set<string>
    var warnings: multiset<Warning>

    /** The shared variables are those of `d`; `next` goes on counting after the last candidate. */
    ghost predicate Mirrors(d: Discovery)
      reads this
    {
      && d.pool.size == |candidates| && d.pool.next == (if next < |candidates| then next else |candidates|)
      && d.inventory == inventory && d.blocked == blocked && d.warnings == warnings
    }

    constructor (candidates: seq<Candidate>, manifests: Inventory, blocked: set<string>)
      ensures this.candidates == candidates && Mirrors(Start(candidates, manifests, blocked))
    {
      this.candidates, next, inventory, this.blocked, warnings := candidates, 0, manifests, blocked, multiset{};
    }

    /** `candidates[next++]`: the candidate a worker takes, or none when it returns. */
    method TakeNext() returns (taken: Option<nat>)
      modifies this`next
      ensures taken == if old(next) < |candidates| then Some(old(next)) else None
      ensures forall d, w: nat :: old(Mirrors(d)) && Enabled(candidates, d, Event.Take(w)) ==>
                Mirrors(Apply(candidates, d, Event.Take(w)))
                && Apply(candidates, d, Event.Take(w)).pool.slots[w] == if taken.Some? then Holding(taken.value, Inspecting) else Retired
    {
      taken := if next < |candidates| then Some(next) else None;
      next := next + 1;
    }

    method Complain(k: nat, ids: set<string>, complaint: Complaint)
      modifies this`blocked, this`warnings
      ensures blocked == old(blocked) + ids && warnings == old(warnings) + multiset{Warning(k, complaint)}
    {
      blocked := blocked + ids;
      warnings := warnings + multiset{Warning(k, complaint)};
    }

    /** After `await inspect()`: the entry to carry over the next await, or none when the candidate is refused. */
    method Inspected(k: nat) returns (carried: Option<Option<Server>>)
      requires k < |candidates|
      modifies this`blocked, this`warnings
      ensures forall d, w: nat :: old(Mirrors(d)) && Enabled(candidates, d, Answer(w)) && d.pool.slots[w].index == k ==>
                Mirrors(Apply(candidates, d, Answer(w)))
                && Apply(candidates, d, Answer(w)).pool.slots[w] == if carried.Some? then Holding(k, Locating(carried.value)) else Free
    {
      hide Matches;
      var c := candidates[k];
      carried := None;
      if c.inspection.Unreadable? {
        Complain(k, c.remembered, CouldNotInspect);
      } else if c.inspection.Unsupported? {
        Complain(k, c.remembered, NotSupported);
      } else {
        var id := c.inspection.serverId;
        var previous := if id in inventory then Some(inventory[id]) else None;
        if previous.Some? && !Matches(previous.value.spec, c.inspection.spec) {
          Complain(k, {id}, Differs);
        } else {
          carried := Some(previous);
        }
      }
    }

    /** After `await serverDataPresent()`: the server is listed with the entry that was carried over. */
    method Located(k: nat, previous: Option<Server>)
      requires k < |candidates| && candidates[k].inspection.Recovered?
      modifies this`inventory, this`blocked, this`warnings
      ensures forall d, w: nat :: old(Mirrors(d)) && Enabled(candidates, d, Store(w)) && d.pool.slots[w] == Holding(k, Locating(previous)) ==>
                Mirrors(Apply(candidates, d, Store(w)))
    {
      var c := candidates[k];
      if c.inspection.present.None? {
        Complain(k, c.remembered, CouldNotInspect);
      } else {
        inventory := inventory[c.inspection.serverId := Listed(c, previous)];
      }
    }

    /** The end of the discovery: blocked servers are taken out, and what is left is the outcome of the run. */
    method RemoveBlocked()
      modifies this`inventory
      ensures forall d :: old(Mirrors(d)) ==> inventory == Outcome(d)
    {
      inventory := inventory - blocked;
    }
  }
}
