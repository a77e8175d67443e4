/**
 `discoverNodeServers`: up to four workers inspect the candidate containers and
 write one shared inventory, with awaits between looking a server up and storing
 it. A run is any interleaving of their steps.
 */
module NodeInventory {
  import opened Common
  import opened ServerManifest
  import opened WorkerPool
  import opened ContainerDiscovery

  datatype Server = Server(
    containerId: Option<string>,
    state: string,
    spec: ContainerSpec,
    recovery: Option<Recovery>,
    dataPresent: bool,
    fromManifest: bool)

  type Inventory = map<string, Server>

  /** What the daemon answers about one container, and whether its data directory can be looked at. */
  datatype Inspection =
    | Unreadable
    | Unsupported
    | Recovered(serverId: string, state: string, spec: ContainerSpec, present: Option<bool>)

  datatype Candidate = Candidate(containerId: string, remembered: set<string>, inspection: Inspection)

  datatype Complaint = CouldNotInspect | NotSupported | Differs

  datatype Warning = Warning(candidate: nat, complaint: Complaint)

  /** Waiting for the inspection, or for the data directory with the earlier entry in hand. */
  datatype Stage = Inspecting | Locating(previous: Option<Server>)

  datatype Discovery = Discovery(
    pool: Pool<Stage>,
    inventory: Inventory,
    blocked: set<string>,
    warnings: multiset<Warning>)

  datatype Event = Take(w: nat) | Answer(w: nat) | Store(w: nat)

  function Entry(inventory: Inventory, id: string): Option<Server> {
    if id in inventory then Some(inventory[id]) else None
  }

  predicate Holds(d: Discovery, w: nat, candidates: seq<Candidate>) {
    w < |d.pool.slots| && d.pool.slots[w].Holding? && d.pool.slots[w].index < |candidates|
  }

  predicate Enabled(candidates: seq<Candidate>, d: Discovery, e: Event) {
    match e
    case Take(w) => w < |d.pool.slots| && d.pool.slots[w].Free?
    case Answer(w) => Holds(d, w, candidates) && d.pool.slots[w].stage.Inspecting?
    case Store(w) => Holds(d, w, candidates) && d.pool.slots[w].stage.Locating?
                     && candidates[d.pool.slots[w].index].inspection.Recovered?
  }

  /** The candidate is done with: it blocks `ids`, and is complained about. */
  function Refuse(d: Discovery, w: nat, ids: set<string>, complaint: Complaint): Discovery
    requires w < |d.pool.slots| && d.pool.slots[w].Holding?
  {
    d.(pool := Release(d.pool, w), blocked := d.blocked + ids,
       warnings := d.warnings + multiset{Warning(d.pool.slots[w].index, complaint)})
  }

  function Listed(c: Candidate, previous: Option<Server>): Server
    requires c.inspection.Recovered? && c.inspection.present.Some?
  {
    Server(Some(c.containerId), c.inspection.state,
           if previous.Some? then previous.value.spec.(extraNetworks := c.inspection.spec.extraNetworks) else c.inspection.spec,
           if previous.Some? then previous.value.recovery else None,
           c.inspection.present.value, previous.Some?)
  }

  predicate Conflicts(c: Candidate, previous: Option<Server>) {
    c.inspection.Recovered? && previous.Some? && !Matches(previous.value.spec, c.inspection.spec)
  }

  function Apply(candidates: seq<Candidate>, d: Discovery, e: Event): Discovery
    requires Enabled(candidates, d, e)
  {
    match e
    case Take(w) => d.(pool := WorkerPool.Take(d.pool, w, Inspecting))
    case Answer(w) =>
      var c := candidates[d.pool.slots[w].index];
      if c.inspection.Unreadable? then Refuse(d, w, c.remembered, CouldNotInspect)
      else if c.inspection.Unsupported? then Refuse(d, w, c.remembered, NotSupported)
      else
        var previous := Entry(d.inventory, c.inspection.serverId);
        if Conflicts(c, previous) then Refuse(d, w, {c.inspection.serverId}, Differs)
        else d.(pool := Advance(d.pool, w, Locating(previous)))
    case Store(w) =>
      var c := candidates[d.pool.slots[w].index];
      if c.inspection.present.None? then Refuse(d, w, c.remembered, CouldNotInspect)
      else
        d.(pool := Release(d.pool, w),
           inventory := d.inventory[c.inspection.serverId := Listed(c, d.pool.slots[w].stage.previous)])
  }

  function Start(candidates: seq<Candidate>, manifests: Inventory, blocked: set<string>): Discovery {
    Discovery(Fresh(|candidates|), manifests, blocked, multiset{})
  }

  predicate Finished(d: Discovery) {
    forall w :: 0 <= w < |d.pool.slots| ==> d.pool.slots[w].Retired?
  }

  /** What is returned: the inventory without the servers that were blocked. */
  function Outcome(d: Discovery): Inventory {
    d.inventory - d.blocked
  }

  // ----- what each candidate does, on its own -----

  /** Docker keeps names unique, so no two containers are recovered as one server. */
  ghost predicate OneEach(candidates: seq<Candidate>) {
    forall i, j :: 0 <= i < j < |candidates| && candidates[i].inspection.Recovered? && candidates[j].inspection.Recovered? ==>
      candidates[i].inspection.serverId != candidates[j].inspection.serverId
  }

  lemma UniqueNamesGiveOneEach(paths: Paths, number: Json -> Option<real>, containers: seq<Container>, roots: seq<string>,
                               candidates: seq<Candidate>)
    requires |containers| == |candidates| && |roots| == |candidates|
    requires forall k :: 0 <= k < |candidates| && candidates[k].inspection.Recovered? ==>
      Discover(paths, number, containers[k], roots[k]).Some?
      && Discover(paths, number, containers[k], roots[k]).value.0 == candidates[k].inspection.serverId
    requires forall i, j :: 0 <= i < j < |containers| ==> containers[i].name != containers[j].name
    ensures OneEach(candidates)
  {
    hide Discover;
    forall i, j | 0 <= i < j < |candidates| && candidates[i].inspection.Recovered? && candidates[j].inspection.Recovered?
      ensures candidates[i].inspection.serverId != candidates[j].inspection.serverId
    {
      OneContainerPerServer(paths, number, containers[i], containers[j], roots[i], roots[j]);
    }
  }

  predicate Adopts(manifests: Inventory, c: Candidate) {
    && c.inspection.Recovered? && c.inspection.present.Some?
    && !Conflicts(c, Entry(manifests, c.inspection.serverId))
  }

  function Blocks(manifests: Inventory, c: Candidate): set<string> {
    if Adopts(manifests, c) then {}
    else if c.inspection.Recovered? && Conflicts(c, Entry(manifests, c.inspection.serverId)) then {c.inspection.serverId}
    else c.remembered
  }

  function ComplaintOf(manifests: Inventory, c: Candidate): Option<Complaint> {
    if Adopts(manifests, c) then None
    else if c.inspection.Unsupported? then Some(NotSupported)
    else if c.inspection.Recovered? && Conflicts(c, Entry(manifests, c.inspection.serverId)) then Some(Differs)
    else Some(CouldNotInspect)
  }

  ghost predicate AdoptedAs(candidates: seq<Candidate>, manifests: Inventory, k: nat, id: string) {
    k < |candidates| && Adopts(manifests, candidates[k]) && candidates[k].inspection.serverId == id
  }

  ghost predicate BlocksAt(candidates: seq<Candidate>, manifests: Inventory, k: nat, id: string) {
    k < |candidates| && id in Blocks(manifests, candidates[k])
  }

  ghost predicate ComplainsAt(candidates: seq<Candidate>, manifests: Inventory, x: Warning) {
    x.candidate < |candidates| && ComplaintOf(manifests, candidates[x.candidate]) == Some(x.complaint)
  }

  // The candidates in `done`, and only those, have left their mark.

  ghost predicate BlockedFits(candidates: seq<Candidate>, manifests: Inventory, before: set<string>, done: set<nat>, blocked: set<string>) {
    forall id :: id in blocked <==> id in before || exists k: nat :: k in done && BlocksAt(candidates, manifests, k, id)
  }

  ghost predicate ListedFits(candidates: seq<Candidate>, manifests: Inventory, done: set<nat>, inventory: Inventory) {
    && (forall k: nat, id :: k in done && AdoptedAs(candidates, manifests, k, id) ==>
          Entry(inventory, id) == Some(Listed(candidates[k], Entry(manifests, id))))
    && (forall id :: (forall k: nat :: k in done ==> !AdoptedAs(candidates, manifests, k, id)) ==>
          Entry(inventory, id) == Entry(manifests, id))
  }

  ghost predicate WarnedFits(candidates: seq<Candidate>, manifests: Inventory, done: set<nat>, warnings: multiset<Warning>) {
    forall x: Warning :: warnings[x] == if x.candidate in done && ComplainsAt(candidates, manifests, x) then 1 else 0
  }

  ghost predicate Reflects(candidates: seq<Candidate>, manifests: Inventory, before: set<string>, d: Discovery) {
    && BlockedFits(candidates, manifests, before, d.pool.done, d.blocked)
    && ListedFits(candidates, manifests, d.pool.done, d.inventory)
    && WarnedFits(candidates, manifests, d.pool.done, d.warnings)
  }

  ghost predicate StageFits(candidates: seq<Candidate>, manifests: Inventory, d: Discovery, w: nat)
    requires w < |d.pool.slots|
  {
    d.pool.slots[w].Holding? && d.pool.slots[w].stage.Locating? ==>
      && d.pool.slots[w].index < |candidates|
      && candidates[d.pool.slots[w].index].inspection.Recovered?
      && d.pool.slots[w].stage.previous == Entry(manifests, candidates[d.pool.slots[w].index].inspection.serverId)
      && !Conflicts(candidates[d.pool.slots[w].index], d.pool.slots[w].stage.previous)
  }

  ghost predicate Inv(candidates: seq<Candidate>, manifests: Inventory, before: set<string>, d: Discovery) {
    && Valid(d.pool) && d.pool.size == |candidates|
    && Reflects(candidates, manifests, before, d)
    && StagesFit(candidates, manifests, d)
  }

  // ----- every step keeps it -----

  lemma BlockedGrows(candidates: seq<Candidate>, manifests: Inventory, before: set<string>, done: set<nat>, blocked: set<string>, k: nat)
    requires BlockedFits(candidates, manifests, before, done, blocked) && k < |candidates|
    ensures BlockedFits(candidates, manifests, before, done + {k}, blocked + Blocks(manifests, candidates[k]))
  {
    hide Blocks;
    var all := blocked + Blocks(manifests, candidates[k]);
    forall id
      ensures id in all <==> id in before || exists j: nat :: j in done + {k} && BlocksAt(candidates, manifests, j, id)
    {
      if id in Blocks(manifests, candidates[k]) {
        assert k in done + {k} && BlocksAt(candidates, manifests, k, id);
      } else if id in blocked && id !in before {
        var j: nat :| j in done && BlocksAt(candidates, manifests, j, id);
        assert j in done + {k};
      }
    }
  }

  lemma WarnedGrows(candidates: seq<Candidate>, manifests: Inventory, done: set<nat>, warnings: multiset<Warning>, k: nat)
    requires WarnedFits(candidates, manifests, done, warnings) && k < |candidates| && k !in done
    ensures var c := ComplaintOf(manifests, candidates[k]);
      WarnedFits(candidates, manifests, done + {k}, if c.None? then warnings else warnings + multiset{Warning(k, c.value)})
  {
    hide ComplaintOf;
  }

  lemma ListedSame(candidates: seq<Candidate>, manifests: Inventory, done: set<nat>, inventory: Inventory, k: nat)
    requires ListedFits(candidates, manifests, done, inventory) && k < |candidates| && !Adopts(manifests, candidates[k])
    ensures ListedFits(candidates, manifests, done + {k}, inventory)
  {
    hide Adopts, Entry, Listed;
    forall id | forall j: nat :: j in done + {k} ==> !AdoptedAs(candidates, manifests, j, id)
      ensures Entry(inventory, id) == Entry(manifests, id)
    {
      assert forall j: nat :: j in done ==> j in done + {k};
    }
  }

  lemma ListedGrows(candidates: seq<Candidate>, manifests: Inventory, done: set<nat>, inventory: Inventory, k: nat)
    requires OneEach(candidates) && ListedFits(candidates, manifests, done, inventory)
    requires k < |candidates| && Adopts(manifests, candidates[k])
    ensures var id := candidates[k].inspection.serverId;
      ListedFits(candidates, manifests, done + {k}, inventory[id := Listed(candidates[k], Entry(manifests, id))])
  {
    hide Listed, Conflicts;
    var own := candidates[k].inspection.serverId;
    var after := inventory[own := Listed(candidates[k], Entry(manifests, own))];
    forall j: nat, id | j in done + {k} && AdoptedAs(candidates, manifests, j, id)
      ensures Entry(after, id) == Some(Listed(candidates[j], Entry(manifests, id)))
    {
      if j != k {
        assert id != own;
      }
    }
    forall id | forall j: nat :: j in done + {k} ==> !AdoptedAs(candidates, manifests, j, id)
      ensures Entry(after, id) == Entry(manifests, id)
    {
      assert !AdoptedAs(candidates, manifests, k, id);
      assert forall j: nat :: j in done ==> j in done + {k};
    }
  }

  /** Nobody else writes a candidate's server, so it finds there what the manifests said. */
  lemma OwnEntryUntouched(candidates: seq<Candidate>, manifests: Inventory, done: set<nat>, inventory: Inventory, k: nat)
    requires OneEach(candidates) && ListedFits(candidates, manifests, done, inventory)
    requires k < |candidates| && k !in done && candidates[k].inspection.Recovered?
    ensures Entry(inventory, candidates[k].inspection.serverId) == Entry(manifests, candidates[k].inspection.serverId)
  {
    hide Entry, Listed, Conflicts;
    var id := candidates[k].inspection.serverId;
    forall j: nat | j in done
      ensures !AdoptedAs(candidates, manifests, j, id)
    {
      assert j != k;
    }
  }

  ghost predicate StagesFit(candidates: seq<Candidate>, manifests: Inventory, d: Discovery) {
    forall w :: 0 <= w < |d.pool.slots| ==> StageFits(candidates, manifests, d, w)
  }

  lemma StagesKeep(candidates: seq<Candidate>, manifests: Inventory, d: Discovery, after: Discovery, w: nat)
    requires StagesFit(candidates, manifests, d) && w < |d.pool.slots| && |after.pool.slots| == |d.pool.slots|
    requires forall v :: 0 <= v < |d.pool.slots| && v != w ==> after.pool.slots[v] == d.pool.slots[v]
    requires StageFits(candidates, manifests, after, w)
    ensures StagesFit(candidates, manifests, after)
  {
    hide Entry, Conflicts;
    forall v | 0 <= v < |after.pool.slots|
      ensures StageFits(candidates, manifests, after, v)
    {
      assert StageFits(candidates, manifests, d, v);
    }
  }

  lemma RefuseKeeps(candidates: seq<Candidate>, manifests: Inventory, before: set<string>, d: Discovery, w: nat,
                    ids: set<string>, complaint: Complaint)
    requires Inv(candidates, manifests, before, d) && Holds(d, w, candidates)
    requires var c := candidates[d.pool.slots[w].index];
      !Adopts(manifests, c) && ids == Blocks(manifests, c) && ComplaintOf(manifests, c) == Some(complaint)
    ensures Inv(candidates, manifests, before, Refuse(d, w, ids, complaint))
  {
    var k := d.pool.slots[w].index;
    ReleaseValid(d.pool, w);
    BlockedGrows(candidates, manifests, before, d.pool.done, d.blocked, k);
    WarnedGrows(candidates, manifests, d.pool.done, d.warnings, k);
    ListedSame(candidates, manifests, d.pool.done, d.inventory, k);
    StagesKeep(candidates, manifests, d, Refuse(d, w, ids, complaint), w);
    hide BlockedFits, WarnedFits, ListedFits, Blocks, Adopts, ComplaintOf, Valid, Entry, Conflicts;
  }

  lemma StoreKeeps(candidates: seq<Candidate>, manifests: Inventory, before: set<string>, d: Discovery, w: nat)
    requires OneEach(candidates) && Inv(candidates, manifests, before, d) && Enabled(candidates, d, Store(w))
    requires candidates[d.pool.slots[w].index].inspection.present.Some?
    ensures Inv(candidates, manifests, before, Apply(candidates, d, Store(w)))
  {
    var k := d.pool.slots[w].index;
    assert StageFits(candidates, manifests, d, w);
    assert Adopts(manifests, candidates[k]);
    assert Blocks(manifests, candidates[k]) == {} && ComplaintOf(manifests, candidates[k]) == None;
    ReleaseValid(d.pool, w);
    BlockedGrows(candidates, manifests, before, d.pool.done, d.blocked, k);
    WarnedGrows(candidates, manifests, d.pool.done, d.warnings, k);
    ListedGrows(candidates, manifests, d.pool.done, d.inventory, k);
    StagesKeep(candidates, manifests, d, Apply(candidates, d, Store(w)), w);
    hide BlockedFits, WarnedFits, ListedFits, Blocks, Adopts, ComplaintOf, Valid, Entry, Conflicts, Listed;
  }

  lemma AnswerKeeps(candidates: seq<Candidate>, manifests: Inventory, before: set<string>, d: Discovery, w: nat)
    requires OneEach(candidates) && Inv(candidates, manifests, before, d) && Enabled(candidates, d, Answer(w))
    ensures Inv(candidates, manifests, before, Apply(candidates, d, Answer(w)))
  {
    var k := d.pool.slots[w].index;
    var c := candidates[k];
    if c.inspection.Unreadable? {
      RefuseKeeps(candidates, manifests, before, d, w, c.remembered, CouldNotInspect);
    } else if c.inspection.Unsupported? {
      RefuseKeeps(candidates, manifests, before, d, w, c.remembered, NotSupported);
    } else {
      OwnEntryUntouched(candidates, manifests, d.pool.done, d.inventory, k);
      var previous := Entry(d.inventory, c.inspection.serverId);
      if Conflicts(c, previous) {
        RefuseKeeps(candidates, manifests, before, d, w, {c.inspection.serverId}, Differs);
      } else {
        AdvanceValid(d.pool, w, Locating(previous));
        StagesKeep(candidates, manifests, d, Apply(candidates, d, Answer(w)), w);
        hide BlockedFits, WarnedFits, ListedFits, Blocks, Adopts, ComplaintOf, Valid, Entry, Conflicts, Listed;
      }
    }
  }

  lemma InvStep(candidates: seq<Candidate>, manifests: Inventory, before: set<string>, d: Discovery, e: Event)
    requires OneEach(candidates) && Inv(candidates, manifests, before, d) && Enabled(candidates, d, e)
    ensures Inv(candidates, manifests, before, Apply(candidates, d, e))
  {
    match e
    case Take(w) =>
      TakeValid(d.pool, w, Inspecting);
      StagesKeep(candidates, manifests, d, Apply(candidates, d, e), w);
      hide BlockedFits, WarnedFits, ListedFits, Valid, Entry, Conflicts;
    case Answer(w) => AnswerKeeps(candidates, manifests, before, d, w);
    case Store(w) =>
      var c := candidates[d.pool.slots[w].index];
      assert StageFits(candidates, manifests, d, w);
      if c.inspection.present.Some? {
        StoreKeeps(candidates, manifests, before, d, w);
      } else {
        RefuseKeeps(candidates, manifests, before, d, w, c.remembered, CouldNotInspect);
      }
  }

  // ----- whole runs -----

  ghost predicate Possible(candidates: seq<Candidate>, d: Discovery, events: seq<Event>)
    decreases events
  {
    events == [] || (Enabled(candidates, d, events[0]) && Possible(candidates, Apply(candidates, d, events[0]), events[1..]))
  }

  ghost function After(candidates: seq<Candidate>, d: Discovery, events: seq<Event>): Discovery
    requires Possible(candidates, d, events)
    decreases events
  {
    if events == [] then d else After(candidates, Apply(candidates, d, events[0]), events[1..])
  }

  lemma StartKeeps(candidates: seq<Candidate>, manifests: Inventory, before: set<string>)
    ensures Inv(candidates, manifests, before, Start(candidates, manifests, before))
  {
    FreshValid<Stage>(|candidates|);
  }

  lemma {:induction false} InvOverRun(candidates: seq<Candidate>, manifests: Inventory, before: set<string>,
                                      d: Discovery, events: seq<Event>)
    requires OneEach(candidates) && Inv(candidates, manifests, before, d) && Possible(candidates, d, events)
    ensures Inv(candidates, manifests, before, After(candidates, d, events))
    decreases events
  {
    if events != [] {
      hide Inv;
      InvStep(candidates, manifests, before, d, events[0]);
      InvOverRun(candidates, manifests, before, Apply(candidates, d, events[0]), events[1..]);
    }
  }

  /** No interleaving gets stuck: until every worker has returned, one of them can go on. */
  lemma NeverStuck(candidates: seq<Candidate>, manifests: Inventory, before: set<string>, d: Discovery)
    requires Inv(candidates, manifests, before, d) && !Finished(d)
    ensures exists e :: Enabled(candidates, d, e)
  {
    hide Reflects;
    var w :| 0 <= w < |d.pool.slots| && !d.pool.slots[w].Retired?;
    assert StageFits(candidates, manifests, d, w);
    if d.pool.slots[w].Free? {
      assert Enabled(candidates, d, Take(w));
    } else if d.pool.slots[w].stage.Inspecting? {
      assert Enabled(candidates, d, Answer(w));
    } else {
      assert Enabled(candidates, d, Store(w));
    }
  }

  ghost predicate IsBlocked(candidates: seq<Candidate>, manifests: Inventory, before: set<string>, id: string) {
    id in before || exists k: nat :: BlocksAt(candidates, manifests, k, id)
  }

  /** What is said about one server in the end: read off the manifests and the containers, with no run in sight. */
  ghost function FinalEntry(candidates: seq<Candidate>, manifests: Inventory, before: set<string>, id: string): Option<Server> {
    if IsBlocked(candidates, manifests, before, id) then None
    else if exists k: nat :: AdoptedAs(candidates, manifests, k, id) then
      var k: nat :| AdoptedAs(candidates, manifests, k, id);
      Some(Listed(candidates[k], Entry(manifests, id)))
    else Entry(manifests, id)
  }

  lemma FinishedIs(candidates: seq<Candidate>, manifests: Inventory, before: set<string>, d: Discovery, id: string)
    requires Inv(candidates, manifests, before, d) && Finished(d)
    ensures Entry(Outcome(d), id) == FinalEntry(candidates, manifests, before, id)
  {
    AllRetiredIsComplete(d.pool);
    assert forall k: nat :: BlocksAt(candidates, manifests, k, id) ==> k in d.pool.done;
    assert forall k: nat :: AdoptedAs(candidates, manifests, k, id) ==> k in d.pool.done;
    assert id in d.blocked <==> IsBlocked(candidates, manifests, before, id);
    hide Valid, Listed, Blocks, Adopts;
  }

  /** Every run that ends gives, for each server, what its own container and manifest alone decide. */
  lemma DiscoveryIs(candidates: seq<Candidate>, manifests: Inventory, before: set<string>, events: seq<Event>, id: string)
    requires OneEach(candidates) && Possible(candidates, Start(candidates, manifests, before), events)
    requires Finished(After(candidates, Start(candidates, manifests, before), events))
    ensures Entry(Outcome(After(candidates, Start(candidates, manifests, before), events)), id)
         == FinalEntry(candidates, manifests, before, id)
  {
    hide Inv;
    StartKeeps(candidates, manifests, before);
    InvOverRun(candidates, manifests, before, Start(candidates, manifests, before), events);
    FinishedIs(candidates, manifests, before, After(candidates, Start(candidates, manifests, before), events), id);
  }

  lemma SameEntriesSame(a: Inventory, b: Inventory)
    requires forall id :: Entry(a, id) == Entry(b, id)
    ensures a == b
  {
    assert forall id :: id in a <==> Entry(a, id).Some?;
    assert forall id :: id in b <==> Entry(b, id).Some?;
    assert forall id :: id in a ==> Entry(a, id) == Some(a[id]) && Entry(b, id) == Some(b[id]);
  }

  lemma FinishedWarnings(candidates: seq<Candidate>, manifests: Inventory, before: set<string>, d: Discovery, x: Warning)
    requires Inv(candidates, manifests, before, d) && Finished(d)
    ensures d.warnings[x] == if ComplainsAt(candidates, manifests, x) then 1 else 0
  {
    AllRetiredIsComplete(d.pool);
    hide Valid, ComplaintOf;
  }

  /**
   However the workers are interleaved, the inventory and the warnings come out the
   same, with each candidate complained about at most once.
   */
  lemma Confluent(candidates: seq<Candidate>, manifests: Inventory, before: set<string>, one: seq<Event>, other: seq<Event>)
    requires OneEach(candidates)
    requires Possible(candidates, Start(candidates, manifests, before), one)
    requires Possible(candidates, Start(candidates, manifests, before), other)
    requires Finished(After(candidates, Start(candidates, manifests, before), one))
    requires Finished(After(candidates, Start(candidates, manifests, before), other))
    ensures var a := After(candidates, Start(candidates, manifests, before), one);
      var b := After(candidates, Start(candidates, manifests, before), other);
      Outcome(a) == Outcome(b) && a.warnings == b.warnings && forall x :: a.warnings[x] <= 1
  {
    var start := Start(candidates, manifests, before);
    var a, b := After(candidates, start, one), After(candidates, start, other);
    hide Inv, FinalEntry, Outcome, ComplainsAt, Possible, After, Start;
    forall id
      ensures Entry(Outcome(a), id) == Entry(Outcome(b), id)
    {
      DiscoveryIs(candidates, manifests, before, one, id);
      DiscoveryIs(candidates, manifests, before, other, id);
    }
    SameEntriesSame(Outcome(a), Outcome(b));
    StartKeeps(candidates, manifests, before);
    InvOverRun(candidates, manifests, before, start, one);
    InvOverRun(candidates, manifests, before, start, other);
    forall x
      ensures a.warnings[x] == b.warnings[x] <= 1
    {
      FinishedWarnings(candidates, manifests, before, a, x);
      FinishedWarnings(candidates, manifests, before, b, x);
    }
  }

  // ----- what is listed -----

  /** The daemon or the disk gave no usable answer about this candidate. */
  predicate Unusable(c: Candidate) {
    c.inspection.Unreadable? || c.inspection.Unsupported? || c.inspection.present.None?
  }

  /**
   The container does what was saved: all of it that decides the workload is the same,
   and whatever was saved of the rest is there.
   */
  ghost predicate SameWorkload(saved: ContainerSpec, actual: ContainerSpec) {
    && actual.image == saved.image && actual.containerDataPath == saved.containerDataPath
    && actual.memoryLimitMb == saved.memoryLimitMb && -0.000011 < actual.cpuLimit - saved.cpuLimit < 0.000011
    && actual.tty == saved.tty && actual.readOnlyRootFilesystem == saved.readOnlyRootFilesystem
    && (saved.user == None || actual.user == saved.user) && (saved.command == None || actual.command == saved.command)
    && (forall port :: multiset(actual.ports)[port] == multiset(saved.ports)[port])
    && (forall key :: key in saved.env.Keys ==> key in actual.env.Keys && actual.env[key] == saved.env[key])
    && (forall network :: saved.extraNetworks.Some? && network in saved.extraNetworks.value ==>
          actual.extraNetworks.Some? && network in actual.extraNetworks.value)
  }

  lemma MatchesIsSameWorkload(saved: ContainerSpec, actual: ContainerSpec)
    ensures Matches(saved, actual) <==> SameWorkload(saved, actual)
  {
    EnvIsKept(saved, actual);
    NetworksAreKept(saved, actual);
    PortsAreKept(saved.ports, actual.ports);
    hide KeepsEnv, KeepsNetworks;
  }

  lemma EnvIsKept(saved: ContainerSpec, actual: ContainerSpec)
    ensures KeepsEnv(saved, actual) <==>
      forall key :: key in saved.env.Keys ==> key in actual.env.Keys && actual.env[key] == saved.env[key]
  {
  }

  lemma PortsAreKept(a: seq<PortBinding>, b: seq<PortBinding>)
    ensures multiset(a) == multiset(b) <==> forall port :: multiset(b)[port] == multiset(a)[port]
  {
  }

  lemma NetworksAreKept(saved: ContainerSpec, actual: ContainerSpec)
    ensures KeepsNetworks(saved, actual) <==>
      forall network :: saved.extraNetworks.Some? && network in saved.extraNetworks.value ==>
        actual.extraNetworks.Some? && network in actual.extraNetworks.value
  {
    if saved.extraNetworks.Some? {
      var names := saved.extraNetworks.value;
      if KeepsNetworks(saved, actual) {
        forall network | network in names
          ensures actual.extraNetworks.Some? && network in actual.extraNetworks.value
        {
          var k :| 0 <= k < |names| && names[k] == network;
          assert actual.extraNetworks.Some? && saved.extraNetworks.value[k] in actual.extraNetworks.value;
        }
      }
      if !KeepsNetworks(saved, actual) {
        var k :| 0 <= k < |names| && !(actual.extraNetworks.Some? && names[k] in actual.extraNetworks.value);
        assert names[k] in saved.extraNetworks.value;
      }
    }
  }

  /** The container of a remembered server is not the one that was saved. */
  ghost predicate Disagrees(c: Candidate, manifests: Inventory) {
    && c.inspection.Recovered? && c.inspection.serverId in manifests
    && !SameWorkload(manifests[c.inspection.serverId].spec, c.inspection.spec)
  }

  lemma ConflictIsDisagreement(c: Candidate, manifests: Inventory)
    ensures c.inspection.Recovered? ==> (Conflicts(c, Entry(manifests, c.inspection.serverId)) <==> Disagrees(c, manifests))
  {
    if c.inspection.Recovered? && c.inspection.serverId in manifests {
      MatchesIsSameWorkload(manifests[c.inspection.serverId].spec, c.inspection.spec);
    }
    hide Matches, SameWorkload;
  }

  lemma FinalBlocks(c: Candidate, manifests: Inventory, id: string)
    ensures id in Blocks(manifests, c) <==>
      if Disagrees(c, manifests) then id == c.inspection.serverId else Unusable(c) && id in c.remembered
  {
    ConflictIsDisagreement(c, manifests);
    hide Conflicts, SameWorkload;
  }

  lemma FinalAdopts(c: Candidate, manifests: Inventory)
    ensures Adopts(manifests, c) <==> !Unusable(c) && !Disagrees(c, manifests)
  {
    ConflictIsDisagreement(c, manifests);
    hide Conflicts, SameWorkload;
  }

  /** Every reason for which a server is left out. */
  ghost predicate LeftOut(candidates: seq<Candidate>, manifests: Inventory, before: set<string>, id: string) {
    || id in before
    || (exists c :: c in candidates && Disagrees(c, manifests) && c.inspection.serverId == id)
    || (exists c :: c in candidates && !Disagrees(c, manifests) && Unusable(c) && id in c.remembered)
  }

  ghost predicate HasContainer(candidates: seq<Candidate>, id: string) {
    exists c :: c in candidates && c.inspection.Recovered? && c.inspection.present.Some? && c.inspection.serverId == id
  }

  lemma BlockedMeaning(candidates: seq<Candidate>, manifests: Inventory, before: set<string>, id: string)
    ensures IsBlocked(candidates, manifests, before, id) <==> LeftOut(candidates, manifests, before, id)
  {
    hide SameWorkload, Unusable, Blocks;
    forall c
      ensures id in Blocks(manifests, c) <==>
        if Disagrees(c, manifests) then id == c.inspection.serverId else Unusable(c) && id in c.remembered
    {
      FinalBlocks(c, manifests, id);
    }
    if k: nat :| BlocksAt(candidates, manifests, k, id) {
      assert candidates[k] in candidates;
    }
    if c :| c in candidates && id in Blocks(manifests, c) {
      var k: nat :| k < |candidates| && candidates[k] == c;
      assert BlocksAt(candidates, manifests, k, id);
    }
  }

  lemma FinalPresence(candidates: seq<Candidate>, manifests: Inventory, before: set<string>, id: string)
    ensures FinalEntry(candidates, manifests, before, id).Some? <==>
      !LeftOut(candidates, manifests, before, id) && (id in manifests || HasContainer(candidates, id))
  {
    hide Listed, Conflicts, IsBlocked;
    BlockedMeaning(candidates, manifests, before, id);
    if k: nat :| AdoptedAs(candidates, manifests, k, id) {
      FinalAdopts(candidates[k], manifests);
      assert candidates[k] in candidates && HasContainer(candidates, id);
    }
    if !LeftOut(candidates, manifests, before, id) && HasContainer(candidates, id) {
      var c :| c in candidates && c.inspection.Recovered? && c.inspection.present.Some? && c.inspection.serverId == id;
      var k: nat :| k < |candidates| && candidates[k] == c;
      FinalAdopts(c, manifests);
      assert AdoptedAs(candidates, manifests, k, id);
    }
  }

  /**
   A server is listed, in every run that ends, exactly when it has a manifest or a
   container that can be used, and nothing leaves it out.
   */
  lemma ListsExactly(candidates: seq<Candidate>, manifests: Inventory, before: set<string>, events: seq<Event>, id: string)
    requires OneEach(candidates) && Possible(candidates, Start(candidates, manifests, before), events)
    requires Finished(After(candidates, Start(candidates, manifests, before), events))
    ensures id in Outcome(After(candidates, Start(candidates, manifests, before), events)) <==>
      !LeftOut(candidates, manifests, before, id) && (id in manifests || HasContainer(candidates, id))
  {
    hide FinalEntry, LeftOut, HasContainer, Possible, After, Start, Finished, Outcome;
    DiscoveryIs(candidates, manifests, before, events, id);
    FinalPresence(candidates, manifests, before, id);
  }

  /**
   What the outcome holds for a server with a container: all of it is the container's
   own, but for what its manifest remembers.
   */
  ghost predicate ListedFrom(server: Server, c: Candidate, manifests: Inventory) {
    var i := c.inspection;
    && i.Recovered? && server.containerId == Some(c.containerId) && server.state == i.state && i.present == Some(server.dataPresent)
    && (server.fromManifest <==> i.serverId in manifests)
    && server.spec.extraNetworks == i.spec.extraNetworks
    && (if i.serverId in manifests then
          && server.recovery == manifests[i.serverId].recovery
          && server.spec.(extraNetworks := None) == manifests[i.serverId].spec.(extraNetworks := None)
        else server.recovery == None && server.spec == i.spec)
  }

  lemma ListedIsFrom(c: Candidate, manifests: Inventory)
    requires c.inspection.Recovered? && c.inspection.present.Some?
    ensures ListedFrom(Listed(c, Entry(manifests, c.inspection.serverId)), c, manifests)
  {
  }

  /**
   In every run that ends, a listed server that has a container is listed from it:
   a manifest it had keeps its recovery record and its spec in everything but the
   networks, which are the container's. One without a container is listed as its
   manifest has it.
   */
  lemma ListedAsFound(candidates: seq<Candidate>, manifests: Inventory, before: set<string>, events: seq<Event>, id: string)
    requires OneEach(candidates) && Possible(candidates, Start(candidates, manifests, before), events)
    requires Finished(After(candidates, Start(candidates, manifests, before), events))
    ensures var listed := Outcome(After(candidates, Start(candidates, manifests, before), events));
      id in listed ==>
        && (forall c :: c in candidates && c.inspection.Recovered? && c.inspection.serverId == id && c.inspection.present.Some? ==>
              ListedFrom(listed[id], c, manifests))
        && (!HasContainer(candidates, id) ==> id in manifests && listed[id] == manifests[id])
  {
    var listed := Outcome(After(candidates, Start(candidates, manifests, before), events));
    DiscoveryIs(candidates, manifests, before, events, id);
    ListsExactly(candidates, manifests, before, events, id);
    hide Possible, After, Start, Finished, Outcome, Listed, OneEach, ListedFrom;
    if id in listed {
      EntryWithContainer(candidates, manifests, before, listed, id);
    }
  }

  lemma EntryWithContainer(candidates: seq<Candidate>, manifests: Inventory, before: set<string>, listed: Inventory, id: string)
    requires OneEach(candidates) && id in listed && !LeftOut(candidates, manifests, before, id)
    requires Entry(listed, id) == FinalEntry(candidates, manifests, before, id)
    ensures forall c :: c in candidates && c.inspection.Recovered? && c.inspection.serverId == id && c.inspection.present.Some? ==>
              ListedFrom(listed[id], c, manifests)
    ensures !HasContainer(candidates, id) && id in manifests ==> listed[id] == manifests[id]
  {
    hide Listed, OneEach, ListedFrom, IsBlocked, Conflicts;
    BlockedMeaning(candidates, manifests, before, id);
    forall c | c in candidates && c.inspection.Recovered? && c.inspection.serverId == id && c.inspection.present.Some?
      ensures ListedFrom(listed[id], c, manifests)
    {
      var k: nat :| k < |candidates| && candidates[k] == c;
      FinalAdopts(c, manifests);
      assert AdoptedAs(candidates, manifests, k, id);
      AdoptedIsListed(candidates, manifests, before, k, id);
      ListedIsFrom(c, manifests);
    }
    forall k: nat | AdoptedAs(candidates, manifests, k, id)
      ensures HasContainer(candidates, id)
    {
      FinalAdopts(candidates[k], manifests);
      assert candidates[k] in candidates;
    }
  }

  /**
   What is said about each candidate, in every run that ends: nothing, or one thing,
   told from its answers and its manifest.
   */
  lemma WarnsExactly(candidates: seq<Candidate>, manifests: Inventory, before: set<string>, events: seq<Event>, k: nat)
    requires OneEach(candidates) && Possible(candidates, Start(candidates, manifests, before), events)
    requires Finished(After(candidates, Start(candidates, manifests, before), events)) && k < |candidates|
    ensures var warnings := After(candidates, Start(candidates, manifests, before), events).warnings;
      var c := candidates[k];
      && warnings[Warning(k, Differs)] == (if Disagrees(c, manifests) then 1 else 0)
      && warnings[Warning(k, NotSupported)] == (if c.inspection.Unsupported? then 1 else 0)
      && warnings[Warning(k, CouldNotInspect)] ==
           (if c.inspection.Unreadable? || (c.inspection.Recovered? && !Disagrees(c, manifests) && c.inspection.present.None?) then 1 else 0)
  {
    var d := After(candidates, Start(candidates, manifests, before), events);
    StartKeeps(candidates, manifests, before);
    InvOverRun(candidates, manifests, before, Start(candidates, manifests, before), events);
    FinishedWarnings(candidates, manifests, before, d, Warning(k, Differs));
    FinishedWarnings(candidates, manifests, before, d, Warning(k, NotSupported));
    FinishedWarnings(candidates, manifests, before, d, Warning(k, CouldNotInspect));
    ConflictIsDisagreement(candidates[k], manifests);
    hide Inv, Possible, After, Start, Finished, Conflicts, SameWorkload;
  }

  // ----- discovering once more -----

  /** The manifests after those of the listed servers were saved; the manifest of a blocked server stays as it was. */
  ghost predicate Saved(saved: Inventory, manifests: Inventory, listed: Inventory) {
    && saved.Keys == manifests.Keys + listed.Keys
    && (forall id :: id in listed ==> saved[id].spec == listed[id].spec && saved[id].recovery == listed[id].recovery)
    && (forall id :: id in manifests && id !in listed ==> saved[id] == manifests[id])
  }

  ghost predicate SameRecord(a: Option<Server>, b: Option<Server>) {
    a.Some? == b.Some? && (a.Some? ==> a.value.spec == b.value.spec && a.value.recovery == b.value.recovery)
  }

  lemma MatchesItself(spec: ContainerSpec)
    ensures Matches(spec, spec)
  {
  }

  /** What a candidate is listed with does not conflict with it, and listing it again changes no record. */
  lemma ListedIsStable(c: Candidate, previous: Option<Server>, saved: Server)
    requires c.inspection.Recovered? && c.inspection.present.Some? && !Conflicts(c, previous)
    requires SameRecord(Some(saved), Some(Listed(c, previous)))
    ensures !Conflicts(c, Some(saved)) && SameRecord(Some(Listed(c, Some(saved))), Some(Listed(c, previous)))
  {
    if previous.Some? {
      AdoptionIsStable(previous.value.spec, c.inspection.spec);
    } else {
      MatchesItself(c.inspection.spec);
    }
    hide Matches;
  }

  lemma AdoptedIsOwn(candidates: seq<Candidate>, manifests: Inventory, k: nat, j: nat, id: string)
    requires OneEach(candidates) && AdoptedAs(candidates, manifests, k, id)
    requires j < |candidates| && candidates[j].inspection.Recovered? && candidates[j].inspection.serverId == id
    ensures j == k
  {
    hide Conflicts;
  }

  /** Saving what was listed makes no candidate conflict that did not, and none agree that did. */
  lemma SameConflicts(candidates: seq<Candidate>, manifests: Inventory, before: set<string>, listed: Inventory, saved: Inventory, k: nat)
    requires OneEach(candidates) && Saved(saved, manifests, listed) && k < |candidates| && candidates[k].inspection.Recovered?
    requires var id := candidates[k].inspection.serverId; Entry(listed, id) == FinalEntry(candidates, manifests, before, id)
    ensures var c := candidates[k];
      Conflicts(c, Entry(saved, c.inspection.serverId)) <==> Conflicts(c, Entry(manifests, c.inspection.serverId))
  {
    hide Matches, Listed, OneEach;
    var c := candidates[k];
    var id := c.inspection.serverId;
    if id in listed {
      assert !IsBlocked(candidates, manifests, before, id);
      if j: nat :| AdoptedAs(candidates, manifests, j, id) {
        AdoptedIsListed(candidates, manifests, before, j, id);
        AdoptedIsOwn(candidates, manifests, j, k, id);
        ListedIsStable(c, Entry(manifests, id), saved[id]);
      }
    }
  }

  lemma AdoptedIsListed(candidates: seq<Candidate>, manifests: Inventory, before: set<string>, k: nat, id: string)
    requires OneEach(candidates) && AdoptedAs(candidates, manifests, k, id) && !IsBlocked(candidates, manifests, before, id)
    ensures FinalEntry(candidates, manifests, before, id) == Some(Listed(candidates[k], Entry(manifests, id)))
  {
    hide Listed, Conflicts, IsBlocked;
    forall j: nat | AdoptedAs(candidates, manifests, j, id)
      ensures j == k
    {
      AdoptedIsOwn(candidates, manifests, k, j, id);
    }
  }

  lemma SameFate(candidates: seq<Candidate>, manifests: Inventory, before: set<string>, listed: Inventory, saved: Inventory)
    requires OneEach(candidates) && Saved(saved, manifests, listed)
    requires forall id :: Entry(listed, id) == FinalEntry(candidates, manifests, before, id)
    ensures forall k: nat, id :: AdoptedAs(candidates, saved, k, id) <==> AdoptedAs(candidates, manifests, k, id)
    ensures forall id :: IsBlocked(candidates, saved, before, id) <==> IsBlocked(candidates, manifests, before, id)
  {
    hide FinalEntry, Conflicts, Saved, Entry;
    forall k: nat | k < |candidates|
      ensures Adopts(saved, candidates[k]) <==> Adopts(manifests, candidates[k])
      ensures Blocks(saved, candidates[k]) == Blocks(manifests, candidates[k])
    {
      if candidates[k].inspection.Recovered? {
        SameConflicts(candidates, manifests, before, listed, saved, k);
      }
    }
    forall id
      ensures IsBlocked(candidates, saved, before, id) <==> IsBlocked(candidates, manifests, before, id)
    {
      assert forall k: nat :: BlocksAt(candidates, saved, k, id) <==> BlocksAt(candidates, manifests, k, id);
    }
  }

  lemma SameFinalRecord(candidates: seq<Candidate>, manifests: Inventory, before: set<string>, listed: Inventory, saved: Inventory, id: string)
    requires OneEach(candidates) && Saved(saved, manifests, listed)
    requires forall id :: Entry(listed, id) == FinalEntry(candidates, manifests, before, id)
    ensures SameRecord(FinalEntry(candidates, saved, before, id), FinalEntry(candidates, manifests, before, id))
  {
    SameFate(candidates, manifests, before, listed, saved);
    hide IsBlocked, Listed, Conflicts, OneEach;
    if !IsBlocked(candidates, manifests, before, id) {
      if k: nat :| AdoptedAs(candidates, manifests, k, id) {
        AdoptedIsListed(candidates, manifests, before, k, id);
        AdoptedIsListed(candidates, saved, before, k, id);
        assert Entry(listed, id).Some? && id in listed && SameRecord(Some(saved[id]), Some(listed[id]));
        ListedIsStable(candidates[k], Entry(manifests, id), saved[id]);
      }
    }
  }

  lemma SameRecordsSame(a: Inventory, b: Inventory)
    requires forall id :: SameRecord(Entry(b, id), Entry(a, id))
    ensures a.Keys == b.Keys && forall id :: id in a ==> a[id].spec == b[id].spec && a[id].recovery == b[id].recovery
  {
    forall id
      ensures id in a <==> id in b
      ensures id in a && id in b ==> a[id].spec == b[id].spec && a[id].recovery == b[id].recovery
    {
      assert SameRecord(Entry(b, id), Entry(a, id));
    }
  }

  /**
   Discovering the same containers again, once the manifests of what was listed are
   saved, lists the same servers with the same specs and recovery records, in
   whatever order the workers of either discovery went.
   */
  lemma RediscoveryIsStable(candidates: seq<Candidate>, manifests: Inventory, saved: Inventory, before: set<string>,
                            first: seq<Event>, second: seq<Event>)
    requires OneEach(candidates)
    requires Possible(candidates, Start(candidates, manifests, before), first)
    requires Finished(After(candidates, Start(candidates, manifests, before), first))
    requires Saved(saved, manifests, Outcome(After(candidates, Start(candidates, manifests, before), first)))
    requires Possible(candidates, Start(candidates, saved, before), second)
    requires Finished(After(candidates, Start(candidates, saved, before), second))
    ensures var a := Outcome(After(candidates, Start(candidates, manifests, before), first));
      var b := Outcome(After(candidates, Start(candidates, saved, before), second));
      a.Keys == b.Keys && forall id :: id in a ==> a[id].spec == b[id].spec && a[id].recovery == b[id].recovery
  {
    var a := Outcome(After(candidates, Start(candidates, manifests, before), first));
    var b := Outcome(After(candidates, Start(candidates, saved, before), second));
    hide FinalEntry, Possible, After, Start, Finished, Outcome, OneEach, Saved, Entry, SameRecord;
    forall id
      ensures Entry(a, id) == FinalEntry(candidates, manifests, before, id)
      ensures Entry(b, id) == FinalEntry(candidates, saved, before, id)
    {
      DiscoveryIs(candidates, manifests, before, first, id);
      DiscoveryIs(candidates, saved, before, second, id);
    }
    forall id
      ensures SameRecord(Entry(b, id), Entry(a, id))
    {
      SameFinalRecord(candidates, manifests, before, a, saved, id);
    }
    SameRecordsSame(a, b);
  }

  // ----- why names must be unique -----

  lemma Then(candidates: seq<Candidate>, d: Discovery, e: Event, rest: seq<Event>)
    requires Enabled(candidates, d, e) && Possible(candidates, Apply(candidates, d, e), rest)
    ensures Possible(candidates, d, [e] + rest)
    ensures After(candidates, d, [e] + rest) == After(candidates, Apply(candidates, d, e), rest)
  {
    assert ([e] + rest)[1..] == rest;
  }

  ghost predicate Twins(a: Candidate, b: Candidate, manifests: Inventory) {
    && a.inspection.Recovered? && b.inspection.Recovered? && a.inspection.serverId == b.inspection.serverId
    && a.inspection.serverId !in manifests && a.inspection.present.Some? && b.inspection.present.Some?
    && !Matches(a.inspection.spec, b.inspection.spec)
  }

  /** One worker does both: the second twin meets the first in the inventory, and the server is blocked. */
  lemma OneAfterTheOther(a: Candidate, b: Candidate, manifests: Inventory) returns (events: seq<Event>)
    requires Twins(a, b, manifests)
    ensures Possible([a, b], Start([a, b], manifests, {}), events)
    ensures var d := After([a, b], Start([a, b], manifests, {}), events);
      Finished(d) && a.inspection.serverId !in Outcome(d)
  {
    var both := [a, b];
    var d0 := Start(both, manifests, {});
    assert d0.pool == Pool(2, 0, [Free, Free], {});
    var d1 := Apply(both, d0, Take(0));
    assert d1.pool == Pool(2, 1, [Holding(0, Inspecting), Free], {});
    var d2 := Apply(both, d1, Answer(0));
    assert d2.pool == Pool(2, 1, [Holding(0, Locating(None)), Free], {});
    var d3 := Apply(both, d2, Store(0));
    assert d3.pool == Pool(2, 1, [Free, Free], {0});
    var d4 := Apply(both, d3, Take(0));
    assert d4.pool == Pool(2, 2, [Holding(1, Inspecting), Free], {0});
    var d5 := Apply(both, d4, Answer(0));
    assert d5.pool == Pool(2, 2, [Free, Free], {0, 1}) && a.inspection.serverId in d5.blocked;
    var d6, end := LastTwo(both, d5);
    hide Apply, Enabled, Possible, After, Start, Twins;
    Then(both, d4, Answer(0), end);
    Then(both, d3, Take(0), [Answer(0)] + end);
    Then(both, d2, Store(0), [Take(0)] + ([Answer(0)] + end));
    Then(both, d1, Answer(0), [Store(0)] + ([Take(0)] + ([Answer(0)] + end)));
    events := [Answer(0)] + ([Store(0)] + ([Take(0)] + ([Answer(0)] + end)));
    Then(both, d0, Take(0), events);
    events := [Take(0)] + events;
  }

  /** Two workers look before either stores: neither sees the other, and the server is listed. */
  lemma BothAtOnce(a: Candidate, b: Candidate, manifests: Inventory) returns (events: seq<Event>)
    requires Twins(a, b, manifests)
    ensures Possible([a, b], Start([a, b], manifests, {}), events)
    ensures var d := After([a, b], Start([a, b], manifests, {}), events);
      Finished(d) && a.inspection.serverId in Outcome(d)
  {
    var both := [a, b];
    var d0 := Start(both, manifests, {});
    assert d0.pool == Pool(2, 0, [Free, Free], {});
    var d1 := Apply(both, d0, Take(0));
    assert d1.pool == Pool(2, 1, [Holding(0, Inspecting), Free], {});
    var d2 := Apply(both, d1, Take(1));
    assert d2.pool == Pool(2, 2, [Holding(0, Inspecting), Holding(1, Inspecting)], {});
    var d3 := Apply(both, d2, Answer(0));
    assert d3.pool == Pool(2, 2, [Holding(0, Locating(None)), Holding(1, Inspecting)], {});
    var d4 := Apply(both, d3, Answer(1));
    assert d4.pool == Pool(2, 2, [Holding(0, Locating(None)), Holding(1, Locating(None))], {});
    var d5 := Apply(both, d4, Store(0));
    assert d5.pool == Pool(2, 2, [Free, Holding(1, Locating(None))], {0});
    var d6 := Apply(both, d5, Store(1));
    assert d6.pool == Pool(2, 2, [Free, Free], {0, 1}) && d6.blocked == {} && a.inspection.serverId in d6.inventory;
    var d7, end := LastTwo(both, d6);
    hide Apply, Enabled, Possible, After, Start, Twins;
    Then(both, d5, Store(1), end);
    Then(both, d4, Store(0), [Store(1)] + end);
    Then(both, d3, Answer(1), [Store(0)] + ([Store(1)] + end));
    events := [Answer(1)] + ([Store(0)] + ([Store(1)] + end));
    Then(both, d2, Answer(0), events);
    events := [Answer(0)] + events;
    Then(both, d1, Take(1), events);
    events := [Take(1)] + events;
    Then(both, d0, Take(0), events);
    events := [Take(0)] + events;
  }

  lemma LastTwo(candidates: seq<Candidate>, d: Discovery) returns (after: Discovery, events: seq<Event>)
    requires d.pool.next >= d.pool.size && d.pool.slots == [Free, Free]
    ensures Possible(candidates, d, events) && After(candidates, d, events) == after
    ensures Finished(after) && after.inventory == d.inventory && after.blocked == d.blocked
  {
    var d1 := Apply(candidates, d, Take(0));
    var d2 := Apply(candidates, d1, Take(1));
    Then(candidates, d1, Take(1), []);
    events := [Take(1)] + [];
    Then(candidates, d, Take(0), events);
    events := [Take(0)] + events;
    after := d2;
  }

  /** Without unique names the order decides: the same two containers are listed in one run and blocked in another. */
  lemma TwinsDependOnTheOrder(a: Candidate, b: Candidate, manifests: Inventory) returns (one: seq<Event>, other: seq<Event>)
    requires Twins(a, b, manifests)
    ensures !OneEach([a, b])
    ensures var start := Start([a, b], manifests, {});
      && Possible([a, b], start, one) && Finished(After([a, b], start, one))
      && Possible([a, b], start, other) && Finished(After([a, b], start, other))
      && a.inspection.serverId !in Outcome(After([a, b], start, one))
      && a.inspection.serverId in Outcome(After([a, b], start, other))
  {
    assert [a, b][0] == a && [a, b][1] == b;
    one := OneAfterTheOther(a, b, manifests);
    other := BothAtOnce(a, b, manifests);
  }
}
