/** What the drain protocol promises over whole runs. */
module DrainSafety {
  import opened Common
  import opened MaintenanceLatch
  import opened WorkerPool
  import opened DrainProtocol
  import opened DrainInvariants

  /** A body that opens the latch again. */
  predicate Activates(e: Event) {
    e.ActivateBody? && e.unlinked
  }

  predicate Crashes(e: Event) {
    e.ProcessDies? || e.PowerFails?
  }

  predicate DrainAcked(n: Node, k: nat) {
    k < |n.commands| && n.commands[k].status.Done? && n.commands[k].status.outcome.AckDrained?
  }

  ghost predicate NoManagedLive(n: Node) {
    forall c :: c in n.containers && c.managed ==> !Live(n, c)
  }

  /** Nothing runs, nothing is about to, and a reboot finds the marker. */
  ghost predicate Quiet(n: Node) {
    && NoManagedLive(n) && NoneInFlight(n)
    && n.marker && (n.up ==> n.latch.enabled)
  }

  /** Power is lost before the marker's entry has reached the disk. */
  predicate LosesMarker(e: Event) {
    e == PowerFails(false)
  }

  lemma EventAt(states: seq<Node>, events: seq<Event>, i: nat)
    requires Run(states, events) && i < |events|
    ensures |states| == |events| + 1 && Enabled(states[i], events[i]) && states[i + 1] == Step(states[i], events[i])
  {
    hide Step, Enabled;
  }

  // ----- the drain is safe -----

  /** A drain that resolves leaves nothing running, and its count is the number of containers it listed. */
  lemma AckMeansQuiet(n: Node, e: Event)
    requires Inv(n) && e.SweepEnds? && Enabled(n, e) && DrainAcked(Step(n, e), e.command)
    ensures Quiet(Step(n, e))
    ensures Step(n, e).commands[e.command].status.outcome.stopped == |n.commands[e.command].status.body.todo|
  {
    var b := n.commands[e.command].status.body;
    assert BodyInv(n, b);
    AllRetiredIsComplete(b.pool);
    assert b.stopped == b.pool.done;
    SizeOfPrefix(b.stopped, |b.todo|);
    forall c | c in n.containers && c.managed
      ensures !Live(n, c)
    {
      assert Live(n, c) ==> StillListed(c, b);
    }
  }

  lemma {:induction false} SizeOfPrefix(s: set<nat>, n: nat)
    requires forall k: nat :: k in s <==> k < n
    ensures |s| == n
  {
    if n == 0 {
      assert s == {};
    } else {
      SizeOfPrefix(s - {n - 1}, n - 1);
    }
  }

  /** The status of a command changes only in a stretch of its own body. */
  lemma OthersKeepStatus(n: Node, e: Event, k: nat)
    requires Enabled(n, e) && k < |Step(n, e).commands|
    ensures OnCommand(e) ==> k < |n.commands| && (k == e.command || Step(n, e).commands[k] == n.commands[k])
    ensures !OnCommand(e) && k < |n.commands| ==> Step(n, e).commands[k] == n.commands[k]
    ensures !OnCommand(e) && k >= |n.commands| ==> Step(n, e).commands[k].status.Waiting?
  {
    if OnCommand(e) {
      CommandMovesOwn(n, e);
    } else if !e.CallSet? && !e.ClearPending? && !e.ProcessDies? && !e.PowerFails? {
      OtherStep(n, e);
    }
    hide CommandStep, WorkStep, CommandEnabled, WorkEnabled;
  }

  /** How each stretch that finishes its command can finish it. */
  lemma Finishes(n: Node, e: Event)
    requires OnCommand(e) && CommandEnabled(n, e)
    ensures e.command < |CommandStep(n, e).commands|
    ensures var s := CommandStep(n, e).commands[e.command].status;
            s.Done? ==>
              if s.outcome.AckDrained? then e.SweepEnds?
              else if s.outcome.AckActivated? then Activates(e)
              else (e.ActivateBody? && !e.unlinked) || (e.DrainBody? && !e.write.Synced?) || e.ListThrows? || e.SweepEnds?
  {
  }

  /**
   Whatever the event, a `set(true)` that becomes resolved by it was the end of a
   sweep, leaves nothing running, and reports the number of containers it listed.
   */
  lemma ResolvedMeansQuiet(n: Node, e: Event, k: nat)
    requires Inv(n) && Enabled(n, e) && !DrainAcked(n, k) && DrainAcked(Step(n, e), k)
    ensures Quiet(Step(n, e))
    ensures InSweep(n, k) && Step(n, e).commands[k].status.outcome.stopped == |n.commands[k].status.body.todo|
  {
    OthersKeepStatus(n, e, k);
    if OnCommand(e) {
      Finishes(n, e);
      AckMeansQuiet(n, e);
    }
    hide CommandStep, WorkStep, CommandEnabled, WorkEnabled, Quiet, Inv;
  }

  lemma StopQuietens(n: Node, e: Event)
    requires e.DaemonStops? && CommandEnabled(n, e) && NoManagedLive(n)
    ensures NoManagedLive(CommandStep(n, e))
  {
    assert forall c :: c in n.containers && c.managed ==> !Live(n, c);
  }

  lemma QuietWork(n: Node, e: Event)
    requires OnWork(e) && WorkEnabled(n, e) && NoManagedLive(n) && NoneInFlight(n) && (n.up ==> n.latch.enabled)
    ensures !e.DaemonStarts? && NoManagedLive(WorkStep(n, e)) && NoneInFlight(WorkStep(n, e))
  {
    assert forall c :: c in n.containers && c.managed ==> !Live(n, c);
  }

  /**
   Only an activation ends the quiet, or a loss of power that takes the marker with
   it: not a launch, a crash, a reboot, or another drain that fails.
   */
  lemma QuietStep(n: Node, e: Event)
    requires Inv(n) && Quiet(n) && Enabled(n, e) && !Activates(e) && !LosesMarker(e)
    ensures Quiet(Step(n, e)) && !e.DaemonStarts?
  {
    if OnCommand(e) {
      CommandFrame(n, e);
      CommandLatch(n, e);
      if e.DaemonStops? {
        StopQuietens(n, e);
      }
    } else if OnWork(e) {
      WorkFrame(n, e);
      WorkLaunches(n, e);
      QuietWork(n, e);
    }
    hide CommandStep, WorkStep, CommandEnabled;
  }

  /**
   Once `set(true)` has resolved, at every later point before an activation body
   runs or a loss of power takes the marker, no managed or tool container is alive,
   none has been started, the marker is there, and the node is closed whenever it
   is up. Crashes, reboots and other losses of power may happen in between.
   */
  lemma {:induction false} DrainIsSafe(states: seq<Node>, events: seq<Event>, i: nat, j: nat, k: nat)
    requires Run(states, events) && Inv(states[0]) && i < j < |states|
    requires !DrainAcked(states[i], k) && DrainAcked(states[i + 1], k)
    requires forall m :: i < m < j ==> !Activates(events[m]) && !LosesMarker(events[m])
    ensures Quiet(states[j])
    ensures forall m :: i < m < j ==> !events[m].DaemonStarts?
  {
    hide Step, Enabled, Inv, Quiet;
    if j == i + 1 {
      EventAt(states, events, i);
      InvOverRun(states, events, i);
      ResolvedMeansQuiet(states[i], events[i], k);
    } else {
      EventAt(states, events, j - 1);
      DrainIsSafe(states, events, i, j - 1, k);
      InvOverRun(states, events, j - 1);
      QuietStep(states[j - 1], events[j - 1]);
    }
  }

  lemma StopsItsEntry(n: Node, e: Event)
    requires e.DaemonStops? && CommandEnabled(n, e) && BodyInv(n, n.commands[e.command].status.body)
    ensures exists c: Container :: c.managed && CommandStep(n, e).containers == n.containers[c := Stopped]
  {
    var b := n.commands[e.command].status.body;
    var c := b.todo[b.pool.slots[e.worker].index].container;
    assert c.managed && CommandStep(n, e).containers == n.containers[c := Stopped];
  }

  /** A drain touches no container that is not managed, and an activation touches none. */
  lemma SetLeavesOthersAlone(n: Node, e: Event, c: Container)
    requires Inv(n) && Enabled(n, e) && OnCommand(e)
    requires !c.managed || e.ActivateBody?
    ensures c in Step(n, e).containers <==> c in n.containers
    ensures c in n.containers ==> Step(n, e).containers[c] == n.containers[c]
  {
    if e.DaemonStops? {
      assert BodyInv(n, n.commands[e.command].status.body);
      StopsItsEntry(n, e);
    } else {
      CommandFrame(n, e);
    }
    hide CommandStep, CommandEnabled, BodyInv;
  }

  /** The bodies of `set` run in call order: what has finished is a prefix, and at most the next one has begun. */
  lemma {:induction false} BodiesRunInCallOrder(states: seq<Node>, events: seq<Event>, i: nat) returns (done: nat)
    requires Run(states, events) && Inv(states[0]) && i < |states|
    ensures done <= |states[i].commands|
    ensures forall k :: 0 <= k < |states[i].commands| ==> (states[i].commands[k].status.Done? <==> k < done)
    ensures forall k :: done < k < |states[i].commands| ==> states[i].commands[k].status.Waiting?
  {
    InvOverRun(states, events, i);
    var c := states[i].commands;
    done := 0;
    while done < |c| && c[done].status.Done?
      invariant 0 <= done <= |c|
      invariant forall k :: 0 <= k < done ==> c[k].status.Done?
    {
      done := done + 1;
    }
    forall k | done < k < |c|
      ensures c[k].status.Waiting?
    {
      assert c[done].status.Done? || c[k].status.Waiting?;
    }
  }

  // ----- the latch and the marker across crashes -----

  /** Whatever state a process is left in, the next one comes up closed exactly when the marker is there. */
  lemma RebootFollowsMarker(states: seq<Node>, events: seq<Event>, i: nat)
    requires Run(states, events) && Inv(states[0]) && i < |events| && events[i].Boots?
    ensures states[i + 1].latch.enabled <==> states[i].marker
    ensures states[i + 1].latch.enabled <==> SignalAborted(states[i + 1].latch, states[i + 1].latch.signal)
  {
    InvOverRun(states, events, i);
  }

  lemma LatchInvAt(states: seq<Node>, events: seq<Event>, i: nat)
    requires Run(states, events) && Inv(states[0]) && i < |states|
    ensures LatchInv(states[i])
  {
    hide Run, LatchInv;
    InvOverRun(states, events, i);
  }

  /** Some loss of power after `i` left the marker there, or left it out. */
  ghost predicate PowerLossLeaves(events: seq<Event>, i: nat, j: nat, left: bool)
    requires j <= |events|
  {
    exists m :: i < m < j && events[m] == PowerFails(left)
  }

  lemma PowerLossLeavesLast(events: seq<Event>, i: nat, j: nat, left: bool)
    requires i + 1 < j <= |events|
    ensures PowerLossLeaves(events, i, j, left) <==>
            PowerLossLeaves(events, i, j - 1, left) || events[j - 1] == PowerFails(left)
  {
  }

  /** Between two bodies the marker is what the first of them left, unless a loss of power undid that. */
  lemma {:induction false} MarkerHolds(states: seq<Node>, events: seq<Event>, i: nat, j: nat, kept: bool)
    requires Run(states, events) && Inv(states[0]) && i < j < |states|
    requires states[i + 1].marker == kept && (states[i + 1].up ==> (states[i + 1].latch.enabled <==> kept))
    requires forall m :: i < m < j ==> !events[m].DrainBody? && !events[m].ActivateBody?
    ensures states[j].marker != kept <==> PowerLossLeaves(events, i, j, !kept)
    ensures states[j].marker != kept ==> states[j].onDisk == {!kept}
    ensures states[j].up ==> (states[j].latch.enabled <==> states[j].marker)
  {
    hide Step, Enabled, PowerLossLeaves, Inv;
    if j > i + 1 {
      EventAt(states, events, j - 1);
      MarkerHolds(states, events, i, j - 1, kept);
      PowerLossLeavesLast(events, i, j, !kept);
      MarkerStep(states[j - 1], events[j - 1], kept);
    } else {
      NothingLostYet(events, i, !kept);
    }
  }

  lemma NothingLostYet(events: seq<Event>, i: nat, left: bool)
    requires i < |events|
    ensures !PowerLossLeaves(events, i, i + 1, left)
  {
  }

  lemma MarkerStep(n: Node, e: Event, kept: bool)
    requires Enabled(n, e) && !e.DrainBody? && !e.ActivateBody?
    requires n.marker != kept ==> n.onDisk == {!kept}
    requires n.up ==> (n.latch.enabled <==> n.marker)
    ensures var m := Step(n, e);
            && (m.marker != kept <==> n.marker != kept || e == PowerFails(!kept))
            && (m.marker != kept ==> m.onDisk == {!kept})
            && (m.up ==> (m.latch.enabled <==> m.marker))
  {
    if OnCommand(e) {
      CommandFrame(n, e);
      CommandLatch(n, e);
    } else if OnWork(e) {
      WorkFrame(n, e);
    }
    hide CommandStep, WorkStep, CommandEnabled;
  }

  /** After an acknowledged activation the marker is back exactly when a loss of power undid the unlink. */
  lemma ActivationHolds(states: seq<Node>, events: seq<Event>, i: nat, j: nat)
    requires Run(states, events) && Inv(states[0]) && i < j < |states|
    requires Activates(events[i])
    requires forall m :: i < m < j ==> !events[m].DrainBody? && !events[m].ActivateBody?
    ensures states[j].marker <==> PowerLossLeaves(events, i, j, true)
    ensures states[j].up ==> (states[j].latch.enabled <==> states[j].marker)
  {
    hide Step, Enabled, PowerLossLeaves, Inv;
    EventAt(states, events, i);
    LatchInvAt(states, events, i);
    ActivateStep(states[i], events[i]);
    MarkerHolds(states, events, i, j, false);
  }

  lemma ActivateStep(n: Node, e: Event)
    requires LatchInv(n) && Enabled(n, e) && Activates(e)
    ensures !Step(n, e).marker && !Step(n, e).latch.enabled
  {
    CommandLatch(n, e);
    hide CommandStep, CommandEnabled;
  }

  /**
   After an acknowledged drain the marker is there exactly when no loss of power took
   it before its entry was on disk.
   */
  lemma DrainHolds(states: seq<Node>, events: seq<Event>, i: nat, j: nat, k: nat)
    requires Run(states, events) && Inv(states[0]) && i < j < |states|
    requires !DrainAcked(states[i], k) && DrainAcked(states[i + 1], k)
    requires forall m :: i < m < j ==> !events[m].DrainBody? && !events[m].ActivateBody?
    ensures states[j].marker <==> !PowerLossLeaves(events, i, j, false)
    ensures states[j].up ==> (states[j].latch.enabled <==> states[j].marker)
  {
    hide Step, Enabled, PowerLossLeaves;
    EventAt(states, events, i);
    InvOverRun(states, events, i);
    ResolvedMeansQuiet(states[i], events[i], k);
    hide Inv;
    MarkerHolds(states, events, i, j, true);
  }

  // ----- when the marker has reached the disk -----

  /**
   What puts the marker's entry on disk for good: the system writes it out, or it is
   found again after a loss of power.
   */
  predicate Settles(e: Event) {
    e.FlushMarker? || e == PowerFails(true)
  }

  ghost predicate SettledBetween(events: seq<Event>, i: nat, j: nat)
    requires j <= |events|
  {
    exists m :: i < m < j && Settles(events[m])
  }

  lemma SettledBetweenLast(events: seq<Event>, i: nat, j: nat)
    requires i + 1 < j <= |events|
    ensures SettledBetween(events, i, j) <==> SettledBetween(events, i, j - 1) || Settles(events[j - 1])
  {
  }

  lemma NotSettledYet(events: seq<Event>, i: nat)
    requires i < |events| && events[i].DrainBody?
    ensures !SettledBetween(events, i, i + 1) && !Settles(events[i])
  {
  }

  lemma SettleStep(n: Node, e: Event)
    requires LatchInv(n) && Enabled(n, e) && (n.marker || (e.DrainBody? && !e.write.CannotOpen?))
    requires !Activates(e) && !LosesMarker(e)
    ensures Step(n, e).marker && (Step(n, e).onDisk == {true} <==> n.onDisk == {true} || Settles(e))
  {
    if OnCommand(e) {
      CommandFrame(n, e);
      CommandLatch(n, e);
      if e.DrainBody? {
        assert n.onDisk + {true} == {true} <==> n.onDisk == {true};
      }
    } else if OnWork(e) {
      WorkFrame(n, e);
    }
    hide CommandStep, WorkStep, CommandEnabled;
  }

  /**
   The marker that the body of a drain wrote is on disk for good exactly when the
   one it replaced was, or its entry has reached the disk since.
   */
  lemma {:induction false} OnDiskExactlyWhenSettled(states: seq<Node>, events: seq<Event>, i: nat, j: nat)
    requires Run(states, events) && Inv(states[0]) && i < j < |states|
    requires events[i].DrainBody? && !events[i].write.CannotOpen?
    requires forall m :: i < m < j ==> !Activates(events[m]) && !LosesMarker(events[m])
    ensures states[j].marker
    ensures states[j].onDisk == {true} <==> states[i].onDisk == {true} || SettledBetween(events, i, j)
  {
    hide Step, Enabled, LatchInv, Inv, Settles, SettledBetween;
    EventAt(states, events, j - 1);
    LatchInvAt(states, events, j - 1);
    if j > i + 1 {
      OnDiskExactlyWhenSettled(states, events, i, j - 1);
      SettledBetweenLast(events, i, j);
      SettleStep(states[j - 1], events[j - 1]);
    } else {
      SettleStep(states[i], events[i]);
      NotSettledYet(events, i);
    }
  }

  lemma PowerCycle(n: Node, left: bool)
    requires n.up && left in n.onDisk
    ensures Enabled(n, PowerFails(left)) && Enabled(Step(n, PowerFails(left)), Boots)
    ensures Step(Step(n, PowerFails(left)), Boots).latch.enabled <==> left
  {
    hide CommandStep, WorkStep, CommandEnabled, WorkEnabled;
  }

  /** The next process comes up closed after any loss of power that can happen. */
  ghost predicate OutlivesPower(n: Node) {
    forall left :: Enabled(n, PowerFails(left)) && Enabled(Step(n, PowerFails(left)), Boots) ==>
      Step(Step(n, PowerFails(left)), Boots).latch.enabled
  }

  lemma OnlyTrue(s: set<bool>)
    requires s != {} && false !in s
    ensures s == {true}
  {
    forall b | b in s
      ensures b
    {
      assert b || b == false;
    }
    var b :| b in s;
    assert s <= {true} && {true} <= s;
  }

  lemma ComesBackClosedExactlyWhenDurable(n: Node)
    requires LatchInv(n) && n.up
    ensures OutlivesPower(n) <==> n.onDisk == {true}
  {
    hide CommandStep, WorkStep, CommandEnabled, WorkEnabled;
    forall left | left in n.onDisk
      ensures Enabled(n, PowerFails(left)) && Enabled(Step(n, PowerFails(left)), Boots)
      ensures Step(Step(n, PowerFails(left)), Boots).latch.enabled <==> left
    {
      PowerCycle(n, left);
    }
    hide Step;
    if false !in n.onDisk {
      OnlyTrue(n.onDisk);
    } else {
      assert Enabled(n, PowerFails(false));
      assert n.onDisk != {true};
    }
  }

  /**
   A drain outlives the next loss of power, whenever it comes, exactly when its
   marker was already on disk from before or has got there since its body ran. The
   fsync of the marker is no help: the folder it is in is never synced.
   */
  lemma DrainOutlivesPowerExactlyWhenSettled(states: seq<Node>, events: seq<Event>, i: nat, j: nat)
    requires Run(states, events) && Inv(states[0]) && i < j < |states| && states[j].up
    requires events[i].DrainBody? && !events[i].write.CannotOpen?
    requires forall m :: i < m < j ==> !Activates(events[m]) && !LosesMarker(events[m])
    ensures OutlivesPower(states[j]) <==> states[i].onDisk == {true} || SettledBetween(events, i, j)
  {
    hide OutlivesPower, LatchInv, Inv, SettledBetween, Step, Enabled;
    OnDiskExactlyWhenSettled(states, events, i, j);
    LatchInvAt(states, events, j);
    ComesBackClosedExactlyWhenDurable(states[j]);
  }

  lemma Then(states: seq<Node>, events: seq<Event>, e: Event) returns (longer: seq<Node>, more: seq<Event>)
    requires Run(states, events) && Enabled(states[|events|], e)
    ensures longer == states + [Step(states[|events|], e)] && more == events + [e] && Run(longer, more)
  {
    hide Step, Enabled;
    longer, more := states + [Step(states[|events|], e)], events + [e];
  }

  lemma ListingRun() returns (states: seq<Node>, events: seq<Event>)
    ensures Run(states, events) && |events| == 3 && states[0] == Init(map[])
    ensures events[1] == DrainBody(0, Synced) && forall m :: 0 <= m < 3 ==> !events[m].ActivateBody?
    ensures states[3] == Node(true, Latch(true, 1, 0, true), [], [], [Command(true, None, InBody(Listing))], Some(0), true, {false, true}, map[])
  {
    states, events := [Init(map[])], [];
    states, events := Then(states, events, CallSet(true));
    assert states[1].commands == [Command(true, None, Waiting)];
    states, events := Then(states, events, DrainBody(0, Synced));
    assert states[2].commands[0].status.body.waiting == {};
    states, events := Then(states, events, LaunchesSettled(0));
  }

  /** A drain on an empty node goes through. */
  lemma DrainedRun() returns (states: seq<Node>, events: seq<Event>)
    ensures Run(states, events) && |events| == 6 && states[0] == Init(map[])
    ensures events[1] == DrainBody(0, Synced) && forall m :: 0 <= m < 6 ==> !events[m].ActivateBody?
    ensures states[6] == Node(true, Latch(true, 1, 0, true), [], [], [Command(true, None, Done(AckDrained(0)))], Some(0), true, {false, true}, map[])
  {
    states, events := ListingRun();
    states, events := Then(states, events, ListReturns(0, []));
    assert states[4].commands == [Command(true, None, InBody(Listed([])))];
    states, events := Then(states, events, SweepBegins(0));
    assert states[5].commands == [Command(true, None, InBody(Sweeping([], Fresh(0), {}, {})))];
    states, events := Then(states, events, SweepEnds(0));
  }

  lemma ReopenedRun() returns (states: seq<Node>, events: seq<Event>)
    ensures Run(states, events) && |events| == 8 && states[0] == Init(map[]) && DrainAcked(states[6], 0)
    ensures forall m :: 0 <= m < 8 ==> !events[m].ActivateBody?
    ensures states[8] == Node(true, INITIAL, [], [], [], None, false, {false}, map[])
  {
    states, events := DrainedRun();
    hide CommandStep, CommandEnabled, WorkStep, WorkEnabled;
    states, events := Then(states, events, PowerFails(false));
    states, events := Then(states, events, Boots);
  }

  /**
   In this run a drain is acknowledged, the power fails before the marker's entry
   is on disk, and the node comes up open: a managed container is started although
   no activation was ever asked for.
   */
  lemma PowerLossMayUndoDrain(c: Container) returns (states: seq<Node>, events: seq<Event>)
    requires c.managed
    ensures Run(states, events) && |events| == 10 && states[0] == Init(map[])
    ensures DrainAcked(states[6], 0)
    ensures forall m :: 0 <= m < 10 ==> !events[m].ActivateBody?
    ensures states[8].up && !states[8].latch.enabled
    ensures Live(states[10], c)
  {
    states, events := ReopenedRun();
    hide CommandStep, CommandEnabled;
    states, events := Then(states, events, BeginLaunch(c, None));
    assert states[9].launches == [Launch(c, 0, Starting)];
    states, events := Then(states, events, DaemonStarts(0));
  }

  lemma ActivatedRun() returns (states: seq<Node>, events: seq<Event>)
    ensures Run(states, events) && |events| == 8 && states[0] == Init(map[]) && DrainAcked(states[6], 0)
    ensures Activates(events[7]) && !events[6].DrainBody? && states[8].up && true in states[8].onDisk
    ensures |states[8].commands| == 2 && states[8].commands[1].status == Done(AckActivated)
    ensures !states[8].latch.enabled && !states[8].marker
  {
    states, events := DrainedRun();
    states, events := Then(states, events, CallSet(false));
    assert states[7].commands == [Command(true, None, Done(AckDrained(0))), Command(false, Some(0), Waiting)];
    states, events := Then(states, events, ActivateBody(1, true));
  }

  /**
   The unlink is not synced either. In this run a drain and then an activation are
   acknowledged, the power fails, and the node comes back closed with no drain
   in between: the marker had reached the disk, and its removal had not.
   */
  lemma PowerLossMayUndoActivation() returns (states: seq<Node>, events: seq<Event>)
    ensures Run(states, events) && |events| == 10 && states[0] == Init(map[])
    ensures DrainAcked(states[6], 0)
    ensures Activates(events[7]) && |states[8].commands| == 2 && states[8].commands[1].status == Done(AckActivated)
    ensures !states[8].latch.enabled && !states[8].marker
    ensures forall m :: 6 <= m < 10 ==> !events[m].DrainBody?
    ensures states[10].up && states[10].latch.enabled
  {
    states, events := ActivatedRun();
    hide CommandStep, CommandEnabled, WorkStep, WorkEnabled;
    states, events := Then(states, events, PowerFails(true));
    assert states[9].marker && !states[9].up;
    states, events := Then(states, events, Boots);
  }

  // ----- work and launches across a drain -----

  ghost predicate DrainBetween(events: seq<Event>, i: nat, j: nat)
    requires j <= |events|
  {
    exists m :: i <= m < j && events[m].DrainBody?
  }

  lemma DrainBetweenLast(events: seq<Event>, i: nat, j: nat)
    requires i < j <= |events|
    ensures DrainBetween(events, i, j) <==> DrainBetween(events, i, j - 1) || events[j - 1].DrainBody?
  {
  }

  /** Within one process, a latch that was open at `i` tells at `j` whether a drain began in between. */
  lemma {:induction false} LatchRemembersDrain(states: seq<Node>, events: seq<Event>, i: nat, j: nat)
    requires Run(states, events) && Inv(states[0]) && i <= j < |states|
    requires states[i].up && !states[i].latch.enabled
    requires forall m :: i <= m < j ==> !Crashes(events[m])
    ensures states[j].up && states[j].latch.generation >= states[i].latch.generation
    ensures states[j].latch.enabled ==> states[j].latch.generation > states[i].latch.generation
    ensures Interrupted(states[j].latch, states[i].latch.generation) <==> DrainBetween(events, i, j)
  {
    hide Step, Enabled, Inv;
    if i < j {
      EventAt(states, events, j - 1);
      hide Run;
      LatchRemembersDrain(states, events, i, j - 1);
      DrainBetweenLast(events, i, j);
      hide DrainBetween;
      LatchStep(states[j - 1], events[j - 1], states[i].latch.generation);
    }
  }

  lemma LatchStep(n: Node, e: Event, generation: nat)
    requires Enabled(n, e) && n.up && !Crashes(e) && n.latch.generation >= generation
    requires n.latch.enabled ==> n.latch.generation > generation
    ensures var l := Step(n, e).latch;
            && Step(n, e).up && l.generation >= generation && (l.enabled ==> l.generation > generation)
            && (Interrupted(l, generation) <==> Interrupted(n.latch, generation) || e.DrainBody?)
  {
    if OnCommand(e) {
      CommandFrame(n, e);
      CommandLatch(n, e);
    } else if OnWork(e) {
      WorkFrame(n, e);
    }
    hide CommandStep, WorkStep, CommandEnabled;
  }

  lemma {:induction false} EntriesAreKept(states: seq<Node>, events: seq<Event>, i: nat, j: nat)
    requires Run(states, events) && i <= j < |states|
    requires forall m :: i <= m < j ==> !Crashes(events[m])
    ensures |states[i].works| <= |states[j].works| && |states[i].launches| <= |states[j].launches|
    ensures forall k :: 0 <= k < |states[i].works| ==> states[j].works[k] == states[i].works[k]
    ensures forall l :: 0 <= l < |states[i].launches| ==>
              states[j].launches[l].generation == states[i].launches[l].generation
  {
    hide Step;
    if i < j {
      EntriesAreKept(states, events, i, j - 1);
      EntriesStep(states[j - 1], events[j - 1]);
    }
  }

  lemma EntriesStep(n: Node, e: Event)
    requires Enabled(n, e) && !Crashes(e)
    ensures var m := Step(n, e);
            && |n.works| <= |m.works| && |n.launches| <= |m.launches|
            && (forall k :: 0 <= k < |n.works| ==> m.works[k] == n.works[k])
            && (forall l :: 0 <= l < |n.launches| ==> m.launches[l].generation == n.launches[l].generation)
  {
    if OnCommand(e) {
      CommandFrame(n, e);
    } else if OnWork(e) {
      WorkFrame(n, e);
      WorkLaunches(n, e);
    }
    hide CommandStep, WorkStep, CommandEnabled, WorkEnabled;
  }

  /**
   No ABA: work accepted at event `i` passes the availability test at `j` exactly
   when no drain has begun since, whether or not the node was activated again.
   Its abort signal has fired in exactly the other case.
   */
  lemma AcceptedWorkPassesUntilDrain(states: seq<Node>, events: seq<Event>, i: nat, j: nat)
    requires Run(states, events) && Inv(states[0]) && i < j < |states|
    requires events[i].AcceptWork?
    requires forall m :: i <= m < j ==> !Crashes(events[m])
    ensures |states[i].works| < |states[j].works|
    ensures Available(states[j].latch, Some(states[j].works[|states[i].works|])) <==> !DrainBetween(events, i, j)
    ensures SignalAborted(states[j].latch, states[i].latch.signal) <==> DrainBetween(events, i, j)
  {
    var generation := states[i].latch.generation;
    InvOverRun(states, events, i);
    InvOverRun(states, events, j);
    EntriesAreKept(states, events, i + 1, j);
    assert states[i + 1].works[|states[i].works|] == generation;
    LatchRemembersDrain(states, events, i, j);
  }

  /** A launch begun at `i` whose start call returns at `j` succeeds exactly when no drain began in between. */
  lemma LaunchSucceedsIffUndisturbed(states: seq<Node>, events: seq<Event>, i: nat, j: nat)
    requires Run(states, events) && Inv(states[0]) && i < j < |events|
    requires events[i].BeginLaunch? && events[j] == StartReturns(|states[i].launches|)
    requires forall m :: i <= m < j ==> !Crashes(events[m])
    ensures |states[i].launches| < |states[j + 1].launches|
    ensures states[j + 1].launches[|states[i].launches|].phase ==
            if DrainBetween(events, i, j) then Stopping else Settled(true)
  {
    InvOverRun(states, events, i);
    EntriesAreKept(states, events, i + 1, j);
    assert states[i + 1].launches[|states[i].launches|].generation == states[i].latch.generation;
    LatchRemembersDrain(states, events, i, j);
  }

  // ----- progress -----

  /** A stretch of a body, or an answer that a launch is waiting for. */
  predicate Advances(e: Event) {
    OnCommand(e) || e.StartReturns? || e.StopReturns?
  }

  /**
   No `set` call is stuck: while one is unfinished, a body can go on, or a launch it
   waits for is still to be answered.
   */
  lemma NoCommandIsStuck(n: Node, k: nat)
    requires Inv(n) && k < |n.commands| && !n.commands[k].status.Done?
    ensures exists e :: Advances(e) && Enabled(n, e)
  {
    var first := FirstUnfinished(n, k);
    var c := n.commands[first];
    if c.status.Waiting? {
      assert BodyMayRun(n, first);
      assert Enabled(n, if c.enable then DrainBody(first, Synced) else ActivateBody(first, true));
    } else {
      SuspendedCanGoOn(n, first);
    }
  }

  lemma FirstUnfinished(n: Node, k: nat) returns (first: nat)
    requires ChainInv(n) && k < |n.commands| && !n.commands[k].status.Done?
    ensures first <= k && !n.commands[first].status.Done?
    ensures n.commands[first].after.Some? ==> n.commands[first].after.value < |n.commands| && n.commands[n.commands[first].after.value].status.Done?
  {
    first := 0;
    while n.commands[first].status.Done?
      invariant 0 <= first <= k && forall j :: 0 <= j < first ==> n.commands[j].status.Done?
      decreases k - first
    {
      first := first + 1;
    }
  }

  lemma SuspendedCanGoOn(n: Node, k: nat)
    requires BodiesInv(n) && k < |n.commands| && n.commands[k].status.InBody?
    ensures exists e :: Advances(e) && Enabled(n, e)
  {
    match n.commands[k].status.body
    case Settling(waiting) =>
      if l :| l in waiting && l < |n.launches| && n.launches[l].InFlight() {
        assert Enabled(n, if n.launches[l].phase.Starting? then StartReturns(l) else StopReturns(l));
      } else {
        assert Enabled(n, LaunchesSettled(k));
      }
    case Listing => assert Enabled(n, ListThrows(k));
    case Listed(_) => assert Enabled(n, SweepBegins(k));
    case Sweeping(todo, pool, _, _) =>
      assert BodyInv(n, n.commands[k].status.body);
      if w :| 0 <= w < |pool.slots| && !pool.slots[w].Retired? {
        WorkerCanGoOn(n, k, w);
      } else {
        assert Enabled(n, SweepEnds(k));
      }
  }

  lemma WorkerCanGoOn(n: Node, k: nat, w: nat)
    requires InSweep(n, k) && BodyInv(n, n.commands[k].status.body)
    requires w < |n.commands[k].status.body.pool.slots| && !n.commands[k].status.body.pool.slots[w].Retired?
    ensures exists e :: Advances(e) && Enabled(n, e)
  {
    var slot := n.commands[k].status.body.pool.slots[w];
    if slot.Free? {
      assert Enabled(n, WorkerTakes(k, w));
    } else {
      match slot.stage
      case Unpausing => assert Enabled(n, UnpauseReturns(k, w, true));
      case StopCalled => assert Enabled(n, DaemonStops(k, w));
      case StopEffective => assert Enabled(n, SweepStopReturns(k, w, true));
    }
  }
}
