/**
 What readers find and what a returned write is worth, over every run of writers,
 readers, crashes and losses of power.
 */
module ManifestDurability {
  import opened Common
  import opened ManifestFile

  // ----- runs -----

  ghost predicate Possible(d: Disk, events: seq<Event>)
    decreases events
  {
    events == [] || (Enabled(d, events[0]) && Possible(Apply(d, events[0]), events[1..]))
  }

  ghost function After(d: Disk, events: seq<Event>): Disk
    requires Possible(d, events)
    decreases events
  {
    if events == [] then d else After(Apply(d, events[0]), events[1..])
  }

  lemma {:induction false} InvOverRun(d: Disk, events: seq<Event>)
    requires Inv(d) && Possible(d, events)
    ensures Inv(After(d, events))
    decreases events
  {
    if events != [] {
      InvStep(d, events[0]);
      InvOverRun(Apply(d, events[0]), events[1..]);
    }
  }

  /** At every point of every run a reader finds no manifest, or all of one that some writer was asked to write. */
  lemma OnlyWholeManifests(folderDurable: bool, events: seq<Event>)
    requires Possible(Empty(folderDurable), events)
    ensures var d := After(Empty(folderDurable), events);
      && d.log != []
      && (Visible(d).Some? ==> Whole(d, Visible(d).value))
      && (forall r :: r in d.readers ==> Whole(d, d.readers[r]))
  {
    InvOverRun(Empty(folderDurable), events);
  }

  /**
   A reader that has the file open reads the same bytes however many writers, crashes
   and losses of power come between.
   */
  lemma {:induction false} OpenFileNeverChanges(d: Disk, events: seq<Event>, w: nat)
    requires Inv(d) && Possible(d, events) && Whole(d, w)
    ensures var a := After(d, events); Whole(a, w) && a.data[w] == d.data[w]
    decreases events
  {
    if events != [] {
      InvStep(d, events[0]);
      WholeStays(d, events[0], w);
      ContentsStay(d, events[0], w);
      OpenFileNeverChanges(Apply(d, events[0]), events[1..], w);
    }
  }

  lemma ContentsStay(d: Disk, e: Event, w: nat)
    requires Enabled(d, e) && w in d.writers
    ensures w in Apply(d, e).writers && Apply(d, e).writers[w].contents == d.writers[w].contents
  {
  }

  /** What is visible changes by a rename, a removal or a loss of power, and in no other way. */
  lemma VisibleStep(d: Disk, e: Event)
    requires Inv(d) && Enabled(d, e)
    ensures var a := Apply(d, e);
      && a.log != []
      && (e.Rename? ==> Visible(a) == Some(e.w))
      && (e.Remove? ==> Visible(a) == None)
      && (e.PowerLoss? && e.keepFolder ==> Visible(a) in d.log[d.base..])
      && (e.PowerLoss? && !e.keepFolder ==> Visible(a) == None && !d.folderDurable)
      && (!e.Rename? && !e.Remove? && !e.PowerLoss? ==> Visible(a) == Visible(d))
  {
    if e.PowerLoss? && e.keepFolder {
      assert d.log[e.kept] == d.log[d.base..][e.kept - d.base];
    }
  }

  ghost predicate Explained(d: Disk, events: seq<Event>, entry: Option<nat>) {
    || entry in d.log
    || (entry.Some? && Rename(entry.value) in events)
    || (entry.None? && (Remove in events || !d.folderDurable))
  }

  lemma ExplainedStep(d: Disk, e: Event, rest: seq<Event>, entry: Option<nat>)
    requires Inv(d) && Enabled(d, e) && Explained(Apply(d, e), rest, entry)
    ensures Explained(d, [e] + rest, entry)
  {
    var a := Apply(d, e);
    if entry in a.log && entry !in d.log {
      assert e.Rename? || e.Remove? || (e.PowerLoss? && !e.keepFolder);
      assert e == ([e] + rest)[0];
    }
  }

  /** So whatever is found later is an old manifest or the new one of a writer that reached its rename. */
  lemma {:induction false} OldOrNew(d: Disk, events: seq<Event>, entry: Option<nat>)
    requires Inv(d) && Possible(d, events) && entry in After(d, events).log
    ensures Explained(d, events, entry)
    decreases events
  {
    if events != [] {
      InvStep(d, events[0]);
      OldOrNew(Apply(d, events[0]), events[1..], entry);
      ExplainedStep(d, events[0], events[1..], entry);
      assert events == [events[0]] + events[1..];
    }
  }

  // ----- durability -----

  ghost predicate Holds(d: Disk, w: nat, at: nat) {
    at < |d.log| && d.log[at] == Some(w)
  }

  lemma ReturnedStep(d: Disk, e: Event, w: nat)
    requires Inv(d) && Enabled(d, e) && d.folderDurable && w in d.writers && d.writers[w].phase.Returned?
    ensures var a := Apply(d, e);
      a.folderDurable && w in a.writers && a.writers[w].phase == d.writers[w].phase && Holds(a, w, d.writers[w].phase.at)
  {
    assert PhaseFits(d, w);
  }

  /**
   Once a write returns, its entry stays in place through every later step, crash
   and loss of power, so what is found is that manifest or one put there after it.
   */
  lemma {:induction false} ReturnedIsDurable(d: Disk, events: seq<Event>, w: nat)
    requires Inv(d) && Possible(d, events) && d.folderDurable && w in d.writers && d.writers[w].phase.Returned?
    ensures var a := After(d, events); Holds(a, w, d.writers[w].phase.at) && d.writers[w].phase.at <= a.base
    decreases events
  {
    if events == [] {
      assert PhaseFits(d, w);
    } else {
      InvStep(d, events[0]);
      ReturnedStep(d, events[0], w);
      ReturnedIsDurable(Apply(d, events[0]), events[1..], w);
    }
  }

  /**
   The folder's own entry is never synced. A returned write outlives every next
   step exactly when that entry is already on disk.
   */
  lemma DurableExactlyWhenFolderIs(d: Disk, w: nat)
    requires Inv(d) && w in d.writers && d.writers[w].phase.Returned?
    ensures d.folderDurable <==> forall e :: Enabled(d, e) ==> Holds(Apply(d, e), w, d.writers[w].phase.at)
  {
    if d.folderDurable {
      forall e | Enabled(d, e)
        ensures Holds(Apply(d, e), w, d.writers[w].phase.at)
      {
        ReturnedStep(d, e, w);
      }
    } else {
      var e := PowerLoss(d.base, false, map[], {});
      assert Enabled(d, e) && !Holds(Apply(d, e), w, d.writers[w].phase.at);
    }
  }

  /** A removal is not synced: losing power right after it can bring the manifest back. */
  lemma RemovalMayBeUndone(d: Disk)
    requires Inv(d) && Visible(d).Some?
    ensures Enabled(d, Remove) && Visible(Apply(d, Remove)) == None
    ensures var loss := PowerLoss(|d.log| - 1, true, map[], {});
      Enabled(Apply(d, Remove), loss) && Visible(Apply(Apply(d, Remove), loss)) == Visible(d)
  {
  }

  predicate Unlinks(e: Event, w: nat) {
    e == Rename(w) || e == Return(w) || e == CleanUp(w)
  }

  /**
   A loss of power brought the temporary of `w` back after its removal and before the
   folder was next synced; `pending` is a removal already made.
   */
  ghost predicate RemovalUndone(events: seq<Event>, w: nat, pending: bool)
    decreases events
  {
    events != [] &&
    var e := events[0];
    || (pending && e.PowerLoss? && w in e.keptTemps)
    || RemovalUndone(events[1..], w, Unlinks(e, w) || (pending && !e.SyncFolder? && !e.PowerLoss?))
  }

  lemma {:induction false} PendingOnlyHelps(events: seq<Event>, w: nat, pending: bool)
    requires RemovalUndone(events, w, pending)
    ensures RemovalUndone(events, w, true)
    decreases events
  {
    var e := events[0];
    var after := Unlinks(e, w) || (pending && !e.SyncFolder? && !e.PowerLoss?);
    if !(pending && e.PowerLoss? && w in e.keptTemps) && !after && !e.SyncFolder? && !e.PowerLoss? {
      PendingOnlyHelps(events[1..], w, false);
    }
  }

  lemma RevivedStep(d: Disk, e: Event, w: nat)
    requires Inv(d) && Enabled(d, e)
    ensures var a := Apply(d, e);
      && (w in a.writers && a.writers[w].phase.Revived? ==>
            (w in d.writers && d.writers[w].phase.Revived?) || (w in d.unlinked && e.PowerLoss? && w in e.keptTemps))
  {
  }

  /**
   A temporary stays remembered as removed from its removal to the next folder sync or
   loss of power, and no longer.
   */
  lemma UnlinkedStep(d: Disk, e: Event, w: nat)
    requires Inv(d) && Enabled(d, e)
    ensures var a := Apply(d, e);
      && (w in a.unlinked ==> Unlinks(e, w) || (w in d.unlinked && !e.SyncFolder? && !e.PowerLoss?))
      && (w in d.unlinked && !e.SyncFolder? && !e.PowerLoss? ==> w in a.unlinked)
      && (Unlinks(e, w) && w in d.temps ==> w in a.unlinked)
  {
  }

  lemma {:induction false} RevivedMeaning(d: Disk, events: seq<Event>, w: nat)
    requires Inv(d) && Possible(d, events)
    requires var a := After(d, events); w in a.writers && a.writers[w].phase.Revived?
    ensures (w in d.writers && d.writers[w].phase.Revived?) || RemovalUndone(events, w, w in d.unlinked)
    decreases events
  {
    if events != [] {
      InvStep(d, events[0]);
      RevivedStep(d, events[0], w);
      UnlinkedStep(d, events[0], w);
      var a := Apply(d, events[0]);
      RevivedMeaning(a, events[1..], w);
      if RemovalUndone(events[1..], w, w in a.unlinked) && w !in a.unlinked {
        PendingOnlyHelps(events[1..], w, false);
      }
    }
  }

  lemma OnlyPowerBringsBack(d: Disk, e: Event, w: nat)
    requires Inv(d) && Enabled(d, e) && w in d.writers && d.writers[w].phase.Failed? && w !in d.unlinked
    ensures w !in Apply(d, e).temps
  {
    assert PhaseFits(d, w);
    hide Inv, PhaseFits, Whole;
  }

  /**
   A failed write that removed its temporary can still leave it, exactly as long as no
   folder sync came after the removal.
   */
  lemma TemporaryMayComeBackExactlyWhen(d: Disk, w: nat)
    requires Inv(d) && w in d.writers && d.writers[w].phase.Failed?
    ensures (exists e :: Enabled(d, e) && w in Apply(d, e).temps) <==> w in d.unlinked
  {
    if w in d.unlinked {
      var loss := PowerLoss(|d.log| - 1, true, map[], {w});
      assert Enabled(d, loss) && w in Apply(d, loss).temps;
    } else {
      forall e | Enabled(d, e)
        ensures w !in Apply(d, e).temps
      {
        OnlyPowerBringsBack(d, e, w);
      }
    }
    hide Apply, Enabled;
  }

  /** A write that is still before its rename, or on its way out of a failure. */
  predicate Unfinished(p: Phase) {
    p.Filling? || p.Synced? || p.Failing?
  }

  /**
   Every temporary file has a reason to be there: its write is unfinished, it was
   killed with the agent, removing the file failed, or the power was lost before
   its removal was synced.
   */
  lemma TemporariesHaveAReason(folderDurable: bool, events: seq<Event>, w: nat)
    requires Possible(Empty(folderDurable), events) && w in After(Empty(folderDurable), events).temps
    ensures var writers := After(Empty(folderDurable), events).writers;
      w in writers && (Unfinished(writers[w].phase) || writers[w].phase.Killed? || writers[w].phase.Leaked?
                         || RemovalUndone(events, w, false))
  {
    var d := After(Empty(folderDurable), events);
    InvOverRun(Empty(folderDurable), events);
    assert w in d.writers && PhaseFits(d, w);
    if d.writers[w].phase.Revived? {
      RevivedMeaning(Empty(folderDurable), events, w);
    }
  }

  /** A reader opens what is visible at that moment, if anything is, and has it until it closes it. */
  lemma ReaderOpensVisible(d: Disk, r: nat)
    requires Inv(d) && r !in d.readers
    ensures Enabled(d, OpenForReading(r)) <==> Visible(d).Some?
    ensures Visible(d).Some? ==>
      var a := Apply(d, OpenForReading(r));
      && r in a.readers && a.readers[r] == Visible(d).value && a.data == d.data
      && Enabled(a, FinishReading(r)) && Apply(a, FinishReading(r)).readers == d.readers
  {
  }

  /** Any file operation of a write may fail, the removal of its temporary too. */
  lemma AnyOperationMayFail(d: Disk, w: nat)
    requires Inv(d) && w in d.writers
    ensures InFlight(d.writers[w].phase) && d.writers[w].phase != Failing ==> Enabled(d, Fail(w))
    ensures d.writers[w].phase == Failing || d.writers[w].phase.Settled? ==> Enabled(d, CleanUpFails(w))
  {
    assert PhaseFits(d, w);
  }

  // ----- what a crash ends -----

  /** A write that did not get to its end, or is past it: it will never return. */
  predicate Over(p: Phase) {
    p.Failed? || p.Leaked? || p.Killed? || p.Lost? || p.Revived?
  }

  predicate Crashes(e: Event) {
    e.Crash? || e.PowerLoss?
  }

  /**
   With the process every write under way and every reader ends; what a write had
   finished with is not touched by a crash alone.
   */
  lemma CrashEnds(d: Disk, e: Event, w: nat)
    requires Inv(d) && Enabled(d, e) && Crashes(e) && w in d.writers
    ensures var p, a := d.writers[w].phase, Apply(d, e);
      && a.readers == map[] && w in a.writers
      && (!Over(p) && !p.Returned? ==> a.writers[w].phase == Killed)
      && (e.Crash? && (Over(p) || p.Returned?) ==> a.writers[w].phase == p)
      && (e.PowerLoss? && p.Returned? ==> a.writers[w].phase == if e.keepFolder then p else Lost)
      && (e.PowerLoss? && Over(p) ==>
            a.writers[w].phase == if p.Failed? && e.keepFolder && w in d.unlinked && w in e.keptTemps then Revived else p)
      && (e.Crash? ==> a.data == d.data && a.temps == d.temps && a.log == d.log && a.base == d.base && a.folderDurable == d.folderDurable)
  {
    assert PhaseFits(d, w);
  }

  lemma OverStays(d: Disk, e: Event, w: nat)
    requires Inv(d) && Enabled(d, e) && w in d.writers && Over(d.writers[w].phase)
    ensures w in Apply(d, e).writers && Over(Apply(d, e).writers[w].phase)
  {
    assert PhaseFits(d, w);
    hide Inv, PhaseFits, Whole;
  }

  /** A write that a crash or a loss of power came upon never returns, whatever happens afterwards. */
  lemma {:induction false} KilledNeverReturns(d: Disk, events: seq<Event>, w: nat)
    requires Inv(d) && Possible(d, events) && events != [] && Crashes(events[0])
    requires w in d.writers && !d.writers[w].phase.Returned?
    ensures var a := After(d, events); w in a.writers && Over(a.writers[w].phase)
  {
    CrashEnds(d, events[0], w);
    InvStep(d, events[0]);
    if Over(d.writers[w].phase) {
      OverStays(d, events[0], w);
    }
    OverForGood(Apply(d, events[0]), events[1..], w);
  }

  lemma {:induction false} OverForGood(d: Disk, events: seq<Event>, w: nat)
    requires Inv(d) && Possible(d, events) && w in d.writers && Over(d.writers[w].phase)
    ensures var a := After(d, events); w in a.writers && Over(a.writers[w].phase)
    decreases events
  {
    hide Apply, Enabled;
    if events != [] {
      OverStays(d, events[0], w);
      InvStep(d, events[0]);
      OverForGood(Apply(d, events[0]), events[1..], w);
    }
  }

  /**
   Anything that was not synced can go with the power: whichever entry since the
   last folder sync, whichever temporaries, made or removed, any bytes at all in a
   file that was not synced, and the folder itself.
   */
  lemma PowerLossCanTake(d: Disk, kept: nat, bytes: string, temps: set<nat>, w: nat)
    requires Inv(d) && d.base <= kept < |d.log| && temps <= d.temps + d.unlinked && w in d.data
    ensures var loss := PowerLoss(kept, true, map[w := bytes], temps);
      Enabled(d, loss) &&
      var a := Apply(d, loss);
      && Visible(a) == d.log[kept] && a.temps == temps && a.folderDurable
      && w in a.data && a.data[w] == if w in d.synced then d.data[w] else bytes
    ensures !d.folderDurable ==>
      var loss := PowerLoss(kept, false, map[w := bytes], temps);
      Enabled(d, loss) && var a := Apply(d, loss); Visible(a) == None && a.temps == {} && !a.folderDurable
  {
    assert (d.temps + d.unlinked) * temps == temps;
  }

  /** Until it is renamed a write has its temporary, and nothing else of it is in the folder. */
  lemma WriteHasTemporary(d: Disk, e: Event)
    requires Inv(d) && Enabled(d, e)
    ensures e.Open? ==> e.w in Apply(d, e).temps && e.w !in Apply(d, e).synced && Some(e.w) !in Apply(d, e).log
    ensures e.FolderSettles? ==> Apply(d, e).folderDurable
    ensures e.CleanUp? ==> Apply(d, e).writers[e.w].phase == Failed
    ensures e.CleanUpFails? ==> Apply(d, e).writers[e.w].phase == Leaked
  {
    forall k | 0 <= k < |d.log| && d.log[k].Some?
      ensures d.log[k].value in d.writers
    {
      assert Whole(d, d.log[k].value);
    }
  }

  lemma Then(d: Disk, e: Event, rest: seq<Event>)
    requires Enabled(d, e) && Possible(Apply(d, e), rest)
    ensures Possible(d, [e] + rest) && After(d, [e] + rest) == After(Apply(d, e), rest)
  {
    assert ([e] + rest)[1..] == rest;
  }

  lemma Fill(d: Disk, w: nat, contents: string) returns (f: Disk, g: Disk, h: Disk)
    requires w !in d.writers && contents != ""
    ensures Enabled(d, Open(w, contents)) && f == Apply(d, Open(w, contents))
    ensures Enabled(f, Write(w, |contents|)) && g == Apply(f, Write(w, |contents|))
    ensures Enabled(g, Sync(w)) && h == Apply(g, Sync(w))
    ensures h.log == d.log && InPhase(h, w) && h.writers[w] == Writer(contents, Synced) && h.data[w] == contents
  {
    f := Apply(d, Open(w, contents));
    g := Apply(f, Write(w, |contents|));
    h := Apply(g, Sync(w));
    assert contents[..|contents|] == contents;
  }

  lemma Publish(d: Disk, w: nat) returns (f: Disk, g: Disk, h: Disk)
    requires InPhase(d, w) && d.writers[w].phase == Synced
    ensures Enabled(d, Rename(w)) && f == Apply(d, Rename(w))
    ensures Enabled(f, SyncFolder(w)) && g == Apply(f, SyncFolder(w))
    ensures Enabled(g, Return(w)) && h == Apply(g, Return(w))
    ensures h.log == d.log + [Some(w)] && h.base == |d.log| && h.data == d.data
    ensures w in h.writers && h.writers[w].phase == Returned(|d.log|)
  {
    f := Apply(d, Rename(w));
    g := Apply(f, SyncFolder(w));
    h := Apply(g, Return(w));
  }

  /** A write that nothing disturbs goes through, and leaves its manifest visible and settled. */
  lemma UndisturbedWriteReturns(d: Disk, w: nat, contents: string)
    requires w !in d.writers && contents != ""
    ensures var events := [Open(w, contents)] + ([Write(w, |contents|)] + ([Sync(w)] + ([Rename(w)] + ([SyncFolder(w)] + [Return(w)]))));
      && Possible(d, events)
      && var a := After(d, events);
         && a.log == d.log + [Some(w)] && a.base == |d.log| && w in a.writers && a.writers[w].phase == Returned(|d.log|)
         && w in a.data && a.data[w] == contents
  {
    hide Possible, After, Apply, Enabled;
    var d1, d2, d3 := Fill(d, w, contents);
    var d4, d5, d6 := Publish(d3, w);
    EmptyRun(d6);
    Then(d5, Return(w), []);
    var last: seq<Event> := [Return(w)];
    assert [Return(w)] + [] == last;
    Then(d4, SyncFolder(w), last);
    Then(d3, Rename(w), [SyncFolder(w)] + last);
    Then(d2, Sync(w), [Rename(w)] + ([SyncFolder(w)] + last));
    Then(d1, Write(w, |contents|), [Sync(w)] + ([Rename(w)] + ([SyncFolder(w)] + last)));
    Then(d, Open(w, contents), [Write(w, |contents|)] + ([Sync(w)] + ([Rename(w)] + ([SyncFolder(w)] + last))));
  }

  lemma EmptyRun(d: Disk)
    ensures Possible(d, []) && After(d, []) == d
  {
  }
}
