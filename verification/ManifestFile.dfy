/**
 Replacing a manifest on disk: several writers, each filling and syncing its own
 temporary file, renaming it over the manifest and syncing the folder; readers
 holding an open file; crashes of the agent and losses of power between any two
 file operations. The effects are those promised by fsync and rename of POSIX:
 a synced file keeps its bytes, a synced folder keeps the entries it had, and
 what was not synced may or may not be there after power is lost, each entry on
 its own.
 */
module ManifestFile {
  import opened Common

  datatype Phase =
    | Filling(bytes: nat)
    | Synced
    | Renamed(at: nat)
    | Settled(at: nat)
    | Returned(at: nat)
    | Failing
    | Failed
    | Leaked
    | Killed
    | Lost
    | Revived

  datatype Writer = Writer(contents: string, phase: Phase)

  /**
   A file is named after the writer that created it. `log` is what the manifest's
   directory entry has pointed to, oldest first; the last element is what is
   visible, and a loss of power falls back to some element from `base` on.
   `unlinked` are the temporaries removed or renamed away since the folder was last
   synced: a loss of power may bring them back.
   */
  datatype Disk = Disk(
    writers: map<nat, Writer>,
    data: map<nat, string>,
    synced: set<nat>,
    temps: set<nat>,
    unlinked: set<nat>,
    log: seq<Option<nat>>,
    base: nat,
    folderDurable: bool,
    readers: map<nat, nat>)

  datatype Event =
    | Open(w: nat, contents: string)
    | Write(w: nat, bytes: nat)
    | Sync(w: nat)
    | Rename(w: nat)
    | SyncFolder(w: nat)
    | Return(w: nat)
    | Fail(w: nat)
    | CleanUp(w: nat)
    | CleanUpFails(w: nat)
    | Remove
    | OpenForReading(r: nat)
    | FinishReading(r: nat)
    | FolderSettles
    | Crash
    | PowerLoss(kept: nat, keepFolder: bool, garbled: map<nat, string>, keptTemps: set<nat>)

  function Empty(folderDurable: bool): Disk {
    Disk(map[], map[], {}, {}, {}, [None], 0, folderDurable, map[])
  }

  function Visible(d: Disk): Option<nat>
    requires d.log != []
  {
    d.log[|d.log| - 1]
  }

  predicate InPhase(d: Disk, w: nat) {
    w in d.writers && w in d.data
  }

  predicate InFlight(p: Phase) {
    !(p.Returned? || p.Failed? || p.Leaked? || p.Killed? || p.Lost? || p.Revived?)
  }

  predicate Enabled(d: Disk, e: Event) {
    match e
    case Open(w, _) => w !in d.writers
    case Write(w, n) => InPhase(d, w) && d.writers[w].phase.Filling? && d.writers[w].phase.bytes < n <= |d.writers[w].contents|
    case Sync(w) => InPhase(d, w) && d.writers[w].phase == Filling(|d.writers[w].contents|)
    case Rename(w) => InPhase(d, w) && d.writers[w].phase.Synced?
    case SyncFolder(w) => InPhase(d, w) && d.writers[w].phase.Renamed? && d.log != []
    case Return(w) => InPhase(d, w) && d.writers[w].phase.Settled?
    case Fail(w) => InPhase(d, w) && InFlight(d.writers[w].phase) && !d.writers[w].phase.Failing?
    case CleanUp(w) => InPhase(d, w) && d.writers[w].phase.Failing?
    // Removing the temporary is the last thing a write does, whether it went well or not.
    case CleanUpFails(w) => InPhase(d, w) && (d.writers[w].phase.Failing? || d.writers[w].phase.Settled?)
    case Remove => d.log != [] && Visible(d).Some?
    case OpenForReading(r) => r !in d.readers && d.log != [] && Visible(d).Some?
    case FinishReading(r) => r in d.readers
    case FolderSettles => true
    case Crash => true
    case PowerLoss(kept, keepFolder, _, _) => d.base <= kept < |d.log| && (keepFolder || !d.folderDurable)
  }

  function Move(d: Disk, w: nat, phase: Phase): Disk
    requires w in d.writers
  {
    d.(writers := d.writers[w := d.writers[w].(phase := phase)])
  }

  /** The process is gone: its open files and unfinished writes with it. */
  function Stop(d: Disk): Disk {
    d.(writers := map w | w in d.writers ::
         if InFlight(d.writers[w].phase) then d.writers[w].(phase := Killed) else d.writers[w],
       readers := map[])
  }

  /**
   What is left of a write: those under way die with the process, and the folder may
   take returned ones with it or give removed temporaries back.
   */
  function PhaseAfterLoss(p: Phase, keepFolder: bool, broughtBack: bool): Phase {
    if InFlight(p) then Killed
    else if p.Returned? && !keepFolder then Lost
    else if p.Failed? && keepFolder && broughtBack then Revived
    else p
  }

  function LosePower(d: Disk, kept: nat, keepFolder: bool, garbled: map<nat, string>, keptTemps: set<nat>): Disk
    requires kept < |d.log|
  {
    d.(writers := map w | w in d.writers ::
         d.writers[w].(phase := PhaseAfterLoss(d.writers[w].phase, keepFolder, w in d.unlinked * keptTemps)),
       data := map w | w in d.data :: if w !in d.synced && w in garbled then garbled[w] else d.data[w],
       temps := if keepFolder then (d.temps + d.unlinked) * keptTemps else {},
       unlinked := {},
       log := if keepFolder then d.log[..kept + 1] else [None],
       base := if keepFolder then kept else 0,
       folderDurable := keepFolder,
       readers := map[])
  }

  function Unlink(d: Disk, w: nat): Disk {
    d.(temps := d.temps - {w}, unlinked := d.unlinked + {w} * d.temps)
  }

  function Apply(d: Disk, e: Event): Disk
    requires Enabled(d, e)
  {
    match e
    case Open(w, contents) =>
      d.(writers := d.writers[w := Writer(contents, Filling(0))], data := d.data[w := ""], synced := d.synced - {w}, temps := d.temps + {w})
    case Write(w, n) => Move(d, w, Filling(n)).(data := d.data[w := d.writers[w].contents[..n]])
    case Sync(w) => Move(d, w, Synced).(synced := d.synced + {w})
    case Rename(w) => Unlink(Move(d, w, Renamed(|d.log|)), w).(log := d.log + [Some(w)])
    case SyncFolder(w) => Move(d, w, Settled(d.writers[w].phase.at)).(base := |d.log| - 1, unlinked := {})
    case Return(w) => Unlink(Move(d, w, Returned(d.writers[w].phase.at)), w)
    case Fail(w) => Move(d, w, Failing)
    case CleanUp(w) => Unlink(Move(d, w, Failed), w)
    case CleanUpFails(w) => Move(d, w, Leaked)
    case Remove => d.(log := d.log + [None])
    case OpenForReading(r) => d.(readers := d.readers[r := Visible(d).value])
    case FinishReading(r) => d.(readers := d.readers - {r})
    case FolderSettles => d.(folderDurable := true)
    case Crash => Stop(d)
    case PowerLoss(kept, keepFolder, garbled, keptTemps) => LosePower(d, kept, keepFolder, garbled, keptTemps)
  }

  // ----- the invariant -----

  /** The file of `w` is on disk for good, with exactly what `w` was asked to write. */
  predicate Whole(d: Disk, w: nat) {
    w in d.writers && w in d.data && w in d.synced && d.data[w] == d.writers[w].contents
  }

  predicate PhaseFits(d: Disk, w: nat)
    requires w in d.writers && w in d.data
  {
    match d.writers[w].phase
    case Filling(n) => n <= |d.writers[w].contents| && d.data[w] == d.writers[w].contents[..n] && w !in d.synced
    case Synced => Whole(d, w)
    case Renamed(at) => at < |d.log| && d.log[at] == Some(w) && w !in d.temps
    case Settled(at) => at <= d.base && at < |d.log| && d.log[at] == Some(w) && w !in d.temps && w !in d.unlinked
    case Returned(at) => at <= d.base && at < |d.log| && d.log[at] == Some(w) && w !in d.temps && w !in d.unlinked
    case Failed => w !in d.temps
    case Lost => w !in d.temps && w !in d.unlinked
    case _ => true
  }

  ghost predicate Inv(d: Disk) {
    && d.base < |d.log|
    && d.temps + d.unlinked <= d.writers.Keys
    && (forall k :: 0 <= k < |d.log| && d.log[k].Some? ==> Whole(d, d.log[k].value))
    && (forall r :: r in d.readers ==> Whole(d, d.readers[r]))
    && (forall w :: w in d.synced ==> Whole(d, w))
    && (forall w :: w in d.writers ==> w in d.data && PhaseFits(d, w))
  }

  /** A synced file is never touched again: no step, crash or loss of power changes it. */
  lemma WholeStays(d: Disk, e: Event, w: nat)
    requires Inv(d) && Enabled(d, e) && Whole(d, w)
    ensures Whole(Apply(d, e), w)
  {
    assert PhaseFits(d, w);
  }

  /** The writer that takes the step. */
  function Actor(e: Event): Option<nat> {
    match e
    case Open(w, _) => Some(w)
    case Write(w, _) => Some(w)
    case Sync(w) => Some(w)
    case Rename(w) => Some(w)
    case SyncFolder(w) => Some(w)
    case Return(w) => Some(w)
    case Fail(w) => Some(w)
    case CleanUp(w) => Some(w)
    case CleanUpFails(w) => Some(w)
    case _ => None
  }

  lemma ActorFits(d: Disk, e: Event, w: nat)
    requires Inv(d) && Enabled(d, e) && Actor(e) == Some(w)
    ensures var a := Apply(d, e); w in a.writers && w in a.data && PhaseFits(a, w)
  {
    if w in d.writers {
      assert PhaseFits(d, w);
    }
  }

  lemma OtherWriterFits(d: Disk, e: Event, w: nat)
    requires Inv(d) && Enabled(d, e) && Actor(e).Some? && Actor(e) != Some(w) && w in d.writers
    ensures var a := Apply(d, e); w in a.writers && w in a.data && PhaseFits(a, w)
  {
    assert PhaseFits(d, w);
  }

  lemma BystanderFits(d: Disk, e: Event, w: nat)
    requires Inv(d) && Enabled(d, e) && Actor(e).None? && !e.PowerLoss? && w in d.writers
    ensures var a := Apply(d, e); w in a.writers && w in a.data && PhaseFits(a, w)
  {
    assert PhaseFits(d, w);
  }

  lemma SurvivorFits(d: Disk, e: Event, w: nat)
    requires Inv(d) && Enabled(d, e) && e.PowerLoss? && w in d.writers
    ensures var a := Apply(d, e); w in a.writers && w in a.data && PhaseFits(a, w)
  {
    assert PhaseFits(d, w);
  }

  lemma FitsStep(d: Disk, e: Event, w: nat)
    requires Inv(d) && Enabled(d, e) && w in Apply(d, e).writers
    ensures w in Apply(d, e).data && PhaseFits(Apply(d, e), w)
  {
    if Actor(e) == Some(w) {
      ActorFits(d, e, w);
    } else {
      assert w in d.writers;
      hide Apply, Enabled, PhaseFits;
      if Actor(e).Some? {
        OtherWriterFits(d, e, w);
      } else if e.PowerLoss? {
        SurvivorFits(d, e, w);
      } else {
        BystanderFits(d, e, w);
      }
    }
  }

  lemma LogStep(d: Disk, e: Event, k: nat)
    requires Inv(d) && Enabled(d, e) && k < |Apply(d, e).log| && Apply(d, e).log[k].Some?
    ensures Whole(Apply(d, e), Apply(d, e).log[k].value)
  {
    if k < |d.log| && d.log[k] == Apply(d, e).log[k] {
      assert Whole(d, d.log[k].value);
      WholeStays(d, e, d.log[k].value);
    } else {
      assert e.Rename?;
      assert PhaseFits(d, e.w);
    }
  }

  lemma ReaderStep(d: Disk, e: Event, r: nat)
    requires Inv(d) && Enabled(d, e) && r in Apply(d, e).readers
    ensures Whole(Apply(d, e), Apply(d, e).readers[r])
  {
    WholeStays(d, e, Apply(d, e).readers[r]);
  }

  lemma SyncedStep(d: Disk, e: Event, w: nat)
    requires Inv(d) && Enabled(d, e) && w in Apply(d, e).synced
    ensures Whole(Apply(d, e), w)
  {
    if w in d.synced {
      WholeStays(d, e, w);
    } else {
      assert PhaseFits(d, w);
    }
  }

  lemma InvStep(d: Disk, e: Event)
    requires Inv(d) && Enabled(d, e)
    ensures Inv(Apply(d, e))
  {
    var a := Apply(d, e);
    assert a.base < |a.log| && a.temps + a.unlinked <= a.writers.Keys;
    hide Apply, Whole, PhaseFits;
    forall k: nat | k < |a.log| && a.log[k].Some? ensures Whole(a, a.log[k].value) { LogStep(d, e, k); }
    forall r | r in a.readers ensures Whole(a, a.readers[r]) { ReaderStep(d, e, r); }
    forall w | w in a.synced ensures Whole(a, w) { SyncedStep(d, e, w); }
    forall w | w in a.writers ensures w in a.data && PhaseFits(a, w) { FitsStep(d, e, w); }
  }
}
