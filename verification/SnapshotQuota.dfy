/**
 The snapshot quota. Every backup run first removes the oldest snapshots so that
 one more still fits, then writes one. restic is the environment: its answers
 are parameters. A listing may leave snapshots out, since output that cannot be
 read or parsed counts as an empty one, but it invents none.
 */
module SnapshotQuota {
  import opened Common
  import opened Sorting

  datatype Snapshot = Snapshot(id: string, time: int)

  /** The snapshots in a repository: their ids and times. */
  type Repository = map<string, int>

  function Time(s: Snapshot): int {
    s.time
  }

  /** The oldest snapshots that have to go for `keepMax` to hold once one more is written. */
  function SnapshotsToForget(snapshots: seq<Snapshot>, keepMax: int): seq<Snapshot> {
    if keepMax <= 0 then []
    else
      var ordered := SortBy(snapshots, Time);
      var surplus := |ordered| - (keepMax - 1);
      if surplus > 0 then ordered[..surplus] else []
  }

  function Ids(snapshots: seq<Snapshot>): set<string> {
    set k | 0 <= k < |snapshots| :: snapshots[k].id
  }

  ghost predicate DistinctIds(snapshots: seq<Snapshot>) {
    forall i, j :: 0 <= i < j < |snapshots| ==> snapshots[i].id != snapshots[j].id
  }

  /** `listed` names snapshots that are there, each once and with its time, in any order. */
  ghost predicate IsPartOf(listed: seq<Snapshot>, repo: Repository) {
    && DistinctIds(listed) && Ids(listed) <= repo.Keys
    && forall k :: 0 <= k < |listed| ==> listed[k].id in repo && repo[listed[k].id] == listed[k].time
  }

  /** It names all of them. */
  ghost predicate IsListing(listed: seq<Snapshot>, repo: Repository) {
    IsPartOf(listed, repo) && Ids(listed) == repo.Keys
  }

  // ----- which snapshots go -----

  lemma {:induction false} DistinctCount(snapshots: seq<Snapshot>)
    requires DistinctIds(snapshots)
    ensures |Ids(snapshots)| == |snapshots|
  {
    if snapshots == [] {
      assert Ids(snapshots) == {};
    } else {
      var init, last := snapshots[..|snapshots| - 1], snapshots[|snapshots| - 1];
      DistinctCount(init);
      assert Ids(snapshots) == Ids(init) + {last.id};
      assert last.id !in Ids(init);
    }
  }

  lemma {:induction false} DistinctMultiset(s: seq<Snapshot>, x: Snapshot)
    requires DistinctIds(s)
    ensures multiset(s)[x] <= 1
  {
    if s != [] {
      DistinctMultiset(s[1..], x);
      assert s == [s[0]] + s[1..];
      if x == s[0] {
        assert x !in s[1..];
      }
    }
  }

  lemma SameMembers(a: seq<Snapshot>, b: seq<Snapshot>)
    requires multiset(a) == multiset(b)
    ensures forall x :: x in a <==> x in b
    ensures Ids(a) == Ids(b)
  {
    forall x
      ensures x in a <==> x in b
    {
      assert x in multiset(a) <==> x in multiset(b);
    }
    forall id
      ensures id in Ids(a) <==> id in Ids(b)
    {
      if id in Ids(a) {
        var k :| 0 <= k < |a| && a[k].id == id;
        assert a[k] in b;
      }
      if id in Ids(b) {
        var k :| 0 <= k < |b| && b[k].id == id;
        assert b[k] in a;
      }
    }
  }

  lemma PermutedStaysDistinct(a: seq<Snapshot>, b: seq<Snapshot>)
    requires multiset(a) == multiset(b) && DistinctIds(a)
    ensures DistinctIds(b)
  {
    SameMembers(a, b);
    forall i, j | 0 <= i < j < |b|
      ensures b[i].id != b[j].id
    {
      assert b[i] in a && b[j] in a;
      if b[i] == b[j] {
        DistinctMultiset(a, b[i]);
        TwiceInMultiset(b, i, j);
      }
    }
  }

  lemma SortedListing(listed: seq<Snapshot>, repo: Repository)
    requires IsListing(listed, repo)
    ensures IsListing(SortBy(listed, Time), repo) && |SortBy(listed, Time)| == |listed| == |repo|
  {
    var ordered := SortBy(listed, Time);
    SortByIsSorted(listed, Time);
    hide SortBy;
    DistinctCount(listed);
    SameMembers(listed, ordered);
    PermutedStaysDistinct(listed, ordered);
    assert |repo.Keys| == |repo|;
    forall k | 0 <= k < |ordered|
      ensures ordered[k].id in repo && repo[ordered[k].id] == ordered[k].time
    {
      assert ordered[k] in listed;
    }
  }

  /** The first `n` of a sorted listing are `n` snapshots none of which is newer than one of the others. */
  lemma OldestAreFirst(ordered: seq<Snapshot>, repo: Repository, n: nat, a: string, b: string)
    requires IsListing(ordered, repo) && SortedBy(ordered, Time) && n <= |ordered|
    requires a in Ids(ordered[..n]) && b in repo && b !in Ids(ordered[..n])
    ensures a in repo && repo[a] <= repo[b]
  {
    var first := ordered[..n];
    var i :| 0 <= i < n && first[i].id == a;
    assert ordered[i].id == a && b in Ids(ordered);
    assert forall k :: 0 <= k < n ==> ordered[k] == first[k] && first[k].id != b;
    var j :| 0 <= j < |ordered| && ordered[j].id == b;
    assert Time(ordered[i]) <= Time(ordered[j]);
  }

  lemma PrefixIsOldest(ordered: seq<Snapshot>, repo: Repository, n: nat)
    requires IsListing(ordered, repo) && SortedBy(ordered, Time) && n <= |ordered|
    ensures var gone := Ids(ordered[..n]);
            && gone <= repo.Keys && |gone| == n
            && forall a, b :: a in gone && b in repo && b !in gone ==> repo[a] <= repo[b]
  {
    var first := ordered[..n];
    assert forall k :: 0 <= k < n ==> first[k] == ordered[k];
    DistinctCount(first);
    forall a, b | a in Ids(first) && b in repo && b !in Ids(first)
      ensures repo[a] <= repo[b]
    {
      OldestAreFirst(ordered, repo, n, a, b);
    }
  }

  /**
   With a limit, exactly as many snapshots are named as leave `keepMax - 1`;
   all of them exist, and none is newer than one that stays.
   */
  lemma ForgetsTheOldest(listed: seq<Snapshot>, repo: Repository, keepMax: int)
    requires IsListing(listed, repo) && keepMax >= 1
    ensures var doomed := Ids(SnapshotsToForget(listed, keepMax));
            && doomed <= repo.Keys
            && |repo - doomed| == (if |repo| < keepMax then |repo| else keepMax - 1)
            && forall gone, kept :: gone in doomed && kept in repo && kept !in doomed ==> repo[gone] <= repo[kept]
  {
    ForgetsAPrefix(listed, keepMax);
    SortedListing(listed, repo);
    SortByIsSorted(listed, Time);
    hide SortBy, SnapshotsToForget, IsListing, SortedBy;
    var n := |SnapshotsToForget(listed, keepMax)|;
    PrefixIsOldest(SortBy(listed, Time), repo, n);
    RemoveKeys(repo, Ids(SnapshotsToForget(listed, keepMax)));
  }

  /** What a listing leaves out stays; of what it names, the oldest go. */
  lemma ForgetsTheOldestListed(listed: seq<Snapshot>, repo: Repository, keepMax: int)
    requires IsPartOf(listed, repo) && keepMax >= 1
    ensures var doomed := Ids(SnapshotsToForget(listed, keepMax));
            && doomed <= Ids(listed) && |listed| <= |repo|
            && |repo - doomed| == |repo| - |listed| + (if |listed| < keepMax then |listed| else keepMax - 1)
            && forall gone, kept :: gone in doomed && kept in Ids(listed) && kept !in doomed ==> repo[gone] <= repo[kept]
  {
    var seen := map id | id in Ids(listed) :: repo[id];
    assert seen.Keys == Ids(listed);
    ForgetsTheOldest(listed, seen, keepMax);
    DistinctCount(listed);
    SmallerPart(Ids(listed), repo.Keys);
    hide SnapshotsToForget, IsPartOf, Ids;
    var doomed := Ids(SnapshotsToForget(listed, keepMax));
    RemoveKeys(seen, doomed);
    RemoveKeys(repo, doomed);
  }

  lemma SmallerPart(a: set<string>, b: set<string>)
    requires a <= b
    ensures |a| <= |b| && (|a| == |b| ==> a == b)
  {
    assert b == a + (b - a);
    assert |b| == |a| + |b - a|;
  }

  lemma ForgetsAPrefix(listed: seq<Snapshot>, keepMax: int)
    requires keepMax >= 1
    ensures var ordered, first := SortBy(listed, Time), SnapshotsToForget(listed, keepMax);
            && |first| <= |ordered| && first == ordered[..|first|]
            && |first| == if |ordered| < keepMax then 0 else |ordered| - (keepMax - 1)
  {
  }

  lemma RemoveKeys(repo: Repository, gone: set<string>)
    requires gone <= repo.Keys
    ensures |repo - gone| == |repo| - |gone|
  {
    assert (repo - gone).Keys == repo.Keys - gone;
    assert |(repo - gone).Keys| == |repo.Keys| - |gone|;
  }

  // ----- one run -----

  datatype Probe = Exists | Uninitialised | Unreachable

  /** The new snapshot's id and time, and how restic left the upload. */
  datatype Upload = Upload(id: string, time: int, wrote: bool, exitCode: int, timedOut: bool, summarised: bool)

  /** restic's answers in one run; `forgetRemoved` is what a failing `forget` removed before it failed. */
  datatype Answers = Answers(
    probe: Probe,
    initOk: bool,
    listing: Option<seq<Snapshot>>,
    forgetOk: bool,
    forgetRemoved: set<string>,
    upload: Upload)

  datatype Request = Request(keepMax: int, requireComplete: bool)

  datatype Failure =
    | RepositoryUnavailable
    | ListingFailed
    | CouldNotForget
    | TimedOut
    | Incomplete
    | UploadFailed(exitCode: int)
    | NoSummary

  datatype Report = Report(snapshotId: string, forgotten: seq<string>)

  /**
   A listing invents nothing, a failing `forget` removes nothing but what it was given,
   and a summary names a snapshot that was written.
   */
  ghost predicate Possible(repo: Repository, r: Request, a: Answers) {
    && (a.listing.Some? ==> IsPartOf(a.listing.value, repo))
    && (a.listing.Some? ==> a.forgetRemoved <= Ids(SnapshotsToForget(a.listing.value, r.keepMax)))
    && (a.upload.summarised && a.upload.exitCode in {0, 3} && !a.upload.timedOut ==> a.upload.wrote)
    && (a.upload.wrote ==> a.upload.id !in repo)
  }

  function IdList(snapshots: seq<Snapshot>): seq<string> {
    seq(|snapshots|, k requires 0 <= k < |snapshots| => snapshots[k].id)
  }

  /** The repository after `enforceLimit`, and the ids it reports or why it failed. */
  function Enforced(repo: Repository, keepMax: int, a: Answers): (Repository, Result<seq<string>, Failure>) {
    if keepMax <= 0 then (repo, Ok([]))
    else if a.listing.None? then (repo, Err(ListingFailed))
    else
      var doomed := SnapshotsToForget(a.listing.value, keepMax);
      if doomed == [] then (repo, Ok([]))
      else if a.forgetOk then (repo - Ids(doomed), Ok(IdList(doomed)))
      else (repo - a.forgetRemoved, Err(CouldNotForget))
  }

  /** The repository after `runBackup`, and the snapshot it reports or why it failed. */
  function Uploaded(repo: Repository, requireComplete: bool, u: Upload): (Repository, Result<string, Failure>) {
    (if u.wrote then repo[u.id := u.time] else repo,
     if u.timedOut then Err(TimedOut)
     else if requireComplete && u.exitCode == 3 then Err(Incomplete)
     else if u.exitCode != 0 && u.exitCode != 3 then Err(UploadFailed(u.exitCode))
     else if !u.summarised then Err(NoSummary)
     else Ok(u.id))
  }

  function Backup(repo: Repository, r: Request, a: Answers): (Repository, Result<Report, Failure>) {
    if a.probe.Unreachable? || (a.probe.Uninitialised? && !a.initOk) then (repo, Err(RepositoryUnavailable))
    else
      var enforced := Enforced(repo, r.keepMax, a);
      if enforced.1.Err? then (enforced.0, Err(enforced.1.error))
      else
        var uploaded := Uploaded(enforced.0, r.requireComplete, a.upload);
        (uploaded.0, if uploaded.1.Err? then Err(uploaded.1.error) else Ok(Report(uploaded.1.value, enforced.1.value)))
  }

  /** The job of a server backup: its effects on the repository, in order. */
  class BackupJob {
    var snapshots: Repository

    constructor (snapshots: Repository)
      ensures this.snapshots == snapshots
    {
      this.snapshots := snapshots;
    }

    method EnforceLimit(keepMax: int, a: Answers) returns (r: Result<seq<string>, Failure>)
      modifies this
      ensures (snapshots, r) == Enforced(old(snapshots), keepMax, a)
    {
      if keepMax <= 0 {
        return Ok([]);
      }
      if a.listing.None? {
        return Err(ListingFailed);
      }
      var doomed := SnapshotsToForget(a.listing.value, keepMax);
      if |doomed| == 0 {
        return Ok([]);
      }
      if !a.forgetOk {
        snapshots := snapshots - a.forgetRemoved;
        return Err(CouldNotForget);
      }
      snapshots := snapshots - Ids(doomed);
      r := Ok(IdList(doomed));
    }

    method RunBackup(requireComplete: bool, u: Upload) returns (r: Result<string, Failure>)
      modifies this
      ensures (snapshots, r) == Uploaded(old(snapshots), requireComplete, u)
    {
      if u.wrote {
        snapshots := snapshots[u.id := u.time];
      }
      if u.timedOut {
        return Err(TimedOut);
      }
      if requireComplete && u.exitCode == 3 {
        return Err(Incomplete);
      }
      if u.exitCode != 0 && u.exitCode != 3 {
        return Err(UploadFailed(u.exitCode));
      }
      if !u.summarised {
        return Err(NoSummary);
      }
      r := Ok(u.id);
    }

    method ServerBackup(request: Request, a: Answers) returns (r: Result<Report, Failure>)
      modifies this
      ensures (snapshots, r) == Backup(old(snapshots), request, a)
      ensures Possible(old(snapshots), request, a) && request.keepMax >= 1 && r.Ok? ==>
                (|snapshots| <= request.keepMax <==> !Overlooks(old(snapshots), request, a))
      ensures r.Ok? <==>
                && (a.probe.Exists? || (a.probe.Uninitialised? && a.initOk))
                && (request.keepMax <= 0 || (a.listing.Some? && (a.forgetOk || |a.listing.value| < request.keepMax)))
                && !a.upload.timedOut && a.upload.summarised
                && (a.upload.exitCode == 0 || (a.upload.exitCode == 3 && !request.requireComplete))
      ensures r.Ok? ==> r.value.snapshotId == a.upload.id
    {
      SucceedsExactlyWhen(snapshots, request, a);
      if a.probe.Unreachable? || (a.probe.Uninitialised? && !a.initOk) {
        return Err(RepositoryUnavailable);
      }
      var forgotten := EnforceLimit(request.keepMax, a);
      if forgotten.Err? {
        return Err(forgotten.error);
      }
      var summary := RunBackup(request.requireComplete, a.upload);
      if summary.Err? {
        return Err(summary.error);
      }
      r := Ok(Report(summary.value, forgotten.value));
      if Possible(old(snapshots), request, a) && request.keepMax >= 1 {
        QuotaHolds(old(snapshots), request, a);
      }
    }
  }

  // ----- what one run does to the repository -----

  lemma IdListIds(snapshots: seq<Snapshot>)
    ensures forall id :: id in IdList(snapshots) <==> id in Ids(snapshots)
    ensures |IdList(snapshots)| == |snapshots|
  {
    var ids := IdList(snapshots);
    forall id
      ensures id in ids <==> id in Ids(snapshots)
    {
      if id in Ids(snapshots) {
        var k :| 0 <= k < |snapshots| && snapshots[k].id == id;
        assert ids[k] == id;
      }
    }
  }

  lemma NothingDoomed(repo: Repository)
    ensures repo - Ids([]) == repo && IdList([]) == []
  {
    assert Ids([]) == {};
  }

  lemma ReportedAreGone(repo: Repository, doomed: seq<Snapshot>)
    requires Ids(doomed) <= repo.Keys
    ensures forall id :: id in IdList(doomed) <==> id in repo && id !in repo - Ids(doomed)
  {
    hide IdList, Ids;
    IdListIds(doomed);
  }

  lemma EnforceMeaning(repo: Repository, r: Request, a: Answers)
    requires Possible(repo, r, a) && r.keepMax >= 1
    ensures var e := Enforced(repo, r.keepMax, a);
            && e.0.Keys <= repo.Keys && (forall id :: id in e.0 ==> e.0[id] == repo[id])
            && |e.0| <= |repo|
            && (e.1.Ok? ==> a.listing.Some? && |a.listing.value| <= |repo|)
            && (e.1.Ok? ==> var n := |a.listing.value|; |e.0| == |repo| - n + (if n < r.keepMax then n else r.keepMax - 1))
            && (e.1.Ok? ==> forall id :: id in e.1.value <==> id in repo && id !in e.0)
            && (e.1.Ok? ==> forall gone, kept :: gone in repo && gone !in e.0 && kept in Ids(a.listing.value) && kept in e.0 ==>
                  repo[gone] <= repo[kept])
  {
    if a.listing.Some? {
      var doomed := SnapshotsToForget(a.listing.value, r.keepMax);
      ForgetsTheOldestListed(a.listing.value, repo, r.keepMax);
      hide SnapshotsToForget, IsPartOf, Ids;
      if doomed == [] {
        NothingDoomed(repo);
      } else if !a.forgetOk {
        RemoveKeys(repo, a.forgetRemoved);
      }
      ReportedAreGone(repo, doomed);
      hide IdList;
    }
  }

  /** A run stops before the upload, or is the enforcement followed by the upload. */
  lemma RunParts(repo: Repository, r: Request, a: Answers)
    ensures var (after, result) := Backup(repo, r, a);
            var e := Enforced(repo, r.keepMax, a);
            var u := Uploaded(e.0, r.requireComplete, a.upload);
            || (result.Err? && (after == repo || after == e.0))
            || (e.1.Ok? && after == u.0 && result.Ok? == u.1.Ok? &&
                (result.Ok? ==> result.value == Report(u.1.value, e.1.value)))
  {
  }

  /** The listing left snapshots out of a repository that was full. */
  ghost predicate Overlooks(repo: Repository, r: Request, a: Answers) {
    a.listing.Some? && |a.listing.value| < |repo| && r.keepMax <= |repo|
  }

  /**
   One run under a limit. A success leaves what the listing left out, and beside it
   no more than the limit; so it meets the limit exactly when nothing was left out
   of a full repository. However the run ends, the count does not exceed the larger
   of what it was and the limit, but by the one snapshot of such a run.
   */
  lemma QuotaHolds(repo: Repository, r: Request, a: Answers)
    requires Possible(repo, r, a) && r.keepMax >= 1
    ensures var (after, result) := Backup(repo, r, a);
            && |after| <= (if |repo| < r.keepMax then r.keepMax else |repo|) + (if Overlooks(repo, r, a) then 1 else 0)
            && (result.Ok? ==> a.listing.Some? && |a.listing.value| <= |repo|)
            && (result.Ok? ==> var n := |a.listing.value|; |after| == |repo| - n + (if n < r.keepMax then n + 1 else r.keepMax))
            && (result.Ok? ==> (|after| <= r.keepMax <==> !Overlooks(repo, r, a)))
  {
    RunParts(repo, r, a);
    EnforceMeaning(repo, r, a);
    UploadMeaning(Enforced(repo, r.keepMax, a).0, repo, r.requireComplete, a.upload);
    hide Enforced, Uploaded, Backup, SnapshotsToForget, IsPartOf, Ids;
  }

  /**
   The code reads a listing it cannot parse, or whose output was lost, as an empty
   one. Then nothing is forgotten, and the backup of a full repository goes ahead.
   */
  lemma UnreadListingBreaksQuota(repo: Repository, keepMax: int, id: string, time: int)
    requires 1 <= keepMax <= |repo| && id !in repo
    ensures var r := Request(keepMax, false);
            var a := Answers(Exists, true, Some([]), true, {}, Upload(id, time, true, 0, false, true));
            && Possible(repo, r, a)
            && Backup(repo, r, a) == (repo[id := time], Ok(Report(id, [])))
            && |Backup(repo, r, a).0| == |repo| + 1 > keepMax
  {
    AddOne(repo, id, time);
    SortByIsSorted([], Time);
  }

  /**
   What a success reports forgotten is exactly what is gone, none of it newer
   than a listed snapshot that stayed, and nothing but the reported snapshot is
   new. No run changes a snapshot it keeps.
   */
  lemma ForgottenIsExact(repo: Repository, r: Request, a: Answers)
    requires Possible(repo, r, a) && r.keepMax >= 1
    ensures var (after, result) := Backup(repo, r, a);
            && (result.Ok? ==> forall id :: id in result.value.forgotten <==> id in repo && id !in after)
            && (result.Ok? ==> a.listing.Some? && Ids(a.listing.value) <= repo.Keys)
            && (result.Ok? ==> forall gone, kept :: gone in repo && gone !in after && kept in Ids(a.listing.value) && kept in after ==>
                  repo[gone] <= repo[kept])
            && (result.Ok? ==> after.Keys - repo.Keys == {result.value.snapshotId})
            && (forall id :: id in after && id in repo ==> after[id] == repo[id])
  {
    RunParts(repo, r, a);
    EnforceMeaning(repo, r, a);
    UploadMeaning(Enforced(repo, r.keepMax, a).0, repo, r.requireComplete, a.upload);
    hide Enforced, Uploaded, Backup, SnapshotsToForget, Possible, Ids;
  }

  /** An upload adds at most its own snapshot, and a success has added it. */
  lemma UploadMeaning(left: Repository, repo: Repository, requireComplete: bool, u: Upload)
    requires left.Keys <= repo.Keys && (u.wrote ==> u.id !in repo)
    requires u.summarised && u.exitCode in {0, 3} && !u.timedOut ==> u.wrote
    ensures var (after, result) := Uploaded(left, requireComplete, u);
            && |after| <= |left| + 1 && (result.Ok? ==> |after| == |left| + 1)
            && (forall id :: id in repo ==> (id in after <==> id in left))
            && (forall id :: id in left ==> id in after && after[id] == left[id])
            && (result.Ok? ==> after.Keys - repo.Keys == {result.value})
  {
    if u.wrote {
      AddOne(left, u.id, u.time);
    }
  }

  lemma AddOne(repo: Repository, id: string, time: int)
    requires id !in repo
    ensures |repo[id := time]| == |repo| + 1
  {
    assert repo[id := time].Keys == repo.Keys + {id};
    assert |repo[id := time].Keys| == |repo.Keys| + 1;
  }

  /** Without a limit nothing is ever removed. */
  lemma UnlimitedRemovesNothing(repo: Repository, r: Request, a: Answers)
    requires Possible(repo, r, a) && r.keepMax <= 0
    ensures var (after, result) := Backup(repo, r, a);
            && repo.Keys <= after.Keys && (forall id :: id in repo ==> after[id] == repo[id])
            && (result.Ok? ==> result.value.forgotten == [])
  {
  }

  // ----- how a run ends -----

  predicate Reachable(a: Answers) {
    a.probe.Exists? || (a.probe.Uninitialised? && a.initOk)
  }

  /** There is room for one more: no limit, nothing over it in the listing, or what was over it is removed. */
  predicate MakesRoom(r: Request, a: Answers) {
    r.keepMax <= 0 || (a.listing.Some? && (|a.listing.value| < r.keepMax || a.forgetOk))
  }

  lemma SomethingToForget(listed: seq<Snapshot>, keepMax: int)
    requires keepMax >= 1
    ensures SnapshotsToForget(listed, keepMax) == [] <==> |listed| < keepMax
  {
    SortByIsSorted(listed, Time);
    assert |multiset(SortBy(listed, Time))| == |multiset(listed)|;
  }

  /**
   A run succeeds exactly when the repository can be used, there is room, and the
   upload was finished, whole where that is asked for, and summarised.
   */
  lemma SucceedsExactlyWhen(repo: Repository, r: Request, a: Answers)
    ensures var (_, result) := Backup(repo, r, a);
            && (result.Ok? <==>
                  && (a.probe.Exists? || (a.probe.Uninitialised? && a.initOk))
                  && (r.keepMax <= 0 || (a.listing.Some? && (a.forgetOk || |a.listing.value| < r.keepMax)))
                  && !a.upload.timedOut && a.upload.summarised
                  && (a.upload.exitCode == 0 || (a.upload.exitCode == 3 && !r.requireComplete)))
            && (result.Ok? ==> result.value.snapshotId == a.upload.id)
  {
    if a.listing.Some? && r.keepMax >= 1 {
      SomethingToForget(a.listing.value, r.keepMax);
    }
    hide SnapshotsToForget;
  }

  /** A failure names the first thing that went wrong, in the order in which the run goes. */
  lemma FailureNamesTheFirst(repo: Repository, r: Request, a: Answers)
    ensures var (_, result) := Backup(repo, r, a);
            var u := a.upload;
            result.Err? ==> match result.error
              case RepositoryUnavailable => !Reachable(a)
              case ListingFailed => Reachable(a) && r.keepMax > 0 && a.listing.None?
              case CouldNotForget =>
                Reachable(a) && r.keepMax > 0 && a.listing.Some? && |a.listing.value| >= r.keepMax && !a.forgetOk
              case TimedOut => Reachable(a) && MakesRoom(r, a) && u.timedOut
              case Incomplete => Reachable(a) && MakesRoom(r, a) && !u.timedOut && u.exitCode == 3 && r.requireComplete
              case UploadFailed(code) =>
                Reachable(a) && MakesRoom(r, a) && !u.timedOut && code == u.exitCode && code !in {0, 3}
              case NoSummary =>
                && Reachable(a) && MakesRoom(r, a) && !u.timedOut && !u.summarised
                && (u.exitCode == 0 || (u.exitCode == 3 && !r.requireComplete))
  {
    if a.listing.Some? && r.keepMax >= 1 {
      SomethingToForget(a.listing.value, r.keepMax);
    }
    hide SnapshotsToForget;
  }

  /**
   The repository gains the upload exactly when the run gets as far as writing it, and
   loses what a listing over the limit names oldest, or what a failing removal took.
   */
  lemma RunChangesExactly(repo: Repository, r: Request, a: Answers)
    requires Possible(repo, r, a)
    ensures var after := Backup(repo, r, a).0;
            var wrote := Reachable(a) && MakesRoom(r, a) && a.upload.wrote;
            && (a.upload.id !in repo ==> (a.upload.id in after <==> wrote))
            && (wrote ==> after[a.upload.id] == a.upload.time)
            && (!Reachable(a) || r.keepMax <= 0 || a.listing.None? ==> repo.Keys <= after.Keys)
            && (Reachable(a) && !MakesRoom(r, a) && a.listing.Some? ==> after == repo - a.forgetRemoved)
            && (forall id :: id in after && id !in repo ==> wrote && id == a.upload.id)
  {
    if a.listing.Some? && r.keepMax >= 1 {
      SomethingToForget(a.listing.value, r.keepMax);
    }
    hide SnapshotsToForget, IsPartOf, Ids;
  }

  // ----- any sequence of runs -----

  datatype Attempt = Attempt(request: Request, answers: Answers)

  /** The repository after each of the attempts. */
  ghost predicate History(repos: seq<Repository>, attempts: seq<Attempt>) {
    && |repos| == |attempts| + 1
    && forall i :: 0 <= i < |attempts| ==>
         && Possible(repos[i], attempts[i].request, attempts[i].answers)
         && repos[i + 1] == Backup(repos[i], attempts[i].request, attempts[i].answers).0
  }

  /** How many of the first `i` attempts overlooked a snapshot of a full repository. */
  ghost function Oversights(repos: seq<Repository>, attempts: seq<Attempt>, i: nat): nat
    requires |repos| == |attempts| + 1 && i <= |attempts|
  {
    if i == 0 then 0
    else
      Oversights(repos, attempts, i - 1)
      + if Overlooks(repos[i - 1], attempts[i - 1].request, attempts[i - 1].answers) then 1 else 0
  }

  /**
   Over any runs, successful or not, each with a limit of its own, the count exceeds
   its start and the largest limit by no more than the number of oversights.
   */
  lemma {:induction false} QuotaOverRuns(repos: seq<Repository>, attempts: seq<Attempt>, limit: int, i: nat)
    requires History(repos, attempts) && i < |repos|
    requires forall k :: 0 <= k < |attempts| ==> 1 <= attempts[k].request.keepMax <= limit
    ensures |repos[i]| <= (if |repos[0]| < limit then limit else |repos[0]|) + Oversights(repos, attempts, i)
  {
    hide Backup, Possible, Overlooks;
    if i > 0 {
      QuotaOverRuns(repos, attempts, limit, i - 1);
      QuotaHolds(repos[i - 1], attempts[i - 1].request, attempts[i - 1].answers);
    }
  }
}
