/**
 * The activate phase: `ACTIVATE_SCRIPT` (`apply_updates` and `main`) in
 * app/src/migrations/m2025_12.rs. It stops the managed services, moves each
 * staged binary into the install directory (keeping a `.bak` of the one it
 * replaces), promotes pending to current in the state file, resets
 * `notify_after`, restarts the services and removes the trigger file.
 * Service stops and starts are recorded as events, not performed.
 */
module Activation {
  import opened Wrappers
  import opened Strings
  import opened StateStore
  import Updater

  /** `MANAGED_SERVICES`. */
  const ManagedServices: seq<string> := ["amaru-pi.service", "amaru.service"]

  /** The externally visible steps of an activation, in the order they happen. */
  datatype Event = Stop(service: string) | Backup(app: string) | Install(app: string) | Save | Start(service: string)

  function StopEvents(services: seq<string>): (r: seq<Event>)
    ensures |r| == |services| && forall i :: 0 <= i < |services| ==> r[i] == Stop(services[i])
  {
    seq(|services|, i requires 0 <= i < |services| => Stop(services[i]))
  }

  function StartEvents(services: seq<string>): (r: seq<Event>)
    ensures |r| == |services| && forall i :: 0 <= i < |services| ==> r[i] == Start(services[i])
  {
    seq(|services|, i requires 0 <= i < |services| => Start(services[i]))
  }

  /** The record after promotion: pending becomes current and the pending fields are cleared. */
  function Promote(r: BinaryRecord): (p: BinaryRecord)
    ensures p.currentVersion == r.pendingVersion && p.currentSource == r.pendingSource
    ensures p.pendingVersion == "" && p.pendingSource == "" && p.stagedPath == ""
  {
    BinaryRecord(r.pendingVersion, r.pendingSource, "", "", "")
  }

  /** `[ -n "$pending_ver" ] && [ -f "$staged" ]`, decided on the files as they are when the app's turn comes. */
  predicate Applies(r: BinaryRecord, fs: FileSystem) {
    r.pendingVersion != "" && IsFile(fs, r.stagedPath)
  }

  /**
   * The activation loop's variables: `new_state_json`'s applications, the
   * files, the events so far, and whether a failing `mv` has ended the script.
   */
  datatype Progress = Progress(apps: map<string, BinaryRecord>, files: FileSystem, events: seq<Event>, failed: bool)

  /**
   * One turn of the loop over application keys. The decision reads the
   * loaded snapshot; the promotion is written into the accumulated state.
   * A staged path equal to the install path is gone after the backup, so the
   * install `mv` fails and the script exits.
   */
  function ApplyOne(snap: UpdateState, p: Progress, app: string): (q: Progress)
    requires app in snap.apps
    ensures !Applies(snap.apps[app], p.files) ==> q == p
    ensures q.failed ==> p.failed || snap.apps[app].stagedPath == BinPath(app)
  {
    var r := snap.apps[app];
    if !Applies(r, p.files) then p
    else
      var backedUp := BinPath(app) in p.files;
      var files1 := if backedUp then Move(p.files, BinPath(app), BakPath(app)) else p.files;
      var events1 := if backedUp then p.events + [Backup(app)] else p.events;
      if r.stagedPath == BinPath(app) then Progress(p.apps, files1, events1, true)
      else
        var files2 := Move(files1, r.stagedPath, BinPath(app));
        Progress(p.apps[app := Promote(r)],
                 files2[BinPath(app) := files2[BinPath(app)].(executable := true)],
                 events1 + [Install(app)],
                 false)
  }

  /** The loop over `keys`, ending early once an `mv` has failed. */
  function ApplyList(snap: UpdateState, p: Progress, keys: seq<string>): (q: Progress)
    requires forall k :: k in keys ==> k in snap.apps
    ensures q.failed ==> p.failed || exists k :: k in keys && snap.apps[k].stagedPath == BinPath(k)
    decreases |keys|
  {
    if keys == [] || p.failed then p else ApplyList(snap, ApplyOne(snap, p, keys[0]), keys[1..])
  }

  /** `jq -r '.applications | keys[]'`: every key of the snapshot once, in code-point order. */
  predicate KeyOrder(order: seq<string>, apps: map<string, BinaryRecord>) {
    && (forall i, j :: 0 <= i < j < |order| ==> LexLess(order[i], order[j]))
    && (forall k :: k in order ==> k in apps)
    && (forall k :: k in apps ==> k in order)
  }

  /** What an activation leaves: the state file written (None if the script exited first), the files and the events. */
  datatype ActivationResult = ActivationResult(saved: Option<UpdateState>, files: FileSystem, trace: seq<Event>)

  /** `main` of the activate script, from the loaded snapshot and the files. */
  function Activate(snap: UpdateState, fs: FileSystem, order: seq<string>): (r: ActivationResult)
    requires KeyOrder(order, snap.apps)
    ensures r.saved.None? ==> exists k :: k in snap.apps && snap.apps[k].stagedPath == BinPath(k)
    ensures r.saved.Some? ==> r.saved.value.notifyAfter == 0 && TriggerFile !in r.files
  {
    var p := ApplyList(snap, Progress(snap.apps, fs, StopEvents(ManagedServices), false), order);
    if p.failed then ActivationResult(None, p.files, p.events)
    else ActivationResult(Some(UpdateState(0, p.apps)), p.files - {TriggerFile},
                          p.events + [Save] + StartEvents(ManagedServices))
  }

  /** `apply_updates` followed by the removal of the trigger file. */
  method ActivateUpdates(snap: UpdateState, fs0: FileSystem, order: seq<string>)
    returns (saved: Option<UpdateState>, fs: FileSystem, trace: seq<Event>)
    requires KeyOrder(order, snap.apps)
    ensures ActivationResult(saved, fs, trace) == Activate(snap, fs0, order)
  {
    trace := [];
    for s := 0 to |ManagedServices|
      invariant trace == StopEvents(ManagedServices[..s])
    {
      trace := trace + [Stop(ManagedServices[s])];
    }
    assert ManagedServices[..|ManagedServices|] == ManagedServices;
    ghost var total := ApplyList(snap, Progress(snap.apps, fs0, trace, false), order);
    var newApps := snap.apps;
    fs := fs0;
    var failed := false;
    var i := 0;
    while i < |order| && !failed
      invariant i <= |order|
      invariant ApplyList(snap, Progress(newApps, fs, trace, failed), order[i..]) == total
    {
      ghost var before := Progress(newApps, fs, trace, failed);
      assert order[i..][1..] == order[i + 1..];
      assert ApplyList(snap, before, order[i..]) == ApplyList(snap, ApplyOne(snap, before, order[i]), order[i + 1..]);
      newApps, fs, trace, failed := UpdateApp(snap, order[i], newApps, fs, trace);
      i := i + 1;
    }
    if failed {
      saved := None;
      return;
    }
    saved := Some(UpdateState(0, newApps));
    trace := trace + [Save];
    for s := 0 to |ManagedServices|
      invariant trace == total.events + [Save] + StartEvents(ManagedServices[..s])
    {
      trace := trace + [Start(ManagedServices[s])];
    }
    assert ManagedServices[..|ManagedServices|] == ManagedServices;
    fs := fs - {TriggerFile};
  }

  /** The body of the loop over application keys in `apply_updates`, for `app`. */
  method UpdateApp(snap: UpdateState, app: string, apps0: map<string, BinaryRecord>, fs0: FileSystem, trace0: seq<Event>)
    returns (apps: map<string, BinaryRecord>, fs: FileSystem, trace: seq<Event>, failed: bool)
    requires app in snap.apps
    ensures Progress(apps, fs, trace, failed) == ApplyOne(snap, Progress(apps0, fs0, trace0, false), app)
  {
    apps, fs, trace, failed := apps0, fs0, trace0, false;
    var r := snap.apps[app];
    if r.pendingVersion != "" && IsFile(fs, r.stagedPath) {
      if BinPath(app) in fs {
        fs := Move(fs, BinPath(app), BakPath(app));
        trace := trace + [Backup(app)];
      }
      if r.stagedPath == BinPath(app) {
        failed := true;
      } else {
        fs := Move(fs, r.stagedPath, BinPath(app));
        fs := fs[BinPath(app) := fs[BinPath(app)].(executable := true)];
        trace := trace + [Install(app)];
        apps := apps[app := Promote(r)];
      }
    }
  }

  // ---------------------------------------------------------------------
  // The shape of the activation loop

  /** The loop only rewrites records of keys it visits, and never adds a key the accumulated state lacks. */
  lemma {:induction false} ApplyListAppsFrame(snap: UpdateState, p: Progress, keys: seq<string>, a: string)
    requires forall k :: k in keys ==> k in snap.apps
    requires forall k :: k in keys ==> k in p.apps
    ensures ApplyList(snap, p, keys).apps.Keys == p.apps.Keys
    ensures a !in keys && a in p.apps ==> ApplyList(snap, p, keys).apps[a] == p.apps[a]
    decreases |keys|
  {
    if keys != [] && !p.failed {
      ApplyListAppsFrame(snap, ApplyOne(snap, p, keys[0]), keys[1..], a);
    }
  }

  /** Whether the turn of app `k` (record `r`) may touch `path`: its install path, its backup path, and its staged file if it has a pending version. */
  predicate Untouched(k: string, r: BinaryRecord, path: string) {
    path != BinPath(k) && path != BakPath(k) && (r.pendingVersion == "" || path != r.stagedPath)
  }

  /** A path no visited app may touch keeps its file. */
  lemma {:induction false} ApplyListFilesFrame(snap: UpdateState, p: Progress, keys: seq<string>, path: string)
    requires forall k :: k in keys ==> k in snap.apps
    requires forall k :: k in keys ==> Untouched(k, snap.apps[k], path)
    ensures SameAt(p.files, ApplyList(snap, p, keys).files, path)
    decreases |keys|
  {
    if keys != [] && !p.failed {
      assert Untouched(keys[0], snap.apps[keys[0]], path);
      ApplyListFilesFrame(snap, ApplyOne(snap, p, keys[0]), keys[1..], path);
    }
  }

  /** The loop only appends, and only `Backup` and `Install` events. */
  lemma {:induction false} ApplyListEvents(snap: UpdateState, p: Progress, keys: seq<string>)
    requires forall k :: k in keys ==> k in snap.apps
    ensures var q := ApplyList(snap, p, keys);
      && |p.events| <= |q.events| && q.events[..|p.events|] == p.events
      && forall i :: |p.events| <= i < |q.events| ==> q.events[i].Backup? || q.events[i].Install?
    decreases |keys|
  {
    if keys != [] && !p.failed {
      var p1 := ApplyOne(snap, p, keys[0]);
      ApplyListEvents(snap, p1, keys[1..]);
      var q := ApplyList(snap, p, keys);
      assert q == ApplyList(snap, p1, keys[1..]);
      assert p1.events[..|p.events|] == p.events;
      assert q.events[..|p1.events|][..|p.events|] == q.events[..|p.events|];
    }
  }

  /**
   * The trace of an activation: both services are stopped first; then come
   * only backups and installs; on success the state is saved once and the
   * services are started, on failure nothing is saved or started.
   */
  lemma ActivationTrace(snap: UpdateState, fs: FileSystem, order: seq<string>)
    requires KeyOrder(order, snap.apps)
    ensures var r := Activate(snap, fs, order); var n := |ManagedServices|;
      && |r.trace| >= n
      && r.trace[..n] == StopEvents(ManagedServices)
      && (r.saved.Some? ==>
            && |r.trace| >= 2 * n + 1
            && r.trace[|r.trace| - n - 1] == Save
            && r.trace[|r.trace| - n..] == StartEvents(ManagedServices)
            && forall i :: n <= i < |r.trace| - n - 1 ==> r.trace[i].Backup? || r.trace[i].Install?)
      && (r.saved.None? ==> forall i :: n <= i < |r.trace| ==> r.trace[i].Backup? || r.trace[i].Install?)
  {
    var p0 := Progress(snap.apps, fs, StopEvents(ManagedServices), false);
    ApplyListEvents(snap, p0, order);
    var p := ApplyList(snap, p0, order);
    var r := Activate(snap, fs, order);
    if !p.failed {
      assert r.trace == p.events + [Save] + StartEvents(ManagedServices);
      assert r.trace[..|p.events|] == p.events;
      assert r.trace[..|p.events|][..2] == r.trace[..2];
    }
  }

  /** Keys listed in code-point order are listed once each. */
  lemma SortedDistinct(order: seq<string>)
    requires forall i, j :: 0 <= i < j < |order| ==> LexLess(order[i], order[j])
    ensures forall i, j :: 0 <= i < j < |order| ==> order[i] != order[j]
  {
    forall i, j | 0 <= i < j < |order|
      ensures order[i] != order[j]
    {
      LexLessIrreflexive(order[i]);
    }
  }

  // ---------------------------------------------------------------------
  // Nothing pending

  lemma {:induction false} ApplyListNothingPending(snap: UpdateState, p: Progress, keys: seq<string>)
    requires forall k :: k in keys ==> k in snap.apps && snap.apps[k].pendingVersion == ""
    ensures ApplyList(snap, p, keys) == p
    decreases |keys|
  {
    if keys != [] && !p.failed {
      ApplyListNothingPending(snap, p, keys[1..]);
    }
  }

  /** With nothing pending, activation touches no binary: it only resets `notify_after`, removes the trigger file and restarts the services. */
  lemma ActivateNothingPending(snap: UpdateState, fs: FileSystem, order: seq<string>)
    requires KeyOrder(order, snap.apps)
    requires forall a :: a in snap.apps ==> snap.apps[a].pendingVersion == ""
    ensures Activate(snap, fs, order)
         == ActivationResult(Some(UpdateState(0, snap.apps)), fs - {TriggerFile},
                             StopEvents(ManagedServices) + [Save] + StartEvents(ManagedServices))
  {
    ApplyListNothingPending(snap, Progress(snap.apps, fs, StopEvents(ManagedServices), false), order);
  }

  // ---------------------------------------------------------------------
  // Activation of well-staged updates

  /** App `k`'s pending version, if any, has its file at its own staging path in `fs`. */
  predicate StagedReady(k: string, r: BinaryRecord, fs: FileSystem) {
    r.pendingVersion != "" ==> r.stagedPath == StagingPath(k) && StagingPath(k) in fs
  }

  /**
   * What activation has done for app `k`, whose snapshot record is `r`, going
   * from files `before` to state `apps` and files `after`: with nothing
   * pending the record and its install and backup paths are as they were;
   * otherwise the record is promoted, the staged file is installed with its
   * execute bit set and no longer staged, and any previous install is now
   * the backup.
   */
  ghost predicate ActivatedApp(k: string, r: BinaryRecord, before: FileSystem,
                               apps: map<string, BinaryRecord>, after: FileSystem) {
    && k in apps
    && if r.pendingVersion == "" then
         apps[k] == r && SameAt(before, after, BinPath(k)) && SameAt(before, after, BakPath(k))
       else
         && apps[k] == Promote(r)
         && StagingPath(k) in before && StagingPath(k) !in after
         && BinPath(k) in after && after[BinPath(k)] == before[StagingPath(k)].(executable := true)
         && (if BinPath(k) in before then BakPath(k) in after && after[BakPath(k)] == before[BinPath(k)]
             else SameAt(before, after, BakPath(k)))
  }

  lemma ApplyOneStaged(snap: UpdateState, p: Progress, k: string)
    requires k in snap.apps && !p.failed && k in p.apps && p.apps[k] == snap.apps[k]
    requires StagedReady(k, snap.apps[k], p.files)
    ensures var q := ApplyOne(snap, p, k);
      && !q.failed
      && q.apps == p.apps[k := if snap.apps[k].pendingVersion == "" then p.apps[k] else Promote(snap.apps[k])]
      && ActivatedApp(k, snap.apps[k], p.files, q.apps, q.files)
      && forall path :: Untouched(k, snap.apps[k], path) ==> SameAt(p.files, q.files, path)
  {
    StagingIsNotInstalled(k, k);
  }

  lemma {:induction false} ApplyListStaged(snap: UpdateState, p: Progress, keys: seq<string>)
    requires forall k :: k in keys ==> k in snap.apps
    requires forall i, j :: 0 <= i < j < |keys| ==> keys[i] != keys[j]
    requires NoBackupClash(snap.apps)
    requires !p.failed
    requires forall k :: k in keys ==> k in p.apps && p.apps[k] == snap.apps[k]
    requires forall k :: k in keys ==> StagedReady(k, snap.apps[k], p.files)
    ensures var q := ApplyList(snap, p, keys);
      && !q.failed
      && forall k :: k in keys ==> ActivatedApp(k, snap.apps[k], p.files, q.apps, q.files)
    decreases |keys|
  {
    if keys != [] {
      var k := keys[0];
      var rest := keys[1..];
      var p1 := ApplyOne(snap, p, k);
      ApplyOneStaged(snap, p, k);
      assert p1.apps[k] == (if snap.apps[k].pendingVersion == "" then snap.apps[k] else Promote(snap.apps[k]));
      forall j | j in rest
        ensures j != k
        ensures Untouched(k, snap.apps[k], StagingPath(j)) && Untouched(k, snap.apps[k], BinPath(j))
        ensures Untouched(k, snap.apps[k], BakPath(j))
        ensures Untouched(j, snap.apps[j], StagingPath(k)) && Untouched(j, snap.apps[j], BinPath(k))
        ensures Untouched(j, snap.apps[j], BakPath(k))
      {
        var idx :| 0 <= idx < |rest| && rest[idx] == j;
        assert keys[1 + idx] == j;
        assert j in snap.apps && k in snap.apps;
        assert j != k + ".bak" && k != j + ".bak";
        AppPathsDisjoint(j, k);
        StagingIsNotInstalled(j, k);
        StagingIsNotInstalled(k, j);
      }
      ApplyListStaged(snap, p1, rest);
      var q := ApplyList(snap, p1, rest);
      assert q == ApplyList(snap, p, keys);
      assert forall j :: j in rest ==> j in p1.apps;
      ApplyListAppsFrame(snap, p1, rest, k);
      ApplyListFilesFrame(snap, p1, rest, BinPath(k));
      ApplyListFilesFrame(snap, p1, rest, BakPath(k));
      ApplyListFilesFrame(snap, p1, rest, StagingPath(k));
      assert ActivatedApp(k, snap.apps[k], p.files, q.apps, q.files);
    }
  }

  /**
   * When the state file and the staging area agree and no app name is
   * another's backup name, activation succeeds: every app with a pending
   * version is promoted and installed from its staged file, a previous
   * install is kept as the backup, and apps with nothing pending keep their
   * record and their binaries. The state is saved with `notify_after` reset.
   */
  lemma ActivationInstallsStaged(snap: UpdateState, fs: FileSystem, order: seq<string>)
    requires KeyOrder(order, snap.apps)
    requires WellStaged(snap, fs)
    requires NoBackupClash(snap.apps)
    ensures var r := Activate(snap, fs, order);
      && r.saved.Some?
      && r.saved.value.notifyAfter == 0
      && r.saved.value.apps.Keys == snap.apps.Keys
      && TriggerFile !in r.files
      && forall a :: a in snap.apps ==> ActivatedApp(a, snap.apps[a], fs, r.saved.value.apps, r.files)
  {
    var p0 := Progress(snap.apps, fs, StopEvents(ManagedServices), false);
    SortedDistinct(order);
    assert forall k :: k in order ==> StagedReady(k, snap.apps[k], fs) by {
      forall k | k in order ensures StagedReady(k, snap.apps[k], fs) {
        assert StagedConsistent(k, snap.apps[k], fs);
      }
    }
    ApplyListStaged(snap, p0, order);
    ApplyListAppsFrame(snap, p0, order, "");
    var q := ApplyList(snap, p0, order);
    var r := Activate(snap, fs, order);
    assert r.saved == Some(UpdateState(0, q.apps)) && r.files == q.files - {TriggerFile};
    forall a | a in snap.apps
      ensures ActivatedApp(a, snap.apps[a], fs, r.saved.value.apps, r.files)
    {
      assert ActivatedApp(a, snap.apps[a], fs, q.apps, q.files);
      StagingIsNotInstalled(a, a);
    }
  }

  /** Files no app's turn may touch are left as they were, except the trigger file. */
  lemma ActivationFilesFrame(snap: UpdateState, fs: FileSystem, order: seq<string>, path: string)
    requires KeyOrder(order, snap.apps)
    requires path != TriggerFile
    requires forall a :: a in snap.apps ==> Untouched(a, snap.apps[a], path)
    ensures SameAt(fs, Activate(snap, fs, order).files, path)
  {
    ApplyListFilesFrame(snap, Progress(snap.apps, fs, StopEvents(ManagedServices), false), order, path);
  }

  /** A successful activation of a well-staged state leaves a state with nothing pending, itself well staged. */
  lemma ActivationClearsPending(snap: UpdateState, fs: FileSystem, order: seq<string>)
    requires KeyOrder(order, snap.apps)
    requires WellStaged(snap, fs)
    requires NoBackupClash(snap.apps)
    ensures var r := Activate(snap, fs, order);
      && r.saved.Some?
      && (forall a :: a in r.saved.value.apps ==> r.saved.value.apps[a].pendingVersion == "")
      && WellStaged(r.saved.value, r.files)
  {
    ActivationInstallsStaged(snap, fs, order);
  }

  /**
   * Activating again from what an activation left (the saved state and the
   * files) changes nothing but the trace: the services are stopped, the
   * state saved unchanged and the services started.
   */
  lemma ActivationTwice(snap: UpdateState, fs: FileSystem, order: seq<string>)
    requires KeyOrder(order, snap.apps)
    requires WellStaged(snap, fs)
    requires NoBackupClash(snap.apps)
    ensures var r := Activate(snap, fs, order);
      && r.saved.Some?
      && KeyOrder(order, r.saved.value.apps)
      && var r2 := Activate(r.saved.value, r.files, order);
         && r2.saved == r.saved
         && r2.files == r.files
         && r2.trace == StopEvents(ManagedServices) + [Save] + StartEvents(ManagedServices)
  {
    ActivationInstallsStaged(snap, fs, order);
    ActivationClearsPending(snap, fs, order);
    var r := Activate(snap, fs, order);
    ActivateNothingPending(r.saved.value, r.files, order);
    assert r.files - {TriggerFile} == r.files;
  }

  // ---------------------------------------------------------------------
  // Activation of any state the check script can write

  /** Every staged path is empty or the app's own staging path; the check script writes no other. */
  predicate StagedPathsShaped(apps: map<string, BinaryRecord>) {
    forall a :: a in apps ==> apps[a].stagedPath == "" || apps[a].stagedPath == StagingPath(a)
  }

  /** The events of app `a`'s turn, record `r`, on the files `fs` it finds: a backup if it was installed, then the install. */
  function TurnEvents(a: string, r: BinaryRecord, fs: FileSystem): (e: seq<Event>)
    ensures !Applies(r, fs) <==> e == []
    ensures Applies(r, fs) ==> e[|e| - 1] == Install(a) && (|e| == 2 <==> BinPath(a) in fs)
    ensures Applies(r, fs) && |e| == 2 ==> e[0] == Backup(a)
    ensures Applies(r, fs) ==> |e| == (if BinPath(a) in fs then 2 else 1)
  {
    if !Applies(r, fs) then [] else (if BinPath(a) in fs then [Backup(a)] else []) + [Install(a)]
  }

  /** The events of the turns of `keys`, in order, each judged on the files `fs`. */
  function TurnsEvents(snap: UpdateState, fs: FileSystem, keys: seq<string>): seq<Event>
    requires forall k :: k in keys ==> k in snap.apps
    decreases |keys|
  {
    if keys == [] then [] else TurnEvents(keys[0], snap.apps[keys[0]], fs) + TurnsEvents(snap, fs, keys[1..])
  }

  /** Only the staging and install paths of the visited keys decide their events. */
  lemma {:induction false} TurnsEventsFrame(snap: UpdateState, f1: FileSystem, f2: FileSystem, keys: seq<string>)
    requires forall k :: k in keys ==> k in snap.apps
    requires StagedPathsShaped(snap.apps)
    requires forall k :: k in keys ==> SameAt(f1, f2, StagingPath(k)) && SameAt(f1, f2, BinPath(k))
    ensures TurnsEvents(snap, f1, keys) == TurnsEvents(snap, f2, keys)
    decreases |keys|
  {
    if keys != [] {
      TurnsEventsFrame(snap, f1, f2, keys[1..]);
    }
  }

  lemma ApplyOneShaped(snap: UpdateState, p: Progress, k: string)
    requires k in snap.apps && !p.failed && k in p.apps && p.apps[k] == snap.apps[k]
    requires snap.apps[k].stagedPath == "" || snap.apps[k].stagedPath == StagingPath(k)
    ensures var q := ApplyOne(snap, p, k); var r := snap.apps[k];
      && !q.failed
      && q.apps == p.apps[k := if Applies(r, p.files) then Promote(r) else r]
      && q.events == p.events + TurnEvents(k, r, p.files)
      && forall path :: path != BinPath(k) && path != BakPath(k) && path != StagingPath(k) ==> SameAt(p.files, q.files, path)
  {
    StagingIsNotInstalled(k, k);
  }

  /** The turn of the first key leaves the staging and install paths of the later keys as they were. */
  lemma NextTurnsUntouched(snap: UpdateState, p: Progress, keys: seq<string>)
    requires keys != [] && forall k :: k in keys ==> k in snap.apps
    requires forall i, j :: 0 <= i < j < |keys| ==> keys[i] != keys[j]
    requires NoBackupClash(snap.apps) && StagedPathsShaped(snap.apps)
    requires !p.failed && keys[0] in p.apps && p.apps[keys[0]] == snap.apps[keys[0]]
    ensures var p1 := ApplyOne(snap, p, keys[0]);
      forall j :: j in keys[1..] ==>
        && j != keys[0]
        && SameAt(p.files, p1.files, StagingPath(j)) && SameAt(p.files, p1.files, BinPath(j))
  {
    var k := keys[0];
    var rest := keys[1..];
    var p1 := ApplyOne(snap, p, k);
    ApplyOneShaped(snap, p, k);
    forall j | j in rest
      ensures j != k
      ensures SameAt(p.files, p1.files, StagingPath(j)) && SameAt(p.files, p1.files, BinPath(j))
    {
      var idx :| 0 <= idx < |rest| && rest[idx] == j;
      assert keys[1 + idx] == j;
      assert j in snap.apps && k in snap.apps;
      assert j != k + ".bak" && k != j + ".bak";
      AppPathsDisjoint(j, k);
      StagingIsNotInstalled(j, k);
      StagingIsNotInstalled(k, j);
    }
  }

  lemma {:induction false} ApplyListShaped(snap: UpdateState, p: Progress, keys: seq<string>)
    requires forall k :: k in keys ==> k in snap.apps
    requires forall i, j :: 0 <= i < j < |keys| ==> keys[i] != keys[j]
    requires NoBackupClash(snap.apps) && StagedPathsShaped(snap.apps)
    requires !p.failed
    requires forall k :: k in keys ==> k in p.apps && p.apps[k] == snap.apps[k]
    ensures var q := ApplyList(snap, p, keys);
      && !q.failed
      && forall k :: k in keys ==>
           k in q.apps && q.apps[k] == if Applies(snap.apps[k], p.files) then Promote(snap.apps[k]) else snap.apps[k]
    decreases |keys|
  {
    if keys != [] {
      var k := keys[0];
      var rest := keys[1..];
      var p1 := ApplyOne(snap, p, k);
      ApplyOneShaped(snap, p, k);
      NextTurnsUntouched(snap, p, keys);
      ApplyListShaped(snap, p1, rest);
      var q := ApplyList(snap, p1, rest);
      assert q == ApplyList(snap, p, keys);
      assert forall j :: j in rest ==> j in p1.apps;
      ApplyListAppsFrame(snap, p1, rest, k);
      forall j | j in keys
        ensures j in q.apps && q.apps[j] == if Applies(snap.apps[j], p.files) then Promote(snap.apps[j]) else snap.apps[j]
      {
        if j != k {
          assert j in rest;
          assert Applies(snap.apps[j], p1.files) == Applies(snap.apps[j], p.files);
        }
      }
    }
  }

  /** After the first key's turn the remaining keys meet the loop's conditions again, on files that agree at their paths. */
  lemma NextTurnReady(snap: UpdateState, p: Progress, keys: seq<string>)
    requires keys != [] && forall k :: k in keys ==> k in snap.apps
    requires forall i, j :: 0 <= i < j < |keys| ==> keys[i] != keys[j]
    requires NoBackupClash(snap.apps) && StagedPathsShaped(snap.apps)
    requires !p.failed
    requires forall k :: k in keys ==> k in p.apps && p.apps[k] == snap.apps[k]
    ensures var p1 := ApplyOne(snap, p, keys[0]); var rest := keys[1..];
      && !p1.failed
      && ApplyList(snap, p, keys) == ApplyList(snap, p1, rest)
      && TurnsEvents(snap, p.files, keys) == TurnEvents(keys[0], snap.apps[keys[0]], p.files) + TurnsEvents(snap, p.files, rest)
      && p1.events == p.events + TurnEvents(keys[0], snap.apps[keys[0]], p.files)
      && (forall i, j :: 0 <= i < j < |rest| ==> rest[i] != rest[j])
      && (forall j :: j in rest ==> j in p1.apps && p1.apps[j] == snap.apps[j])
      && (forall j :: j in rest ==> SameAt(p.files, p1.files, StagingPath(j)) && SameAt(p.files, p1.files, BinPath(j)))
  {
    var rest := keys[1..];
    ApplyOneShaped(snap, p, keys[0]);
    NextTurnsUntouched(snap, p, keys);
    forall i, j | 0 <= i < j < |rest| ensures rest[i] != rest[j] {
      assert rest[i] == keys[i + 1] && rest[j] == keys[j + 1];
    }
  }

  /** The trace arithmetic of one induction step: the later turns' events extend the first turn's. */
  lemma EventsStep(total: seq<Event>, before: seq<Event>, mid: seq<Event>, first: seq<Event>, later: seq<Event>, all: seq<Event>)
    requires total == mid + later && mid == before + first && all == first + later
    ensures total == before + all
  {
    assert before + first + later == before + (first + later);
  }

  /** The loop's trace, under the same conditions: the events of each turn, in key order. */
  lemma {:induction false} ApplyListTurns(snap: UpdateState, p: Progress, keys: seq<string>)
    requires forall k :: k in keys ==> k in snap.apps
    requires forall i, j :: 0 <= i < j < |keys| ==> keys[i] != keys[j]
    requires NoBackupClash(snap.apps) && StagedPathsShaped(snap.apps)
    requires !p.failed
    requires forall k :: k in keys ==> k in p.apps && p.apps[k] == snap.apps[k]
    ensures ApplyList(snap, p, keys).events == p.events + TurnsEvents(snap, p.files, keys)
    decreases |keys|
  {
    if keys != [] {
      var k := keys[0];
      var rest := keys[1..];
      var p1 := ApplyOne(snap, p, k);
      NextTurnReady(snap, p, keys);
      ApplyListTurns(snap, p1, rest);
      TurnsEventsFrame(snap, p.files, p1.files, rest);
      EventsStep(ApplyList(snap, p, keys).events, p.events, p1.events,
                 TurnEvents(k, snap.apps[k], p.files), TurnsEvents(snap, p.files, rest), TurnsEvents(snap, p.files, keys));
    }
  }

  /**
   * What the turn of app `k` (record `r`) did to its own paths, going from
   * files `before` to `after`. If the turn applies, the staged file is gone
   * from its staging path and installed with its execute bit set, and a
   * previous install is now the backup (without one the backup path is as
   * it was). Otherwise the install, backup and staging paths are as they were.
   */
  predicate TurnFiles(k: string, r: BinaryRecord, before: FileSystem, after: FileSystem) {
    if Applies(r, before) then
      && StagingPath(k) in before && StagingPath(k) !in after
      && BinPath(k) in after && after[BinPath(k)] == before[StagingPath(k)].(executable := true)
      && (if BinPath(k) in before then BakPath(k) in after && after[BakPath(k)] == before[BinPath(k)]
          else SameAt(before, after, BakPath(k)))
    else
      SameAt(before, after, BinPath(k)) && SameAt(before, after, BakPath(k)) && SameAt(before, after, StagingPath(k))
  }

  lemma ApplyOneFiles(snap: UpdateState, p: Progress, k: string)
    requires k in snap.apps && !p.failed
    requires snap.apps[k].stagedPath == "" || snap.apps[k].stagedPath == StagingPath(k)
    ensures TurnFiles(k, snap.apps[k], p.files, ApplyOne(snap, p, k).files)
  {
    StagingIsNotInstalled(k, k);
  }

  /** A turn's effect on its own paths is decided by the files at those paths only. */
  lemma TurnFilesFrame(k: string, r: BinaryRecord, b1: FileSystem, b2: FileSystem, after: FileSystem)
    requires r.stagedPath == "" || r.stagedPath == StagingPath(k)
    requires SameAt(b1, b2, StagingPath(k)) && SameAt(b1, b2, BinPath(k)) && SameAt(b1, b2, BakPath(k))
    requires TurnFiles(k, r, b2, after)
    ensures TurnFiles(k, r, b1, after)
  {
  }

  /**
   * The first key's turn and the later ones keep out of each other's way:
   * the first leaves the three paths of every later key as they were, and
   * no later turn may touch the first key's three paths.
   */
  lemma FirstTurnApart(snap: UpdateState, p: Progress, keys: seq<string>)
    requires keys != [] && forall k :: k in keys ==> k in snap.apps
    requires forall i, j :: 0 <= i < j < |keys| ==> keys[i] != keys[j]
    requires NoBackupClash(snap.apps) && StagedPathsShaped(snap.apps)
    requires !p.failed && keys[0] in p.apps && p.apps[keys[0]] == snap.apps[keys[0]]
    ensures var k := keys[0]; var p1 := ApplyOne(snap, p, k);
      forall j :: j in keys[1..] ==>
        && SameAt(p.files, p1.files, StagingPath(j)) && SameAt(p.files, p1.files, BinPath(j))
        && SameAt(p.files, p1.files, BakPath(j))
        && Untouched(j, snap.apps[j], StagingPath(k)) && Untouched(j, snap.apps[j], BinPath(k))
        && Untouched(j, snap.apps[j], BakPath(k))
  {
    var k := keys[0];
    var rest := keys[1..];
    ApplyOneShaped(snap, p, k);
    forall j | j in rest
      ensures SameAt(p.files, ApplyOne(snap, p, k).files, StagingPath(j))
      ensures SameAt(p.files, ApplyOne(snap, p, k).files, BinPath(j))
      ensures SameAt(p.files, ApplyOne(snap, p, k).files, BakPath(j))
      ensures Untouched(j, snap.apps[j], StagingPath(k)) && Untouched(j, snap.apps[j], BinPath(k))
      ensures Untouched(j, snap.apps[j], BakPath(k))
    {
      var idx :| 0 <= idx < |rest| && rest[idx] == j;
      assert keys[1 + idx] == j;
      assert j in snap.apps && k in snap.apps;
      assert j != k + ".bak" && k != j + ".bak";
      AppPathsDisjoint(j, k);
      StagingIsNotInstalled(j, k);
      StagingIsNotInstalled(k, j);
      StagingIsNotInstalled(k, k);
    }
  }

  /** Under the conditions of `ApplyListTurns`, every visited key's paths end as its turn leaves them. */
  lemma {:induction false} ApplyListFiles(snap: UpdateState, p: Progress, keys: seq<string>)
    requires forall k :: k in keys ==> k in snap.apps
    requires forall i, j :: 0 <= i < j < |keys| ==> keys[i] != keys[j]
    requires NoBackupClash(snap.apps) && StagedPathsShaped(snap.apps)
    requires !p.failed
    requires forall k :: k in keys ==> k in p.apps && p.apps[k] == snap.apps[k]
    ensures forall k :: k in keys ==> TurnFiles(k, snap.apps[k], p.files, ApplyList(snap, p, keys).files)
    decreases |keys|
  {
    if keys != [] {
      var k := keys[0];
      var rest := keys[1..];
      var p1 := ApplyOne(snap, p, k);
      NextTurnReady(snap, p, keys);
      FirstTurnApart(snap, p, keys);
      ApplyOneFiles(snap, p, k);
      ApplyListFiles(snap, p1, rest);
      var q := ApplyList(snap, p1, rest);
      ApplyListFilesFrame(snap, p1, rest, StagingPath(k));
      ApplyListFilesFrame(snap, p1, rest, BinPath(k));
      ApplyListFilesFrame(snap, p1, rest, BakPath(k));
      forall j | j in keys
        ensures TurnFiles(j, snap.apps[j], p.files, q.files)
      {
        if j == k {
          TurnFilesFrame(k, snap.apps[k], p1.files, q.files, q.files);
          assert TurnFiles(k, snap.apps[k], p.files, p1.files);
        } else {
          assert j in rest;
          TurnFilesFrame(j, snap.apps[j], p.files, p1.files, q.files);
        }
      }
    }
  }

  /**
   * Activation of any state whose staged paths are the ones the check
   * script writes, with no app name another's backup name. The run
   * succeeds and saves a state with `notify_after` 0 and the same apps.
   * Each app whose pending version is set and whose staged file exists is
   * promoted; every other record is kept as it is, a pending version with
   * no staged file included. The trace is the stops, then in key order each
   * applied app's backup (when it was installed) and install, then the save
   * and the starts.
   */
  lemma ActivationOutcome(snap: UpdateState, fs: FileSystem, order: seq<string>)
    requires KeyOrder(order, snap.apps)
    requires NoBackupClash(snap.apps)
    requires StagedPathsShaped(snap.apps)
    ensures var r := Activate(snap, fs, order);
      && r.saved.Some?
      && r.saved.value.notifyAfter == 0
      && r.saved.value.apps.Keys == snap.apps.Keys
      && (forall a :: a in snap.apps ==>
            r.saved.value.apps[a] == if Applies(snap.apps[a], fs) then Promote(snap.apps[a]) else snap.apps[a])
      && r.trace == StopEvents(ManagedServices) + TurnsEvents(snap, fs, order) + [Save] + StartEvents(ManagedServices)
      && TriggerFile !in r.files
  {
    var p0 := Progress(snap.apps, fs, StopEvents(ManagedServices), false);
    SortedDistinct(order);
    ApplyListShaped(snap, p0, order);
    ApplyListTurns(snap, p0, order);
    ApplyListAppsFrame(snap, p0, order, "");
  }

  /**
   * The same activation's effect on the binaries: for every app, its
   * install, backup and staging paths end as its own turn leaves them.
   */
  lemma ActivationFilesOutcome(snap: UpdateState, fs: FileSystem, order: seq<string>)
    requires KeyOrder(order, snap.apps)
    requires NoBackupClash(snap.apps)
    requires StagedPathsShaped(snap.apps)
    ensures var r := Activate(snap, fs, order);
      forall a :: a in snap.apps ==> TurnFiles(a, snap.apps[a], fs, r.files)
  {
    var p0 := Progress(snap.apps, fs, StopEvents(ManagedServices), false);
    SortedDistinct(order);
    ApplyListShaped(snap, p0, order);
    ApplyListFiles(snap, p0, order);
    var p := ApplyList(snap, p0, order);
    forall a | a in snap.apps
      ensures TurnFiles(a, snap.apps[a], fs, p.files - {TriggerFile})
    {
      StagingIsNotInstalled(a, a);
      assert TurnFiles(a, snap.apps[a], fs, p.files);
    }
  }

  /**
   * A record left pending without its staged file, as the check script can
   * leave it, survives activation unchanged, and so do its installed binary
   * and its backup.
   */
  lemma PendingWithoutStagedFileIsKept(snap: UpdateState, fs: FileSystem, order: seq<string>, a: string)
    requires KeyOrder(order, snap.apps)
    requires NoBackupClash(snap.apps)
    requires StagedPathsShaped(snap.apps)
    requires a in snap.apps && snap.apps[a].pendingVersion != "" && !IsFile(fs, snap.apps[a].stagedPath)
    ensures var r := Activate(snap, fs, order);
      && r.saved.Some? && a in r.saved.value.apps && r.saved.value.apps[a] == snap.apps[a]
      && SameAt(fs, r.files, BinPath(a)) && SameAt(fs, r.files, BakPath(a))
  {
    ActivationOutcome(snap, fs, order);
    ActivationFilesOutcome(snap, fs, order);
    assert TurnFiles(a, snap.apps[a], fs, Activate(snap, fs, order).files);
  }

  /**
   * A whole update cycle: a check pass from a well-staged state, then an
   * activation of what it stored, installs every binary it left pending.
   */
  lemma CheckThenActivate(st: UpdateState, fs: FileSystem, repos: map<string, string>, fetch: string -> Updater.Response,
                          download: (string, string) -> Updater.Staging, bins: seq<string>, order: seq<string>)
    requires forall b :: b in bins ==> b in repos
    requires WellStaged(st, fs)
    requires var pass := Updater.CheckBinaries(st, fs, repos, fetch, download, bins);
             KeyOrder(order, pass.state.apps) && NoBackupClash(pass.state.apps)
    ensures var pass := Updater.CheckBinaries(st, fs, repos, fetch, download, bins);
            var r := Activate(pass.state, pass.files, order);
            && r.saved.Some?
            && forall a :: a in pass.state.apps && pass.state.apps[a].pendingVersion != "" ==>
                 && a in r.saved.value.apps
                 && r.saved.value.apps[a].currentVersion == pass.state.apps[a].pendingVersion
                 && StagingPath(a) in pass.files && StagingPath(a) !in r.files && BinPath(a) in r.files
                 && r.files[BinPath(a)] == pass.files[StagingPath(a)].(executable := true)
  {
    Updater.CheckPassPreserves(st, fs, repos, fetch, download, bins);
    var pass := Updater.CheckBinaries(st, fs, repos, fetch, download, bins);
    ActivationInstallsStaged(pass.state, pass.files, order);
  }
}
