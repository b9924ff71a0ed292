/**
 * The persisted update bookkeeping shared by the check script and the
 * activate script (app/src/migrations/m2025_12.rs), and the part of the
 * host's file system those scripts touch, as a map from path to file.
 */
module StateStore {
  import opened Strings

  /** The version recorded for a binary this system has never installed. */
  const SentinelVersion: string := "v0.0.0"

  /** One entry of `applications` in the state file. An empty pending version or staged path means nothing is staged. */
  datatype BinaryRecord = BinaryRecord(
    currentVersion: string,
    currentSource: string,
    pendingVersion: string,
    pendingSource: string,
    stagedPath: string)

  /** The state file: `notify_after` and the `applications` object. */
  datatype UpdateState = UpdateState(notifyAfter: int, apps: map<string, BinaryRecord>)

  /** The record written for a binary seen for the first time. */
  const Sentinel: BinaryRecord := BinaryRecord(SentinelVersion, "", "", "", "")

  /** `BINARIES_TO_UPDATE`, in the order the check script visits them. */
  const Binaries: seq<string> := ["amaru-pi", "amaru", "amaru-doctor"]

  /** `init_state_file`: the state written when there is no state file yet. */
  function InitialState(): (s: UpdateState)
    ensures s.notifyAfter == 0
    ensures s.apps.Keys == {"amaru-pi", "amaru", "amaru-doctor"}
    ensures forall a :: a in s.apps ==>
              && s.apps[a].currentVersion == "v0.0.0" && s.apps[a].currentSource == ""
              && s.apps[a].pendingVersion == "" && s.apps[a].pendingSource == "" && s.apps[a].stagedPath == ""
  {
    UpdateState(0, map["amaru-pi" := Sentinel, "amaru" := Sentinel, "amaru-doctor" := Sentinel])
  }

  /** A regular file: its contents and whether its execute bit is set. */
  datatype FileEntry = FileEntry(data: seq<bv8>, executable: bool)

  /** The files of the host the scripts read and write, by path. */
  type FileSystem = map<string, FileEntry>

  /** `[ -f path ]`: the empty path never names a file. */
  predicate IsFile(fs: FileSystem, path: string) {
    path != "" && path in fs
  }

  /** `path` is present in both or absent from both, with the same file. */
  predicate SameAt(fs: FileSystem, fs': FileSystem, path: string) {
    (path in fs <==> path in fs') && (path in fs ==> fs[path] == fs'[path])
  }

  /** `mv src dst` of a file: it is found at `dst` and no longer at `src`; a previous `dst` is overwritten. */
  function Move(fs: FileSystem, src: string, dst: string): (r: FileSystem)
    requires src in fs && src != dst
    ensures dst in r && r[dst] == fs[src] && src !in r
    ensures forall p :: p != src && p != dst ==> SameAt(fs, r, p)
  {
    (fs - {src})[dst := fs[src]]
  }

  const StagingDir: string := "/tmp"
  const BinDir: string := "/home/pi/bin"
  const TriggerFile: string := "/home/pi/.update_requested"

  /** Where the check script stages a binary: `${STAGING_DIR}/${binary_name}.new`. */
  function StagingPath(b: string): (p: string)
    ensures |p| == |b| + 9
  {
    StagingDir + "/" + b + ".new"
  }

  /** The installed binary: `${BIN_DIR}/${app_name}`. */
  function BinPath(a: string): (p: string)
    ensures |p| == |a| + 13
  {
    BinDir + "/" + a
  }

  /** The single-generation backup of an installed binary. */
  function BakPath(a: string): (p: string)
    ensures |p| == |a| + 17
  {
    BinPath(a) + ".bak"
  }

  /**
   * The invariant that ties the state file to the staging area: a binary has
   * a pending version exactly when it has a staged path, that path is its
   * own staging path, and an executable file is there.
   */
  predicate StagedConsistent(a: string, r: BinaryRecord, fs: FileSystem) {
    if r.pendingVersion == "" then r.stagedPath == ""
    else r.stagedPath == StagingPath(a) && StagingPath(a) in fs && fs[StagingPath(a)].executable
  }

  predicate WellStaged(st: UpdateState, fs: FileSystem) {
    forall a :: a in st.apps ==> StagedConsistent(a, st.apps[a], fs)
  }

  /** A fresh state has nothing pending, whatever the files. */
  lemma InitialStateWellStaged(fs: FileSystem)
    ensures WellStaged(InitialState(), fs)
  {
  }

  /** No app name is another's name with `.bak` appended, so no install path is another app's backup path. */
  predicate NoBackupClash(apps: map<string, BinaryRecord>) {
    forall a, b :: a in apps && b in apps ==> a != b + ".bak"
  }

  /** The three paths of a name: each is its directory, the name itself, and its suffix, and the backup extends the install path. */
  lemma PathLayout(a: string)
    ensures StartsWith(StagingPath(a), StagingDir + "/") && StagingPath(a)[5..|a| + 5] == a && StagingPath(a)[|a| + 5..] == ".new"
    ensures StartsWith(BinPath(a), BinDir + "/") && BinPath(a)[13..] == a
    ensures StartsWith(BakPath(a), BinPath(a)) && BakPath(a)[|a| + 13..] == ".bak"
  {
  }

  lemma {:induction false} StagingPathInjective(a: string, b: string)
    ensures StagingPath(a) == StagingPath(b) ==> a == b
  {
    if StagingPath(a) == StagingPath(b) {
      var pa, pb := StagingPath(a), StagingPath(b);
      assert |a| == |b|;
      assert a == pa[5..5 + |a|];
      assert b == pb[5..5 + |b|];
    }
  }

  lemma {:induction false} BinPathInjective(a: string, b: string)
    ensures BinPath(a) == BinPath(b) ==> a == b
    ensures BakPath(a) == BakPath(b) ==> a == b
  {
    assert a == BinPath(a)[13..] && b == BinPath(b)[13..];
    if BakPath(a) == BakPath(b) {
      assert BinPath(a) == BakPath(a)[..|BakPath(a)| - 4];
      assert BinPath(b) == BakPath(b)[..|BakPath(b)| - 4];
    }
  }

  lemma {:induction false} BinIsBak(a: string, b: string)
    ensures BinPath(a) == BakPath(b) ==> a == b + ".bak"
  {
    assert a == BinPath(a)[13..];
    assert BakPath(b)[13..] == b + ".bak";
  }

  /** Staging paths lie under /tmp, install and backup paths under /home/pi/bin, and the trigger file elsewhere. */
  lemma StagingIsNotInstalled(a: string, b: string)
    ensures StagingPath(a) != BinPath(b) && StagingPath(a) != BakPath(b)
    ensures StagingPath(a) != "" && BinPath(a) != "" && BakPath(a) != ""
    ensures BinPath(a) != BakPath(a)
    ensures TriggerFile != StagingPath(a) && TriggerFile != BinPath(a) && TriggerFile != BakPath(a)
  {
    assert StagingPath(a)[1] == 't' && BinPath(b)[1] == 'h' && BakPath(b)[1] == 'h';
    assert TriggerFile[1] == 'h' && TriggerFile[9] == '.' && BinPath(a)[9] == 'b' && BakPath(a)[9] == 'b';
  }

  /** The paths activation touches for two different apps never coincide. */
  lemma AppPathsDisjoint(a: string, b: string)
    requires a != b && a != b + ".bak" && b != a + ".bak"
    ensures BinPath(a) != BinPath(b) && BakPath(a) != BakPath(b)
    ensures BinPath(a) != BakPath(b) && BakPath(a) != BinPath(b)
    ensures StagingPath(a) != StagingPath(b)
  {
    BinPathInjective(a, b);
    BinIsBak(a, b);
    BinIsBak(b, a);
    StagingPathInjective(a, b);
  }
}
