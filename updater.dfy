/**
 * The check phase: `UPDATER_SCRIPT` in app/src/migrations/m2025_12.rs.
 * For each managed binary it asks the release source for the latest
 * release, picks the aarch64 Linux archive, and stages it when the version
 * or the source differs from what is installed. The release source and the
 * download-and-extract step are oracles passed in as functions.
 */
module Updater {
  import opened Wrappers
  import opened Strings
  import opened StateStore

  /** One entry of a release's `assets`; `url` is `browser_download_url` as `jq -r` prints it ("null" when absent). */
  datatype Asset = Asset(name: string, url: string)

  /** A fetched body: not JSON at all, or a release whose `tag_name` is printed as "" when absent or null. */
  datatype ReleaseBody = InvalidJson | Release(tagName: string, assets: seq<Asset>)

  /** What `fetch_latest_release_json` got back: the HTTP status (0 for a transport failure) and the body. */
  datatype Response = Response(status: int, body: ReleaseBody)

  datatype ReleaseInfo = ReleaseInfo(version: string, url: string)

  /** What checking one binary came to; the script only logs these. */
  datatype Outcome =
    | NoRelease        // HTTP 404: the repository has no latest release
    | FetchFailed      // any other non-200 status
    | NoMatchingAsset  // invalid JSON, no tag, or no usable aarch64 Linux archive
    | UpToDate
    | Staged(version: string)
    | StagingFailed    // download failed or payload missing: the run stops here

  /**
   * What downloading the archive at a URL and extracting the binary from it
   * gives: `curl` itself fails, the archive holds no file of the binary's
   * name, or the extracted payload.
   */
  datatype Staging = DownloadFailed | MissingPayload | Payload(data: seq<bv8>)

  /** The values of AMARU_REPO_OVERRIDE, AMARU_PI_REPO_OVERRIDE and AMARU_DOCTOR_REPO_OVERRIDE ("" when unset). */
  datatype Overrides = Overrides(amaru: string, amaruPi: string, amaruDoctor: string)

  /** `GITHUB_REPOS`: the default repository of each binary, replaced by a non-empty override. */
  function Repos(ov: Overrides): (r: map<string, string>)
    ensures r.Keys == {"amaru", "amaru-pi", "amaru-doctor"}
    ensures r["amaru"] == if ov.amaru != "" then ov.amaru else "pragma-org/amaru"
    ensures r["amaru-pi"] == if ov.amaruPi != "" then ov.amaruPi else "jeluard/amaru-pi"
    ensures r["amaru-doctor"] == if ov.amaruDoctor != "" then ov.amaruDoctor else "jeluard/amaru-doctor"
    ensures forall b :: b in Binaries ==> b in r
  {
    var defaults := map["amaru" := "pragma-org/amaru", "amaru-pi" := "jeluard/amaru-pi", "amaru-doctor" := "jeluard/amaru-doctor"];
    var r1 := if ov.amaru != "" then defaults["amaru" := ov.amaru] else defaults;
    var r2 := if ov.amaruPi != "" then r1["amaru-pi" := ov.amaruPi] else r1;
    if ov.amaruDoctor != "" then r2["amaru-doctor" := ov.amaruDoctor] else r2
  }

  /** The asset filter: the name mentions linux, aarch64 and .tar.gz. */
  predicate IsTargetAsset(name: string) {
    Contains(name, "linux") && Contains(name, "aarch64") && Contains(name, ".tar.gz")
  }

  /** Asset `i` is the first one the filter selects. */
  predicate FirstTargetAt(assets: seq<Asset>, i: int) {
    0 <= i < |assets| && IsTargetAsset(assets[i].name) && forall j :: 0 <= j < i ==> !IsTargetAsset(assets[j].name)
  }

  /** The index `head -n 1` keeps from the filtered asset list. */
  function FirstTargetAsset(assets: seq<Asset>): (r: Option<nat>)
    ensures r.Some? ==> FirstTargetAt(assets, r.value)
    ensures r.None? ==> forall j :: 0 <= j < |assets| ==> !IsTargetAsset(assets[j].name)
    decreases |assets|
  {
    if assets == [] then None
    else if IsTargetAsset(assets[0].name) then Some(0)
    else
      match FirstTargetAsset(assets[1..])
      case None => None
      case Some(i) => Some(i + 1)
  }

  /** `extract_release_info`: the tag and the first matching asset's URL, unless either is missing. */
  function ExtractReleaseInfo(body: ReleaseBody): (r: Option<ReleaseInfo>)
    ensures r.Some? <==>
              && body.Release? && body.tagName != ""
              && exists i :: FirstTargetAt(body.assets, i) && body.assets[i].url != "" && body.assets[i].url != "null"
    ensures r.Some? ==>
              && r.value.version == body.tagName
              && exists i :: FirstTargetAt(body.assets, i) && r.value.url == body.assets[i].url
  {
    match body
    case InvalidJson => None
    case Release(tag, assets) =>
      match FirstTargetAsset(assets)
      case None => None
      case Some(i) =>
        var url := assets[i].url;
        if tag == "" || url == "" || url == "null" then None else Some(ReleaseInfo(tag, url))
  }

  /** A release without any asset naming linux (a Windows-only release, say) yields nothing to install. */
  lemma NoLinuxAssetNoInfo(body: ReleaseBody)
    requires body.Release? && forall i :: 0 <= i < |body.assets| ==> !Contains(body.assets[i].name, "linux")
    ensures ExtractReleaseInfo(body) == None
  {
  }

  /** An update is due when the version tag or the source repository differs from what is installed. */
  predicate UpdateDue(rec: BinaryRecord, latest: string, repo: string) {
    rec.currentVersion != latest || rec.currentSource != repo
  }

  /** The record the check script reads for `b`: the stored one, or the sentinel it inserts first. */
  function RecordOf(st: UpdateState, b: string): BinaryRecord {
    if b in st.apps then st.apps[b] else Sentinel
  }

  /** The lazy insertion at the start of `check_one_binary`. */
  function EnsureRecord(st: UpdateState, b: string): (r: UpdateState)
    ensures b in r.apps && r.apps[b] == RecordOf(st, b)
    ensures r.apps.Keys == st.apps.Keys + {b} && r.notifyAfter == st.notifyAfter
    ensures forall a :: a in st.apps ==> r.apps[a] == st.apps[a]
    ensures b in st.apps ==> r == st
  {
    if b in st.apps then st else UpdateState(st.notifyAfter, st.apps[b := Sentinel])
  }

  /** `update_state_file`: record a staged release for `b`. */
  function StagePending(st: UpdateState, b: string, version: string, path: string, source: string): (r: UpdateState)
    requires b in st.apps
    ensures r.notifyAfter == st.notifyAfter && r.apps.Keys == st.apps.Keys
    ensures r.apps[b].pendingVersion == version && r.apps[b].pendingSource == source && r.apps[b].stagedPath == path
    ensures r.apps[b].currentVersion == st.apps[b].currentVersion && r.apps[b].currentSource == st.apps[b].currentSource
    ensures forall a :: a in st.apps && a != b ==> r.apps[a] == st.apps[a]
  {
    var rec := st.apps[b];
    UpdateState(st.notifyAfter, st.apps[b := rec.(pendingVersion := version, pendingSource := source, stagedPath := path)])
  }

  datatype StepResult = StepResult(state: UpdateState, files: FileSystem, outcome: Outcome)

  /**
   * `check_one_binary`, with a staging failure stopping the run as
   * `stage_binary`'s `abort` intends. `download(b, url)` is what staging the
   * archive at `url` gives.
   */
  function CheckOneBinary(st: UpdateState, fs: FileSystem, b: string, repo: string, resp: Response,
                          download: (string, string) -> Staging): (r: StepResult)
    ensures r.state.notifyAfter == st.notifyAfter && r.state.apps.Keys == st.apps.Keys + {b}
  {
    var st1 := EnsureRecord(st, b);
    var rec := st1.apps[b];
    if resp.status != 200 then
      StepResult(st1, fs, if resp.status == 404 then NoRelease else FetchFailed)
    else
      match ExtractReleaseInfo(resp.body)
      case None => StepResult(st1, fs, NoMatchingAsset)
      case Some(info) =>
        if !UpdateDue(rec, info.version, repo) then StepResult(st1, fs, UpToDate)
        else
          match download(b, info.url)
          case DownloadFailed => StepResult(st1, fs, StagingFailed)
          case MissingPayload => StepResult(st1, fs, StagingFailed)
          case Payload(payload) =>
            var staged := StagingPath(b);
            StepResult(StagePending(st1, b, info.version, staged, repo),
                       fs[staged := FileEntry(payload, true)],
                       Staged(info.version))
  }

  /** Checking `b` changes nothing but `b`'s own record and staging path, and never the installed version or source. */
  lemma CheckOneBinaryFrame(st: UpdateState, fs: FileSystem, b: string, repo: string, resp: Response,
                            download: (string, string) -> Staging)
    ensures var r := CheckOneBinary(st, fs, b, repo, resp, download);
      && (forall a :: a in st.apps && a != b ==> r.state.apps[a] == st.apps[a])
      && r.state.apps[b].currentVersion == RecordOf(st, b).currentVersion
      && r.state.apps[b].currentSource == RecordOf(st, b).currentSource
      && (!r.outcome.Staged? ==> r.state == EnsureRecord(st, b) && r.files == fs)
      && (r.outcome.Staged? ==>
            && r.state.apps[b].pendingVersion == r.outcome.version != ""
            && r.state.apps[b].pendingSource == repo
            && r.state.apps[b].stagedPath == StagingPath(b)
            && StagingPath(b) in r.files && r.files[StagingPath(b)].executable
            && forall p :: p != StagingPath(b) ==> SameAt(fs, r.files, p))
  {
  }

  /** Which outcome checking one binary has: by status, then release contents, then the due test, then the download. */
  lemma CheckOneBinaryOutcome(st: UpdateState, fs: FileSystem, b: string, repo: string, resp: Response,
                              download: (string, string) -> Staging)
    ensures var r := CheckOneBinary(st, fs, b, repo, resp, download);
      && (resp.status == 404 ==> r.outcome == NoRelease)
      && (resp.status != 200 && resp.status != 404 ==> r.outcome == FetchFailed)
      && (resp.status == 200 && ExtractReleaseInfo(resp.body).None? ==> r.outcome == NoMatchingAsset)
      && (resp.status == 200 && ExtractReleaseInfo(resp.body).Some? ==>
            var info := ExtractReleaseInfo(resp.body).value;
            && (!UpdateDue(RecordOf(st, b), info.version, repo) ==> r.outcome == UpToDate)
            && (UpdateDue(RecordOf(st, b), info.version, repo) && !download(b, info.url).Payload? ==> r.outcome == StagingFailed)
            && (UpdateDue(RecordOf(st, b), info.version, repo) && download(b, info.url).Payload? ==>
                  r.outcome == Staged(info.version) && r.files[StagingPath(b)].data == download(b, info.url).data))
  {
  }

  /**
   * `check_one_binary` as written. `local staged=$(stage_binary ...)` takes
   * its exit status from `local`, not from `stage_binary`, so the `abort` on a
   * missing payload only ends the command substitution: the script goes on
   * and records the release as pending with an empty staged path.
   */
  function CheckOneBinaryAsWritten(st: UpdateState, fs: FileSystem, b: string, repo: string, resp: Response,
                                   download: (string, string) -> Staging): (r: StepResult)
    ensures r.state.notifyAfter == st.notifyAfter && r.state.apps.Keys == st.apps.Keys + {b}
    ensures r.files == fs || r.files == CheckOneBinary(st, fs, b, repo, resp, download).files
  {
    var st1 := EnsureRecord(st, b);
    var rec := st1.apps[b];
    if resp.status != 200 then
      StepResult(st1, fs, if resp.status == 404 then NoRelease else FetchFailed)
    else
      match ExtractReleaseInfo(resp.body)
      case None => StepResult(st1, fs, NoMatchingAsset)
      case Some(info) =>
        if !UpdateDue(rec, info.version, repo) then StepResult(st1, fs, UpToDate)
        else
          match download(b, info.url)
          case DownloadFailed => StepResult(st1, fs, StagingFailed)
          case MissingPayload => StepResult(StagePending(st1, b, info.version, "", repo), fs, Staged(info.version))
          case Payload(payload) =>
            var staged := StagingPath(b);
            StepResult(StagePending(st1, b, info.version, staged, repo),
                       fs[staged := FileEntry(payload, true)],
                       Staged(info.version))
  }

  /** The code as written and the corrected step differ only when a due release's archive holds no payload. */
  lemma AsWrittenDiffersOnlyOnMissingPayload(st: UpdateState, fs: FileSystem, b: string, repo: string, resp: Response,
                                             download: (string, string) -> Staging)
    ensures var info := ExtractReleaseInfo(resp.body);
            !(resp.status == 200 && info.Some? && UpdateDue(RecordOf(st, b), info.value.version, repo)
              && download(b, info.value.url) == MissingPayload)
            ==> CheckOneBinaryAsWritten(st, fs, b, repo, resp, download) == CheckOneBinary(st, fs, b, repo, resp, download)
  {
  }

  /**
   * The input that shows it: a fresh state, a release with one matching
   * archive that lacks the binary. The corrected step stops the run and keeps
   * the state; the step as written records a pending version with no staged
   * file, which breaks the staging invariant.
   */
  lemma MissingPayloadRecordsUnstagedPending()
    ensures var resp := Response(200, Release("v1.0.0", [Asset("linux-aarch64.tar.gz", "https://example.org/a.tar.gz")]));
            var missing := (x: string, u: string) => MissingPayload;
            var asWritten := CheckOneBinaryAsWritten(InitialState(), map[], "amaru", "pragma-org/amaru", resp, missing);
            var corrected := CheckOneBinary(InitialState(), map[], "amaru", "pragma-org/amaru", resp, missing);
            && WellStaged(InitialState(), map[])
            && asWritten.outcome == Staged("v1.0.0")
            && asWritten.state.apps["amaru"].pendingVersion == "v1.0.0"
            && asWritten.state.apps["amaru"].stagedPath == ""
            && !WellStaged(asWritten.state, asWritten.files)
            && corrected == StepResult(InitialState(), map[], StagingFailed)
  {
    var name := "linux-aarch64.tar.gz";
    ContainsPrefix(name, "linux");
    assert name == "linux-" + "aarch64" + ".tar.gz";
    ContainsInfix("linux-", "aarch64", ".tar.gz");
    assert name == "linux-aarch64" + ".tar.gz" + "";
    ContainsInfix("linux-aarch64", ".tar.gz", "");
    assert IsTargetAsset(name);
    var asWritten := CheckOneBinaryAsWritten(InitialState(), map[], "amaru", "pragma-org/amaru",
      Response(200, Release("v1.0.0", [Asset(name, "https://example.org/a.tar.gz")])), (x: string, u: string) => MissingPayload);
    assert !StagedConsistent("amaru", asWritten.state.apps["amaru"], asWritten.files);
  }

  /** The result of checking a list of binaries: final state, files, and one outcome per binary visited. */
  datatype Pass = Pass(state: UpdateState, files: FileSystem, outcomes: seq<Outcome>)

  /** The loop of `main` over `bins`, stopping after a staging failure. */
  function CheckBinaries(st: UpdateState, fs: FileSystem, repos: map<string, string>, fetch: string -> Response,
                         download: (string, string) -> Staging, bins: seq<string>): (r: Pass)
    requires forall b :: b in bins ==> b in repos
    ensures |r.outcomes| <= |bins| && (bins != [] ==> r.outcomes != [])
    decreases |bins|
  {
    if bins == [] then Pass(st, fs, [])
    else
      var b := bins[0];
      var step := CheckOneBinary(st, fs, b, repos[b], fetch(repos[b]), download);
      if step.outcome == StagingFailed then Pass(step.state, step.files, [StagingFailed])
      else
        var rest := CheckBinaries(step.state, step.files, repos, fetch, download, bins[1..]);
        Pass(rest.state, rest.files, [step.outcome] + rest.outcomes)
  }

  /** `main` of the check script: create the state file if absent, then check every managed binary in turn. */
  method CheckForUpdates(stored: Option<UpdateState>, fs0: FileSystem, overrides: Overrides,
                         fetch: string -> Response, download: (string, string) -> Staging)
    returns (st: UpdateState, fs: FileSystem, outcomes: seq<Outcome>)
    ensures var start := if stored.Some? then stored.value else InitialState();
            && Pass(st, fs, outcomes) == CheckBinaries(start, fs0, Repos(overrides), fetch, download, Binaries)
            && st.notifyAfter == start.notifyAfter
            && (forall a :: a in start.apps ==>
                  a in st.apps && st.apps[a].currentVersion == start.apps[a].currentVersion
                  && st.apps[a].currentSource == start.apps[a].currentSource)
            && (WellStaged(start, fs0) ==> WellStaged(st, fs))
  {
    var start := if stored.Some? then stored.value else InitialState();
    st, fs, outcomes := CheckEach(start, fs0, Repos(overrides), fetch, download, Binaries);
    CheckPassPreserves(start, fs0, Repos(overrides), fetch, download, Binaries);
  }

  /** The `for binary in ...` loop of `main`. */
  method CheckEach(st0: UpdateState, fs0: FileSystem, repos: map<string, string>, fetch: string -> Response,
                   download: (string, string) -> Staging, bins: seq<string>)
    returns (st: UpdateState, fs: FileSystem, outcomes: seq<Outcome>)
    requires forall b :: b in bins ==> b in repos
    ensures Pass(st, fs, outcomes) == CheckBinaries(st0, fs0, repos, fetch, download, bins)
  {
    st, fs, outcomes := st0, fs0, [];
    ghost var total := CheckBinaries(st0, fs0, repos, fetch, download, bins);
    var i := 0;
    while i < |bins|
      invariant i <= |bins|
      invariant var rest := CheckBinaries(st, fs, repos, fetch, download, bins[i..]);
                rest.state == total.state && rest.files == total.files && outcomes + rest.outcomes == total.outcomes
    {
      var b := bins[i];
      var repo := repos[b];
      var step := CheckOneBinary(st, fs, b, repo, fetch(repo), download);
      CheckBinariesUnfold(st, fs, repos, fetch, download, bins[i..]);
      assert bins[i..][1..] == bins[i + 1..];
      st, fs := step.state, step.files;
      if step.outcome == StagingFailed {
        outcomes := outcomes + [StagingFailed];
        return;
      }
      OutcomesStep(outcomes, step.outcome, CheckBinaries(st, fs, repos, fetch, download, bins[i + 1..]).outcomes, total.outcomes);
      outcomes := outcomes + [step.outcome];
      i := i + 1;
    }
  }

  /** The outcome bookkeeping of one turn: moving an outcome from the pass still to come to those recorded. */
  lemma OutcomesStep(done: seq<Outcome>, o: Outcome, later: seq<Outcome>, all: seq<Outcome>)
    requires done + ([o] + later) == all
    ensures (done + [o]) + later == all
  {
    assert done + [o] + later == done + ([o] + later);
  }

  /** One turn of the check loop, as `CheckBinaries` takes it. */
  lemma CheckBinariesUnfold(st: UpdateState, fs: FileSystem, repos: map<string, string>, fetch: string -> Response,
                            download: (string, string) -> Staging, bins: seq<string>)
    requires bins != [] && forall b :: b in bins ==> b in repos
    ensures var step := CheckOneBinary(st, fs, bins[0], repos[bins[0]], fetch(repos[bins[0]]), download);
            var pass := CheckBinaries(st, fs, repos, fetch, download, bins);
            if step.outcome == StagingFailed then pass == Pass(step.state, step.files, [StagingFailed])
            else pass == var rest := CheckBinaries(step.state, step.files, repos, fetch, download, bins[1..]);
                         Pass(rest.state, rest.files, [step.outcome] + rest.outcomes)
  {
  }

  /** Checking `b` keeps the staging invariant: a new pending version always comes with its executable staged file. */
  lemma CheckOneBinaryWellStaged(st: UpdateState, fs: FileSystem, b: string, repo: string, resp: Response,
                                 download: (string, string) -> Staging)
    requires WellStaged(st, fs)
    ensures var r := CheckOneBinary(st, fs, b, repo, resp, download); WellStaged(r.state, r.files)
  {
    var r := CheckOneBinary(st, fs, b, repo, resp, download);
    CheckOneBinaryFrame(st, fs, b, repo, resp, download);
    forall a | a in r.state.apps
      ensures StagedConsistent(a, r.state.apps[a], r.files)
    {
      if a != b {
        StagingPathInjective(a, b);
        assert SameAt(fs, r.files, StagingPath(a));
      }
    }
  }

  /** Checking `b` a second time, from a state that agrees with the first check on `b`, changes nothing and has the same outcome. */
  lemma CheckOneBinaryAgain(st: UpdateState, fs: FileSystem, b: string, repo: string, resp: Response,
                            download: (string, string) -> Staging, st': UpdateState, fs': FileSystem)
    requires var r := CheckOneBinary(st, fs, b, repo, resp, download);
             b in st'.apps && st'.apps[b] == r.state.apps[b] && SameAt(r.files, fs', StagingPath(b))
    ensures CheckOneBinary(st', fs', b, repo, resp, download)
            == StepResult(st', fs', CheckOneBinary(st, fs, b, repo, resp, download).outcome)
  {
    var r := CheckOneBinary(st, fs, b, repo, resp, download);
    CheckOneBinaryFrame(st, fs, b, repo, resp, download);
    CheckOneBinaryOutcome(st, fs, b, repo, resp, download);
    CheckOneBinaryOutcome(st', fs', b, repo, resp, download);
    if r.outcome.Staged? {
      var info := ExtractReleaseInfo(resp.body).value;
      var rec := st'.apps[b];
      assert st'.apps[b := rec.(pendingVersion := info.version, pendingSource := repo, stagedPath := StagingPath(b))] == st'.apps;
      assert fs'[StagingPath(b) := FileEntry(download(b, info.url).data, true)] == fs';
    }
  }

  /** Checking `b` leaves the record and the staging path of another binary `a` as they were. */
  lemma CheckOneBinaryKeeps(st: UpdateState, fs: FileSystem, b: string, repo: string, resp: Response,
                            download: (string, string) -> Staging, a: string)
    requires a != b
    ensures var r := CheckOneBinary(st, fs, b, repo, resp, download);
      && (a in r.state.apps <==> a in st.apps)
      && (a in st.apps ==> r.state.apps[a] == st.apps[a])
      && SameAt(fs, r.files, StagingPath(a))
  {
    CheckOneBinaryFrame(st, fs, b, repo, resp, download);
    StagingPathInjective(a, b);
  }

  /** A pass over `bins` leaves the record and the staging path of every other binary as they were. */
  lemma {:induction false} CheckPassFrame(st: UpdateState, fs: FileSystem, repos: map<string, string>, fetch: string -> Response,
                                          download: (string, string) -> Staging, bins: seq<string>, a: string)
    requires forall b :: b in bins ==> b in repos
    requires a !in bins
    ensures var pass := CheckBinaries(st, fs, repos, fetch, download, bins);
      && (a in pass.state.apps <==> a in st.apps)
      && (a in st.apps ==> pass.state.apps[a] == st.apps[a])
      && SameAt(fs, pass.files, StagingPath(a))
    decreases |bins|
  {
    if bins != [] {
      var b := bins[0];
      var step := CheckOneBinary(st, fs, b, repos[b], fetch(repos[b]), download);
      CheckOneBinaryKeeps(st, fs, b, repos[b], fetch(repos[b]), download, a);
      if step.outcome != StagingFailed {
        CheckPassFrame(step.state, step.files, repos, fetch, download, bins[1..], a);
      }
    }
  }

  /**
   * What a whole pass keeps: `notify_after`, every existing record (only
   * `bins` can be added), every installed version and source, and the
   * staging invariant.
   */
  lemma {:induction false} CheckPassPreserves(st: UpdateState, fs: FileSystem, repos: map<string, string>, fetch: string -> Response,
                                              download: (string, string) -> Staging, bins: seq<string>)
    requires forall b :: b in bins ==> b in repos
    ensures var pass := CheckBinaries(st, fs, repos, fetch, download, bins);
      && pass.state.notifyAfter == st.notifyAfter
      && st.apps.Keys <= pass.state.apps.Keys
      && (forall a :: a in pass.state.apps ==> a in st.apps || a in bins)
      && (forall a :: a in st.apps ==>
            && pass.state.apps[a].currentVersion == st.apps[a].currentVersion
            && pass.state.apps[a].currentSource == st.apps[a].currentSource)
      && (WellStaged(st, fs) ==> WellStaged(pass.state, pass.files))
    decreases |bins|
  {
    if bins != [] {
      var b := bins[0];
      var step := CheckOneBinary(st, fs, b, repos[b], fetch(repos[b]), download);
      CheckOneBinaryFrame(st, fs, b, repos[b], fetch(repos[b]), download);
      if WellStaged(st, fs) {
        CheckOneBinaryWellStaged(st, fs, b, repos[b], fetch(repos[b]), download);
      }
      if step.outcome != StagingFailed {
        CheckPassPreserves(step.state, step.files, repos, fetch, download, bins[1..]);
      }
    }
  }

  /** One binary's failure to fetch or to match does not stop the pass: only a staging failure ends it early, as its last outcome. */
  lemma {:induction false} CheckPassOutcomes(st: UpdateState, fs: FileSystem, repos: map<string, string>, fetch: string -> Response,
                                             download: (string, string) -> Staging, bins: seq<string>)
    requires forall b :: b in bins ==> b in repos
    ensures var out := CheckBinaries(st, fs, repos, fetch, download, bins).outcomes;
      && |out| <= |bins| && (bins != [] ==> out != [])
      && (forall i :: 0 <= i < |out| - 1 ==> out[i] != StagingFailed)
      && (|out| < |bins| ==> out[|out| - 1] == StagingFailed)
    decreases |bins|
  {
    if bins != [] {
      var b := bins[0];
      var step := CheckOneBinary(st, fs, b, repos[b], fetch(repos[b]), download);
      if step.outcome != StagingFailed {
        CheckPassOutcomes(step.state, step.files, repos, fetch, download, bins[1..]);
      }
    }
  }

  /**
   * Checking again against an unchanged remote is a no-op: a second pass
   * over distinct binaries, from the first pass's state and files, gives
   * back the same state, files and outcomes.
   */
  lemma {:induction false} CheckPassIdempotent(st: UpdateState, fs: FileSystem, repos: map<string, string>, fetch: string -> Response,
                                               download: (string, string) -> Staging, bins: seq<string>)
    requires forall b :: b in bins ==> b in repos
    requires forall i, j :: 0 <= i < j < |bins| ==> bins[i] != bins[j]
    ensures var pass := CheckBinaries(st, fs, repos, fetch, download, bins);
            CheckBinaries(pass.state, pass.files, repos, fetch, download, bins) == pass
    decreases |bins|
  {
    if bins != [] {
      var b := bins[0];
      var step := CheckOneBinary(st, fs, b, repos[b], fetch(repos[b]), download);
      CheckOneBinaryFrame(st, fs, b, repos[b], fetch(repos[b]), download);
      var pass := CheckBinaries(st, fs, repos, fetch, download, bins);
      if step.outcome == StagingFailed {
        CheckOneBinaryAgain(st, fs, b, repos[b], fetch(repos[b]), download, step.state, step.files);
      } else {
        assert b !in bins[1..] by {
          forall k | 0 <= k < |bins[1..]| ensures bins[1..][k] != b { assert bins[1..][k] == bins[k + 1]; }
        }
        CheckPassFrame(step.state, step.files, repos, fetch, download, bins[1..], b);
        CheckOneBinaryAgain(st, fs, b, repos[b], fetch(repos[b]), download, pass.state, pass.files);
        CheckPassIdempotent(step.state, step.files, repos, fetch, download, bins[1..]);
      }
    }
  }

  /** Running the check script twice against an unchanged remote leaves what the first run left. */
  lemma CheckForUpdatesIdempotent(stored: Option<UpdateState>, fs0: FileSystem, overrides: Overrides,
                                  fetch: string -> Response, download: (string, string) -> Staging)
    ensures var start := if stored.Some? then stored.value else InitialState();
            var first := CheckBinaries(start, fs0, Repos(overrides), fetch, download, Binaries);
            CheckBinaries(first.state, first.files, Repos(overrides), fetch, download, Binaries) == first
  {
    var start := if stored.Some? then stored.value else InitialState();
    CheckPassIdempotent(start, fs0, Repos(overrides), fetch, download, Binaries);
  }

  /** Installed at the latest tag from the configured repository: checking stages nothing and stores nothing new. */
  lemma UpToDateIsNoop(st: UpdateState, fs: FileSystem, b: string, repo: string, resp: Response,
                       download: (string, string) -> Staging)
    requires b in st.apps && resp.status == 200 && ExtractReleaseInfo(resp.body).Some?
    requires st.apps[b].currentVersion == ExtractReleaseInfo(resp.body).value.version
    requires st.apps[b].currentSource == repo
    ensures CheckOneBinary(st, fs, b, repo, resp, download) == StepResult(st, fs, UpToDate)
  {
    CheckOneBinaryOutcome(st, fs, b, repo, resp, download);
    CheckOneBinaryFrame(st, fs, b, repo, resp, download);
  }

  /** A source override: the same tag from a different repository is still an update, and is staged. */
  lemma SourceOverrideStages(st: UpdateState, fs: FileSystem, b: string, repo: string, resp: Response,
                             download: (string, string) -> Staging)
    requires b in st.apps && resp.status == 200 && ExtractReleaseInfo(resp.body).Some?
    requires st.apps[b].currentVersion == ExtractReleaseInfo(resp.body).value.version
    requires st.apps[b].currentSource != repo
    requires download(b, ExtractReleaseInfo(resp.body).value.url).Payload?
    ensures var r := CheckOneBinary(st, fs, b, repo, resp, download);
            && r.outcome == Staged(st.apps[b].currentVersion)
            && r.state.apps[b].pendingSource == repo && r.state.apps[b].currentSource == st.apps[b].currentSource
  {
    CheckOneBinaryOutcome(st, fs, b, repo, resp, download);
    CheckOneBinaryFrame(st, fs, b, repo, resp, download);
  }
}
