# amaru-rpi update, keyboard and key-translation core in Dafny

amaru-rpi runs a Cardano node (amaru) and its companion tools on a Raspberry
Pi with a small screen and four buttons. This project models three parts of
it and proves properties of the model.

- **The self-update scripts** (app/src/migrations/m2025_12.rs).
  - The check script reads a JSON state file and asks GitHub for the latest
    release of each managed binary (`amaru-pi`, `amaru`, `amaru-doctor`), each
    from its configured repository. When the tag or the repository differs
    from what is installed, it stages the aarch64 Linux archive's binary under
    `/tmp` and records it as pending.
  - The activate script stops the services and moves every staged binary into
    `/home/pi/bin`, keeping a `.bak` of the one it replaces. It then promotes
    pending to current, resets `notify_after`, restarts the services and
    removes the trigger file.
  - The migration also rewrites the `ExecStart=` line of `amaru.service` to
    the wrapper script.
- **The on-screen keyboard widget** (app/src/keyboard/input.rs). Button
  presses move a cursor over a key layout, type the key under it, toggle
  shift and caps lock, and so on. Key events from a physical keyboard act
  directly.
- **The evdev adapter** (app/src/inputs/evdev.rs). It translates Linux key
  codes into terminal key codes and tracks the shift, control and alt flags
  across events.

Modules:

- `Wrappers`: `Option`.
- `Strings`: the string operations the sources use, with their Rust or jq
  meaning: `starts_with`, `contains`, `trim`, and the key order of jq's `keys`.
- `Terminal`: the terminal key-event vocabulary.
- `StateStore`: the state file's records and the files as a map from path
  to file. It also holds the path layout and the staging invariant
  `WellStaged`: a pending version always comes with its own executable
  staged file.
- `Updater`: the check script.
  - The release source and the download-and-extract step are functions
    passed in.
  - `CheckEach` is the loop over the binaries and is proved equal to
    `CheckBinaries`, a recursive function over the list of binaries.
    `CheckForUpdates` creates the state if needed and calls `CheckEach`.
- `Activation`: the activate script.
  - `ActivateUpdates` loops over the services and the application keys and
    is proved equal to the function `Activate`. `UpdateApp` is the body of
    the loop over the keys, proved equal to the function `ApplyOne`.
  - Service stops, backups, installs, the save and service starts are
    recorded as a trace of events.
- `ServicePatch`: `patch_amaru_service`, including Rust's `str::lines` and
  `join("\n")`.
- `Keyboard`: `KeyboardWidget` as a class with `cursor` and `mode` fields.
- `Evdev`: `EvdevAdapter` as a class with a `modifiers` field.

Two behaviours of the check script's staging step decide how a pass ends.

- A failed `curl` of a release archive (m2025_12.rs:195) ends the whole check
  run, because the script runs under `set -euo pipefail` (m2025_12.rs:12).
  `Updater.CheckBinaries` therefore stops at the first `StagingFailed`.
- The `abort` in `stage_binary` (m2025_12.rs:131) is meant to end the run
  when the archive holds no binary. As written it does not: see Findings.
  The rest of the model uses the intended behaviour and stops the run.

## Model

| member | source | states |
|---|---|---|
| StateStore.InitialState | app/src/migrations/m2025_12.rs:56-69 | a fresh state has `notify_after` 0 and exactly the three binaries, each at version v0.0.0 with empty source, pending version, pending source and staged path |
| StateStore.InitialStateWellStaged | app/src/migrations/m2025_12.rs:56-69 | a fresh state satisfies the staging invariant whatever the files |
| StateStore.StagingPath | app/src/migrations/m2025_12.rs:120-120 | a binary's staging path is nine characters longer than its name: `/tmp/`, the name and `.new` |
| StateStore.BinPath | app/src/migrations/m2025_12.rs:250-253 | an app's install path is thirteen characters longer than its name: `/home/pi/bin/` and the name |
| StateStore.BakPath | app/src/migrations/m2025_12.rs:250-250 | an app's backup path is seventeen characters longer than its name: its install path and `.bak` |
| StateStore.PathLayout | app/src/migrations/m2025_12.rs:120-253 | the staging path is `/tmp/`, the name, then `.new`; the install path is `/home/pi/bin/` then the name; the backup path is the install path then `.bak` |
| StateStore.StagingPathInjective | app/src/migrations/m2025_12.rs:120-120 | two binaries with the same staging path are the same binary |
| StateStore.BinPathInjective | app/src/migrations/m2025_12.rs:250-253 | two apps with the same install path, or the same backup path, are the same app |
| StateStore.BinIsBak | app/src/migrations/m2025_12.rs:250-250 | one app's install path is another's backup path only when its name is the other's name plus `.bak` |
| StateStore.Move | app/src/migrations/m2025_12.rs:250-253 | `mv` leaves the source's file at the destination, removes the source and changes no other path |
| StateStore.StagingIsNotInstalled | app/src/migrations/m2025_12.rs:117-138 | staging paths under /tmp never coincide with install or backup paths, none of them is empty, an install path is never its own backup, and the trigger file is none of them |
| StateStore.AppPathsDisjoint | app/src/migrations/m2025_12.rs:246-254 | for two apps neither of which is the other's name plus `.bak`, the install, backup and staging paths of one are none of the other's |
| Updater.Repos | app/src/migrations/m2025_12.rs:31-49 | every binary has a repository: the non-empty override if one is set, otherwise its default |
| Updater.FirstTargetAsset | app/src/migrations/m2025_12.rs:107-107 | the index returned is the first asset whose name contains linux, aarch64 and .tar.gz; None exactly when no asset matches |
| Updater.ExtractReleaseInfo | app/src/migrations/m2025_12.rs:96-115 | information is returned exactly when the body is JSON with a non-empty tag and the first matching asset has a URL other than "" and "null"; it then carries that tag and that URL |
| Updater.NoLinuxAssetNoInfo | app/src/migrations/m2025_12.rs:107-112 | a release with no asset naming linux yields nothing to install |
| Updater.UpdateDue | app/src/migrations/m2025_12.rs:190-190 | an update is due exactly when the tag or the repository differs from the installed one; `CheckOneBinaryOutcome`, `UpToDateIsNoop` and `SourceOverrideStages` state what each answer leads to |
| Updater.EnsureRecord | app/src/migrations/m2025_12.rs:161-166 | a missing record is inserted as the sentinel; an existing one, and every other record, is kept |
| Updater.StagePending | app/src/migrations/m2025_12.rs:140-153 | the binary's pending version, pending source and staged path are set; its current fields and every other record are unchanged |
| Updater.CheckOneBinary | app/src/migrations/m2025_12.rs:155-205 | checking a binary keeps `notify_after` and adds at most that binary's record |
| Updater.CheckOneBinaryFrame | app/src/migrations/m2025_12.rs:155-205 | checking a binary never touches another record or the installed version and source; unless it stages, only the lazy insertion happens; when it stages, the pending fields name the new tag and repository and an executable file sits at the binary's staging path, with every other path unchanged |
| Updater.CheckOneBinaryKeeps | app/src/migrations/m2025_12.rs:155-205 | checking one binary leaves another binary's record, its presence and its staging file as they were |
| Updater.CheckOneBinaryOutcome | app/src/migrations/m2025_12.rs:171-204 | the outcome is decided by the HTTP status (404 no release, other non-200 fetch failed), then the release contents, then the version-or-source test, then staging; a staged file holds the payload |
| Updater.CheckOneBinaryWellStaged | app/src/migrations/m2025_12.rs:190-201 | checking a binary preserves the staging invariant |
| Updater.CheckOneBinaryAgain | app/src/migrations/m2025_12.rs:190-204 | checking the same binary again against the same response changes nothing and gives the same outcome |
| Updater.CheckOneBinaryAsWritten | app/src/migrations/m2025_12.rs:190-201 | the step as written keeps `notify_after`, adds at most the binary's record and writes at most the corrected step's files |
| Updater.AsWrittenDiffersOnlyOnMissingPayload | app/src/migrations/m2025_12.rs:193-200 | the step as written and the corrected step agree on every input except a due release whose archive lacks the binary |
| Updater.MissingPayloadRecordsUnstagedPending | app/src/migrations/m2025_12.rs:128-132 | on a fresh state, a matching archive without the binary makes the step as written record pending v1.0.0 with an empty staged path, which breaks the staging invariant, while the corrected step stops with nothing changed |
| Updater.CheckForUpdates | app/src/migrations/m2025_12.rs:207-212 | the check run is the pass over the three binaries from the stored or the initial state; it keeps `notify_after` and every installed version and source, and preserves the staging invariant |
| Updater.CheckEach | app/src/migrations/m2025_12.rs:209-211 | the loop over the binaries computes exactly the recursive pass, stopping after a staging failure |
| Updater.CheckBinaries | app/src/migrations/m2025_12.rs:209-211 | a pass records at most one outcome per binary, and at least one when there is a binary to check |
| Updater.CheckPassFrame | app/src/migrations/m2025_12.rs:209-211 | a pass leaves the record and the staging file of every binary it does not visit as they were |
| Updater.CheckPassPreserves | app/src/migrations/m2025_12.rs:155-211 | a pass keeps `notify_after`, every existing record and its installed version and source, adds only visited binaries, and preserves the staging invariant |
| Updater.CheckPassOutcomes | app/src/migrations/m2025_12.rs:172-186 | at most one outcome per binary; fetch and match failures do not end the pass, and only a staging failure ends it early, as its last outcome |
| Updater.CheckPassIdempotent | app/src/migrations/m2025_12.rs:155-211 | against an unchanged remote, a second pass over distinct binaries gives back the first pass's state, files and outcomes |
| Updater.CheckForUpdatesIdempotent | app/src/migrations/m2025_12.rs:207-212 | running the check script twice against an unchanged remote leaves what the first run left |
| Updater.UpToDateIsNoop | app/src/migrations/m2025_12.rs:190-204 | a binary installed at the latest tag from the configured repository is reported up to date, with state and files unchanged |
| Updater.SourceOverrideStages | app/src/migrations/m2025_12.rs:190-201 | the same tag from a different repository is still staged, recording the new repository as pending while the current source is kept |
| Activation.StopEvents | app/src/migrations/m2025_12.rs:237-239 | one stop per managed service, in order |
| Activation.StartEvents | app/src/migrations/m2025_12.rs:271-273 | one start per managed service, in order |
| Activation.Promote | app/src/migrations/m2025_12.rs:257-262 | the pending version and source become current and the pending fields are cleared |
| Activation.Applies | app/src/migrations/m2025_12.rs:246-246 | an app's turn acts exactly when its pending version is set and its staged path is a file when the turn comes; `ApplyOne` and `ActivationOutcome` state what follows from each answer |
| Activation.ApplyOne | app/src/migrations/m2025_12.rs:241-263 | an app whose turn does not apply leaves the progress unchanged; a turn fails only when the run had failed already or the staged path is the install path |
| Activation.UpdateApp | app/src/migrations/m2025_12.rs:246-263 | the backup, the install, the execute bit and the promotion of one app compute exactly `ApplyOne` |
| Activation.ApplyList | app/src/migrations/m2025_12.rs:241-263 | the loop over the keys fails only when the run had failed already or some visited app's staged path is its install path |
| Activation.Activate | app/src/migrations/m2025_12.rs:232-279 | a run that saves nothing has some app whose staged path is its install path; a run that saves writes `notify_after` 0 and removes the trigger file |
| Activation.ActivateUpdates | app/src/migrations/m2025_12.rs:232-279 | stopping the services, the loop over the snapshot's keys, the save and the starts, and removing the trigger file, compute exactly `Activate` |
| Activation.ApplyListAppsFrame | app/src/migrations/m2025_12.rs:241-264 | the loop never adds or removes an application and only rewrites records of keys it visits |
| Activation.ApplyListFilesFrame | app/src/migrations/m2025_12.rs:246-254 | a path that is no visited app's install path, backup path or pending staged path keeps its file |
| Activation.ApplyListEvents | app/src/migrations/m2025_12.rs:246-254 | the loop only appends to the trace, and only backups and installs |
| Activation.ActivationTrace | app/src/migrations/m2025_12.rs:232-279 | for any snapshot: both services are stopped first; then come only backups and installs; a successful run then saves once and starts both services; a failed run saves and starts nothing. `ActivationOutcome` names the backups and installs app by app |
| Activation.SortedDistinct | app/src/migrations/m2025_12.rs:241-241 | keys listed in code-point order are listed once each |
| Activation.ActivateNothingPending | app/src/migrations/m2025_12.rs:246-267 | with nothing pending, activation leaves every binary and record alone; it resets `notify_after`, removes the trigger file, and stops, saves and starts |
| Activation.ApplyOneStaged | app/src/migrations/m2025_12.rs:246-262 | one app's turn on a ready staged file does not fail; it promotes the record, installs the staged file as executable, backs up a previous install and touches no other path |
| Activation.ApplyListStaged | app/src/migrations/m2025_12.rs:241-264 | over distinct keys whose staged files are ready, the loop does not fail and every key ends activated |
| Activation.ActivationInstallsStaged | app/src/migrations/m2025_12.rs:232-279 | from a well-staged state with no backup-name clash, activation saves a state with `notify_after` 0 and the same apps and removes the trigger file. Every pending app is promoted, its staged file is installed with the execute bit and no longer staged, and any previous install becomes the `.bak`. Every other app keeps its record, install and backup |
| Activation.ActivationFilesFrame | app/src/migrations/m2025_12.rs:246-254 | files no app's turn may touch are unchanged, except the trigger file |
| Activation.ActivationClearsPending | app/src/migrations/m2025_12.rs:256-267 | after activating a well-staged state nothing is pending and the saved state is itself well staged |
| Activation.ActivationTwice | app/src/migrations/m2025_12.rs:232-279 | activating again from what an activation left changes neither the saved state nor the files; it only stops, saves and starts |
| Activation.TurnEvents | app/src/migrations/m2025_12.rs:246-254 | a turn emits nothing exactly when it does not apply; otherwise it ends with the app's install, preceded by its backup exactly when the app was installed |
| Activation.TurnsEventsFrame | app/src/migrations/m2025_12.rs:246-254 | the events of the turns depend on the files only at the visited apps' staging and install paths |
| Activation.ApplyOneShaped | app/src/migrations/m2025_12.rs:246-263 | when the staged path is empty or the app's own staging path, a turn never fails; it promotes the record exactly when it applies, appends that turn's events and touches only the app's install, backup and staging paths |
| Activation.NextTurnsUntouched | app/src/migrations/m2025_12.rs:241-263 | the first app's turn leaves the staging and install paths of every later key as they were |
| Activation.NextTurnReady | app/src/migrations/m2025_12.rs:241-263 | after the first key's turn, the remaining keys are distinct, have their snapshot records, and see the same files at their own paths |
| Activation.ApplyListShaped | app/src/migrations/m2025_12.rs:241-263 | over distinct keys with shaped staged paths the loop never fails, and each key's record is promoted exactly when its turn applies on the files it started from |
| Activation.ApplyListTurns | app/src/migrations/m2025_12.rs:241-263 | under the same conditions the loop appends, in key order, each applying app's backup (when it was installed) and install |
| Activation.ActivationOutcome | app/src/migrations/m2025_12.rs:232-279 | for any state whose staged paths are empty or the check script's, with no backup-name clash, activation saves `notify_after` 0 and the same apps, promotes exactly the apps whose turn applies and keeps every other record; the trace is the stops, the turns' events in key order, the save and the starts; the trigger file is removed |
| Activation.ApplyOneFiles | app/src/migrations/m2025_12.rs:246-254 | when the staged path is empty or the app's own staging path, an applying turn removes the staged file from its staging path, installs it with the execute bit and moves a previous install to the backup (leaving the backup path alone when there was none); a turn that does not apply leaves the install, backup and staging paths as they were |
| Activation.TurnFilesFrame | app/src/migrations/m2025_12.rs:246-254 | what a turn does to its own three paths depends on the files at those paths only |
| Activation.FirstTurnApart | app/src/migrations/m2025_12.rs:241-254 | the first key's turn leaves every later key's install, backup and staging paths alone, and no later turn may touch the first key's |
| Activation.ApplyListFiles | app/src/migrations/m2025_12.rs:241-263 | over distinct keys with shaped staged paths, each visited app's install, backup and staging paths end as its own turn leaves them |
| Activation.ActivationFilesOutcome | app/src/migrations/m2025_12.rs:232-279 | for the same states as `ActivationOutcome`, every app whose turn applies has its staged file installed with the execute bit and gone from the staging path, with the old install as its backup; every other app keeps its install, backup and staging files |
| Activation.PendingWithoutStagedFileIsKept | app/src/migrations/m2025_12.rs:246-254 | a pending record whose staged path is not a file, such as an empty one, survives activation unchanged, and so do the app's installed binary and backup |
| Activation.CheckThenActivate | app/src/migrations/m2025_12.rs:197-262 | a check pass from a well-staged state followed by an activation installs every binary it left pending, with the content it staged, at its new current version |
| ServicePatch.SplitLines | app/src/migrations/m2025_12.rs:333-334 | the text is empty exactly when it has no lines, and no line contains a newline |
| ServicePatch.RewriteLines | app/src/migrations/m2025_12.rs:335-342 | as many lines as before; each line whose trimmed form starts with `ExecStart=` becomes the wrapper line, every other line is kept |
| ServicePatch.PatchService | app/src/migrations/m2025_12.rs:316-345 | nothing is written exactly when the unit is missing or already mentions the wrapper; otherwise the rewritten lines are written joined by newlines |
| ServicePatch.JoinLines | app/src/migrations/m2025_12.rs:344-344 | the joined text begins with the first line; `JoinContainsLine` and `JoinSplitLines` state what it contains and what it inverts |
| ServicePatch.JoinContainsLine | app/src/migrations/m2025_12.rs:326-344 | the joined text contains each of its lines |
| ServicePatch.PatchIdempotent | app/src/migrations/m2025_12.rs:316-345 | a unit with a start command, once patched, is left alone by the next run |
| ServicePatch.JoinSplitLines | app/src/migrations/m2025_12.rs:333-344 | splitting into lines and joining with newlines gives back a text with no carriage return and no final newline |
| ServicePatch.PatchWithoutExecStartKeepsContent | app/src/migrations/m2025_12.rs:333-345 | a unit with no start command, no carriage return and no final newline is written back unchanged |
| Keyboard.ModeAfterKey | app/src/keyboard/input.rs:94-121 | shift toggles Shift and Normal, caps toggles CapsLock and Normal, Done and space keep the mode, and a typed key ends Shift and otherwise keeps the mode |
| Keyboard.ShiftIsOneShotCapsLockPersists | app/src/keyboard/input.rs:111-119 | after a typed key, Shift has fallen back to Normal while CapsLock and Normal stay |
| Keyboard.ToggleTwiceFromNormal | app/src/keyboard/input.rs:96-109 | pressing shift twice, or caps twice, from Normal returns to Normal |
| Keyboard.Clamp | app/src/keyboard/input.rs:83-88 | the clamped column lies on the row; it is the old column when that fits and the last column otherwise |
| Keyboard.KeyCodeAction | app/src/keyboard/input.rs:66-72 | space gives Space, another character types itself, backspace gives Backspace, Enter and Esc give Exit, and every other key code gives nothing |
| Keyboard.KeyboardWidget.IsCursorAtRightEdge | app/src/keyboard/input.rs:77-81 | true exactly when the cursor is on the last key of its row |
| Keyboard.KeyboardWidget.ClampCursorCol | app/src/keyboard/input.rs:83-88 | the row and mode are kept and the column is pulled back onto the row |
| Keyboard.KeyboardWidget.PressKey | app/src/keyboard/input.rs:90-122 | the cursor stays. Done exits and the space key gives Space; shift and caps change the mode and give nothing. A typed key gives its display text, shifted unless the mode was Normal, and the mode follows `ModeAfterKey` |
| Keyboard.KeyboardWidget.HandleInput | app/src/keyboard/input.rs:9-74 | the cursor stays on a key. A and B short move right and left with wrap-around. X and Y short and double move up and down one or two rows when that stays in the layout, clamping the column. A double presses the key and B double is backspace. Other presses do nothing, and key events act by their code without moving the cursor |
| Keyboard.RightThenLeft | app/src/keyboard/input.rs:15-33 | a short A then a short B leave cursor and mode as they were, also across the wrap |
| Evdev.Upper | app/src/inputs/evdev.rs:159-184 | a letter key typed with shift gives the matching capital |
| Evdev.DigitChar | app/src/inputs/evdev.rs:188-197 | a number-row key without shift types its digit |
| Evdev.ModifierOf | app/src/inputs/evdev.rs:72-92 | the left and right shift, control and alt keys, and only they, control the shift, control and alt flags |
| Evdev.TranslateKey | app/src/inputs/evdev.rs:124-201 | letters follow shift's case, digits give their digit or `)!@#$%^&*(` with shift, space gives a space, F1 to F12 give function keys, and exactly the modifier keys and unlisted codes give nothing |
| Evdev.OnlyShiftMatters | app/src/inputs/evdev.rs:128-128 | two modifier sets that agree on shift translate every key alike |
| Evdev.NonAlphanumericIgnoresModifiers | app/src/inputs/evdev.rs:130-157 | keys other than letters and digits translate the same whatever the modifiers |
| Evdev.TrackModifiers | app/src/inputs/evdev.rs:69-94 | a modifier key's press sets its flag and its release clears it; repeats, other keys and non-key events keep the flags |
| Evdev.TrackTouchesOwnFlagOnly | app/src/inputs/evdev.rs:71-94 | no event changes a flag other than the one its own key controls |
| Evdev.Emitted | app/src/inputs/evdev.rs:96-114 | an event is emitted exactly for a key press or repeat with a translation. It carries that code and the flags, with an empty state; its kind is Repeat exactly for value 2 and Press otherwise |
| Evdev.ReleaseAndModifierKeysAreSilent | app/src/inputs/evdev.rs:96-114 | a release never produces an event, and neither does a modifier key |
| Evdev.EvdevAdapter.constructor | app/src/inputs/evdev.rs:57-60 | a new adapter has no modifier flag set |
| Evdev.EvdevAdapter.Step | app/src/inputs/evdev.rs:68-116 | one device event updates the flags as `TrackModifiers` says and emits what `Emitted` says for the updated flags |
| Evdev.EvdevAdapter.NextKeyEvent | app/src/inputs/evdev.rs:64-120 | the events of a batch are consumed in order up to the first that emits, and that event is returned; the flags reflect exactly the consumed events, and none of the earlier ones emitted anything; a batch ends with nothing returned only when none of its events emitted |
| Evdev.TrackAllSnoc | app/src/inputs/evdev.rs:67-94 | tracking a sequence and then one more event is tracking the extended sequence |
| Evdev.TrackAll | app/src/inputs/evdev.rs:67-94 | after a sequence of events, the flags whose keys never occur in it keep their values |

## Left out

- Locking: the `flock` on the check and activate lock files is not modelled; each run is treated as exclusive.
- Logging (`logger`, `echo`, tracing) is not modelled: the check outcome and the activation trace stand in for it.
- Ownership and permissions: `chown pi:pi`, `write_script` with mode 0755 and `run` (m2025_12.rs:305-361) are not modelled; only the execute bit of binaries is tracked.
- `START_AMARU_SCRIPT` (m2025_12.rs:284-303) only chooses between `run` and `daemon` at service start; it is not modelled.
- The env file (`source /home/pi/amaru.env`) is replaced by the three override values passed in.
- `curl`, `tar`, `find` and the scratch archive and extract directory are one oracle per binary and URL, giving a download failure, a missing payload or the payload. Only the file at the staging path is modelled.
- JSON is modelled as parsed records. Missing fields and `null`s are shown as `jq -r` prints them: an empty tag, or a URL of "null". An asset whose name is missing or not a string makes jq's `contains` raise an error (m2025_12.rs:107); the model gives every asset a string name. Quoting in the `jq` programs, `IFS='|'` splitting, and keys that jq would misquote are not modelled.
- Records always hold five string fields; records with missing fields, which the `// ""` defaults would cover, are not modelled.
- Activation without a state file is not modelled: `Activate` starts from the loaded snapshot. In the script, `local state_json=$(cat "$STATE_FILE")` (m2025_12.rs:233) takes its exit status from `local`, so the failing `cat` does not stop it. It stops the services and visits no keys. It then writes jq's empty output as an empty state file, starts the services and removes the trigger file. An empty state file is no longer missing for `init_state_file` (m2025_12.rs:56), so every later jq on it yields nothing.
- `mv` onto a directory and read or write failures of the state file are not modelled. A failed install `mv` is modelled as the run stopping with nothing saved or started; it arises when the staged path is the install path.
- Service stop and start failures are ignored by the scripts; here they appear only as trace events.
- `systemctl daemon-reload` after patching, and the existence check, are not modelled beyond the unit's content being absent (`None`).
- Keyboard.KeyboardWidget.constructor: the widget's constructor, `KEYBOARD_LAYOUT` and `get_key_display_string` live in app/src/keyboard/mod.rs and layout.rs, which are not part of this model. The layout and the display function are the widget's parameters. The constructor's start at cursor (0, 0) in Normal mode is an assumption.
- Button presses other than short and double are one `Long` case that does nothing; the button module is not part of this model.
- The evdev device itself is not modelled: opening it (`EvdevAdapter::new`), the blocking `fetch_events`, I/O errors, and the thread and channel that forward events. `NextKeyEvent` covers one batch instead of looping for ever.
- Evdev.TranslateKey: key codes other than those listed are one `KeyOther` case; the model does not distinguish them.
- tui.rs, app.rs, main.rs, the screens, the simulator backend and migrations/mod.rs are not part of this model.

## Findings

| source | as written | input that shows it | evidently intended | confidence | as-written member | corrected member |
|---|---|---|---|---|---|---|
| app/src/migrations/m2025_12.rs:197 | `local staged=$(stage_binary ...)` takes its exit status from `local`, so `abort` on a missing payload (line 131) ends only the command substitution. The script goes on to record the release as pending with an empty staged path. The activation then keeps that record, the installed binary and its backup unchanged (`Activation.PendingWithoutStagedFileIsKept`), and each later check downloads it again | a fresh state; a release `v1.0.0` whose only asset `linux-aarch64.tar.gz` holds no `amaru` binary | the run stops and nothing is recorded for the binary, so a pending version always has its staged file | high (not executed) | Updater.MissingPayloadRecordsUnstagedPending | Updater.CheckOneBinaryWellStaged |
