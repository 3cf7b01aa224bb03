# jelly-fpga-loader: staged workflows and naming

`jelly-fpga-loader` is a command-line tool that drives a remote FPGA
management agent through `JellyFpgaClient`. Each command is a fixed sequence
of RPCs:

- `bitdownload` uploads a bitstream, loads it and removes it.
- `overlay` stages an optional image and a device-tree overlay, applies the
  overlay with `load_dtbo`, then removes every staged file.
- `register_accel` stages an image, an overlay and optional metadata,
  registers them as an accelerator package, then removes them.
- `unregister_accel`, `load` and `unload` are single calls.
- `dts2dtbo` has the agent compile a device-tree source and writes the
  result locally.

The model has two parts.

- **Naming** (module `Paths`, pure functions and lemmas). It covers:
  - Rust's `Path::file_name` and `Path::file_stem` on Unix paths;
  - the `.bin` name of a converted bitstream;
  - the two `.dtbo` names of a compiled overlay: the file name plus `.dtbo`
    in `overlay`, the stem plus `.dtbo` in `register_accel`.
- **Workflows** (modules `Remote`, `Plans`, `Workflows`, `Loader`).
  - `Remote.FpgaClient` is a class holding three things:
    - the firmware names the agent holds;
    - the append-only trace of issued calls;
    - an oracle giving the reply to the last call of any trace. Every mix
      of success, `false` and transport error is therefore covered.
  - Each command is an imperative method in `Loader`. It is proved to issue
    exactly the calls of its plan and to return that plan's status.
    `dts2dtbo` is the one exception: when the plan succeeds, the local
    write that follows can still fail, and that failure is its status.
  - A plan (`Workflows`) lists a command's steps. `Plans.Run` gives them
    their fail-fast meaning: the first step that fails ends the command,
    and nothing after it is issued.
  - Each step keeps the source's own way of judging a reply:
    - some call sites fail only on a transport error and ignore the
      returned boolean (`TransportOnly`);
    - others also fail on `false` (`FlagTrue`).
  - The ordering and clean-up rules are lemmas about the plans.

`overlay` and `register_accel` share one shape. They run a list of stages,
where each stage either uploads some artifacts and records their names or
halts on a local error. Then they issue a commit call (`load_dtbo`, or the
registration), then they remove the recorded names in order. Clean-up runs
only when the commit and every earlier step passed, and it stops at the
first removal that fails.

## Model

| member | source | states |
|---|---|---|
| Paths.FileName | src/main.rs:113-116 | The remote name of a path, when it exists, is a plain name: non-empty, without `/`, and neither `.` nor `..`. |
| Paths.Stem | src/main.rs:287-289 | The stem is a prefix of the file name, and it is non-empty when the name is. |
| Paths.FileNameOfPlainName | src/main.rs:113-116 | A plain name is its own file name. |
| Paths.FileNameOfJoin | src/main.rs:113-116 | The file name of `dir/n` is `n` whatever the directory part is, so the remote name is the final component. |
| Paths.FileNameIgnoresTrailingSeparator | src/main.rs:113-116 | A trailing `/` does not change the file name. |
| Paths.NoFileNameAtRoot | src/main.rs:113-116 | The empty path and `/` have no file name. |
| Paths.NoFileNameOfParent | src/main.rs:113-116 | A path ending in `/..` has no file name. |
| Paths.FileNameOfSuffixedPath | src/main.rs:239-243 | A path ending in `.bit` or `.dts` (any separator-free suffix not ending in `.`) always has a file name, and that name keeps the suffix. |
| Paths.StemOfExtension | src/main.rs:287-291 | For `P.ext` with `P` non-empty, the stem is `P`. |
| Paths.StemOfBareExtension | src/main.rs:287-291 | A bare `.ext` is its own stem. |
| Paths.FileStem | src/main.rs:287-289 | The stem exists exactly when the file name does. It is then a non-empty prefix of the file name. |
| Paths.ConvertedBinName | src/main.rs:153 | The converted image's name is the bitstream's name followed by `.bin`, four characters longer. |
| Paths.OverlayName | src/main.rs:185-189 | A compiled overlay's name exists exactly when the `.dts` path has a file name. It ends in `.dtbo`, and what precedes that is the file name in `overlay` and a prefix of it (the stem) in `register_accel` (lines 287-291). |
| Paths.ConvertedBinNameKeepsExtension | src/main.rs:153 | `P.bit` converts to `P.bit.bin`, never to `P.bin`, and converting a name twice does not give the same name. |
| Paths.DtsOverlayNames | src/main.rs:185-189 | For a `.dts` path named `n`, `overlay` uploads `n.dtbo` and `register_accel` uploads the stem plus `.dtbo` (lines 286-291). Both names always exist. |
| Remote.FpgaClient.constructor | src/main.rs:78-79 | A new connection has an empty trace and the given firmware set, and it is valid. |
| Remote.FpgaClient.Rpc | src/main.rs:119-120 | One RPC appends its call to the trace, returns the oracle's reply, and updates the firmware set by that call's effect. |
| Remote.Effect | src/main.rs:220-223 | A transport error changes nothing. An answered removal deletes exactly its name. Other calls delete nothing, and only an upload or a conversion can add a name: its own name or its target. |
| Remote.ReplayRemovals | src/main.rs:220-223 | Removals that all got an answer take exactly their names out of the firmware set. |
| Remote.RemovalsLeaveNone | src/main.rs:220-223 | After answered removals, none of the removed names is held. |
| Plans.Run | src/main.rs:118-128 | A run issues at most one call per step, and a successful run issues exactly one per step. |
| Plans.RunOkHasNoAbort | src/main.rs:113-116 | A run that succeeds met no local failure. |
| Plans.RunAppend | src/main.rs:118-128 | Running `a + b` is running `a`; `b` runs only if `a` succeeded, and its calls follow `a`'s. |
| Plans.SingleCall | src/main.rs:368-375 | With `FlagTrue` an answer of `false` fails as a rejection; with `TransportOnly` any answer passes; a transport error always fails. |
| Plans.Removes | src/main.rs:220-223 | The clean-up has one step per name, in order. Each step removes that name and fails only on a transport error. |
| Plans.RemovesAppend | src/main.rs:339-348 | Removing one list and then another is removing their concatenation. |
| Plans.DrainStopsAtFirstFault | src/main.rs:220-223 | Removals are issued in order, one per name. Each issued removal before the last one was answered. The drain ends at the end with its last removal answered, or at the first unanswered removal with that error. |
| Plans.DrainSucceedsIffAllAnswered | src/main.rs:220-223 | The drain succeeds exactly when every removal is answered, and then it issued one removal per name, in order. |
| Plans.CleanupOnlyAfterCommit | src/main.rs:213-223 | If the steps up to the commit fail, the run ends there with no removal issued. If they pass, the removals run right after. |
| Plans.CommitPassed | src/main.rs:213-217 | When a plan ending in a commit succeeds, the commit was its last call and its reply passed the commit's check. |
| Workflows.BitdownloadPlan | src/main.rs:113-128 | Without a file name the plan is the invalid-name error alone. Otherwise it has three steps: it uploads the file under its name, then a step that removes nothing, then removes that same name. Both upload and removal fail only on a transport error. |
| Workflows.OverlayPlan | src/main.rs:134-223 | Over the stages of `overlay` (optional image, then overlay): if a stage halts, the plan ends with it and removes nothing. Otherwise `load_dtbo` of the overlay's name follows the stages, failing on `false`, and then the staged names are removed in order. |
| Workflows.Registration | src/main.rs:328-331 | The registration call names the accelerator and passes `true`. It carries a metadata name exactly when the metadata stage staged one. |
| Workflows.RegisterPlan | src/main.rs:238-349 | Over the stages of `register_accel` (image, overlay, metadata): if a stage halts, the plan ends with it and removes nothing. Otherwise the registration follows the stages, failing only on a transport error, and then the staged names are removed in order. |
| Workflows.UnregisterPlan | src/main.rs:355-363 | `unregister_accel` is one step that removes nothing. |
| Workflows.LoadPlan | src/main.rs:365-378 | `load` is one step that removes nothing. |
| Workflows.UnloadPlan | src/main.rs:380-390 | `unload` is one step that removes nothing. |
| Workflows.OneCallCommands | src/main.rs:355-390 | Each of `unregister_accel`, `load` and `unload` issues its one call and nothing else. `unregister_accel` succeeds iff that call was answered; `load` and `unload` succeed iff it was answered `true`. |
| Workflows.ConvertPlan | src/main.rs:395-405 | `dts2dtbo` before the write is one step that removes nothing. It is the read-failure error exactly when the `.dts` file could not be read. |
| Workflows.ConvertedImage | src/main.rs:140-157 | Converting a bitstream stages exactly two names (the bitstream and its image) and issues no removal. Without a file name it halts on its local error. |
| Workflows.PlainImage | src/main.rs:158-168 | Uploading an image stages exactly one name, or halts on its local error. |
| Workflows.ImageByOption | src/main.rs:139-169 | `overlay`'s image stage stages at most two names and issues no removal. |
| Workflows.ImageBySuffix | src/main.rs:238-271 | `register_accel`'s image stage stages one or two names and issues no removal. |
| Workflows.OverlayStage | src/main.rs:171-211 | The overlay stage stages exactly one name, or halts on its local error. |
| Workflows.CompiledOverlay | src/main.rs:171-195 | A compiled overlay stages exactly one name, or halts after the compilation. |
| Workflows.DirectOverlay | src/main.rs:196-211 | A direct overlay stages exactly one name, or halts before any call. |
| Workflows.JsonStage | src/main.rs:311-326 | The metadata stage stages at most one name, or halts on its local error. |
| Workflows.ImageByOptionNames | src/main.rs:139-169 | `--bit P` stages `[n, n.bin]` for its file name `n`; otherwise `--bin P` stages `[n]`; with neither, nothing is staged. |
| Workflows.ImageBySuffixNames | src/main.rs:238-271 | A `.bit` path stages `[n, n.bin]`, and any other path stages `[n]`. |
| Workflows.OverlayStageNames | src/main.rs:171-211 | The overlay is staged as its file name, or for a `.dts` path as file name or stem plus `.dtbo`. |
| Workflows.JsonStageNames | src/main.rs:311-326 | Metadata is staged under its file name, and nothing is staged without it. |
| Workflows.MissingNameIssuesNothing | src/main.rs:142-145 | A path without a file name fails its stage with the matching invalid-name error before any call for that artifact, for each of bitstream, bin, overlay and metadata. |
| Workflows.CleanupOnlyAfterStagedCommit | src/main.rs:213-223 | On any failure up to the commit, nothing is removed and the run ends there. Otherwise every stage was staged, the commit was the last call and passed its check, and the staged names are removed right after it, in creation order. |
| Workflows.CleanupLeavesNothingStaged | src/main.rs:219-223 | After a successful run, the agent holds none of the staged names. |
| Workflows.CleanupShape2 | src/main.rs:137-223 | With two stages, each stage runs only if the one before was staged, and the commit and removals follow only when both were. |
| Workflows.CleanupShape3 | src/main.rs:238-349 | The same holds for three stages. |
| Workflows.BitdownloadOrder | src/main.rs:113-128 | Issues upload, load and removal of the same file name in that order. The removal is issued iff upload and load were answered. Success iff all three were answered. With no file name, it fails before any call. |
| Workflows.OverlayBitWins | src/main.rs:140-169 | `--bit` wins over `--bin`: the plan does not depend on `--bin` when `--bit` is given. |
| Workflows.OverlayLedgerOrder | src/main.rs:137-211 | `uploaded_files` is `[b, b.bin, o]` for `--bit`, `[n, o]` for `--bin` and `[o]` otherwise. The overlay `o` is its `.dts` file name plus `.dtbo`, or its own file name, and `load_dtbo` is issued on `o` (line 214). |
| Workflows.RegisterCleanupOrder | src/main.rs:333-349 | The clean-up list is the bitstream and `b.bin` for a `.bit` path (else the bin file), then the overlay (stem plus `.dtbo` for `.dts`), then the metadata if given. |
| Workflows.RegistrationArguments | src/main.rs:328-331 | When every stage is staged, the registration passes the accelerator name, then `b.bin` for a `.bit` path named `b` (else the bin file's name `b`), then the overlay's name (stem plus `.dtbo` for `.dts`), then the metadata's name if given, then `true`. |
| Workflows.OverlayCleanupOnlyAfterApply | src/main.rs:213-223 | `overlay` removes nothing unless `load_dtbo` answered `true` after every earlier step passed; then it removes `uploaded_files` in order, right after it. |
| Workflows.OverlayLeavesNothingStaged | src/main.rs:219-223 | After a successful `overlay`, the agent holds none of the staged names. |
| Workflows.RegisterCleanupOnlyAfterRegistration | src/main.rs:328-349 | `register_accel` removes nothing unless the registration was answered after every earlier step passed; then it removes its list in order, right after it. |
| Workflows.RegisterLeavesNothingStaged | src/main.rs:333-349 | After a successful `register_accel`, the agent holds none of the staged names. |
| Loader.Perform | src/main.rs:203-206 | Issues one call and returns the reply. The status is `Ok` iff the reply passes the call site's check. |
| Loader.RemoveOne | src/main.rs:220-223 | One more removal extends the clean-up run by exactly that removal. |
| Loader.RemoveNext | src/main.rs:342-348 | A failed removal ends the clean-up: the remaining names are never attempted. |
| Loader.Bitdownload | src/main.rs:109-132 | Issues exactly the calls of the `bitdownload` plan and returns its status. |
| Loader.StageConvertedImage | src/main.rs:140-157 | Runs the converted-image stage and returns its two names. |
| Loader.StagePlainImage | src/main.rs:158-168 | Runs the plain-image stage and returns its name. |
| Loader.StageImageByOption | src/main.rs:139-169 | Runs `overlay`'s image stage and returns the names it pushed. |
| Loader.StageImageBySuffix | src/main.rs:238-271 | Runs `register_accel`'s image stage and returns its names, the image last: two names for `.bit`, otherwise one. |
| Loader.StageOverlay | src/main.rs:171-211 | Runs the overlay stage and returns its name. |
| Loader.StageCompiledOverlay | src/main.rs:171-195 | Compiles, checks the flag, derives the name and uploads the returned bytes under it, as the stage says. |
| Loader.StageDirectOverlay | src/main.rs:196-211 | Uploads the overlay under its file name and fails on `false`. |
| Loader.StageJson | src/main.rs:311-326 | Uploads the optional metadata and returns its name. |
| Loader.StageOverlayInputs | src/main.rs:137-211 | Runs `overlay`'s stages. On success it returns `uploaded_files`, equal to the staged names, and the overlay's name. |
| Loader.RemoveAll | src/main.rs:219-223 | The `for` loop issues exactly the drain's removals and returns its status. |
| Loader.Overlay | src/main.rs:134-227 | Issues exactly the `overlay` plan's calls and returns its status. On success the agent holds none of the staged names. |
| Loader.StageAccelerator | src/main.rs:238-326 | Runs `register_accel`'s stages and returns the names handed to the registration and to the clean-up. |
| Loader.RemoveAccelerator | src/main.rs:333-349 | Removes the bitstream (for `.bit`), the image, the overlay and the metadata in that order, stopping at the first failure. |
| Loader.RegisterAccelerator | src/main.rs:229-353 | Issues exactly the `register_accel` plan's calls and returns its status. On success the agent holds none of the staged names. |
| Loader.Unregister | src/main.rs:355-363 | One call, failing only on a transport error. |
| Loader.Load | src/main.rs:365-378 | Fails on `false` as well as on a transport error. It returns the reported slot exactly when it succeeds; `slot` stands for the slot the source prints at line 372. |
| Loader.Unload | src/main.rs:380-390 | Fails on `false` as well as on a transport error. |
| Loader.Dts2Dtbo | src/main.rs:392-413 | The write gets exactly the returned bytes, and only after the compilation answered `true`. A failed read issues nothing. A failed write is the final error. |

## Left out

- Command-line parsing (`Cli`, `Commands`, lines 6-71) is not modelled. This includes the default slot `0` of `unload`, which is a parser attribute.
- Connecting to the agent and the dispatch in `main` (lines 74-107) are not modelled. The dispatch passes `register_accel`'s `bitstream_file` and `dtbo_file` in the order the function declares, while the command line declares `dtbo_file` first. The model takes the function's parameter order.
- `JellyFpgaClient` itself is not part of this model. Its replies come from an oracle over the trace. How a reply changes the agent's firmware set (`Remote.Effect`) is an assumption: a completed upload reported `true` adds its name, a completed conversion adds its target, and a completed removal deletes its name.
- Reading the `.dts` file and writing the `.dtbo` file are parameters: the text read, or none when the read fails, and whether the write succeeds. Local file contents are otherwise not modelled.
- `println!` output and the text of error messages are not modelled. Each failure carries a tag naming the failing call or local step.
- `async`/`await` is not modelled. Every call is awaited before the next, so the sequence is all that remains.
- `to_str` on a file name cannot fail here, because strings are sequences of characters. Windows path prefixes are not modelled; paths follow Unix rules.
- Loader.RemoveAccelerator: the source re-derives the bitstream's file name before removing it (lines 335-338). The method reuses the name staged earlier. That derivation already succeeded on the same path, so its "Invalid bitstream filename" error cannot occur and is not modelled.
- Workflows.CompiledOverlay keeps the "Invalid DTS filename" error (lines 185-188 and 287-290), although `Paths.DtsOverlayNames` proves a path ending in `.dts` always has both names, so that error is never reached.
- Clean-up stops at the first removal that fails, in both `overlay` (the `?` at line 222) and `register_accel` (lines 340-348). A best-effort drain that keeps going after a failure is not what the code does, so it is not modelled.
