/**
 * What each command of the loader issues, in which order, under which
 * names, and how each call's reply is judged: one plan per workflow of
 * `src/main.rs`, with the lemmas that state its ordering and clean-up rules.
 */
module Workflows {
  import opened Common
  import opened Paths
  import opened Remote
  import opened Plans

  /** The architecture tag of every bitstream conversion. */
  const Arch := "zynqmp"

  /** The steps that stage one group of artifacts, with the remote names
      they stage in the order they are created; or the steps up to a local
      failure, the last of which is an `Abort`. */
  datatype Stage = Staged(steps: seq<Step>, names: seq<string>) | Halted(steps: seq<Step>)

  /** A stage issues no removal, and a halted one ends in its local failure. */
  predicate WellFormed(s: Stage) {
    RemovesNothing(s.steps) && (s.Halted? ==> s.steps != [] && s.steps[|s.steps| - 1].Abort?)
  }

  predicate AllStaged(stages: seq<Stage>) {
    forall i :: 0 <= i < |stages| ==> stages[i].Staged?
  }

  /** The steps of the stages in order, up to and including the first halted one. */
  function Staging(stages: seq<Stage>): seq<Step> {
    if stages == [] then []
    else if stages[0].Halted? then stages[0].steps
    else stages[0].steps + Staging(stages[1..])
  }

  /** The names the stages create, in creation order. */
  function StagedNames(stages: seq<Stage>): seq<string> {
    if stages == [] || !AllStaged(stages) then []
    else stages[0].names + StagedNames(stages[1..])
  }

  /** The shape shared by `overlay` and `register_accel`: run the stages,
      then the commit step (`load_dtbo`, the registration). */
  function UntilCommit(stages: seq<Stage>, commit: Call, check: Check): seq<Step> {
    if AllStaged(stages) then Staging(stages) + [Issue(commit, check)] else Staging(stages)
  }

  /** ... and then remove every staged name. */
  function WithCleanup(stages: seq<Stage>, commit: Call, check: Check): seq<Step> {
    UntilCommit(stages, commit, check) + Removes(StagedNames(stages))
  }

  lemma {:induction false} StagingFacts(stages: seq<Stage>)
    requires forall i :: 0 <= i < |stages| ==> WellFormed(stages[i])
    ensures RemovesNothing(Staging(stages))
    ensures !AllStaged(stages) ==> Staging(stages) != [] && Staging(stages)[|Staging(stages)| - 1].Abort?
    decreases |stages|
  {
    if stages != [] && stages[0].Staged? {
      assert forall i :: 0 <= i < |stages| - 1 ==> stages[1..][i] == stages[i + 1];
      StagingFacts(stages[1..]);
      RemovesNothingAppend(stages[0].steps, Staging(stages[1..]));
      if !AllStaged(stages) {
        assert !AllStaged(stages[1..]);
        var rest := Staging(stages[1..]);
        assert Staging(stages)[|Staging(stages)| - 1] == rest[|rest| - 1];
      }
    }
  }

  lemma RemovesNothingAppend(a: seq<Step>, b: seq<Step>)
    requires RemovesNothing(a) && RemovesNothing(b)
    ensures RemovesNothing(a + b)
  {
    forall i | 0 <= i < |a + b| ensures !((a + b)[i].Issue? && (a + b)[i].call.Remove?) {
      if i >= |a| { assert (a + b)[i] == b[i - |a|]; }
    }
  }

  /** Clean-up runs only after the commit: nothing is removed unless every
      stage and the commit passed, and then the staged names are removed in
      creation order right after the commit (stopping at the first failed
      removal, as `DrainStopsAtFirstFault` says). On any earlier failure the
      run ends there and the staged names stay uploaded. */
  lemma CleanupOnlyAfterStagedCommit(respond: seq<Call> -> Reply, past: seq<Call>, stages: seq<Stage>, commit: Call, check: Check)
    requires forall i :: 0 <= i < |stages| ==> WellFormed(stages[i])
    requires !commit.Remove?
    ensures var committed := Run(respond, past, UntilCommit(stages, commit, check));
      var o := Run(respond, past, WithCleanup(stages, commit, check));
      && (committed.status.Err? ==> o == committed && forall i :: 0 <= i < |o.issued| ==> !o.issued[i].Remove?)
      && (committed.status.Ok? ==>
            var d := Run(respond, past + committed.issued, Removes(StagedNames(stages)));
            && AllStaged(stages)
            && committed.issued[|committed.issued| - 1] == commit
            && Passes(respond(past + committed.issued), check)
            && o == Outcome(d.status, committed.issued + d.issued))
  {
    StagingFacts(stages);
    var until := UntilCommit(stages, commit, check);
    RunOkHasNoAbort(respond, past, until);
    if AllStaged(stages) {
      RemovesNothingAppend(Staging(stages), [Issue(commit, check)]);
      if Run(respond, past, until).status.Ok? {
        CommitPassed(respond, past, Staging(stages), commit, check);
      }
    }
    CleanupOnlyAfterCommit(respond, past, until, StagedNames(stages));
  }

  /** After a successful run of stages, commit and clean-up, the agent holds
      none of the staged names. */
  lemma CleanupLeavesNothingStaged(base: set<string>, respond: seq<Call> -> Reply, past: seq<Call>, stages: seq<Stage>, commit: Call, check: Check)
    requires Run(respond, past, WithCleanup(stages, commit, check)).status.Ok?
    ensures var o := Run(respond, past, WithCleanup(stages, commit, check));
      forall n :: n in StagedNames(stages) ==> n !in Replay(base, respond, past + o.issued)
  {
    var names := StagedNames(stages);
    var until := UntilCommit(stages, commit, check);
    RunAppend(respond, past, until, Removes(names));
    var x := Run(respond, past, until);
    var t := past + x.issued;
    DrainSucceedsIffAllAnswered(respond, t, names);
    RemovalsLeaveNone(base, respond, t, names);
    assert past + Run(respond, past, WithCleanup(stages, commit, check)).issued == t + RemoveCalls(names);
  }

  /** Every stage of a sequence is staged when its head and tail are. */
  lemma AllStagedCons(s: Stage, rest: seq<Stage>)
    ensures AllStaged([s] + rest) <==> s.Staged? && AllStaged(rest)
  {
    assert forall i :: 0 < i < |rest| + 1 ==> ([s] + rest)[i] == rest[i - 1];
    if s.Staged? && AllStaged(rest) {
      forall i | 0 <= i < |rest| + 1 ensures ([s] + rest)[i].Staged? {
        if i > 0 { assert ([s] + rest)[i] == rest[i - 1]; }
      }
    }
    if AllStaged([s] + rest) {
      assert ([s] + rest)[0] == s;
      forall i | 0 <= i < |rest| ensures rest[i].Staged? {
        assert ([s] + rest)[i + 1] == rest[i];
      }
    }
  }

  /** The names of staged stages: the head's first. */
  lemma StagedNamesCons(s: Stage, rest: seq<Stage>)
    requires s.Staged? && AllStaged([s] + rest)
    ensures StagedNames([s] + rest) == s.names + StagedNames(rest)
  {
    assert ([s] + rest)[1..] == rest;
  }

  /** Two staged stages stage the names of both, the first's first. */
  lemma TwoStaged(a: Stage, b: Stage)
    requires a.Staged? && b.Staged?
    ensures AllStaged([a] + [b]) && StagedNames([a] + [b]) == a.names + b.names
  {
    AllStagedCons(a, [b]);
    AllStagedCons(b, []);
    StagedNamesCons(a, [b]);
    StagedNamesCons(b, []);
  }

  /** A plan of two stages, read as nested prefixes: each stage's steps run
      only if the stage before was staged. */
  lemma CleanupShape2(a: Stage, b: Stage, commit: Call, check: Check)
    ensures WithCleanup([a, b], commit, check) ==
      a.steps + (if a.Halted? then [] else
      b.steps + (if b.Halted? then [] else
      [Issue(commit, check)] + Removes(a.names + b.names)))
  {
    var ss := [a, b];
    assert ss[1..] == [b] && ss[1..][1..] == [];
    assert Staging([b]) == b.steps;
    if a.Staged? && b.Staged? {
      assert StagedNames([b]) == b.names + StagedNames([]);
      assert AllStaged(ss);
    } else if a.Halted? {
      assert ss[0].Halted?;
    } else {
      assert ss[1].Halted?;
    }
  }

  /** The same for three stages. */
  lemma CleanupShape3(a: Stage, b: Stage, c: Stage, commit: Call, check: Check)
    ensures WithCleanup([a, b, c], commit, check) ==
      a.steps + (if a.Halted? then [] else
      b.steps + (if b.Halted? then [] else
      c.steps + (if c.Halted? then [] else
      [Issue(commit, check)] + Removes(a.names + b.names + c.names))))
  {
    var ss := [a, b, c];
    assert ss[1..] == [b, c] && ss[1..][1..] == [c] && ss[1..][1..][1..] == [];
    assert Staging([c]) == c.steps;
    assert Staging([b, c]) == if b.Halted? then b.steps else b.steps + c.steps;
    if a.Staged? && b.Staged? && c.Staged? {
      assert StagedNames([c]) == c.names + StagedNames([]);
      assert AllStaged([b, c]);
      assert StagedNames([b, c]) == b.names + c.names;
      assert AllStaged(ss);
      assert a.names + (b.names + c.names) == a.names + b.names + c.names;
    } else if a.Halted? {
      assert ss[0].Halted?;
    } else if b.Halted? {
      assert ss[1].Halted?;
    } else {
      assert ss[2].Halted?;
    }
  }

  /** The names of three staged stages, in order. */
  lemma RegisterNames(stages: seq<Stage>)
    requires |stages| == 3 && AllStaged(stages)
    ensures StagedNames(stages) == stages[0].names + stages[1].names + stages[2].names
  {
    assert stages[1..][1..] == [stages[2]] && stages[1..][1..][1..] == [];
    assert StagedNames(stages[1..][1..]) == stages[2].names + StagedNames([]);
  }

  /** `bitdownload`: upload, load, remove, all under the bitstream's file name. */
  function BitdownloadPlan(bitstreamFile: string): (r: seq<Step>)
    ensures FileName(bitstreamFile).None? <==> r == [Abort(InvalidName(Bitstream))]
    ensures FileName(bitstreamFile).Some? ==>
      var n := FileName(bitstreamFile).value;
      && |r| == 3 && RemovesNothing(r[..2])
      && r[0] == Issue(UploadFile(n, bitstreamFile), TransportOnly)
      && r[2] == Issue(Remove(n), TransportOnly)
  {
    match FileName(bitstreamFile)
    case None => [Abort(InvalidName(Bitstream))]
    case Some(n) =>
      [Issue(UploadFile(n, bitstreamFile), TransportOnly),
       Issue(LoadBitstream(n), TransportOnly),
       Issue(Remove(n), TransportOnly)]
  }

  /** A bitstream uploaded under its file name (its reply judged by
      `check`) and converted by the agent into `<name>.bin`, whose reply
      only has to arrive. */
  function ConvertedImage(bitstreamFile: string, check: Check): (s: Stage)
    ensures WellFormed(s) && (s.Staged? ==> |s.names| == 2)
  {
    match FileName(bitstreamFile)
    case None => Halted([Abort(InvalidName(Bitstream))])
    case Some(b) =>
      Staged([Issue(UploadFile(b, bitstreamFile), check),
              Issue(BitstreamToBin(b, ConvertedBinName(b), Arch), TransportOnly)],
             [b, ConvertedBinName(b)])
  }

  /** An image uploaded as it is, under its file name. */
  function PlainImage(binFile: string, check: Check): (s: Stage)
    ensures WellFormed(s) && (s.Staged? ==> |s.names| == 1)
  {
    match FileName(binFile)
    case None => Halted([Abort(InvalidName(Bin))])
    case Some(n) => Staged([Issue(UploadFile(n, binFile), check)], [n])
  }

  /** `overlay`'s optional image: the `--bit` file is uploaded and converted,
      otherwise the `--bin` file is uploaded; both uploads ignore the
      returned boolean. */
  function ImageByOption(bitFile: Option<string>, binFile: Option<string>): (s: Stage)
    ensures WellFormed(s) && (s.Staged? ==> |s.names| <= 2)
  {
    if bitFile.Some? then ConvertedImage(bitFile.value, TransportOnly)
    else if binFile.Some? then PlainImage(binFile.value, TransportOnly)
    else Staged([], [])
  }

  /** `register_accel`'s image: a path ending in `.bit` is uploaded and
      converted, any other path is uploaded as the image; both uploads fail
      on `false`. */
  function ImageBySuffix(bitstreamFile: string): (s: Stage)
    ensures WellFormed(s) && (s.Staged? ==> 1 <= |s.names| <= 2)
  {
    if EndsWith(bitstreamFile, ".bit") then ConvertedImage(bitstreamFile, FlagTrue)
    else PlainImage(bitstreamFile, FlagTrue)
  }

  /** The overlay of both `overlay` and `register_accel`: a `.dts` path is
      compiled by the agent from the text read locally (`dtsText`, None when
      the read fails); any other path is uploaded as it is. */
  function OverlayStage(dtboFile: string, dtsText: Option<string>, useStem: bool): (s: Stage)
    ensures WellFormed(s) && (s.Staged? ==> |s.names| == 1)
  {
    if EndsWith(dtboFile, ".dts") then
      match dtsText
      case None => Halted([Abort(ReadFailed)])
      case Some(text) => CompiledOverlay(dtboFile, text, useStem)
    else DirectOverlay(dtboFile)
  }

  /** A `.dts` overlay: `dts_to_dtb` must answer `true`, and its bytes are
      uploaded under the derived name, ignoring the returned boolean. */
  function CompiledOverlay(dtsFile: string, text: string, useStem: bool): (s: Stage)
    ensures WellFormed(s) && (s.Staged? ==> |s.names| == 1)
  {
    match OverlayName(dtsFile, useStem)
    case None => Halted([Issue(DtsToDtb(text), FlagTrue), Abort(InvalidName(Dts))])
    case Some(o) => Staged([Issue(DtsToDtb(text), FlagTrue), UploadConverted(o)], [o])
  }

  /** A compiled overlay uploaded under its file name, failing on `false`. */
  function DirectOverlay(dtboFile: string): (s: Stage)
    ensures WellFormed(s) && (s.Staged? ==> |s.names| == 1)
  {
    match FileName(dtboFile)
    case None => Halted([Abort(InvalidName(Dtbo))])
    case Some(o) => Staged([Issue(UploadFile(o, dtboFile), FlagTrue)], [o])
  }

  /** `register_accel`'s optional metadata, uploaded under its file name,
      failing on `false`. */
  function JsonStage(jsonFile: Option<string>): (s: Stage)
    ensures WellFormed(s) && (s.Staged? ==> |s.names| <= 1)
  {
    match jsonFile
    case None => Staged([], [])
    case Some(j) =>
      match FileName(j)
      case None => Halted([Abort(InvalidName(Json))])
      case Some(n) => Staged([Issue(UploadFile(n, j), FlagTrue)], [n])
  }

  /** The names `overlay`'s image stage creates. */
  lemma ImageByOptionNames(bitFile: Option<string>, binFile: Option<string>)
    requires ImageByOption(bitFile, binFile).Staged?
    ensures bitFile.Some? ==>
      FileName(bitFile.value).Some?
      && ImageByOption(bitFile, binFile).names == [FileName(bitFile.value).value, FileName(bitFile.value).value + ".bin"]
    ensures bitFile.None? && binFile.Some? ==>
      FileName(binFile.value).Some? && ImageByOption(bitFile, binFile).names == [FileName(binFile.value).value]
    ensures bitFile.None? && binFile.None? ==> ImageByOption(bitFile, binFile).names == []
  {
  }

  /** The names `register_accel`'s image stage creates. */
  lemma ImageBySuffixNames(bitstreamFile: string)
    requires ImageBySuffix(bitstreamFile).Staged?
    ensures FileName(bitstreamFile).Some?
    ensures var b := FileName(bitstreamFile).value;
      ImageBySuffix(bitstreamFile).names == if EndsWith(bitstreamFile, ".bit") then [b, b + ".bin"] else [b]
  {
  }

  /** The one name an overlay stage creates. */
  lemma OverlayStageNames(dtboFile: string, dtsText: Option<string>, useStem: bool)
    requires OverlayStage(dtboFile, dtsText, useStem).Staged?
    ensures FileName(dtboFile).Some?
    ensures var n := FileName(dtboFile).value;
      OverlayStage(dtboFile, dtsText, useStem).names ==
        [if !EndsWith(dtboFile, ".dts") then n else if useStem && |n| > 4 then n[..|n| - 4] + ".dtbo" else n + ".dtbo"]
  {
    if EndsWith(dtboFile, ".dts") {
      var text := dtsText.value;
      assert OverlayStage(dtboFile, dtsText, useStem) == CompiledOverlay(dtboFile, text, useStem);
      DtsOverlayNames(dtboFile);
      var o := OverlayName(dtboFile, useStem).value;
      assert CompiledOverlay(dtboFile, text, useStem).names == [o];
    } else {
      assert OverlayStage(dtboFile, dtsText, useStem) == DirectOverlay(dtboFile);
    }
  }

  /** The name the metadata stage creates, if any. */
  lemma JsonStageNames(jsonFile: Option<string>)
    requires JsonStage(jsonFile).Staged?
    ensures jsonFile.Some? ==> FileName(jsonFile.value).Some?
    ensures JsonStage(jsonFile).names == if jsonFile.Some? then [FileName(jsonFile.value).value] else []
  {
  }

  /** A path without a file name ends its stage with the matching error
      before any call is issued for that artifact. */
  lemma MissingNameIssuesNothing(respond: seq<Call> -> Reply, past: seq<Call>, path: string, check: Check,
                                  dtsText: Option<string>, useStem: bool)
    requires FileName(path).None?
    ensures Run(respond, past, ConvertedImage(path, check).steps) == Outcome(Err(InvalidName(Bitstream)), [])
    ensures Run(respond, past, PlainImage(path, check).steps) == Outcome(Err(InvalidName(Bin)), [])
    ensures Run(respond, past, OverlayStage(path, dtsText, useStem).steps) == Outcome(Err(InvalidName(Dtbo)), [])
    ensures Run(respond, past, JsonStage(Some(path)).steps) == Outcome(Err(InvalidName(Json)), [])
  {
    if EndsWith(path, ".dts") {
      DtsOverlayNames(path);
      assert false;
    }
  }

  /** The remote name of a staged overlay. */
  function Target(ov: Stage): string {
    if ov.Staged? && ov.names != [] then ov.names[0] else ""
  }

  /** `overlay`'s stages: the optional image, then the overlay by file name. */
  function OverlayStages(dtboFile: string, bitFile: Option<string>, binFile: Option<string>, dtsText: Option<string>): (r: seq<Stage>)
  {
    [ImageByOption(bitFile, binFile), OverlayStage(dtboFile, dtsText, false)]
  }

  /** `overlay`: stage, apply with `load_dtbo` (failing on `false`), then
      remove every name of `uploaded_files`. */
  function OverlayPlan(dtboFile: string, bitFile: Option<string>, binFile: Option<string>, dtsText: Option<string>): (r: seq<Step>)
    ensures var stages := OverlayStages(dtboFile, bitFile, binFile, dtsText);
      && (!AllStaged(stages) ==> r == Staging(stages) && RemovesNothing(r))
      && (AllStaged(stages) ==>
            r == Staging(stages) + [Issue(LoadDtbo(stages[1].names[0]), FlagTrue)] + Removes(StagedNames(stages)))
  {
    var stages := OverlayStages(dtboFile, bitFile, binFile, dtsText);
    assert forall i :: 0 <= i < |stages| ==> WellFormed(stages[i]) by {
      assert stages == [stages[0], stages[1]];
    }
    StagingFacts(stages);
    WithCleanup(stages, LoadDtbo(Target(stages[1])), FlagTrue)
  }

  /** The optional metadata name handed to the registration. */
  function JsonName(js: Stage): Option<string> {
    if js.Staged? && js.names != [] then Some(js.names[0]) else None
  }

  /** The image name handed to the registration: the last name its stage created. */
  function ImageName(img: Stage): string {
    if img.Staged? && img.names != [] then img.names[|img.names| - 1] else ""
  }

  /** `register_accel`'s stages: the image by suffix, the overlay by stem,
      the optional metadata. */
  function RegisterStages(bitstreamFile: string, dtboFile: string, jsonFile: Option<string>, dtsText: Option<string>): (r: seq<Stage>)
  {
    [ImageBySuffix(bitstreamFile), OverlayStage(dtboFile, dtsText, true), JsonStage(jsonFile)]
  }

  /** The registration call, with the trailing flag the source passes as `true`. */
  function Registration(accelName: string, stages: seq<Stage>): (r: Call)
    requires |stages| == 3
    ensures r.RegisterAccel? && r.accel == accelName && r.flag
    ensures r.json.Some? <==> stages[2].Staged? && stages[2].names != []
  {
    RegisterAccel(accelName, ImageName(stages[0]), Target(stages[1]), JsonName(stages[2]), true)
  }

  /** `register_accel`: stage, register (failing only on a transport error),
      then remove the bitstream, image, overlay and metadata names. */
  function RegisterPlan(accelName: string, bitstreamFile: string, dtboFile: string, jsonFile: Option<string>, dtsText: Option<string>): (r: seq<Step>)
    ensures var stages := RegisterStages(bitstreamFile, dtboFile, jsonFile, dtsText);
      && (!AllStaged(stages) ==> r == Staging(stages) && RemovesNothing(r))
      && (AllStaged(stages) ==>
            r == Staging(stages) + [Issue(Registration(accelName, stages), TransportOnly)] + Removes(StagedNames(stages)))
  {
    var stages := RegisterStages(bitstreamFile, dtboFile, jsonFile, dtsText);
    assert forall i :: 0 <= i < |stages| ==> WellFormed(stages[i]) by {
      assert stages == [stages[0], stages[1], stages[2]];
    }
    StagingFacts(stages);
    WithCleanup(stages, Registration(accelName, stages), TransportOnly)
  }

  /** `unregister_accel`: one call, failing only on a transport error. */
  function UnregisterPlan(accelName: string): (r: seq<Step>)
    ensures |r| == 1 && RemovesNothing(r)
  {
    [Issue(UnregisterAccel(accelName), TransportOnly)]
  }

  /** `load`: one call, failing also on `false`. */
  function LoadPlan(accelName: string): (r: seq<Step>)
    ensures |r| == 1 && RemovesNothing(r)
  {
    [Issue(LoadAccel(accelName), FlagTrue)]
  }

  /** `unload`: one call, failing also on `false`. */
  function UnloadPlan(slot: Slot): (r: seq<Step>)
    ensures |r| == 1 && RemovesNothing(r)
  {
    [Issue(UnloadSlot(slot), FlagTrue)]
  }

  /** `dts2dtbo` up to the local write: compile the text read locally. */
  function ConvertPlan(dtsText: Option<string>): (r: seq<Step>)
    ensures |r| == 1 && RemovesNothing(r)
    ensures r[0].Abort? <==> dtsText.None?
    ensures r[0].Abort? ==> r[0].error == ReadFailed
  {
    match dtsText
    case None => [Abort(ReadFailed)]
    case Some(text) => [Issue(DtsToDtb(text), FlagTrue)]
  }

  // ----- bitdownload -----

  /** `bitdownload` issues upload, load and removal in that order, all on the
      bitstream's file name, and removes only after both earlier calls were
      answered; with no file name it fails before issuing anything. */
  lemma BitdownloadOrder(respond: seq<Call> -> Reply, past: seq<Call>, bitstreamFile: string)
    ensures FileName(bitstreamFile).None? ==>
      Run(respond, past, BitdownloadPlan(bitstreamFile)) == Outcome(Err(InvalidName(Bitstream)), [])
    ensures FileName(bitstreamFile).Some? ==>
      var n := FileName(bitstreamFile).value;
      var up, load, rm := UploadFile(n, bitstreamFile), LoadBitstream(n), Remove(n);
      var o := Run(respond, past, BitdownloadPlan(bitstreamFile));
      && o.issued <= [up, load, rm]
      && (rm in o.issued <==> respond(past + [up]).Answer? && respond(past + [up, load]).Answer?)
      && (o.status.Ok? <==>
            respond(past + [up]).Answer? && respond(past + [up, load]).Answer? && respond(past + [up, load, rm]).Answer?)
  {
    if FileName(bitstreamFile).Some? {
      var n := FileName(bitstreamFile).value;
      var up, load, rm := UploadFile(n, bitstreamFile), LoadBitstream(n), Remove(n);
      var plan := BitdownloadPlan(bitstreamFile);
      assert plan == [Issue(up, TransportOnly), Issue(load, TransportOnly), Issue(rm, TransportOnly)];
      assert plan[1..] == [Issue(load, TransportOnly), Issue(rm, TransportOnly)];
      assert plan[1..][1..] == [Issue(rm, TransportOnly)];
      assert past + [up] + [load] == past + [up, load];
      assert past + [up, load] + [rm] == past + [up, load, rm];
      var o3 := Run(respond, past + [up, load], plan[1..][1..]);
      var o2 := Run(respond, past + [up], plan[1..]);
      var o := Run(respond, past, plan);
      if respond(past + [up]).Fault? {
        assert o == Outcome(Err(Transport(up)), [up]);
      } else if respond(past + [up, load]).Fault? {
        assert o2 == Outcome(Err(Transport(load)), [load]);
        assert o == Outcome(Err(Transport(load)), [up, load]);
      } else {
        SingleCall(respond, past + [up, load], rm, TransportOnly);
        assert o2 == Outcome(o3.status, [load, rm]);
        assert o == Outcome(o3.status, [up, load, rm]);
      }
    }
  }

  // ----- overlay and register_accel -----

  /** `--bit` wins over `--bin`. */
  lemma OverlayBitWins(dtboFile: string, bitFile: string, binFile: Option<string>, dtsText: Option<string>)
    ensures OverlayPlan(dtboFile, Some(bitFile), binFile, dtsText) == OverlayPlan(dtboFile, Some(bitFile), None, dtsText)
  {
  }

  /** `uploaded_files` of `overlay`: the bitstream then its converted image,
      or else the bin file, and then the overlay, named after its `.dts`
      file name plus `.dtbo` or after its own file name. An image given as
      `--bin` is never converted, whatever its suffix. */
  lemma OverlayLedgerOrder(dtboFile: string, bitFile: Option<string>, binFile: Option<string>, dtsText: Option<string>)
    requires AllStaged(OverlayStages(dtboFile, bitFile, binFile, dtsText))
    ensures FileName(dtboFile).Some?
    ensures var o := if EndsWith(dtboFile, ".dts") then FileName(dtboFile).value + ".dtbo" else FileName(dtboFile).value;
      var ledger := StagedNames(OverlayStages(dtboFile, bitFile, binFile, dtsText));
      && Target(OverlayStages(dtboFile, bitFile, binFile, dtsText)[1]) == o
      && (bitFile.Some? ==>
            FileName(bitFile.value).Some?
            && ledger == [FileName(bitFile.value).value, FileName(bitFile.value).value + ".bin", o])
      && (bitFile.None? && binFile.Some? ==>
            FileName(binFile.value).Some? && ledger == [FileName(binFile.value).value, o])
      && (bitFile.None? && binFile.None? ==> ledger == [o])
  {
    var a := ImageByOption(bitFile, binFile);
    var b := OverlayStage(dtboFile, dtsText, false);
    assert OverlayStages(dtboFile, bitFile, binFile, dtsText) == [a] + [b];
    AllStagedCons(a, [b]);
    AllStagedCons(b, []);
    StagedNamesCons(a, [b]);
    StagedNamesCons(b, []);
    ImageByOptionNames(bitFile, binFile);
    OverlayStageNames(dtboFile, dtsText, false);
  }

  /** The clean-up list of `register_accel`: the bitstream (only for a
      `.bit` path), its `.bin` image or else the bin file, the overlay
      (stem plus `.dtbo` for a `.dts` path), and the metadata if given. */
  lemma RegisterCleanupOrder(bitstreamFile: string, dtboFile: string, jsonFile: Option<string>, dtsText: Option<string>)
    requires AllStaged(RegisterStages(bitstreamFile, dtboFile, jsonFile, dtsText))
    ensures FileName(bitstreamFile).Some? && FileName(dtboFile).Some?
    ensures jsonFile.Some? ==> FileName(jsonFile.value).Some?
    ensures var b := FileName(bitstreamFile).value;
      var n := FileName(dtboFile).value;
      var o := if !EndsWith(dtboFile, ".dts") then n else if |n| > 4 then n[..|n| - 4] + ".dtbo" else n + ".dtbo";
      var j := if jsonFile.Some? then [FileName(jsonFile.value).value] else [];
      StagedNames(RegisterStages(bitstreamFile, dtboFile, jsonFile, dtsText))
        == (if EndsWith(bitstreamFile, ".bit") then [b, b + ".bin"] else [b]) + [o] + j
  {
    RegisterNames(RegisterStages(bitstreamFile, dtboFile, jsonFile, dtsText));
    ImageBySuffixNames(bitstreamFile);
    OverlayStageNames(dtboFile, dtsText, true);
    JsonStageNames(jsonFile);
  }

  /** The registration call of `register_accel`: the accelerator name,
      `b.bin` for a `.bit` path `b` (else the bin file's name), the overlay's
      name (stem plus `.dtbo` for a `.dts` path), the metadata's name if
      given, and `true`. */
  lemma RegistrationArguments(accelName: string, bitstreamFile: string, dtboFile: string, jsonFile: Option<string>, dtsText: Option<string>)
    requires AllStaged(RegisterStages(bitstreamFile, dtboFile, jsonFile, dtsText))
    ensures FileName(bitstreamFile).Some? && FileName(dtboFile).Some?
    ensures jsonFile.Some? ==> FileName(jsonFile.value).Some?
    ensures var b := FileName(bitstreamFile).value;
      var n := FileName(dtboFile).value;
      var o := if !EndsWith(dtboFile, ".dts") then n else if |n| > 4 then n[..|n| - 4] + ".dtbo" else n + ".dtbo";
      var j := if jsonFile.Some? then Some(FileName(jsonFile.value).value) else None;
      Registration(accelName, RegisterStages(bitstreamFile, dtboFile, jsonFile, dtsText))
        == RegisterAccel(accelName, if EndsWith(bitstreamFile, ".bit") then b + ".bin" else b, o, j, true)
  {
    var stages := RegisterStages(bitstreamFile, dtboFile, jsonFile, dtsText);
    assert stages[0].Staged? && stages[1].Staged? && stages[2].Staged?;
    ImageBySuffixNames(bitstreamFile);
    OverlayStageNames(dtboFile, dtsText, true);
    JsonStageNames(jsonFile);
  }

  /** `unregister_accel` fails only on a transport error; `load` and
      `unload` fail also when the agent answers `false`. Each issues its one
      call and nothing else. */
  lemma OneCallCommands(respond: seq<Call> -> Reply, past: seq<Call>, accelName: string, slot: Slot)
    ensures var c := UnregisterAccel(accelName); var o := Run(respond, past, UnregisterPlan(accelName));
      o.issued == [c] && (o.status.Ok? <==> respond(past + [c]).Answer?)
    ensures var c := LoadAccel(accelName); var o := Run(respond, past, LoadPlan(accelName));
      o.issued == [c] && (o.status.Ok? <==> respond(past + [c]).Answer? && respond(past + [c]).flag)
    ensures var c := UnloadSlot(slot); var o := Run(respond, past, UnloadPlan(slot));
      o.issued == [c] && (o.status.Ok? <==> respond(past + [c]).Answer? && respond(past + [c]).flag)
  {
    SingleCall(respond, past, UnregisterAccel(accelName), TransportOnly);
    SingleCall(respond, past, LoadAccel(accelName), FlagTrue);
    SingleCall(respond, past, UnloadSlot(slot), FlagTrue);
  }

  /** `overlay` removes nothing unless `load_dtbo` answered `true` after every
      earlier step passed; then it removes `uploaded_files` in order, right
      after it. Any earlier failure leaves the staged names uploaded. */
  lemma OverlayCleanupOnlyAfterApply(respond: seq<Call> -> Reply, past: seq<Call>, dtboFile: string,
                                     bitFile: Option<string>, binFile: Option<string>, dtsText: Option<string>)
    ensures var stages := OverlayStages(dtboFile, bitFile, binFile, dtsText);
      var load := LoadDtbo(Target(stages[1]));
      var applied := Run(respond, past, UntilCommit(stages, load, FlagTrue));
      var o := Run(respond, past, OverlayPlan(dtboFile, bitFile, binFile, dtsText));
      && (applied.status.Err? ==> o == applied && forall i :: 0 <= i < |o.issued| ==> !o.issued[i].Remove?)
      && (applied.status.Ok? ==>
            var d := Run(respond, past + applied.issued, Removes(StagedNames(stages)));
            && AllStaged(stages)
            && applied.issued[|applied.issued| - 1] == load
            && respond(past + applied.issued).Answer? && respond(past + applied.issued).flag
            && o == Outcome(d.status, applied.issued + d.issued))
  {
    var a, b := ImageByOption(bitFile, binFile), OverlayStage(dtboFile, dtsText, false);
    var stages := [a, b];
    assert OverlayStages(dtboFile, bitFile, binFile, dtsText) == stages;
    forall i | 0 <= i < |stages| ensures WellFormed(stages[i]) {
      if i == 0 { assert stages[i] == a; } else { assert stages[i] == b; }
    }
    CleanupOnlyAfterStagedCommit(respond, past, stages, LoadDtbo(Target(b)), FlagTrue);
  }

  /** After a successful `overlay` the agent holds none of the staged names. */
  lemma OverlayLeavesNothingStaged(base: set<string>, respond: seq<Call> -> Reply, past: seq<Call>, dtboFile: string,
                                   bitFile: Option<string>, binFile: Option<string>, dtsText: Option<string>)
    requires Run(respond, past, OverlayPlan(dtboFile, bitFile, binFile, dtsText)).status.Ok?
    ensures var o := Run(respond, past, OverlayPlan(dtboFile, bitFile, binFile, dtsText));
      forall n :: n in StagedNames(OverlayStages(dtboFile, bitFile, binFile, dtsText)) ==> n !in Replay(base, respond, past + o.issued)
  {
    var stages := OverlayStages(dtboFile, bitFile, binFile, dtsText);
    CleanupLeavesNothingStaged(base, respond, past, stages, LoadDtbo(Target(stages[1])), FlagTrue);
  }

  /** `register_accel` removes nothing unless the registration was answered
      after every earlier step passed; then it removes its clean-up list in
      order, right after it. */
  lemma RegisterCleanupOnlyAfterRegistration(respond: seq<Call> -> Reply, past: seq<Call>, accelName: string,
                                             bitstreamFile: string, dtboFile: string, jsonFile: Option<string>, dtsText: Option<string>)
    ensures var stages := RegisterStages(bitstreamFile, dtboFile, jsonFile, dtsText);
      var reg := Registration(accelName, stages);
      var registered := Run(respond, past, UntilCommit(stages, reg, TransportOnly));
      var o := Run(respond, past, RegisterPlan(accelName, bitstreamFile, dtboFile, jsonFile, dtsText));
      && (registered.status.Err? ==> o == registered && forall i :: 0 <= i < |o.issued| ==> !o.issued[i].Remove?)
      && (registered.status.Ok? ==>
            var d := Run(respond, past + registered.issued, Removes(StagedNames(stages)));
            && AllStaged(stages)
            && registered.issued[|registered.issued| - 1] == reg
            && respond(past + registered.issued).Answer?
            && o == Outcome(d.status, registered.issued + d.issued))
  {
    var a, b, c := ImageBySuffix(bitstreamFile), OverlayStage(dtboFile, dtsText, true), JsonStage(jsonFile);
    var stages := [a, b, c];
    assert RegisterStages(bitstreamFile, dtboFile, jsonFile, dtsText) == stages;
    forall i | 0 <= i < |stages| ensures WellFormed(stages[i]) {
      if i == 0 { assert stages[i] == a; } else if i == 1 { assert stages[i] == b; } else { assert stages[i] == c; }
    }
    CleanupOnlyAfterStagedCommit(respond, past, stages, Registration(accelName, stages), TransportOnly);
  }

  /** After a successful `register_accel` the agent holds none of the names
      it staged. */
  lemma RegisterLeavesNothingStaged(base: set<string>, respond: seq<Call> -> Reply, past: seq<Call>, accelName: string,
                                    bitstreamFile: string, dtboFile: string, jsonFile: Option<string>, dtsText: Option<string>)
    requires Run(respond, past, RegisterPlan(accelName, bitstreamFile, dtboFile, jsonFile, dtsText)).status.Ok?
    ensures var o := Run(respond, past, RegisterPlan(accelName, bitstreamFile, dtboFile, jsonFile, dtsText));
      forall n :: n in StagedNames(RegisterStages(bitstreamFile, dtboFile, jsonFile, dtsText)) ==> n !in Replay(base, respond, past + o.issued)
  {
    var stages := RegisterStages(bitstreamFile, dtboFile, jsonFile, dtsText);
    CleanupLeavesNothingStaged(base, respond, past, stages, Registration(accelName, stages), TransportOnly);
  }
}
