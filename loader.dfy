/**
 * The command handlers of `jelly-fpga-loader` as they run against a
 * connected client: each one issues its RPCs one after another, judges each
 * reply where the source judges it, returns at the first failure and
 * otherwise goes on to the next call. Each handler is proved to issue
 * exactly the calls of its plan and to return exactly the plan's status.
 */
module Loader {
  import opened Common
  import opened Paths
  import opened Remote
  import opened Plans
  import opened Workflows

  /** Running `steps` after the calls `past` returned `status` and left the
      calls of `now` issued. */
  ghost predicate Traced(respond: seq<Call> -> Reply, past: seq<Call>, steps: seq<Step>, status: Status, now: seq<Call>) {
    var o := Run(respond, past, steps);
    status == o.status && now == past + o.issued
  }

  /** The client has run `steps` since its calls were `past`, with result `status`. */
  ghost predicate Ran(client: FpgaClient, past: seq<Call>, steps: seq<Step>, status: Status)
    reads client
  {
    Traced(client.respond, past, steps, status, client.trace)
  }

  lemma TracedThen(respond: seq<Call> -> Reply, past: seq<Call>, mid: seq<Call>, now: seq<Call>, a: seq<Step>, b: seq<Step>, status: Status)
    requires Traced(respond, past, a, Ok, mid) && Traced(respond, mid, b, status, now)
    ensures Traced(respond, past, a + b, status, now)
  {
    RunAppend(respond, past, a, b);
  }

  lemma TracedStop(respond: seq<Call> -> Reply, past: seq<Call>, now: seq<Call>, a: seq<Step>, b: seq<Step>, e: Error)
    requires Traced(respond, past, a, Err(e), now)
    ensures Traced(respond, past, a + b, Err(e), now)
  {
    RunAppend(respond, past, a, b);
  }

  /** A stage that failed ends the staging. */
  lemma StagingHead(respond: seq<Call> -> Reply, past: seq<Call>, now: seq<Call>, s: Stage, rest: seq<Stage>, e: Error)
    requires Traced(respond, past, s.steps, Err(e), now)
    ensures Traced(respond, past, Staging([s] + rest), Err(e), now)
  {
    assert ([s] + rest)[1..] == rest;
    if s.Staged? {
      TracedStop(respond, past, now, s.steps, Staging(rest), e);
    } else {
      assert Staging([s] + rest) == s.steps;
    }
  }

  /** A stage that passed hands over to the next ones. */
  lemma StagingTail(respond: seq<Call> -> Reply, past: seq<Call>, mid: seq<Call>, now: seq<Call>, s: Stage, rest: seq<Stage>, r: Status)
    requires s.Staged? && Traced(respond, past, s.steps, Ok, mid) && Traced(respond, mid, Staging(rest), r, now)
    ensures Traced(respond, past, Staging([s] + rest), r, now)
  {
    assert ([s] + rest)[1..] == rest;
    TracedThen(respond, past, mid, now, s.steps, Staging(rest), r);
  }

  lemma StagingOne(s: Stage)
    ensures Staging([s]) == s.steps
  {
    assert [s][1..] == [];
  }

  /** A failure while staging ends the whole workflow, before the commit. */
  lemma StagingFailed(respond: seq<Call> -> Reply, past: seq<Call>, now: seq<Call>, stages: seq<Stage>, commit: Call, check: Check, e: Error)
    requires Traced(respond, past, Staging(stages), Err(e), now)
    ensures Traced(respond, past, WithCleanup(stages, commit, check), Err(e), now)
  {
    var tail := (if AllStaged(stages) then [Issue(commit, check)] else []) + Removes(StagedNames(stages));
    assert WithCleanup(stages, commit, check) == Staging(stages) + tail;
    TracedStop(respond, past, now, Staging(stages), tail, e);
  }

  /** Issues `c` and judges its reply by `check`. */
  method Perform(client: FpgaClient, c: Call, check: Check) returns (r: Status, reply: Reply)
    requires client.Valid()
    modifies client
    ensures client.Valid()
    ensures Ran(client, old(client.trace), [Issue(c, check)], r)
    ensures reply == client.respond(client.trace)
    ensures r.Ok? <==> Passes(reply, check)
  {
    reply := client.Rpc(c);
    RunOne(client.respond, old(client.trace), c, check);
    if Passes(reply, check) {
      r := Ok;
    } else {
      r := Err(Refusal(c, reply));
    }
  }

  /** `Perform` where the caller needs only the status. */
  method Invoke(client: FpgaClient, c: Call, check: Check) returns (r: Status)
    requires client.Valid()
    modifies client
    ensures client.Valid()
    ensures Ran(client, old(client.trace), [Issue(c, check)], r)
  {
    var reply;
    r, reply := Perform(client, c, check);
  }

  /** One removal of the clean-up, after the removals of `done`. */
  method RemoveOne(client: FpgaClient, name: string, ghost applied: seq<Call>, ghost done: seq<string>) returns (r: Status)
    requires client.Valid() && Ran(client, applied, Removes(done), Ok)
    modifies client
    ensures client.Valid() && Ran(client, applied, Removes(done + [name]), r)
  {
    ghost var mid := client.trace;
    r := Invoke(client, Remove(name), TransportOnly);
    RemovesAppend(done, [name]);
    assert Removes([name]) == [Issue(Remove(name), TransportOnly)];
    TracedThen(client.respond, applied, mid, client.trace, Removes(done), [Issue(Remove(name), TransportOnly)], r);
  }

  /** A removal that failed ends the whole clean-up. */
  lemma DrainStopped(respond: seq<Call> -> Reply, applied: seq<Call>, now: seq<Call>, done: seq<string>, rest: seq<string>, e: Error)
    requires Traced(respond, applied, Removes(done), Err(e), now)
    ensures Traced(respond, applied, Removes(done + rest), Err(e), now)
  {
    RemovesAppend(done, rest);
    TracedStop(respond, applied, now, Removes(done), Removes(rest), e);
  }

  /** `bitdownload` (lines 109-132). */
  method Bitdownload(client: FpgaClient, bitstreamFile: string) returns (r: Status)
    requires client.Valid()
    modifies client
    ensures client.Valid()
    ensures Ran(client, old(client.trace), BitdownloadPlan(bitstreamFile), r)
  {
    ghost var past := client.trace;
    var filename := FileName(bitstreamFile);
    if filename.None? {
      r := Err(InvalidName(Bitstream));
      return;
    }
    var n := filename.value;
    var up := [Issue(UploadFile(n, bitstreamFile), TransportOnly)];
    var load := [Issue(LoadBitstream(n), TransportOnly)];
    var rm := [Issue(Remove(n), TransportOnly)];
    assert BitdownloadPlan(bitstreamFile) == up + load + rm;
    r := Invoke(client, UploadFile(n, bitstreamFile), TransportOnly);
    if r.Err? {
      TracedStop(client.respond, past, client.trace, up, load + rm, r.error);
      assert up + (load + rm) == up + load + rm;
      return;
    }
    ghost var mid := client.trace;
    r := Invoke(client, LoadBitstream(n), TransportOnly);
    TracedThen(client.respond, past, mid, client.trace, up, load, r);
    if r.Err? {
      TracedStop(client.respond, past, client.trace, up + load, rm, r.error);
      return;
    }
    mid := client.trace;
    r := Invoke(client, Remove(n), TransportOnly);
    TracedThen(client.respond, past, mid, client.trace, up + load, rm, r);
  }

  /** Uploads a bitstream and has the agent convert it (lines 140-157 and
      239-256); returns the bitstream's name and the image's. */
  method StageConvertedImage(client: FpgaClient, bitstreamFile: string, check: Check) returns (r: Status, names: seq<string>)
    requires client.Valid()
    modifies client
    ensures client.Valid()
    ensures var s := ConvertedImage(bitstreamFile, check);
      Ran(client, old(client.trace), s.steps, r) && (r.Ok? ==> s.Staged? && names == s.names)
  {
    ghost var past := client.trace;
    names := [];
    var bitstreamName := FileName(bitstreamFile);
    if bitstreamName.None? {
      r := Err(InvalidName(Bitstream));
      return;
    }
    var b := bitstreamName.value;
    ghost var up := [Issue(UploadFile(b, bitstreamFile), check)];
    r := Invoke(client, UploadFile(b, bitstreamFile), check);
    if r.Err? {
      TracedStop(client.respond, past, client.trace, up, [Issue(BitstreamToBin(b, ConvertedBinName(b), Arch), TransportOnly)], r.error);
      return;
    }
    ghost var mid := client.trace;
    var binName := ConvertedBinName(b);
    r := Invoke(client, BitstreamToBin(b, binName, Arch), TransportOnly);
    TracedThen(client.respond, past, mid, client.trace, up, [Issue(BitstreamToBin(b, binName, Arch), TransportOnly)], r);
    names := [b, binName];
  }

  /** Uploads an image as it is (lines 158-168 and 257-270); returns its name. */
  method StagePlainImage(client: FpgaClient, binFile: string, check: Check) returns (r: Status, names: seq<string>)
    requires client.Valid()
    modifies client
    ensures client.Valid()
    ensures var s := PlainImage(binFile, check);
      Ran(client, old(client.trace), s.steps, r) && (r.Ok? ==> s.Staged? && names == s.names)
  {
    names := [];
    var binName := FileName(binFile);
    if binName.None? {
      r := Err(InvalidName(Bin));
      return;
    }
    r := Invoke(client, UploadFile(binName.value, binFile), check);
    names := [binName.value];
  }

  /** The optional image of `overlay` (lines 139-169); returns the names it
      staged. */
  method StageImageByOption(client: FpgaClient, bitFile: Option<string>, binFile: Option<string>) returns (r: Status, names: seq<string>)
    requires client.Valid()
    modifies client
    ensures client.Valid()
    ensures var s := ImageByOption(bitFile, binFile);
      Ran(client, old(client.trace), s.steps, r) && (r.Ok? ==> s.Staged? && names == s.names)
  {
    if bitFile.Some? {
      r, names := StageConvertedImage(client, bitFile.value, TransportOnly);
    } else if binFile.Some? {
      r, names := StagePlainImage(client, binFile.value, TransportOnly);
    } else {
      r, names := Ok, [];
      assert Run(client.respond, client.trace, []) == Outcome(Ok, []);
    }
  }

  /** The image of `register_accel` (lines 238-271); returns the names it
      staged, the image's name last. */
  method StageImageBySuffix(client: FpgaClient, bitstreamFile: string) returns (r: Status, names: seq<string>)
    requires client.Valid()
    modifies client
    ensures client.Valid()
    ensures var s := ImageBySuffix(bitstreamFile);
      Ran(client, old(client.trace), s.steps, r) && (r.Ok? ==> s.Staged? && names == s.names)
    ensures r.Ok? ==> |names| == (if EndsWith(bitstreamFile, ".bit") then 2 else 1)
  {
    if EndsWith(bitstreamFile, ".bit") {
      r, names := StageConvertedImage(client, bitstreamFile, FlagTrue);
    } else {
      r, names := StagePlainImage(client, bitstreamFile, FlagTrue);
    }
  }

  /** The overlay of `overlay` (lines 171-211, `useStem` false) and of
      `register_accel` (lines 273-309, `useStem` true); returns the name it
      staged. */
  method StageOverlay(client: FpgaClient, dtboFile: string, dtsText: Option<string>, useStem: bool) returns (r: Status, dtboName: string)
    requires client.Valid()
    modifies client
    ensures client.Valid()
    ensures var s := OverlayStage(dtboFile, dtsText, useStem);
      Ran(client, old(client.trace), s.steps, r) && (r.Ok? ==> s.Staged? && [dtboName] == s.names)
  {
    if EndsWith(dtboFile, ".dts") {
      if dtsText.None? {
        r, dtboName := Err(ReadFailed), "";
        return;
      }
      r, dtboName := StageCompiledOverlay(client, dtboFile, dtsText.value, useStem);
    } else {
      r, dtboName := StageDirectOverlay(client, dtboFile);
    }
  }

  /** The `.dts` branch (lines 172-195 and 274-296). */
  method StageCompiledOverlay(client: FpgaClient, dtsFile: string, text: string, useStem: bool) returns (r: Status, dtboName: string)
    requires client.Valid()
    modifies client
    ensures client.Valid()
    ensures var s := CompiledOverlay(dtsFile, text, useStem);
      Ran(client, old(client.trace), s.steps, r) && (r.Ok? ==> s.Staged? && [dtboName] == s.names)
  {
    ghost var past := client.trace;
    ghost var s := CompiledOverlay(dtsFile, text, useStem);
    dtboName := "";
    var compile := Issue(DtsToDtb(text), FlagTrue);
    assert s.steps == [compile] + s.steps[1..];
    var reply;
    r, reply := Perform(client, DtsToDtb(text), FlagTrue);
    if r.Err? {
      TracedStop(client.respond, past, client.trace, [compile], s.steps[1..], r.error);
      return;
    }
    ghost var mid := client.trace;
    var overlayName := OverlayName(dtsFile, useStem);
    if overlayName.None? {
      r := Err(InvalidName(Dts));
      assert s.steps[1..] == [Abort(InvalidName(Dts))];
      TracedThen(client.respond, past, mid, mid, [compile], [Abort(InvalidName(Dts))], r);
      return;
    }
    dtboName := overlayName.value;
    assert s.steps[1..] == [UploadConverted(dtboName)];
    r := Invoke(client, UploadBytes(dtboName, reply.payload), TransportOnly);
    assert CallOf(client.respond, mid, UploadConverted(dtboName)) == UploadBytes(dtboName, reply.payload);
    TracedThen(client.respond, past, mid, client.trace, [compile], [UploadConverted(dtboName)], r);
  }

  /** The other branch (lines 196-211 and 297-309). */
  method StageDirectOverlay(client: FpgaClient, dtboFile: string) returns (r: Status, dtboName: string)
    requires client.Valid()
    modifies client
    ensures client.Valid()
    ensures var s := DirectOverlay(dtboFile);
      Ran(client, old(client.trace), s.steps, r) && (r.Ok? ==> s.Staged? && [dtboName] == s.names)
  {
    var name := FileName(dtboFile);
    if name.None? {
      r, dtboName := Err(InvalidName(Dtbo)), "";
      return;
    }
    dtboName := name.value;
    r := Invoke(client, UploadFile(dtboName, dtboFile), FlagTrue);
  }

  /** The optional metadata of `register_accel` (lines 311-326); returns
      its name. */
  method StageJson(client: FpgaClient, jsonFile: Option<string>) returns (r: Status, jsonName: Option<string>)
    requires client.Valid()
    modifies client
    ensures client.Valid()
    ensures var s := JsonStage(jsonFile);
      Ran(client, old(client.trace), s.steps, r)
      && (r.Ok? ==> s.Staged? && s.names == (if jsonName.Some? then [jsonName.value] else []))
  {
    jsonName := None;
    if jsonFile.Some? {
      var name := FileName(jsonFile.value);
      if name.None? {
        r := Err(InvalidName(Json));
        return;
      }
      r := Invoke(client, UploadFile(name.value, jsonFile.value), FlagTrue);
      jsonName := Some(name.value);
    } else {
      r := Ok;
    }
  }

  /** The staging of `overlay` (lines 137-211): the optional image, then the
      overlay; returns `uploaded_files` and the overlay's name. */
  method StageOverlayInputs(client: FpgaClient, dtboFile: string, bitFile: Option<string>, binFile: Option<string>,
                            dtsText: Option<string>) returns (r: Status, uploaded: seq<string>, dtboName: string)
    requires client.Valid()
    modifies client
    ensures client.Valid()
    ensures var stages := OverlayStages(dtboFile, bitFile, binFile, dtsText);
      && Ran(client, old(client.trace), Staging(stages), r)
      && (r.Ok? ==> AllStaged(stages) && uploaded == StagedNames(stages) && dtboName == Target(stages[1]))
  {
    ghost var past := client.trace;
    ghost var a, b := ImageByOption(bitFile, binFile), OverlayStage(dtboFile, dtsText, false);
    assert OverlayStages(dtboFile, bitFile, binFile, dtsText) == [a] + [b];
    dtboName := "";
    r, uploaded := StageImageByOption(client, bitFile, binFile);
    if r.Err? {
      StagingHead(client.respond, past, client.trace, a, [b], r.error);
      return;
    }
    ghost var mid := client.trace;
    r, dtboName := StageOverlay(client, dtboFile, dtsText, false);
    StagingOne(b);
    StagingTail(client.respond, past, mid, client.trace, a, [b], r);
    if r.Err? {
      return;
    }
    TwoStaged(a, b);
    uploaded := uploaded + [dtboName];
  }

  /** The clean-up loop of `overlay` (lines 219-223): removes `names` in
      order and stops at the first removal that fails. */
  method RemoveAll(client: FpgaClient, names: seq<string>) returns (r: Status)
    requires client.Valid()
    modifies client
    ensures client.Valid()
    ensures Ran(client, old(client.trace), Removes(names), r)
  {
    ghost var applied := client.trace;
    var i := 0;
    while i < |names|
      invariant 0 <= i <= |names|
      invariant client.Valid()
      invariant Ran(client, applied, Removes(names[..i]), Ok)
    {
      assert names[..i + 1] == names[..i] + [names[i]];
      r := RemoveOne(client, names[i], applied, names[..i]);
      if r.Err? {
        assert names == names[..i + 1] + names[i + 1..];
        DrainStopped(client.respond, applied, client.trace, names[..i + 1], names[i + 1..], r.error);
        return;
      }
      i := i + 1;
    }
    assert names[..i] == names;
    r := Ok;
  }

  /** `overlay` (lines 134-227): on success the agent holds none of the
      names it staged. */
  method Overlay(client: FpgaClient, dtboFile: string, bitFile: Option<string>, binFile: Option<string>, dtsText: Option<string>)
    returns (r: Status)
    requires client.Valid()
    modifies client
    ensures client.Valid()
    ensures Ran(client, old(client.trace), OverlayPlan(dtboFile, bitFile, binFile, dtsText), r)
    ensures r.Ok? ==> forall n :: n in StagedNames(OverlayStages(dtboFile, bitFile, binFile, dtsText)) ==> n !in client.firmware
  {
    ghost var past := client.trace;
    ghost var stages := OverlayStages(dtboFile, bitFile, binFile, dtsText);
    ghost var load := LoadDtbo(Target(stages[1]));
    var uploaded, dtboName;
    r, uploaded, dtboName := StageOverlayInputs(client, dtboFile, bitFile, binFile, dtsText);
    if r.Err? {
      StagingFailed(client.respond, past, client.trace, stages, load, FlagTrue, r.error);
      return;
    }
    ghost var until := UntilCommit(stages, load, FlagTrue);
    ghost var mid := client.trace;
    r := Invoke(client, LoadDtbo(dtboName), FlagTrue);
    TracedThen(client.respond, past, mid, client.trace, Staging(stages), [Issue(load, FlagTrue)], r);
    if r.Err? {
      TracedStop(client.respond, past, client.trace, until, Removes(uploaded), r.error);
      return;
    }
    ghost var applied := client.trace;
    r := RemoveAll(client, uploaded);
    TracedThen(client.respond, past, applied, client.trace, until, Removes(uploaded), r);
    if r.Ok? {
      CleanupLeavesNothingStaged(client.base, client.respond, past, stages, load, FlagTrue);
    }
  }

  /** The staging of `register_accel` (lines 238-326): the image, the
      overlay and the metadata, with the names the registration is given. */
  method StageAccelerator(client: FpgaClient, bitstreamFile: string, dtboFile: string,
                          jsonFile: Option<string>, dtsText: Option<string>)
    returns (r: Status, binNames: seq<string>, dtboName: string, jsonName: Option<string>)
    requires client.Valid()
    modifies client
    ensures client.Valid()
    ensures var stages := RegisterStages(bitstreamFile, dtboFile, jsonFile, dtsText);
      && Ran(client, old(client.trace), Staging(stages), r)
      && (r.Ok? ==>
            && AllStaged(stages)
            && |binNames| == (if EndsWith(bitstreamFile, ".bit") then 2 else 1)
            && StagedNames(stages) == binNames + [dtboName] + (if jsonName.Some? then [jsonName.value] else [])
            && ImageName(stages[0]) == binNames[|binNames| - 1]
            && Target(stages[1]) == dtboName
            && JsonName(stages[2]) == jsonName)
  {
    ghost var past := client.trace;
    ghost var a, b, c := ImageBySuffix(bitstreamFile), OverlayStage(dtboFile, dtsText, true), JsonStage(jsonFile);
    assert RegisterStages(bitstreamFile, dtboFile, jsonFile, dtsText) == [a] + [b, c];
    assert [b, c] == [b] + [c];
    dtboName, jsonName := "", None;
    r, binNames := StageImageBySuffix(client, bitstreamFile);
    if r.Err? {
      StagingHead(client.respond, past, client.trace, a, [b, c], r.error);
      return;
    }
    ghost var mid := client.trace;
    r, dtboName := StageOverlay(client, dtboFile, dtsText, true);
    if r.Err? {
      StagingHead(client.respond, mid, client.trace, b, [c], r.error);
      StagingTail(client.respond, past, mid, client.trace, a, [b, c], r);
      return;
    }
    ghost var mid2 := client.trace;
    r, jsonName := StageJson(client, jsonFile);
    StagingOne(c);
    StagingTail(client.respond, mid, mid2, client.trace, b, [c], r);
    StagingTail(client.respond, past, mid, client.trace, a, [b, c], r);
    if r.Ok? {
      ThreeStaged(a, b, c, binNames, dtboName, jsonName);
    }
  }

  /** What three staged stages hand to the registration and its clean-up. */
  lemma ThreeStaged(a: Stage, b: Stage, c: Stage, binNames: seq<string>, dtboName: string, jsonName: Option<string>)
    requires a.Staged? && b.Staged? && c.Staged?
    requires a.names == binNames && |binNames| > 0 && b.names == [dtboName]
    requires c.names == (if jsonName.Some? then [jsonName.value] else [])
    ensures AllStaged([a, b, c])
    ensures StagedNames([a, b, c]) == binNames + [dtboName] + (if jsonName.Some? then [jsonName.value] else [])
    ensures ImageName(a) == binNames[|binNames| - 1] && Target(b) == dtboName && JsonName(c) == jsonName
  {
    assert [a, b, c] == [a] + [b, c] && [b, c] == [b] + [c] && [c] == [c] + [];
    AllStagedCons(c, []);
    AllStagedCons(b, [c]);
    AllStagedCons(a, [b, c]);
    StagedNamesCons(c, []);
    StagedNamesCons(b, [c]);
    StagedNamesCons(a, [b, c]);
  }

  /** One removal of a clean-up whose names are `done`, `name`, `rest`: on
      a failure the rest is never attempted. */
  method RemoveNext(client: FpgaClient, name: string, ghost applied: seq<Call>, ghost done: seq<string>, ghost rest: seq<string>)
    returns (r: Status)
    requires client.Valid() && Ran(client, applied, Removes(done), Ok)
    modifies client
    ensures client.Valid()
    ensures r.Ok? ==> Ran(client, applied, Removes(done + [name]), Ok)
    ensures r.Err? ==> Ran(client, applied, Removes(done + [name] + rest), r)
  {
    r := RemoveOne(client, name, applied, done);
    if r.Err? {
      DrainStopped(client.respond, applied, client.trace, done + [name], rest, r.error);
    }
  }

  /** The clean-up of `register_accel` (lines 333-349): the bitstream (for
      a `.bit` path), the image, the overlay and the metadata, in that
      order, each removal after the previous one was answered. */
  method RemoveAccelerator(client: FpgaClient, bitstreamFile: string, binNames: seq<string>, dtboName: string,
                           jsonName: Option<string>) returns (r: Status)
    requires client.Valid()
    requires |binNames| == (if EndsWith(bitstreamFile, ".bit") then 2 else 1)
    modifies client
    ensures client.Valid()
    ensures Ran(client, old(client.trace),
                Removes(binNames + [dtboName] + (if jsonName.Some? then [jsonName.value] else [])), r)
  {
    ghost var applied := client.trace;
    ghost var js := if jsonName.Some? then [jsonName.value] else [];
    var binName := binNames[|binNames| - 1];
    ghost var first := binNames[..|binNames| - 1];
    assert first + [binName] == binNames;
    assert Run(client.respond, applied, Removes([])).issued == [];
    if EndsWith(bitstreamFile, ".bit") {
      assert first == [] + [binNames[0]];
      r := RemoveNext(client, binNames[0], applied, [], [binName, dtboName] + js);
      if r.Err? {
        assert [] + [binNames[0]] + ([binName, dtboName] + js) == binNames + [dtboName] + js;
        return;
      }
    }
    r := RemoveNext(client, binName, applied, first, [dtboName] + js);
    if r.Err? {
      assert first + [binName] + ([dtboName] + js) == binNames + [dtboName] + js;
      return;
    }
    r := RemoveNext(client, dtboName, applied, binNames, js);
    if r.Err? {
      return;
    }
    if jsonName.None? {
      assert binNames + [dtboName] + js == binNames + [dtboName];
      return;
    }
    r := RemoveNext(client, jsonName.value, applied, binNames + [dtboName], []);
    assert binNames + [dtboName] + [jsonName.value] + [] == binNames + [dtboName] + js;
  }

  /** `register_accel` (lines 229-353): on success the agent holds none of
      the names it staged. */
  method RegisterAccelerator(client: FpgaClient, accelName: string, bitstreamFile: string, dtboFile: string,
                             jsonFile: Option<string>, dtsText: Option<string>) returns (r: Status)
    requires client.Valid()
    modifies client
    ensures client.Valid()
    ensures Ran(client, old(client.trace), RegisterPlan(accelName, bitstreamFile, dtboFile, jsonFile, dtsText), r)
    ensures r.Ok? ==> forall n :: n in StagedNames(RegisterStages(bitstreamFile, dtboFile, jsonFile, dtsText)) ==> n !in client.firmware
  {
    ghost var past := client.trace;
    ghost var stages := RegisterStages(bitstreamFile, dtboFile, jsonFile, dtsText);
    ghost var reg := Registration(accelName, stages);

    var binNames, dtboName, jsonName;
    r, binNames, dtboName, jsonName := StageAccelerator(client, bitstreamFile, dtboFile, jsonFile, dtsText);
    if r.Err? {
      StagingFailed(client.respond, past, client.trace, stages, reg, TransportOnly, r.error);
      return;
    }
    ghost var all := StagedNames(stages);
    ghost var until := UntilCommit(stages, reg, TransportOnly);
    var binName := binNames[|binNames| - 1];
    ghost var mid := client.trace;
    r := Invoke(client, RegisterAccel(accelName, binName, dtboName, jsonName, true), TransportOnly);
    TracedThen(client.respond, past, mid, client.trace, Staging(stages), [Issue(reg, TransportOnly)], r);
    if r.Err? {
      TracedStop(client.respond, past, client.trace, until, Removes(all), r.error);
      return;
    }
    ghost var applied := client.trace;
    r := RemoveAccelerator(client, bitstreamFile, binNames, dtboName, jsonName);
    TracedThen(client.respond, past, applied, client.trace, until, Removes(all), r);
    if r.Ok? {
      CleanupLeavesNothingStaged(client.base, client.respond, past, stages, reg, TransportOnly);
    }
  }

  /** `unregister_accel` (lines 355-363). */
  method Unregister(client: FpgaClient, accelName: string) returns (r: Status)
    requires client.Valid()
    modifies client
    ensures client.Valid()
    ensures Ran(client, old(client.trace), UnregisterPlan(accelName), r)
  {
    r := Invoke(client, UnregisterAccel(accelName), TransportOnly);
  }

  /** `load` (lines 365-378): on success, the slot the agent reported. */
  method Load(client: FpgaClient, accelName: string) returns (r: Status, slot: Option<Slot>)
    requires client.Valid()
    modifies client
    ensures client.Valid()
    ensures Ran(client, old(client.trace), LoadPlan(accelName), r)
    ensures r.Ok? <==> slot.Some?
    ensures slot.Some? ==> client.respond(client.trace).Answer? && slot.value == client.respond(client.trace).slot
  {
    var reply;
    r, reply := Perform(client, LoadAccel(accelName), FlagTrue);
    slot := if r.Ok? then Some(reply.slot) else None;
  }

  /** `unload` (lines 380-390). */
  method Unload(client: FpgaClient, slot: Slot) returns (r: Status)
    requires client.Valid()
    modifies client
    ensures client.Valid()
    ensures Ran(client, old(client.trace), UnloadPlan(slot), r)
  {
    r := Invoke(client, UnloadSlot(slot), FlagTrue);
  }

  /** `dts2dtbo` (lines 392-413): the bytes handed to the local write, which
      `writeOk` says succeeded or not. The write is attempted only after the
      compilation answered `true`, and a failed write is the last failure. */
  method Dts2Dtbo(client: FpgaClient, dtsText: Option<string>, writeOk: bool) returns (r: Status, written: Option<seq<Byte>>)
    requires client.Valid()
    modifies client
    ensures client.Valid()
    ensures var o := Run(client.respond, old(client.trace), ConvertPlan(dtsText));
      && client.trace == old(client.trace) + o.issued
      && (o.status.Err? ==> r == o.status && written.None?)
      && (o.status.Ok? ==> client.respond(client.trace).Answer?
                           && written == Some(client.respond(client.trace).payload)
                           && r == (if writeOk then Ok else Err(WriteFailed)))
  {
    written := None;
    if dtsText.None? {
      r := Err(ReadFailed);
      return;
    }
    var reply;
    r, reply := Perform(client, DtsToDtb(dtsText.value), FlagTrue);
    if r.Err? {
      return;
    }
    written := Some(reply.payload);
    if !writeOk {
      r := Err(WriteFailed);
    }
  }
}
