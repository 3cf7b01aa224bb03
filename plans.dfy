/**
 * The failure rule every workflow of the loader follows: its steps run one
 * after another and the first one that fails ends the workflow with that
 * failure, issuing nothing more. A plan lists a workflow's steps; `Run` is
 * what running a plan against the agent issues and returns.
 */
module Plans {
  import opened Common
  import opened Remote

  /** Which input an invalid path was given for. */
  datatype Artifact = Bitstream | Bin | Dts | Dtbo | Json

  /** One tag per way a workflow can fail. */
  datatype Error =
    | InvalidName(artifact: Artifact)   // a path without a file name
    | Transport(call: Call)             // the RPC did not complete
    | Rejected(call: Call)              // the RPC completed and answered `false`
    | ReadFailed                        // the local DTS file could not be read
    | WriteFailed                       // the local DTBO file could not be written

  datatype Status = Ok | Err(error: Error)

  /** How the loader judges the reply of one call: some call sites fail only
      on a transport error and ignore the returned boolean, others also fail
      when it is `false`. */
  datatype Check = TransportOnly | FlagTrue

  /** A step of a plan: issue a call and judge its reply; upload under `name`
      the bytes the previous call (a `dts_to_dtb`) returned, failing only on
      a transport error; or fail locally before issuing anything. */
  datatype Step =
    | Issue(call: Call, check: Check)
    | UploadConverted(name: string)
    | Abort(error: Error)

  /** What running a plan returned and which calls it issued, in order. */
  datatype Outcome = Outcome(status: Status, issued: seq<Call>)

  predicate Passes(reply: Reply, check: Check) {
    reply.Answer? && (check == TransportOnly || reply.flag)
  }

  function Refusal(c: Call, reply: Reply): Error {
    if reply.Fault? then Transport(c) else Rejected(c)
  }

  /** The bytes a reply carries, none for a transport error. */
  function Converted(reply: Reply): seq<Byte> {
    if reply.Answer? then reply.payload else []
  }

  /** The call a step issues after the calls `past`. */
  function CallOf(respond: seq<Call> -> Reply, past: seq<Call>, s: Step): Call
    requires !s.Abort?
  {
    match s
    case Issue(c, _) => c
    case UploadConverted(n) => UploadBytes(n, Converted(respond(past)))
  }

  function CheckOf(s: Step): Check
    requires !s.Abort?
  {
    if s.Issue? then s.check else TransportOnly
  }

  /** Runs `steps` after the calls `past`: each step's call is issued only if
      every earlier step passed. A plan that succeeds issued one call per
      step. */
  function Run(respond: seq<Call> -> Reply, past: seq<Call>, steps: seq<Step>): (o: Outcome)
    ensures |o.issued| <= |steps|
    ensures o.status.Ok? ==> |o.issued| == |steps|
    decreases |steps|
  {
    if steps == [] then Outcome(Ok, [])
    else if steps[0].Abort? then Outcome(Err(steps[0].error), [])
    else
      var c := CallOf(respond, past, steps[0]);
      var reply := respond(past + [c]);
      if !Passes(reply, CheckOf(steps[0])) then Outcome(Err(Refusal(c, reply)), [c])
      else
        var rest := Run(respond, past + [c], steps[1..]);
        Outcome(rest.status, [c] + rest.issued)
  }

  /** A plan succeeds only if it ran to its end without a local failure. */
  lemma {:induction false} RunOkHasNoAbort(respond: seq<Call> -> Reply, past: seq<Call>, steps: seq<Step>)
    ensures Run(respond, past, steps).status.Ok? ==> forall i :: 0 <= i < |steps| ==> !steps[i].Abort?
    decreases |steps|
  {
    if steps != [] && !steps[0].Abort? {
      var c := CallOf(respond, past, steps[0]);
      RunOkHasNoAbort(respond, past + [c], steps[1..]);
      assert forall i :: 1 <= i < |steps| ==> steps[i] == steps[1..][i - 1];
    }
  }

  /** Running two plans back to back is running their concatenation: the
      second starts only if the first succeeded. */
  lemma {:induction false} RunAppend(respond: seq<Call> -> Reply, past: seq<Call>, a: seq<Step>, b: seq<Step>)
    ensures Run(respond, past, a + b) ==
      var x := Run(respond, past, a);
      if x.status.Err? then x
      else var y := Run(respond, past + x.issued, b); Outcome(y.status, x.issued + y.issued)
    decreases |a|
  {
    if a == [] {
      assert a + b == b;
      assert past + [] == past;
      assert [] + Run(respond, past, b).issued == Run(respond, past, b).issued;
    } else {
      assert (a + b)[0] == a[0];
      assert (a + b)[1..] == a[1..] + b;
      if !a[0].Abort? {
        var c := CallOf(respond, past, a[0]);
        RunAppend(respond, past + [c], a[1..], b);
        var x := Run(respond, past + [c], a[1..]);
        assert past + [c] + x.issued == past + ([c] + x.issued);
        assert [c] + x.issued + Run(respond, past + [c] + x.issued, b).issued
            == [c] + (x.issued + Run(respond, past + [c] + x.issued, b).issued);
      }
    }
  }

  /** A single call judged by its check: with `FlagTrue` an answer of
      `false` fails as a rejection even though the call completed; with
      `TransportOnly` any answer passes. */
  lemma SingleCall(respond: seq<Call> -> Reply, past: seq<Call>, c: Call, check: Check)
    ensures var o := Run(respond, past, [Issue(c, check)]);
      var reply := respond(past + [c]);
      && o.issued == [c]
      && (o.status.Ok? <==> reply.Answer? && (check == TransportOnly || reply.flag))
      && (reply.Fault? ==> o.status == Err(Transport(c)))
      && (reply.Answer? && !reply.flag && check == FlagTrue ==> o.status == Err(Rejected(c)))
  {
  }

  /** One issued call, judged by `check`, as `Run` computes it. */
  lemma RunOne(respond: seq<Call> -> Reply, past: seq<Call>, c: Call, check: Check)
    ensures var reply := respond(past + [c]);
      Run(respond, past, [Issue(c, check)])
        == Outcome(if Passes(reply, check) then Ok else Err(Refusal(c, reply)), [c])
  {
    assert [Issue(c, check)][1..] == [];
  }

  /** One removal step per name, in order, each failing only on a transport
      error. */
  function Removes(names: seq<string>): (r: seq<Step>)
    ensures |r| == |names|
    ensures forall i :: 0 <= i < |r| ==> r[i] == Issue(Remove(names[i]), TransportOnly)
  {
    seq(|names|, i requires 0 <= i < |names| => Issue(Remove(names[i]), TransportOnly))
  }

  /** The removals of two lists back to back are the removals of their concatenation. */
  lemma RemovesAppend(a: seq<string>, b: seq<string>)
    ensures Removes(a + b) == Removes(a) + Removes(b)
  {
  }

  lemma ShiftAnswered(respond: seq<Call> -> Reply, past: seq<Call>, c: Call, calls: seq<Call>, k: nat)
    requires k < |calls|
    ensures AnsweredAt(respond, past, [c] + calls, k + 1) == AnsweredAt(respond, past + [c], calls, k)
  {
    assert ([c] + calls)[..k + 2] == [c] + calls[..k + 1];
    assert past + ([c] + calls[..k + 1]) == past + [c] + calls[..k + 1];
  }

  /** Cleanup: the names are removed in order, one call each; every
      removal before the last one issued was answered, and the cleanup ends
      either after the last name with that removal answered, or at the first
      removal that failed, with that failure, leaving the remaining names in
      place. */
  lemma {:induction false} DrainStopsAtFirstFault(respond: seq<Call> -> Reply, past: seq<Call>, names: seq<string>)
    ensures var o := Run(respond, past, Removes(names));
      var all := RemoveCalls(names);
      var m := |o.issued|;
      && m <= |names|
      && o.issued == all[..m]
      && (forall k :: 0 <= k < m - 1 ==> AnsweredAt(respond, past, all, k))
      && (o.status.Ok? ==> m == |names| && (m > 0 ==> AnsweredAt(respond, past, all, m - 1)))
      && (o.status.Err? ==> m > 0 && !AnsweredAt(respond, past, all, m - 1)
                            && o.status == Err(Transport(Remove(names[m - 1]))))
    decreases |names|
  {
    if names != [] {
      var o := Run(respond, past, Removes(names));
      var all := RemoveCalls(names);
      var c := Remove(names[0]);
      assert Removes(names)[0] == Issue(c, TransportOnly);
      assert Removes(names)[1..] == Removes(names[1..]);
      var tail := RemoveCalls(names[1..]);
      assert all == [c] + tail;
      assert AnsweredAt(respond, past, all, 0) == respond(past + [c]).Answer? by {
        assert all[..1] == [c];
      }
      if respond(past + [c]).Answer? {
        var rest := Run(respond, past + [c], Removes(names[1..]));
        DrainStopsAtFirstFault(respond, past + [c], names[1..]);
        assert o == Outcome(rest.status, [c] + rest.issued);
        var m := |rest.issued|;
        assert o.issued == all[..m + 1] by {
          assert rest.issued == tail[..m];
        }
        forall k | 0 <= k < |tail|
          ensures AnsweredAt(respond, past, all, k + 1) == AnsweredAt(respond, past + [c], tail, k)
        {
          ShiftAnswered(respond, past, c, tail, k);
        }
        forall k | 0 <= k < m
          ensures AnsweredAt(respond, past, all, k)
        {
          if k > 0 {
            assert AnsweredAt(respond, past + [c], tail, k - 1);
          }
        }
      }
    }
  }

  /** Cleanup succeeds exactly when every removal is answered, and then it
      has removed every name, in order. */
  lemma DrainSucceedsIffAllAnswered(respond: seq<Call> -> Reply, past: seq<Call>, names: seq<string>)
    ensures var o := Run(respond, past, Removes(names));
      && (o.status.Ok? <==> forall k :: 0 <= k < |names| ==> AnsweredAt(respond, past, RemoveCalls(names), k))
      && (o.status.Ok? ==> o.issued == RemoveCalls(names))
  {
    DrainStopsAtFirstFault(respond, past, names);
    var all := RemoveCalls(names);
    assert all[..|names|] == all;
  }

  /** No step of the plan is a removal. */
  predicate RemovesNothing(steps: seq<Step>) {
    forall i :: 0 <= i < |steps| ==> !(steps[i].Issue? && steps[i].call.Remove?)
  }

  /** A plan without removal steps issues no removal. */
  lemma {:induction false} NoRemovalIssued(respond: seq<Call> -> Reply, past: seq<Call>, steps: seq<Step>)
    requires RemovesNothing(steps)
    ensures var o := Run(respond, past, steps);
      forall i :: 0 <= i < |o.issued| ==> !o.issued[i].Remove?
    decreases |steps|
  {
    if steps != [] && !steps[0].Abort? {
      var c := CallOf(respond, past, steps[0]);
      assert RemovesNothing(steps[1..]) by {
        forall i | 0 <= i < |steps| - 1 ensures !(steps[1..][i].Issue? && steps[1..][i].call.Remove?) {
          assert steps[1..][i] == steps[i + 1];
        }
      }
      NoRemovalIssued(respond, past + [c], steps[1..]);
      assert !c.Remove?;
      var o := Run(respond, past, steps);
      if o.status.Ok? || |o.issued| > 1 {
        assert o.issued == [c] + Run(respond, past + [c], steps[1..]).issued;
      }
    }
  }

  /** Cleanup runs only after the commit: for a plan made of removal-free
      steps ending in a commit step, followed by removals, no removal is
      issued unless the commit and every step before it passed; when they
      did, the removals run right after the commit. */
  lemma CleanupOnlyAfterCommit(respond: seq<Call> -> Reply, past: seq<Call>, upToCommit: seq<Step>, names: seq<string>)
    requires RemovesNothing(upToCommit)
    ensures var c := Run(respond, past, upToCommit);
      var o := Run(respond, past, upToCommit + Removes(names));
      && (c.status.Err? ==> o == c && forall i :: 0 <= i < |o.issued| ==> !o.issued[i].Remove?)
      && (c.status.Ok? ==>
            var d := Run(respond, past + c.issued, Removes(names));
            o == Outcome(d.status, c.issued + d.issued))
  {
    RunAppend(respond, past, upToCommit, Removes(names));
    NoRemovalIssued(respond, past, upToCommit);
  }

  /** When a plan ending in `Issue(x, check)` succeeds, its last call is `x`
      and `x`'s reply passed `check`: the commit step really succeeded. */
  lemma CommitPassed(respond: seq<Call> -> Reply, past: seq<Call>, pre: seq<Step>, x: Call, check: Check)
    requires Run(respond, past, pre + [Issue(x, check)]).status.Ok?
    ensures var o := Run(respond, past, pre + [Issue(x, check)]);
      o.issued != [] && o.issued[|o.issued| - 1] == x && Passes(respond(past + o.issued), check)
  {
    RunAppend(respond, past, pre, [Issue(x, check)]);
    var a := Run(respond, past, pre);
    var o := Run(respond, past, pre + [Issue(x, check)]);
    assert a.status.Ok?;
    var y := Run(respond, past + a.issued, [Issue(x, check)]);
    assert y.issued == [x];
    assert o.issued == a.issued + [x];
    assert past + o.issued == past + a.issued + [x];
  }
}
