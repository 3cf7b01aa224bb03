/**
 * The remote management agent as the loader sees it through
 * `JellyFpgaClient`: every RPC it issues, the reply each one gets, and the
 * firmware names those replies leave on the agent. The agent itself is not
 * modelled; its replies come from an oracle supplied from outside, so every
 * combination of success, `false` and transport error is covered.
 */
module Remote {
  import opened Common

  type Byte = x: int | 0 <= x < 256

  /** Rust's `i32`, the type of a slot number. */
  type Slot = x: int | -0x8000_0000 <= x < 0x8000_0000

  /** One RPC of the client, with its arguments. */
  datatype Call =
    | UploadFile(name: string, localPath: string)            // upload_firmware_file
    | UploadBytes(name: string, data: seq<Byte>)             // upload_firmware
    | BitstreamToBin(source: string, target: string, arch: string)
    | DtsToDtb(text: string)                                 // dts_to_dtb
    | LoadBitstream(name: string)
    | LoadDtbo(name: string)
    | Remove(name: string)                                   // remove_firmware
    | RegisterAccel(accel: string, bin: string, dtbo: string, json: Option<string>, flag: bool)
    | UnregisterAccel(accel: string)
    | LoadAccel(accel: string)                               // load
    | UnloadSlot(slot: Slot)                                 // unload

  /** What an RPC returns: a transport error, or an answer. An answer
      carries the call's boolean result, the bytes `dts_to_dtb` returns and
      the slot `load` returns; calls whose results the loader ignores simply
      ignore these fields. */
  datatype Reply = Fault | Answer(flag: bool, payload: seq<Byte>, slot: Slot)

  /** How a call changes the set of firmware names held by the agent: an
      upload answered `true` adds its name, an answered conversion adds its
      target, an answered removal deletes its name; a transport error and
      every other call change nothing. */
  function Effect(firmware: set<string>, c: Call, reply: Reply): (r: set<string>)
    ensures reply.Fault? ==> r == firmware
    ensures c.Remove? && reply.Answer? ==> r == firmware - {c.name}
    ensures !c.Remove? ==> firmware <= r
    ensures r <= firmware + (if c.UploadFile? || c.UploadBytes? then {c.name} else if c.BitstreamToBin? then {c.target} else {})
  {
    if reply.Fault? then firmware
    else match c
      case UploadFile(n, _) => if reply.flag then firmware + {n} else firmware
      case UploadBytes(n, _) => if reply.flag then firmware + {n} else firmware
      case BitstreamToBin(_, target, _) => firmware + {target}
      case Remove(n) => firmware - {n}
      case _ => firmware
  }

  /** The firmware set after the calls of `trace`, starting from `base`; the
      reply to the last call of a trace `t` is `respond(t)`. */
  function Replay(base: set<string>, respond: seq<Call> -> Reply, trace: seq<Call>): set<string>
    decreases |trace|
  {
    if trace == [] then base
    else Effect(Replay(base, respond, trace[..|trace| - 1]), trace[|trace| - 1], respond(trace))
  }

  /** `JellyFpgaClient`: a connection to the agent. `trace` is the
      append-only record of the calls issued on it, `firmware` the names
      the agent holds, and `respond` the agent's behaviour, which gives the
      reply to the last call of any trace. */
  class FpgaClient {
    ghost const base: set<string>
    const respond: seq<Call> -> Reply
    var firmware: set<string>
    var trace: seq<Call>

    /** The firmware set is what the issued calls and their replies made of
        the initial one. */
    ghost predicate Valid()
      reads this
    {
      firmware == Replay(base, respond, trace)
    }

    constructor (firmware: set<string>, respond: seq<Call> -> Reply)
      ensures Valid()
      ensures this.firmware == firmware && trace == [] && this.respond == respond
    {
      base := firmware;
      this.respond := respond;
      this.firmware := firmware;
      trace := [];
    }

    /** Issues one RPC and waits for its reply. */
    method Rpc(c: Call) returns (reply: Reply)
      requires Valid()
      modifies this
      ensures Valid()
      ensures trace == old(trace) + [c] && reply == respond(trace)
      ensures firmware == Effect(old(firmware), c, reply)
    {
      trace := trace + [c];
      reply := respond(trace);
      assert trace[..|trace| - 1] == old(trace);
      firmware := Effect(firmware, c, reply);
    }
  }

  /** The reply to the (k+1)-th of `calls`, issued after `t`, was an answer. */
  predicate AnsweredAt(respond: seq<Call> -> Reply, t: seq<Call>, calls: seq<Call>, k: nat)
    requires k < |calls|
  {
    respond(t + calls[..k + 1]).Answer?
  }

  /** Removals that all got an answer take exactly their names out of the
      firmware set, whatever came before them. */
  lemma {:induction false} ReplayRemovals(base: set<string>, respond: seq<Call> -> Reply, t: seq<Call>, names: seq<string>)
    requires forall k :: 0 <= k < |names| ==> AnsweredAt(respond, t, RemoveCalls(names), k)
    ensures Replay(base, respond, t + RemoveCalls(names)) == Replay(base, respond, t) - set n | n in names
    decreases |names|
  {
    if names == [] {
      assert t + RemoveCalls(names) == t;
    } else {
      var init := names[..|names| - 1];
      var last := names[|names| - 1];
      var calls := RemoveCalls(names);
      AnsweredPrefix(respond, t, names);
      ReplayRemovals(base, respond, t, init);
      assert calls[..|init| + 1] == calls;
      assert AnsweredAt(respond, t, calls, |init|);
      ReplayLastRemoval(base, respond, t, names);
      RemoveOneMore(Replay(base, respond, t), init, last);
      assert names == init + [last];
    }
  }

  /** Taking out one more name after a list of names is taking out the longer list. */
  lemma RemoveOneMore(before: set<string>, init: seq<string>, last: string)
    ensures (before - set n | n in init) - {last} == before - set n | n in init + [last]
  {
    assert (set n | n in init + [last]) == (set n | n in init) + {last};
  }

  /** An answered last removal takes its name out of what the earlier ones left. */
  lemma ReplayLastRemoval(base: set<string>, respond: seq<Call> -> Reply, t: seq<Call>, names: seq<string>)
    requires names != [] && respond(t + RemoveCalls(names)).Answer?
    ensures Replay(base, respond, t + RemoveCalls(names))
         == Replay(base, respond, t + RemoveCalls(names[..|names| - 1])) - {names[|names| - 1]}
  {
    var whole := t + RemoveCalls(names);
    var init := names[..|names| - 1];
    assert RemoveCalls(init) == RemoveCalls(names)[..|init|];
    assert whole[..|whole| - 1] == t + RemoveCalls(init);
    assert whole[|whole| - 1] == Remove(names[|names| - 1]);
  }

  /** The answers to a prefix of removals are answers to the whole. */
  lemma AnsweredPrefix(respond: seq<Call> -> Reply, t: seq<Call>, names: seq<string>)
    requires names != []
    requires forall k :: 0 <= k < |names| ==> AnsweredAt(respond, t, RemoveCalls(names), k)
    ensures var init := names[..|names| - 1];
      RemoveCalls(init) == RemoveCalls(names)[..|init|]
      && forall k :: 0 <= k < |init| ==> AnsweredAt(respond, t, RemoveCalls(init), k)
  {
    var init := names[..|names| - 1];
    var calls := RemoveCalls(names);
    assert RemoveCalls(init) == calls[..|init|];
    forall k | 0 <= k < |init|
      ensures AnsweredAt(respond, t, RemoveCalls(init), k)
    {
      assert RemoveCalls(init)[..k + 1] == calls[..k + 1];
      assert AnsweredAt(respond, t, calls, k);
    }
  }

  /** After removals that all got an answer, none of their names is held. */
  lemma RemovalsLeaveNone(base: set<string>, respond: seq<Call> -> Reply, t: seq<Call>, names: seq<string>)
    requires forall k :: 0 <= k < |names| ==> AnsweredAt(respond, t, RemoveCalls(names), k)
    ensures forall n :: n in names ==> n !in Replay(base, respond, t + RemoveCalls(names))
  {
    ReplayRemovals(base, respond, t, names);
  }

  /** The removal calls for `names`, in order. */
  function RemoveCalls(names: seq<string>): (r: seq<Call>)
    ensures |r| == |names|
  {
    seq(|names|, i requires 0 <= i < |names| => Remove(names[i]))
  }
}
