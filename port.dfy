/**
 * A loader as the tools see it: something that accepts calls in order and
 * answers each one by returning or by throwing.
 *
 * Which answer comes back is up to the device, so the port is given the
 * answers in advance (`script`) and records the calls it receives (`calls`).
 * A port whose script has run out behaves like a silent device: the call is
 * cancelled.
 */
module Port {
  import opened Common
  import opened Errors
  import opened LoaderCommands

  /**
   * What a loader call produced: the response's status fields, its value
   * word and any data it returns (the digest of an MD5 call), or the
   * exception it threw.
   *
   * The stub and ROM loaders behind the tools' interface return only
   * successful answers and throw otherwise (`StubLoader.ReplyTo`,
   * `RomLoader.ReplyTo`), so the tools read every `Answer` as a call that
   * returned and ignore its `success` flag. A script holding an
   * `Answer(false, ...)` describes no such loader. Only the device layer,
   * which passes a loader's reply on as its result, reads the flag.
   */
  datatype Reply =
    | Answer(success: bool, error: Status, value: u32, data: seq<byte>)
    | Raised(fault: Fault)

  function Head(script: seq<Reply>): Reply
  {
    if script == [] then Raised(Canceled) else script[0]
  }

  function Tail(script: seq<Reply>): seq<Reply>
  {
    if script == [] then [] else script[1..]
  }

  /** The reply the `k`-th call from now receives. */
  function ReplyAt(script: seq<Reply>, k: nat): Reply
  {
    if k < |script| then script[k] else Raised(Canceled)
  }

  /** Dropping `k` replies from the script. */
  function Drop(script: seq<Reply>, k: nat): seq<Reply>
  {
    if k <= |script| then script[k..] else []
  }

  lemma DropStep(script: seq<Reply>, k: nat)
    ensures Head(Drop(script, k)) == ReplyAt(script, k)
    ensures Tail(Drop(script, k)) == Drop(script, k + 1)
  {
  }

  lemma DropDrop(script: seq<Reply>, a: nat, b: nat)
    ensures Drop(Drop(script, a), b) == Drop(script, a + b)
    ensures ReplyAt(Drop(script, a), b) == ReplyAt(script, a + b)
  {
  }

  /**
   * Making the calls of `plan` in order from call `k` on, where the `j`-th
   * call receives `ReplyAt(script, j)`, and stopping at the first exception:
   * the outcome and the number of calls made in all.
   */
  function RunFrom(plan: seq<Call>, script: seq<Reply>, k: nat): (r: (Outcome<()>, nat))
    requires k <= |plan|
    decreases |plan| - k
    ensures k <= r.1 <= |plan|
    ensures r.0.Ok? ==> r.1 == |plan|
  {
    if k == |plan| then (Ok(()), k)
    else if ReplyAt(script, k).Raised? then (Fail(ReplyAt(script, k).fault), k + 1)
    else RunFrom(plan, script, k + 1)
  }

  function Run(plan: seq<Call>, script: seq<Reply>): (Outcome<()>, nat)
  {
    RunFrom(plan, script, 0)
  }

  /**
   * A run stops at the first call that throws, with that exception, having
   * made every call up to and including it; it succeeds exactly when no call
   * of the plan throws.
   */
  lemma {:induction false} RunFromStopsAtFirstRaise(plan: seq<Call>, script: seq<Reply>, k: nat)
    requires k <= |plan|
    ensures RunFrom(plan, script, k).0.Ok? <==> forall j :: k <= j < |plan| ==> ReplyAt(script, j).Answer?
    ensures RunFrom(plan, script, k).0.Fail? ==>
      var n := RunFrom(plan, script, k).1;
      ReplyAt(script, n - 1) == Raised(RunFrom(plan, script, k).0.fault) &&
      forall j :: k <= j < n - 1 ==> ReplyAt(script, j).Answer?
    decreases |plan| - k
  {
    if k < |plan| && ReplyAt(script, k).Answer? {
      RunFromStopsAtFirstRaise(plan, script, k + 1);
    }
  }

  /** Running `p` then `q`: `q` runs only if `p` succeeded, against the replies `p` left. */
  lemma {:induction false} RunFromAppend(p: seq<Call>, q: seq<Call>, script: seq<Reply>, k: nat)
    requires k <= |p|
    ensures RunFrom(p + q, script, k) ==
      if RunFrom(p, script, k).0.Fail? then RunFrom(p, script, k)
      else (Run(q, Drop(script, |p|)).0, |p| + Run(q, Drop(script, |p|)).1)
    decreases |p| - k
  {
    if k < |p| {
      if ReplyAt(script, k).Answer? {
        RunFromAppend(p, q, script, k + 1);
      }
    } else {
      RunFromShift(p, q, script, 0);
    }
  }

  lemma {:induction false} RunFromShift(p: seq<Call>, q: seq<Call>, script: seq<Reply>, j: nat)
    requires j <= |q|
    ensures RunFrom(p + q, script, |p| + j) ==
      (RunFrom(q, Drop(script, |p|), j).0, |p| + RunFrom(q, Drop(script, |p|), j).1)
    decreases |q| - j
  {
    DropDrop(script, |p|, 0);
    assert ReplyAt(Drop(script, |p|), j) == ReplyAt(script, |p| + j) by { DropDrop(script, |p|, j); }
    if j < |q| && ReplyAt(script, |p| + j).Answer? {
      RunFromShift(p, q, script, j + 1);
    }
  }

  lemma RunAppend(p: seq<Call>, q: seq<Call>, script: seq<Reply>)
    ensures Run(p + q, script) ==
      if Run(p, script).0.Fail? then Run(p, script)
      else (Run(q, Drop(script, |p|)).0, |p| + Run(q, Drop(script, |p|)).1)
  {
    RunFromAppend(p, q, script, 0);
  }

  /** A single call. */
  lemma RunOne(c: Call, script: seq<Reply>)
    ensures Run([c], script) ==
      if Head(script).Raised? then (Fail(Head(script).fault), 1) else (Ok(()), 1)
  {
    assert ReplyAt(script, 0) == Head(script);
    assert RunFrom([c], script, 1) == (Ok(()), 1);
  }

  class LoaderPort {
    var calls: seq<Call>
    var script: seq<Reply>

    constructor(script: seq<Reply>)
      ensures calls == [] && this.script == script
    {
      calls := [];
      this.script := script;
    }

    /** Performs one call and returns what the loader answered. */
    method Invoke(call: Call) returns (r: Reply)
      modifies this
      ensures calls == old(calls) + [call]
      ensures r == Head(old(script)) && script == Tail(old(script))
    {
      calls := calls + [call];
      r := Head(script);
      script := Tail(script);
    }
  }
}
