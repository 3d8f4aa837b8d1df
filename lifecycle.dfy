/**
 * The System V resources the receiver holds, and the two fixed call
 * sequences that acquire and release them. Each call's outcome comes from a
 * kernel oracle; a release also fails when there is nothing to release (a
 * detach without an attachment, a removal of an identifier that no longer
 * names anything).
 */
module Lifecycle {

  /** What the receiver holds: a shared segment, an attachment to it, a message queue. */
  datatype Resources = Resources(segment: bool, attached: bool, queue: bool)

  const Released := Resources(false, false, false)
  const Provisioned := Resources(true, true, true)

  /** The IPC calls the receiver makes. */
  datatype Op =
    | Ftok       // derive the key from "keyfile.txt"
    | Shmget     // create (or find) the 1000-byte segment
    | Shmat      // attach it
    | Msgget     // create (or find) the queue
    | Shmdt      // detach
    | ShmRemove  // shmctl(IPC_RMID)
    | MsgRemove  // msgctl(IPC_RMID)

  datatype Call = Call(op: Op, ok: bool)

  /** Whether the kernel lets each call succeed. */
  type Kernel = Op -> bool

  datatype Outcome = Outcome(res: Resources, calls: seq<Call>)

  datatype Exit = Continue | ExitWith(code: int)

  /** Order of the acquisitions in init (recv.cpp:48-79). */
  const PROVISIONING: seq<Op> := [Ftok, Shmget, Shmat, Msgget]

  /** Order of the releases in cleanUp and in the SIGINT handler. */
  const TEARDOWN: seq<Op> := [Shmdt, ShmRemove, MsgRemove]

  /** A release needs something to release; an attach needs a segment. */
  predicate Possible(r: Resources, op: Op)
  {
    match op
    case Shmat => r.segment
    case Shmdt => r.attached
    case ShmRemove => r.segment
    case MsgRemove => r.queue
    case _ => true
  }

  /** One call, as the kernel answers it in state `r`. */
  function Attempt(r: Resources, op: Op, kernel: Kernel): Call
  {
    Call(op, kernel(op) && Possible(r, op))
  }

  /** The resources after call `c`: a failed call changes nothing. */
  function After(r: Resources, c: Call): Resources
  {
    if !c.ok then r
    else match c.op
      case Ftok => r
      case Shmget => r.(segment := true)
      case Shmat => r.(attached := true)
      case Msgget => r.(queue := true)
      case Shmdt => r.(attached := false)
      case ShmRemove => r.(segment := false)
      case MsgRemove => r.(queue := false)
  }

  predicate AllOk(calls: seq<Call>)
  {
    forall j :: 0 <= j < |calls| ==> calls[j].ok
  }

  /** Steps taken in order, stopping at the first that fails. */
  function UntilFailure(r: Resources, ops: seq<Op>, kernel: Kernel): Outcome
    decreases |ops|
  {
    if |ops| == 0 then Outcome(r, [])
    else
      var c := Attempt(r, ops[0], kernel);
      if !c.ok then Outcome(r, [c])
      else
        var o := UntilFailure(After(r, c), ops[1..], kernel);
        Outcome(o.res, [c] + o.calls)
  }

  /** The first step of a run that stops at the first failure, and what follows it. */
  lemma {:induction false} UntilFailureFirst(r: Resources, ops: seq<Op>, kernel: Kernel)
    requires |ops| > 0
    ensures var c := Attempt(r, ops[0], kernel);
            var o := UntilFailure(After(r, c), ops[1..], kernel);
            UntilFailure(r, ops, kernel) == if c.ok then Outcome(o.res, [c] + o.calls) else Outcome(r, [c])
  {
  }

  /**
   * A run that stops at the first failure makes the calls of a prefix of
   * `ops`, in order; every call but the last succeeded, and a run cut short
   * ends on a failed call.
   */
  lemma {:induction false} UntilFailureStopsAtFirstFailure(r: Resources, ops: seq<Op>, kernel: Kernel)
    ensures var o := UntilFailure(r, ops, kernel);
            && |o.calls| <= |ops|
            && (forall j :: 0 <= j < |o.calls| ==> o.calls[j].op == ops[j])
            && (forall j :: 0 <= j < |o.calls| - 1 ==> o.calls[j].ok)
            && (|o.calls| < |ops| ==> |o.calls| > 0 && !o.calls[|o.calls| - 1].ok)
            && (AllOk(o.calls) <==> |o.calls| == |ops| && (|ops| == 0 || o.calls[|ops| - 1].ok))
    decreases |ops|
  {
    if |ops| > 0 {
      var c := Attempt(r, ops[0], kernel);
      if c.ok {
        var o := UntilFailure(After(r, c), ops[1..], kernel);
        UntilFailureStopsAtFirstFailure(After(r, c), ops[1..], kernel);
        var calls := [c] + o.calls;
        assert forall j :: 1 <= j < |calls| ==> calls[j] == o.calls[j - 1];
        if AllOk(o.calls) {
          assert AllOk(calls);
        }
        if AllOk(calls) {
          assert forall j :: 0 <= j < |o.calls| ==> o.calls[j] == calls[j + 1];
        }
      }
    }
  }

  /** Steps taken in order, each attempted whatever the earlier ones returned. */
  function BestEffort(r: Resources, ops: seq<Op>, kernel: Kernel): (o: Outcome)
    ensures |o.calls| == |ops|
    ensures forall j :: 0 <= j < |ops| ==> o.calls[j].op == ops[j]
    decreases |ops|
  {
    if |ops| == 0 then Outcome(r, [])
    else
      var c := Attempt(r, ops[0], kernel);
      var o := BestEffort(After(r, c), ops[1..], kernel);
      Outcome(o.res, [c] + o.calls)
  }

  /**
   * init: acquire in order; any failure exits with status 1 on the spot. The
   * calls made are those of a prefix of the four steps, in order, every one
   * but the last successful, and the whole of init succeeded exactly when
   * all four steps were made and the last of them succeeded.
   */
  function Provision(r: Resources, kernel: Kernel): (o: Outcome)
    ensures 0 < |o.calls| <= |PROVISIONING|
    ensures forall j :: 0 <= j < |o.calls| ==> o.calls[j].op == PROVISIONING[j]
    ensures forall j :: 0 <= j < |o.calls| - 1 ==> o.calls[j].ok
    ensures AllOk(o.calls) <==> |o.calls| == |PROVISIONING| && o.calls[|PROVISIONING| - 1].ok
  {
    UntilFailureStopsAtFirstFailure(r, PROVISIONING, kernel);
    UntilFailure(r, PROVISIONING, kernel)
  }

  function ProvisionExit(o: Outcome): Exit
  {
    if AllOk(o.calls) then Continue else ExitWith(1)
  }

  /**
   * cleanUp and the SIGINT handler: release in order, best effort. All three
   * releases are attempted, in order, and none of them acquires anything.
   */
  function Teardown(r: Resources, kernel: Kernel): (o: Outcome)
    ensures |o.calls| == |TEARDOWN|
    ensures forall j :: 0 <= j < |TEARDOWN| ==> o.calls[j].op == TEARDOWN[j]
    ensures (o.res.segment ==> r.segment) && (o.res.attached ==> r.attached) && (o.res.queue ==> r.queue)
  {
    var ops := TEARDOWN;
    assert ops[1..] == [ShmRemove, MsgRemove] && ops[1..][1..] == [MsgRemove] && ops[1..][1..][1..] == [];
    BestEffort(r, ops, kernel)
  }

  /**
   * What survives a process that terminates: the kernel detaches every
   * segment the process had attached (shmat(2)), while the segment and the
   * queue outlive it until someone removes them.
   */
  function AtExit(r: Resources): Resources
  {
    r.(attached := false)
  }

  /**
   * From nothing, init holds exactly the resources whose acquisition and
   * every earlier one succeeded: the segment exists only after the key, is
   * attached only after it exists, and the queue is created only after
   * the attach. It continues exactly when everything was acquired.
   */
  lemma {:induction false} ProvisionFromReleased(kernel: Kernel)
    ensures var key := kernel(Ftok);
            var made := key && kernel(Shmget);
            var attached := made && kernel(Shmat);
            var queue := attached && kernel(Msgget);
            var o := Provision(Released, kernel);
            o.res == Resources(made, attached, queue) &&
            (ProvisionExit(o) == Continue <==> queue) &&
            |o.calls| == (if !key then 1 else if !made then 2 else if !attached then 3 else 4)
  {
    var ops := PROVISIONING;
    assert ops[1..] == [Shmget, Shmat, Msgget] && ops[1..][1..] == [Shmat, Msgget];
    assert ops[1..][1..][1..] == [Msgget] && ops[1..][1..][1..][1..] == [];
    UntilFailureStopsAtFirstFailure(Released, ops, kernel);
  }

  /**
   * Whatever was held before, a successful init holds all three resources,
   * and a failed one exits with status 1 holding whatever it had acquired
   * before the failing step: nothing is released on that path.
   */
  lemma {:induction false} ProvisionOutcome(r: Resources, kernel: Kernel)
    ensures var o := Provision(r, kernel);
            (ProvisionExit(o) == Continue ==> o.res == Provisioned) &&
            (r.segment ==> o.res.segment) && (r.attached ==> o.res.attached) && (r.queue ==> o.res.queue)
  {
    var ops := PROVISIONING;
    assert ops[1..] == [Shmget, Shmat, Msgget] && ops[1..][1..] == [Shmat, Msgget];
    assert ops[1..][1..][1..] == [Msgget] && ops[1..][1..][1..][1..] == [];
    UntilFailureStopsAtFirstFailure(r, ops, kernel);
  }

  /**
   * A failure after the segment was created leaves it behind: init exits
   * with status 1 while the segment still exists. The exit drops the
   * attachment, but the segment outlives the process.
   */
  lemma {:induction false} FailedProvisionLeaksSegment(kernel: Kernel)
    requires kernel(Ftok) && kernel(Shmget) && !(kernel(Shmat) && kernel(Msgget))
    ensures var o := Provision(Released, kernel);
            ProvisionExit(o) == ExitWith(1) && o.res.segment && !o.res.queue &&
            AtExit(o.res) == Resources(true, false, false)
  {
    ProvisionFromReleased(kernel);
  }

  /**
   * Teardown attempts detach, segment removal and queue removal, in that
   * order, whatever each returns; each resource is gone afterwards unless
   * its own release failed, independently of the others.
   */
  lemma {:induction false} TeardownClosedForm(r: Resources, kernel: Kernel)
    ensures var o := Teardown(r, kernel);
            o.calls == [Call(Shmdt, kernel(Shmdt) && r.attached),
                        Call(ShmRemove, kernel(ShmRemove) && r.segment),
                        Call(MsgRemove, kernel(MsgRemove) && r.queue)] &&
            o.res == Resources(r.segment && !kernel(ShmRemove), r.attached && !kernel(Shmdt),
                               r.queue && !kernel(MsgRemove))
  {
    var ops := TEARDOWN;
    assert ops[1..] == [ShmRemove, MsgRemove] && ops[1..][1..] == [MsgRemove] && ops[1..][1..][1..] == [];
  }

  /** When the kernel accepts the three releases, nothing is left held. */
  lemma {:induction false} TeardownReleasesAll(r: Resources, kernel: Kernel)
    requires kernel(Shmdt) && kernel(ShmRemove) && kernel(MsgRemove)
    ensures Teardown(r, kernel).res == Released
  {
    TeardownClosedForm(r, kernel);
  }

  /** A failed release does not stop the later ones. */
  lemma {:induction false} TeardownIsBestEffort(r: Resources, kernel: Kernel)
    requires r == Provisioned && kernel(MsgRemove)
    ensures !Teardown(r, kernel).res.queue
    ensures !kernel(Shmdt) ==> !Teardown(r, kernel).calls[0].ok && Teardown(r, kernel).calls[2].ok
  {
    TeardownClosedForm(r, kernel);
  }

  /** A second teardown finds nothing to release: every call fails and nothing changes. */
  lemma {:induction false} TeardownOfReleased(kernel: Kernel)
    ensures var o := Teardown(Released, kernel);
            o.res == Released && forall j :: 0 <= j < |o.calls| ==> !o.calls[j].ok
  {
    TeardownClosedForm(Released, kernel);
  }
}
