/**
 * The receiver process: its global IPC handles, the routines that acquire
 * and release them, the SIGINT handler, and main, which chains provisioning,
 * the handshake, the transfer loop and the cleanup.
 */
module Receiver {
  import opened Lifecycle
  import Ipc
  import Handshake
  import Transfer
  import TransferProperties

  /** How a run of the process ends. */
  datatype Ending =
    | Exited(code: int)   // return from main or exit(code)
    | Hangs               // blocked forever in msgrcv
    | UndefinedBehaviour  // fwrite or fclose on the FILE* closed after a negative size

  /** What the environment does during one run. */
  datatype Environment = Environment(
    kernel: Kernel,                 // which IPC calls succeed
    queue: seq<Ipc.Message>,        // the queue as the handshake finds it
    recvOk: bool,                   // whether the handshake's msgrcv succeeds
    openOk: bool,                   // whether fopen succeeds
    rounds: seq<Transfer.Round>)    // what each pass of the transfer loop meets

  /** A whole run: how it ended, what it still holds, the IPC calls it made, the transfer if one started. */
  datatype Run = Run(ending: Ending, res: Resources, calls: seq<Call>, transfer: Ipc.Option<Transfer.TransferResult>)

  /**
   * main (recv.cpp:188-208), starting from the resources `r`, in a run that
   * no SIGINT interrupts. The resources of a run that exits are those left
   * once the kernel has finished the exit. The transfer starts exactly when
   * init acquired everything and a file name arrived, and a process that
   * exits keeps no attachment.
   */
  function Main(r: Resources, env: Environment): (run: Run)
    requires Transfer.Fits(env.rounds)
    ensures run.transfer.Some? <==>
              AllOk(Provision(r, env.kernel).calls) && Handshake.RecvFileName(env.queue, env.recvOk).Named?
    ensures run.ending.Exited? ==> !run.res.attached
    ensures run.ending.Exited? && run.ending.code != 0 ==> run.ending.code == 1
  {
    var p := Provision(r, env.kernel);
    if ProvisionExit(p).ExitWith? then Run(Exited(1), AtExit(p.res), p.calls, Ipc.None)
    else match Handshake.RecvFileName(env.queue, env.recvOk)
      case HandshakeFailed => Run(Exited(1), AtExit(p.res), p.calls, Ipc.None)
      case AwaitingName => Run(Hangs, p.res, p.calls, Ipc.None)
      case Named(name, _) =>
        var t := Transfer.MainLoopSpec(name, env.openOk, env.rounds);
        match t.status
        case Completed =>
          var c := Teardown(p.res, env.kernel);
          Run(Exited(0), AtExit(c.res), p.calls + c.calls, Ipc.Some(t))
        case Fatal(code) => Run(Exited(code), AtExit(p.res), p.calls, Ipc.Some(t))
        case Blocked => Run(Hangs, p.res, p.calls, Ipc.Some(t))
        case Undefined => Run(UndefinedBehaviour, p.res, p.calls, Ipc.Some(t))
  }

  /**
   * In a run without SIGINT, the process exits with status 0 exactly when
   * init acquires everything, a file name arrives and the transfer loop
   * meets its terminator.
   */
  lemma {:induction false} ExitsZeroExactlyOnCompletedTransfer(r: Resources, env: Environment)
    requires Transfer.Fits(env.rounds)
    ensures var h := Handshake.RecvFileName(env.queue, env.recvOk);
            Main(r, env).ending == Exited(0) <==>
              AllOk(Provision(r, env.kernel).calls) && h.Named? &&
              Transfer.MainLoopSpec(h.fileName, env.openOk, env.rounds).status == Transfer.Completed
  {
    var p := Provision(r, env.kernel);
    var h := Handshake.RecvFileName(env.queue, env.recvOk);
    if AllOk(p.calls) && h.Named? {
      var t := Transfer.MainLoopSpec(h.fileName, env.openOk, env.rounds);
      assert t.status.Fatal? ==> t.status.code == 1 by {
        if t.status.Fatal? {
          TransferProperties.FatalIsExitOne(h.fileName, env.openOk, env.rounds);
        }
      }
    }
  }

  /**
   * cleanUp runs only on the normal return from main: on every other ending
   * only init's calls were made, and the process holds what init acquired,
   * less the attachment if it exits. In particular a fatal exit after a
   * successful init leaves the segment and the queue behind.
   */
  lemma {:induction false} OnlyNormalReturnCleansUp(env: Environment)
    requires Transfer.Fits(env.rounds)
    ensures var run := Main(Released, env);
            var p := Provision(Released, env.kernel);
            run.ending != Exited(0) ==>
              (run.calls == p.calls &&
               run.res == (if run.ending.Exited? then AtExit(p.res) else p.res) &&
               (AllOk(p.calls) ==> run.res.segment && run.res.queue))
  {
    ProvisionOutcome(Released, env.kernel);
  }

  /**
   * A run that exits with status 0 made init's four calls, all successful,
   * then cleanUp's three, in order.
   */
  lemma {:induction false} NormalReturnCalls(env: Environment)
    requires Transfer.Fits(env.rounds) && Main(Released, env).ending == Exited(0)
    ensures var run := Main(Released, env);
            |run.calls| == |PROVISIONING| + |TEARDOWN| &&
            (forall j :: 0 <= j < |PROVISIONING| ==> run.calls[j] == Call(PROVISIONING[j], true)) &&
            (forall j :: 0 <= j < |TEARDOWN| ==> run.calls[|PROVISIONING| + j].op == TEARDOWN[j])
  {
    ExitsZeroExactlyOnCompletedTransfer(Released, env);
    UntilFailureStopsAtFirstFailure(Released, PROVISIONING, env.kernel);
  }

  /**
   * A run that exits with status 0 wrote the whole payload of the chunks it
   * acknowledged, and holds nothing when the kernel accepts the releases.
   */
  lemma {:induction false} NormalReturnOutput(env: Environment)
    requires Transfer.Fits(env.rounds) && Main(Released, env).ending == Exited(0)
    ensures var run := Main(Released, env);
            var cs := env.rounds[..Transfer.LeadingChunks(env.rounds)];
            run.transfer.Some? && run.transfer.value.out == Transfer.Payload(cs) &&
            run.transfer.value.total == Transfer.Total(cs)
  {
    ExitsZeroExactlyOnCompletedTransfer(Released, env);
    var h := Handshake.RecvFileName(env.queue, env.recvOk);
    TransferProperties.CompletedRun(h.fileName, env.openOk, env.rounds);
  }

  /** A run that exits with status 0 holds nothing when the kernel accepts the three releases. */
  lemma {:induction false} NormalReturnReleases(env: Environment)
    requires Transfer.Fits(env.rounds) && Main(Released, env).ending == Exited(0)
    requires env.kernel(Shmdt) && env.kernel(ShmRemove) && env.kernel(MsgRemove)
    ensures Main(Released, env).res == Released
  {
    ExitsZeroExactlyOnCompletedTransfer(Released, env);
    TeardownReleasesAll(Provision(Released, env.kernel).res, env.kernel);
  }

  /**
   * The process: the globals shmid, msqid and sharedMemPtr, seen as whether
   * each names a live resource, and the log of the IPC calls made.
   */
  class Process {
    var segment: bool       // shmid names an existing segment
    var attached: bool      // sharedMemPtr is a live attachment
    var queue: bool         // msqid names an existing queue
    var calls: seq<Call>    // the IPC calls made so far, oldest first

    function Held(): Resources
      reads this
    {
      Resources(segment, attached, queue)
    }

    /** A fresh process holds nothing and has made no call. */
    constructor ()
      ensures Held() == Released && calls == []
    {
      segment, attached, queue := false, false, false;
      calls := [];
    }

    /** One IPC call, answered by the kernel. */
    method Syscall(op: Op, kernel: Kernel) returns (ok: bool)
      modifies this
      ensures ok == Attempt(old(Held()), op, kernel).ok
      ensures Held() == After(old(Held()), Call(op, ok)) && calls == old(calls) + [Call(op, ok)]
    {
      ok := kernel(op) && Possible(Held(), op);
      if ok {
        match op
        case Ftok =>
        case Shmget => segment := true;
        case Shmat => attached := true;
        case Msgget => queue := true;
        case Shmdt => attached := false;
        case ShmRemove => segment := false;
        case MsgRemove => queue := false;
      }
      calls := calls + [Call(op, ok)];
    }

    /**
     * The kernel's part of exit(): the process's attachment goes, the
     * segment and the queue stay.
     */
    method Terminate()
      modifies this
      ensures Held() == AtExit(old(Held())) && calls == old(calls)
    {
      attached := false;
    }

    /**
     * init (recv.cpp:45-82): key, segment, attach, queue; exit(1) at the
     * first failure. The status returned is the one init exits with; the
     * exit itself is completed by `Terminate`.
     */
    method Init(kernel: Kernel) returns (exit: Exit)
      modifies this
      ensures var o := Provision(old(Held()), kernel);
              Held() == o.res && calls == old(calls) + o.calls && exit == ProvisionExit(o)
    {
      UntilFailureStopsAtFirstFailure(Held(), PROVISIONING, kernel);
      UntilFailureFirst(Held(), [Ftok, Shmget, Shmat, Msgget], kernel);
      var keyed := Syscall(Ftok, kernel);
      if !keyed {
        return ExitWith(1);
      }
      assert [Ftok, Shmget, Shmat, Msgget][1..] == [Shmget, Shmat, Msgget];
      UntilFailureFirst(Held(), [Shmget, Shmat, Msgget], kernel);
      var made := Syscall(Shmget, kernel);
      if !made {
        return ExitWith(1);
      }
      assert [Shmget, Shmat, Msgget][1..] == [Shmat, Msgget];
      UntilFailureFirst(Held(), [Shmat, Msgget], kernel);
      var mapped := Syscall(Shmat, kernel);
      if !mapped {
        return ExitWith(1);
      }
      assert [Shmat, Msgget][1..] == [Msgget];
      UntilFailureFirst(Held(), [Msgget], kernel);
      assert [Msgget][1..] == [];
      var queued := Syscall(Msgget, kernel);
      if !queued {
        return ExitWith(1);
      }
      return Continue;
    }

    /** cleanUp (recv.cpp:171-186): detach, remove the segment, remove the queue, each whatever the others returned. */
    method CleanUp(kernel: Kernel)
      modifies this
      ensures var o := Teardown(old(Held()), kernel);
              Held() == o.res && calls == old(calls) + o.calls
    {
      var ops := TEARDOWN;
      assert ops[1..] == [ShmRemove, MsgRemove] && ops[1..][1..] == [MsgRemove] && ops[1..][1..][1..] == [];
      var detached := Syscall(Shmdt, kernel);
      var removedSegment := Syscall(ShmRemove, kernel);
      var removedQueue := Syscall(MsgRemove, kernel);
    }

    /**
     * The SIGINT handler (recv.cpp:23-40): the same three releases as
     * cleanUp, then exit(0), which also drops any attachment left.
     */
    method SignalHandler(kernel: Kernel) returns (code: int)
      modifies this
      ensures var o := Teardown(old(Held()), kernel);
              Held() == AtExit(o.res) && calls == old(calls) + o.calls && code == 0
    {
      var ops := TEARDOWN;
      assert ops[1..] == [ShmRemove, MsgRemove] && ops[1..][1..] == [MsgRemove] && ops[1..][1..][1..] == [];
      var detached := Syscall(Shmdt, kernel);
      var removedSegment := Syscall(ShmRemove, kernel);
      var removedQueue := Syscall(MsgRemove, kernel);
      Terminate();
      code := 0;
    }

    /** main (recv.cpp:188-208), with the environment's answers given up front. */
    method Run(env: Environment) returns (ending: Ending, transfer: Ipc.Option<Transfer.TransferResult>)
      requires Transfer.Fits(env.rounds)
      modifies this
      ensures var m := Main(old(Held()), env);
              ending == m.ending && transfer == m.transfer && Held() == m.res && calls == old(calls) + m.calls
    {
      var exit := Init(env.kernel);
      if exit.ExitWith? {
        Terminate();
        return Exited(exit.code), Ipc.None;
      }
      var h := Handshake.RecvFileName(env.queue, env.recvOk);
      if h.HandshakeFailed? {
        Terminate();
        return Exited(1), Ipc.None;
      } else if h.AwaitingName? {
        return Hangs, Ipc.None;
      }
      var t := Transfer.MainLoop(h.fileName, env.openOk, env.rounds);
      transfer := Ipc.Some(t);
      match t.status
      case Completed =>
        CleanUp(env.kernel);
        Terminate();
        ending := Exited(0);
      case Fatal(code) =>
        Terminate();
        ending := Exited(code);
      case Blocked =>
        ending := Hangs;
      case Undefined =>
        ending := UndefinedBehaviour;
    }
  }
}
