/**
 * The transfer loop of the receiver (mainLoop in recv.cpp).
 *
 * The channel is abstracted as a trace of rounds, one per pass of the loop.
 * A round says what the blocking receive of a data-ready notice returned
 * (the announced size together with the shared segment as it was when the
 * notice arrived, or a failed call), how many bytes the output file accepted
 * from fwrite, and whether the acknowledgement could be sent. What the
 * receiver does to the outside world is recorded as a sequence of effects.
 *
 * `Iterate` is the loop as a recursive specification and `MainLoop` the loop
 * itself, proved equal to it. `Settle` is an independent description of a
 * whole run: a stretch of fully delivered chunks followed by the one round
 * that ends or derails the transfer. `ReceiveSettles` proves the two agree,
 * and module TransferProperties reads the guarantees of the loop off `Settle`.
 */
module Transfer {
  import opened Ipc
  import Handshake

  /** Effects on the outside world, in order. */
  datatype Effect =
    | Open(path: string)  // fopen(path, "w")
    | Write(count: nat)   // fwrite, which stored `count` bytes
    | Ack                 // msgsnd of a RECV_DONE_TYPE message
    | Close               // fclose

  /**
   * A data-ready notice, with the shared segment as it was when it arrived.
   * This is the queue's `DataReadyNotice(size)` (module Ipc) as the loop
   * meets it, paired with the segment contents the notice announces.
   */
  datatype DataReady = DataReady(size: int, shared: Snapshot)

  /**
   * One pass of the loop as the environment decides it: the notice (None if
   * msgrcv returned -1), the number of bytes the output file accepts, and
   * whether msgsnd of the acknowledgement succeeds.
   */
  datatype Round = Round(notice: Option<DataReady>, accepted: nat, ackSent: bool)

  datatype Status =
    | Completed   // the terminator arrived; mainLoop returns the total
    | Fatal(code: int)  // exit(code) on a failed call or a short write
    | Blocked     // msgrcv waits for a notice that never comes
    | Undefined   // fwrite or fclose on a FILE* that was already closed

  /**
   * The result of a run: the bytes of the output file, the effects, the
   * value of totalBytesReceived, how the run ended and how many rounds it used.
   */
  datatype TransferResult = TransferResult(out: seq<byte>, effects: seq<Effect>, total: nat, status: Status, consumed: nat)

  /** The loop's variables between two passes. */
  datatype LoopState = LoopState(out: seq<byte>, effects: seq<Effect>, total: nat, fileOpen: bool, consumed: nat)

  function Stop(s: LoopState, status: Status): TransferResult
  {
    TransferResult(s.out, s.effects, s.total, status, s.consumed)
  }

  /**
   * The sender never announces more than the segment holds. The receiver
   * does not check this; it is the caller's obligation.
   */
  predicate Fits(rounds: seq<Round>)
  {
    forall j :: 0 <= j < |rounds| && rounds[j].notice.Some? ==>
      rounds[j].notice.value.size <= SHARED_MEMORY_CHUNK_SIZE
  }

  /** The number of bytes fwrite stores when asked for `size` of them. */
  function Stored(r: Round, size: nat): (n: nat)
    ensures n <= size && (n < size <==> r.accepted < size)
  {
    if r.accepted < size then r.accepted else size
  }

  /** The state in which the loop is entered: the output file just opened, empty. */
  function Start(fileName: string): LoopState
  {
    LoopState([], [Open(Handshake.OutputName(fileName))], 0, true, 0)
  }

  /** What one pass of the loop leads to: another pass, or the end of the run. */
  datatype Next = Continue(state: LoopState) | Finished(result: TransferResult)

  /**
   * One pass of the loop body: receive a notice and act on its size. A pass
   * uses one round and only appends to the file and to the effects; the
   * loop goes on exactly after a clean chunk or a negative size met with the
   * file open, and it returns only on a size of 0.
   */
  function Pass(s: LoopState, r: Round): (n: Next)
    requires r.notice.Some? ==> r.notice.value.size <= SHARED_MEMORY_CHUNK_SIZE
    ensures n.Continue? <==>
              s.fileOpen && (Clean(r) || (r.notice.Some? && r.notice.value.size < 0))
    ensures n.Continue? ==>
              n.state.consumed == s.consumed + 1 && s.out <= n.state.out && s.effects < n.state.effects &&
              |n.state.out| - |s.out| == n.state.total - s.total
    ensures n.Finished? ==>
              n.result.consumed == s.consumed + 1 && s.out <= n.result.out && s.effects <= n.result.effects &&
              s.total <= n.result.total
    ensures n.Finished? && n.result.status == Completed ==>
              s.fileOpen && r.notice.Some? && r.notice.value.size == 0
  {
    var s0 := s.(consumed := s.consumed + 1);
    match r.notice
    case None => Finished(Stop(s0, Fatal(1)))
    case Some(m) =>
      if m.size > 0 then
        if !s.fileOpen then Finished(Stop(s0, Undefined))
        else
          var n := Stored(r, m.size);
          var s1 := s0.(out := s.out + m.shared[..n], effects := s.effects + [Write(n)]);
          if n < m.size then Finished(Stop(s1, Fatal(1)))
          else
            var s2 := s1.(total := s.total + m.size);
            if !r.ackSent then Finished(Stop(s2, Fatal(1)))
            else Continue(s2.(effects := s1.effects + [Ack]))
      else if !s.fileOpen then Finished(Stop(s0, Undefined))
      else
        var s1 := s0.(effects := s.effects + [Close], fileOpen := false);
        if m.size == 0 then Finished(Stop(s1, Completed)) else Continue(s1)
  }

  /**
   * The loop, from state `s`, given that its condition (msgSize != 0) holds.
   * A run only appends to the file and the effects, uses at most the rounds
   * it is given (all of them when it blocks), exits only with status 1, and
   * unless it exits has added to the file exactly what it added to the total.
   */
  function Iterate(rounds: seq<Round>, s: LoopState): (t: TransferResult)
    requires Fits(rounds)
    ensures s.out <= t.out && s.effects <= t.effects && s.total <= t.total
    ensures s.consumed <= t.consumed <= s.consumed + |rounds|
    ensures t.status == Blocked ==> t.consumed == s.consumed + |rounds|
    ensures t.status.Fatal? ==> t.status == Fatal(1)
    ensures t.status.Fatal? || |t.out| - |s.out| == t.total - s.total
    decreases |rounds|
  {
    if |rounds| == 0 then Stop(s, Blocked)
    else match Pass(s, rounds[0])
      case Continue(next) => Iterate(rounds[1..], next)
      case Finished(t) => t
  }

  /**
   * mainLoop: open the output file, or exit(1), then run the loop. The file
   * opened is `<fileName>__recv` and is the first effect; a failed open does
   * nothing else. Every exit is exit(1), and on every other ending the file
   * holds exactly `totalBytesReceived` bytes.
   */
  function MainLoopSpec(fileName: string, openOk: bool, rounds: seq<Round>): (t: TransferResult)
    requires Fits(rounds)
    ensures t.consumed <= |rounds|
    ensures openOk ==> |t.effects| > 0 && t.effects[0] == Open(Handshake.OutputName(fileName))
    ensures !openOk ==> t.status == Fatal(1) && t.effects == [] && t.out == []
    ensures t.status.Fatal? ==> t.status == Fatal(1)
    ensures t.status.Fatal? || |t.out| == t.total
  {
    if !openOk then TransferResult([], [], 0, Fatal(1), 0)
    else Iterate(rounds, Start(fileName))
  }

  /**
   * mainLoop, step by step. The output file is opened (fopen failing means
   * exit(1)); then, while the last size received is not 0, one notice is
   * received: a positive size copies that many bytes of the shared segment
   * into the file, adds them to the total and acknowledges; any other size
   * closes the file, and only 0 ends the loop.
   */
  method MainLoop(fileName: string, openOk: bool, rounds: seq<Round>) returns (t: TransferResult)
    requires Fits(rounds)
    ensures t == MainLoopSpec(fileName, openOk, rounds)
    ensures t.status.Fatal? || |t.out| == t.total
  {
    var msgSize := -1;
    var totalBytesReceived: nat := 0;
    if !openOk {
      return TransferResult([], [], 0, Fatal(1), 0);
    }
    var out: seq<byte> := [];
    var effects := [Open(Handshake.OutputName(fileName))];
    var fileOpen := true;
    var i := 0;
    while msgSize != 0
      invariant 0 <= i <= |rounds|
      invariant |out| == totalBytesReceived
      invariant msgSize != 0 ==>
        Iterate(rounds[i..], LoopState(out, effects, totalBytesReceived, fileOpen, i)) == MainLoopSpec(fileName, openOk, rounds)
      invariant msgSize == 0 ==>
        TransferResult(out, effects, totalBytesReceived, Completed, i) == MainLoopSpec(fileName, openOk, rounds)
      decreases |rounds| - i
    {
      if i == |rounds| {
        return TransferResult(out, effects, totalBytesReceived, Blocked, i);
      }
      var round := rounds[i];
      assert rounds[i..][0] == round && rounds[i..][1..] == rounds[i + 1..];
      i := i + 1;
      if round.notice.None? {
        return TransferResult(out, effects, totalBytesReceived, Fatal(1), i);
      }
      var msg := round.notice.value;
      msgSize := msg.size;
      if msgSize > 0 {
        if !fileOpen {
          return TransferResult(out, effects, totalBytesReceived, Undefined, i);
        }
        var n := Stored(round, msgSize);
        out := out + msg.shared[..n];
        effects := effects + [Write(n)];
        if n < msgSize {
          return TransferResult(out, effects, totalBytesReceived, Fatal(1), i);
        }
        totalBytesReceived := totalBytesReceived + msgSize;
        if !round.ackSent {
          return TransferResult(out, effects, totalBytesReceived, Fatal(1), i);
        }
        effects := effects + [Ack];
      } else {
        if !fileOpen {
          return TransferResult(out, effects, totalBytesReceived, Undefined, i);
        }
        effects := effects + [Close];
        fileOpen := false;
      }
    }
    t := TransferResult(out, effects, totalBytesReceived, Completed, i);
  }

  // ---------------------------------------------------------------------
  // A run as a stretch of delivered chunks followed by its last round.

  /** A round that delivers a chunk: received, positive, fully written, acknowledged. */
  predicate Clean(r: Round)
  {
    r.notice.Some? && r.notice.value.size > 0 && r.accepted >= r.notice.value.size && r.ackSent
  }

  predicate Chunks(cs: seq<Round>)
  {
    forall j :: 0 <= j < |cs| ==> Clean(cs[j]) && cs[j].notice.value.size <= SHARED_MEMORY_CHUNK_SIZE
  }

  /** The number of rounds that deliver a chunk before the first one that does not. */
  function LeadingChunks(rounds: seq<Round>): (k: nat)
    ensures k <= |rounds|
    ensures forall j :: 0 <= j < k ==> Clean(rounds[j])
    ensures k < |rounds| ==> !Clean(rounds[k])
    decreases |rounds|
  {
    if |rounds| == 0 || !Clean(rounds[0]) then 0 else 1 + LeadingChunks(rounds[1..])
  }

  function Chunk(r: Round): seq<byte>
    requires r.notice.Some? && 0 <= r.notice.value.size <= SHARED_MEMORY_CHUNK_SIZE
  {
    r.notice.value.shared[..r.notice.value.size]
  }

  /** The bytes the chunks carry, in arrival order. */
  function Payload(cs: seq<Round>): (p: seq<byte>)
    requires Chunks(cs)
    ensures |p| == Total(cs)
    decreases |cs|
  {
    if |cs| == 0 then [] else Chunk(cs[0]) + Payload(cs[1..])
  }

  /** The sum of the announced sizes. */
  function Total(cs: seq<Round>): nat
    requires Chunks(cs)
    decreases |cs|
  {
    if |cs| == 0 then 0 else cs[0].notice.value.size + Total(cs[1..])
  }

  /** One full write followed by one acknowledgement, per chunk. */
  function AckedWrites(cs: seq<Round>): (e: seq<Effect>)
    requires Chunks(cs)
    ensures |e| == 2 * |cs|
    decreases |cs|
  {
    if |cs| == 0 then [] else [Write(cs[0].notice.value.size), Ack] + AckedWrites(cs[1..])
  }

  /** After the file has been closed by a negative size, the next round ends the run. */
  function AfterClose(s: LoopState, rest: seq<Round>): TransferResult
  {
    if |rest| == 0 then Stop(s, Blocked)
    else if rest[0].notice.None? then Stop(s.(consumed := s.consumed + 1), Fatal(1))
    else Stop(s.(consumed := s.consumed + 1), Undefined)
  }

  /** How a run ends, from the first round that does not deliver a chunk. */
  function Conclude(s: LoopState, rest: seq<Round>): TransferResult
    requires Fits(rest) && s.fileOpen
    requires |rest| > 0 ==> !Clean(rest[0])
  {
    if |rest| == 0 then Stop(s, Blocked)
    else
      var s0 := s.(consumed := s.consumed + 1);
      match rest[0].notice
      case None => Stop(s0, Fatal(1))
      case Some(m) =>
        if m.size > 0 then
          var n := Stored(rest[0], m.size);
          Stop(s0.(out := s.out + m.shared[..n], effects := s.effects + [Write(n)],
                   total := if n < m.size then s.total else s.total + m.size), Fatal(1))
        else
          var closed := s0.(effects := s.effects + [Close], fileOpen := false);
          if m.size == 0 then Stop(closed, Completed) else AfterClose(closed, rest[1..])
  }

  /** The state after the chunks `cs` were all delivered from `s`. */
  function DeliverAll(s: LoopState, cs: seq<Round>): LoopState
    requires Chunks(cs)
  {
    s.(out := s.out + Payload(cs), effects := s.effects + AckedWrites(cs),
       total := s.total + Total(cs), consumed := s.consumed + |cs|)
  }

  /** A run from `s`: the leading chunks are delivered, then the next round concludes it. */
  function Settle(s: LoopState, rounds: seq<Round>): TransferResult
    requires Fits(rounds) && s.fileOpen
  {
    var k := LeadingChunks(rounds);
    Conclude(DeliverAll(s, rounds[..k]), rounds[k..])
  }

  lemma {:induction false} IterateAfterClose(rounds: seq<Round>, s: LoopState)
    requires Fits(rounds) && !s.fileOpen
    ensures Iterate(rounds, s) == AfterClose(s, rounds)
  {
  }

  /** The state after delivering chunk `r`. */
  function Deliver(s: LoopState, r: Round): LoopState
    requires Clean(r) && r.notice.value.size <= SHARED_MEMORY_CHUNK_SIZE
  {
    var size := r.notice.value.size;
    s.(out := s.out + Chunk(r), effects := s.effects + [Write(size), Ack],
       total := s.total + size, consumed := s.consumed + 1)
  }

  lemma {:induction false} IterateDelivers(rounds: seq<Round>, s: LoopState)
    requires Fits(rounds) && s.fileOpen && |rounds| > 0 && Clean(rounds[0])
    ensures Iterate(rounds, s) == Iterate(rounds[1..], Deliver(s, rounds[0]))
  {
    var size := rounds[0].notice.value.size;
    assert s.effects + [Write(size)] + [Ack] == s.effects + [Write(size), Ack];
    assert Pass(s, rounds[0]) == Continue(Deliver(s, rounds[0]));
  }

  lemma {:induction false} DeliverAllFirst(s: LoopState, cs: seq<Round>)
    requires Chunks(cs) && |cs| > 0
    ensures DeliverAll(s, cs) == DeliverAll(Deliver(s, cs[0]), cs[1..])
  {
    var r := cs[0];
    assert s.out + Payload(cs) == s.out + Chunk(r) + Payload(cs[1..]);
    assert s.effects + AckedWrites(cs) == s.effects + [Write(r.notice.value.size), Ack] + AckedWrites(cs[1..]);
  }

  lemma {:induction false} SettleDelivers(rounds: seq<Round>, s: LoopState)
    requires Fits(rounds) && s.fileOpen && |rounds| > 0 && Clean(rounds[0])
    ensures Settle(s, rounds) == Settle(Deliver(s, rounds[0]), rounds[1..])
  {
    var rest := rounds[1..];
    var k := LeadingChunks(rest);
    assert LeadingChunks(rounds) == k + 1;
    assert rounds[..k + 1][1..] == rest[..k];
    assert rounds[k + 1..] == rest[k..];
    DeliverAllFirst(s, rounds[..k + 1]);
  }

  lemma {:induction false} IterateConcludes(rounds: seq<Round>, s: LoopState)
    requires Fits(rounds) && s.fileOpen && (|rounds| > 0 ==> !Clean(rounds[0]))
    ensures Iterate(rounds, s) == Conclude(s, rounds) == Settle(s, rounds)
  {
    assert LeadingChunks(rounds) == 0;
    assert rounds[..0] == [] && rounds[0..] == rounds;
    assert s.out + [] == s.out && s.effects + [] == s.effects;
    if |rounds| > 0 && rounds[0].notice.Some? && rounds[0].notice.value.size < 0 {
      var closed := s.(effects := s.effects + [Close], fileOpen := false, consumed := s.consumed + 1);
      IterateAfterClose(rounds[1..], closed);
    }
  }

  /** The loop and the chunks-then-conclusion description agree from any open state. */
  lemma {:induction false} IterateSettles(rounds: seq<Round>, s: LoopState)
    requires Fits(rounds) && s.fileOpen
    ensures Iterate(rounds, s) == Settle(s, rounds)
    decreases |rounds|
  {
    if |rounds| > 0 && Clean(rounds[0]) {
      IterateDelivers(rounds, s);
      IterateSettles(rounds[1..], Deliver(s, rounds[0]));
      SettleDelivers(rounds, s);
    } else {
      IterateConcludes(rounds, s);
    }
  }

  /** Every run of mainLoop is its stretch of delivered chunks followed by its concluding round. */
  lemma {:induction false} ReceiveSettles(fileName: string, rounds: seq<Round>)
    requires Fits(rounds)
    ensures MainLoopSpec(fileName, true, rounds) == Settle(Start(fileName), rounds)
  {
    IterateSettles(rounds, Start(fileName));
  }
}
