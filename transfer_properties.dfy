/**
 * The guarantees of the transfer loop, read off the characterisation
 * `Transfer.ReceiveSettles`: what the output file holds, what total is
 * returned, when acknowledgements are sent, and how each kind of round that
 * does not deliver a chunk ends the run.
 */
module TransferProperties {
  import Ipc
  import opened Transfer
  import Handshake

  /** The number of acknowledgements among the effects. */
  function Acks(effects: seq<Effect>): nat
    decreases |effects|
  {
    if |effects| == 0 then 0 else (if effects[0] == Ack then 1 else 0) + Acks(effects[1..])
  }

  /** The number of rounds whose notice arrived and announced a positive size. */
  function Positives(rounds: seq<Round>): nat
    decreases |rounds|
  {
    if |rounds| == 0 then 0
    else (if rounds[0].notice.Some? && rounds[0].notice.value.size > 0 then 1 else 0) + Positives(rounds[1..])
  }

  lemma {:induction false} AcksAppend(a: seq<Effect>, b: seq<Effect>)
    ensures Acks(a + b) == Acks(a) + Acks(b)
    decreases |a|
  {
    if |a| == 0 {
      assert a + b == b;
    } else {
      assert (a + b)[1..] == a[1..] + b;
      AcksAppend(a[1..], b);
    }
  }

  lemma {:induction false} PositivesAppend(a: seq<Round>, b: seq<Round>)
    ensures Positives(a + b) == Positives(a) + Positives(b)
    decreases |a|
  {
    if |a| == 0 {
      assert a + b == b;
    } else {
      assert (a + b)[1..] == a[1..] + b;
      PositivesAppend(a[1..], b);
    }
  }

  lemma {:induction false} AcksOfAckedWrites(cs: seq<Round>)
    requires Chunks(cs)
    ensures Acks(AckedWrites(cs)) == |cs|
    decreases |cs|
  {
    if |cs| > 0 {
      var head := [Write(cs[0].notice.value.size), Ack];
      AcksAppend(head, AckedWrites(cs[1..]));
      assert head[1..] == [Ack] && head[1..][1..] == [];
      AcksOfAckedWrites(cs[1..]);
    }
  }

  lemma {:induction false} PositivesOfChunks(cs: seq<Round>)
    requires Chunks(cs)
    ensures Positives(cs) == |cs|
    decreases |cs|
  {
    if |cs| > 0 {
      PositivesOfChunks(cs[1..]);
    }
  }

  /** The effects of a run before its concluding round. */
  function Prelude(fileName: string, rounds: seq<Round>): seq<Effect>
    requires Fits(rounds)
  {
    [Open(Handshake.OutputName(fileName))] + AckedWrites(rounds[..LeadingChunks(rounds)])
  }

  /** The loop's state when it meets the first round that does not deliver a chunk. */
  function Delivered(fileName: string, rounds: seq<Round>): LoopState
    requires Fits(rounds)
  {
    var k := LeadingChunks(rounds);
    LoopState(Payload(rounds[..k]), Prelude(fileName, rounds), Total(rounds[..k]), true, k)
  }

  /** The run opened its file, delivered its leading chunks, then met round `k`. */
  lemma {:induction false} Opening(fileName: string, rounds: seq<Round>)
    requires Fits(rounds)
    ensures MainLoopSpec(fileName, true, rounds) == Conclude(Delivered(fileName, rounds), rounds[LeadingChunks(rounds)..])
  {
    ReceiveSettles(fileName, rounds);
    var cs := rounds[..LeadingChunks(rounds)];
    assert DeliverAll(Start(fileName), cs) == Delivered(fileName, rounds) by {
      assert [] + Payload(cs) == Payload(cs);
    }
  }

  /**
   * The loop returns normally exactly when the first round that does not
   * deliver a chunk is a notice of size 0.
   */
  lemma {:induction false} CompletesExactlyOnTerminator(fileName: string, openOk: bool, rounds: seq<Round>)
    requires Fits(rounds)
    ensures var k := LeadingChunks(rounds);
            MainLoopSpec(fileName, openOk, rounds).status == Completed <==>
              openOk && k < |rounds| && rounds[k].notice.Some? && rounds[k].notice.value.size == 0
  {
    if openOk {
      Opening(fileName, rounds);
      var k := LeadingChunks(rounds);
      var t := MainLoopSpec(fileName, true, rounds);
      if k == |rounds| {
        assert t.status == Blocked;
      } else {
        var r := rounds[k];
        assert rounds[k..][0] == r && rounds[k..][1..] == rounds[k + 1..];
        if r.notice.Some? && r.notice.value.size == 0 {
          assert t.status == Completed;
        } else {
          assert t.status != Completed;
        }
      }
    }
  }

  /** Every fatal ending of the transfer loop is exit(1). */
  lemma {:induction false} FatalIsExitOne(fileName: string, openOk: bool, rounds: seq<Round>)
    requires Fits(rounds)
    ensures MainLoopSpec(fileName, openOk, rounds).status.Fatal? ==>
              MainLoopSpec(fileName, openOk, rounds).status == Fatal(1)
  {
    if openOk {
      Opening(fileName, rounds);
      var k := LeadingChunks(rounds);
      if k < |rounds| {
        assert rounds[k..][0] == rounds[k] && rounds[k..][1..] == rounds[k + 1..];
      }
    }
  }

  /**
   * A run that returns normally wrote exactly the delivered chunks, in
   * order, returns their total, acknowledged each one right after writing it,
   * and closed the file on the terminator without acknowledging it.
   */
  lemma {:induction false} CompletedRun(fileName: string, openOk: bool, rounds: seq<Round>)
    requires Fits(rounds) && MainLoopSpec(fileName, openOk, rounds).status == Completed
    ensures var k := LeadingChunks(rounds);
            var cs := rounds[..k];
            var t := MainLoopSpec(fileName, openOk, rounds);
            openOk && k < |rounds| && rounds[k].notice.Some? && rounds[k].notice.value.size == 0 &&
            t.out == Payload(cs) && t.total == Total(cs) && |t.out| == t.total &&
            t.effects == [Open(Handshake.OutputName(fileName))] + AckedWrites(cs) + [Close] &&
            t.consumed == k + 1
  {
    CompletesExactlyOnTerminator(fileName, openOk, rounds);
    Opening(fileName, rounds);
    var k := LeadingChunks(rounds);
    if k < |rounds| {
      assert rounds[k..][0] == rounds[k] && rounds[k..][1..] == rounds[k + 1..];
    }
  }

  /**
   * Every acknowledgement directly follows a write of a positive number of
   * bytes, and every write that is not the last effect is directly followed
   * by an acknowledgement: at most one chunk is ever unacknowledged.
   */
  predicate Alternating(e: seq<Effect>)
  {
    && (forall j :: 0 <= j < |e| && e[j] == Ack ==> 0 < j && e[j - 1].Write? && e[j - 1].count > 0)
    && (forall j :: 0 <= j < |e| - 1 && e[j].Write? ==> e[j + 1] == Ack)
  }

  predicate EndsInWrite(e: seq<Effect>)
  {
    |e| > 0 && e[|e| - 1].Write?
  }

  lemma {:induction false} AlternatingExtend(e: seq<Effect>, x: Effect)
    requires Alternating(e) && !EndsInWrite(e) && x != Ack
    ensures Alternating(e + [x])
  {
  }

  lemma {:induction false} AlternatingAckedWrite(e: seq<Effect>, n: nat)
    requires Alternating(e) && !EndsInWrite(e) && n > 0
    ensures Alternating(e + [Write(n), Ack]) && !EndsInWrite(e + [Write(n), Ack])
  {
    var e' := e + [Write(n), Ack];
    forall j | 0 <= j < |e'| && e'[j] == Ack
      ensures 0 < j && e'[j - 1].Write? && e'[j - 1].count > 0
    {
      if j < |e| {
        assert e[j] == Ack;
      }
    }
    forall j | 0 <= j < |e'| - 1 && e'[j].Write?
      ensures e'[j + 1] == Ack
    {
      if j < |e| - 1 {
        assert e[j].Write?;
      }
    }
  }

  lemma {:induction false} AlternatingAckedWrites(e: seq<Effect>, cs: seq<Round>)
    requires Chunks(cs) && Alternating(e) && !EndsInWrite(e)
    ensures Alternating(e + AckedWrites(cs)) && !EndsInWrite(e + AckedWrites(cs))
    decreases |cs|
  {
    if |cs| == 0 {
      assert e + AckedWrites(cs) == e;
    } else {
      var n := cs[0].notice.value.size;
      AlternatingAckedWrite(e, n);
      AlternatingAckedWrites(e + [Write(n), Ack], cs[1..]);
      assert e + AckedWrites(cs) == e + [Write(n), Ack] + AckedWrites(cs[1..]);
    }
  }

  /**
   * Whatever the environment does, acknowledgements and writes alternate,
   * and a run whose last effect is a write (one never acknowledged) ended
   * with exit status 1.
   */
  lemma {:induction false} AcksFollowWrites(fileName: string, openOk: bool, rounds: seq<Round>)
    requires Fits(rounds)
    ensures var t := MainLoopSpec(fileName, openOk, rounds);
            Alternating(t.effects) && (EndsInWrite(t.effects) ==> t.status == Fatal(1))
  {
    if openOk {
      Opening(fileName, rounds);
      var k := LeadingChunks(rounds);
      var open := [Open(Handshake.OutputName(fileName))];
      AlternatingAckedWrites(open, rounds[..k]);
      var pre := Prelude(fileName, rounds);
      if k < |rounds| {
        assert rounds[k..][0] == rounds[k] && rounds[k..][1..] == rounds[k + 1..];
      }
      if k < |rounds| && rounds[k].notice.Some? {
        var m := rounds[k].notice.value;
        if m.size > 0 {
          AlternatingExtend(pre, Write(Stored(rounds[k], m.size)));
        } else {
          AlternatingExtend(pre, Close);
        }
      }
    }
  }

  /**
   * One acknowledgement per positive notice received: never more, at most
   * one fewer (the chunk whose write or acknowledgement failed, or one
   * announced after the file was closed), and exactly as many when the run
   * completes or waits for more.
   */
  lemma {:induction false} OneAckPerChunk(fileName: string, openOk: bool, rounds: seq<Round>)
    requires Fits(rounds)
    ensures var t := MainLoopSpec(fileName, openOk, rounds);
            t.consumed <= |rounds| &&
            var p := Positives(rounds[..t.consumed]);
            Acks(t.effects) <= p <= Acks(t.effects) + 1 &&
            (t.status == Completed || t.status == Blocked ==> Acks(t.effects) == p)
  {
    if !openOk {
      assert rounds[..0] == [];
    } else {
      Opening(fileName, rounds);
      var k := LeadingChunks(rounds);
      LeadingCounts(fileName, rounds);
      var pre := Prelude(fileName, rounds);
      if k < |rounds| {
        assert rounds[k..][0] == rounds[k] && rounds[k..][1..] == rounds[k + 1..];
        var r := rounds[k];
        assert rounds[..k + 1] == rounds[..k] + [r];
        PositivesSnoc(rounds[..k], r);
        if r.notice.Some? && r.notice.value.size > 0 {
          AcksSnoc(pre, Write(Stored(r, r.notice.value.size)));
        } else if r.notice.Some? {
          AcksSnoc(pre, Close);
          if r.notice.value.size < 0 && k + 1 < |rounds| {
            assert rounds[..k + 2] == rounds[..k + 1] + [rounds[k + 1]];
            PositivesSnoc(rounds[..k + 1], rounds[k + 1]);
          }
        }
      }
    }
  }

  lemma {:induction false} AcksSnoc(e: seq<Effect>, x: Effect)
    ensures Acks(e + [x]) == Acks(e) + (if x == Ack then 1 else 0)
  {
    AcksAppend(e, [x]);
    assert [x][1..] == [];
  }

  lemma {:induction false} PositivesSnoc(a: seq<Round>, r: Round)
    ensures Positives(a + [r]) == Positives(a) + (if r.notice.Some? && r.notice.value.size > 0 then 1 else 0)
  {
    PositivesAppend(a, [r]);
    assert [r][1..] == [];
  }

  /** The delivered prefix holds one acknowledgement and one positive notice per chunk. */
  lemma {:induction false} LeadingCounts(fileName: string, rounds: seq<Round>)
    requires Fits(rounds)
    ensures Acks(Prelude(fileName, rounds)) == LeadingChunks(rounds)
    ensures Positives(rounds[..LeadingChunks(rounds)]) == LeadingChunks(rounds)
  {
    var cs := rounds[..LeadingChunks(rounds)];
    var open := [Open(Handshake.OutputName(fileName))];
    AcksAppend(open, AckedWrites(cs));
    AcksOfAckedWrites(cs);
    PositivesOfChunks(cs);
  }

  /**
   * A negative size closes the output file but does not end the loop: the
   * receiver goes on to receive another notice, which can only fail, wait
   * forever, or act on the closed file. Such a run never completes.
   */
  lemma {:induction false} NegativeSizeKeepsLooping(fileName: string, rounds: seq<Round>)
    requires Fits(rounds)
    requires var k := LeadingChunks(rounds);
             k < |rounds| && rounds[k].notice.Some? && rounds[k].notice.value.size < 0
    ensures var k := LeadingChunks(rounds);
            var t := MainLoopSpec(fileName, true, rounds);
            t.effects == Prelude(fileName, rounds) + [Close] && t.status != Completed &&
            if k + 1 < |rounds| then
              t.consumed == k + 2 && t.status == (if rounds[k + 1].notice.None? then Fatal(1) else Undefined)
            else
              t.status == Blocked
  {
    Opening(fileName, rounds);
    var k := LeadingChunks(rounds);
    assert rounds[k..][0] == rounds[k] && rounds[k..][1..] == rounds[k + 1..];
  }

  /**
   * A positive notice whose chunk is not fully written, or whose
   * acknowledgement cannot be sent, ends the run with status 1 and no
   * acknowledgement for it; the total counts the chunk only if it was
   * fully written.
   */
  lemma {:induction false} UnacknowledgedChunkIsFatal(fileName: string, rounds: seq<Round>)
    requires Fits(rounds)
    requires var k := LeadingChunks(rounds);
             k < |rounds| && rounds[k].notice.Some? && rounds[k].notice.value.size > 0
    ensures var k := LeadingChunks(rounds);
            var cs := rounds[..k];
            var m := rounds[k].notice.value;
            var n := Stored(rounds[k], m.size);
            var t := MainLoopSpec(fileName, true, rounds);
            (n < m.size || !rounds[k].ackSent) &&
            t.status == Fatal(1) && t.consumed == k + 1 &&
            t.effects == Prelude(fileName, rounds) + [Write(n)] &&
            t.out == Payload(cs) + m.shared[..n] &&
            t.total == Total(cs) + (if n < m.size then 0 else m.size)
  {
    Opening(fileName, rounds);
    var k := LeadingChunks(rounds);
    if k < |rounds| {
      assert rounds[k..][0] == rounds[k] && rounds[k..][1..] == rounds[k + 1..];
    }
  }

  /** A failed receive ends the run with status 1, keeping what was written before. */
  lemma {:induction false} FailedReceiveIsFatal(fileName: string, rounds: seq<Round>)
    requires Fits(rounds)
    requires var k := LeadingChunks(rounds); k < |rounds| && rounds[k].notice.None?
    ensures var k := LeadingChunks(rounds);
            var cs := rounds[..k];
            MainLoopSpec(fileName, true, rounds) == TransferResult(Payload(cs), Prelude(fileName, rounds), Total(cs), Fatal(1), k + 1)
  {
    Opening(fileName, rounds);
    var k := LeadingChunks(rounds);
    if k < |rounds| {
      assert rounds[k..][0] == rounds[k] && rounds[k..][1..] == rounds[k + 1..];
    }
  }

  /**
   * "report.txt" sent as two 500-byte chunks and a terminator arrives as
   * "report.txt__recv" holding both chunks, with one acknowledgement each.
   */
  lemma {:induction false} TwoChunkTransfer(a: Ipc.Snapshot, b: Ipc.Snapshot, z: Ipc.Snapshot)
    ensures var rounds := [Round(Ipc.Some(DataReady(500, a)), 500, true),
                           Round(Ipc.Some(DataReady(500, b)), 500, true),
                           Round(Ipc.Some(DataReady(0, z)), 0, false)];
            var t := MainLoopSpec("report.txt", true, rounds);
            t.status == Completed && t.out == a[..500] + b[..500] && t.total == 1000 && t.consumed == 3 &&
            t.effects == [Open("report.txt__recv"), Write(500), Ack, Write(500), Ack, Close]
  {
    var rounds := [Round(Ipc.Some(DataReady(500, a)), 500, true),
                   Round(Ipc.Some(DataReady(500, b)), 500, true),
                   Round(Ipc.Some(DataReady(0, z)), 0, false)];
    assert rounds[1..][1..][1..] == [];
    assert LeadingChunks(rounds[1..][1..]) == 0;
    assert LeadingChunks(rounds) == 2;
    CompletesExactlyOnTerminator("report.txt", true, rounds);
    CompletedRun("report.txt", true, rounds);
    var cs := rounds[..2];
    assert cs[1..][1..] == [];
    assert Payload(cs) == a[..500] + b[..500];
    assert AckedWrites(cs) == [Write(500), Ack, Write(500), Ack];
    assert Total(cs) == 1000;
    assert Handshake.OutputName("report.txt") == "report.txt__recv";
  }

  /** A terminator as the first notice leaves an empty output file and sends no acknowledgement. */
  lemma {:induction false} EmptyFileTransfer(fileName: string, z: Ipc.Snapshot)
    ensures var t := MainLoopSpec(fileName, true, [Round(Ipc.Some(DataReady(0, z)), 0, false)]);
            t.status == Completed && t.out == [] && t.total == 0 && t.consumed == 1 &&
            t.effects == [Open(fileName + "__recv"), Close]
  {
    var rounds := [Round(Ipc.Some(DataReady(0, z)), 0, false)];
    assert LeadingChunks(rounds) == 0;
    CompletesExactlyOnTerminator(fileName, true, rounds);
    CompletedRun(fileName, true, rounds);
    assert rounds[..0] == [];
  }

  /**
   * A notice arriving after a negative size acts on the already closed
   * output file: the run has undefined behaviour.
   */
  lemma {:induction false} NoticeAfterNegativeSize(fileName: string, y: Ipc.Snapshot, z: Ipc.Snapshot)
    ensures var t := MainLoopSpec(fileName, true, [Round(Ipc.Some(DataReady(-1, y)), 0, false),
                                              Round(Ipc.Some(DataReady(0, z)), 0, false)]);
            t.status == Undefined && t.consumed == 2 && t.effects == [Open(fileName + "__recv"), Close]
  {
    var rounds := [Round(Ipc.Some(DataReady(-1, y)), 0, false), Round(Ipc.Some(DataReady(0, z)), 0, false)];
    assert LeadingChunks(rounds) == 0;
    NegativeSizeKeepsLooping(fileName, rounds);
    assert rounds[..0] == [];
  }
}
