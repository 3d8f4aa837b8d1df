/**
 * Shared vocabulary of the two processes: the capacity of the shared memory
 * segment, bytes, and the message queue with its three tagged message kinds.
 * `Receive` is the tag-filtered, blocking receive (msgrcv with a positive
 * message type) on which the whole protocol rests.
 */
module Ipc {

  /** Capacity in bytes of the shared memory segment (recv.cpp:14). */
  const SHARED_MEMORY_CHUNK_SIZE: nat := 1000

  newtype byte = b: int | 0 <= b < 256

  /** The contents of the whole shared segment at one instant. */
  type Snapshot = s: seq<byte> | |s| == SHARED_MEMORY_CHUNK_SIZE
    witness seq(SHARED_MEMORY_CHUNK_SIZE, _ => 0 as byte)

  datatype Option<+T> = None | Some(value: T)

  /** The message types; their numeric values are a contract with the sender. */
  datatype Tag = FileNameTransfer | SenderData | RecvDone

  /**
   * A message on the control queue. A file-name notice carries its whole
   * fixed-size character field, NUL terminator included.
   */
  datatype Message =
    | FileNameNotice(field: seq<char>)
    | DataReadyNotice(size: int)  // the transfer loop meets it as `Transfer.DataReady`, with the segment's contents
    | CopyAck

  function TagOf(m: Message): Tag
  {
    match m
    case FileNameNotice(_) => FileNameTransfer
    case DataReadyNotice(_) => SenderData
    case CopyAck => RecvDone
  }

  /** The position of the oldest message carrying `tag`, or |queue| if there is none. */
  function FirstWithTag(queue: seq<Message>, tag: Tag): (i: nat)
    ensures i <= |queue|
    ensures forall j :: 0 <= j < i ==> TagOf(queue[j]) != tag
    ensures i < |queue| ==> TagOf(queue[i]) == tag
    decreases |queue|
  {
    if |queue| == 0 || TagOf(queue[0]) == tag then 0
    else 1 + FirstWithTag(queue[1..], tag)
  }

  /**
   * A blocking receive filtered by `tag`: the oldest message of that type,
   * and the queue without it. None means the call would block.
   */
  function Receive(queue: seq<Message>, tag: Tag): (r: Option<(Message, seq<Message>)>)
    ensures r.None? <==> forall j :: 0 <= j < |queue| ==> TagOf(queue[j]) != tag
    ensures r.Some? ==> TagOf(r.value.0) == tag && |r.value.1| == |queue| - 1
  {
    var i := FirstWithTag(queue, tag);
    if i == |queue| then None else Some((queue[i], queue[..i] + queue[i + 1..]))
  }

  /** The messages of the queue that carry `tag`, oldest first: one sub-channel. */
  function OfTag(queue: seq<Message>, tag: Tag): seq<Message>
    decreases |queue|
  {
    if |queue| == 0 then []
    else (if TagOf(queue[0]) == tag then [queue[0]] else []) + OfTag(queue[1..], tag)
  }

  lemma {:induction false} OfTagAppend(a: seq<Message>, b: seq<Message>, tag: Tag)
    ensures OfTag(a + b, tag) == OfTag(a, tag) + OfTag(b, tag)
    decreases |a|
  {
    if |a| > 0 {
      assert (a + b)[1..] == a[1..] + b;
      OfTagAppend(a[1..], b, tag);
    } else {
      assert a + b == b;
    }
  }

  lemma {:induction false} OfTagNone(a: seq<Message>, tag: Tag)
    requires forall j :: 0 <= j < |a| ==> TagOf(a[j]) != tag
    ensures OfTag(a, tag) == []
    decreases |a|
  {
    if |a| > 0 {
      OfTagNone(a[1..], tag);
    }
  }

  lemma {:induction false} OfTagSingle(m: Message, tag: Tag)
    ensures OfTag([m], tag) == if TagOf(m) == tag then [m] else []
  {
    assert [m][1..] == [];
  }

  /** A receive for `tag` takes the head of that tag's sub-channel. */
  lemma {:induction false} ReceiveTakesHead(queue: seq<Message>, tag: Tag)
    requires Receive(queue, tag).Some?
    ensures var (m, rest) := Receive(queue, tag).value;
            OfTag(queue, tag) == [m] + OfTag(rest, tag)
  {
    var i := FirstWithTag(queue, tag);
    var before, after := queue[..i], queue[i + 1..];
    assert queue == before + ([queue[i]] + after);
    OfTagAppend(before, [queue[i]] + after, tag);
    OfTagAppend([queue[i]], after, tag);
    OfTagAppend(before, after, tag);
    OfTagNone(before, tag);
    OfTagSingle(queue[i], tag);
  }

  /**
   * The sub-channels do not disturb each other: a receive for `tag` leaves
   * the sub-channel of every other tag as it was.
   */
  lemma {:induction false} ReceiveLeavesOtherTags(queue: seq<Message>, tag: Tag, other: Tag)
    requires Receive(queue, tag).Some? && other != tag
    ensures OfTag(Receive(queue, tag).value.1, other) == OfTag(queue, other)
  {
    var i := FirstWithTag(queue, tag);
    var before, after := queue[..i], queue[i + 1..];
    assert queue == before + ([queue[i]] + after);
    OfTagAppend(before, [queue[i]] + after, other);
    OfTagAppend([queue[i]], after, other);
    OfTagAppend(before, after, other);
    OfTagSingle(queue[i], other);
  }
}
