/**
 * The handshake: one filtered receive of the file-name notice, and the name
 * under which the received copy is written.
 */
module Handshake {
  import opened Ipc

  /** Appended to the sender's file name to name the received copy. */
  const RECEIVED_SUFFIX: string := "__recv"

  /** The name of the output file for a transfer of `fileName`. */
  function OutputName(fileName: string): (path: string)
    ensures |path| == |fileName| + |RECEIVED_SUFFIX|
    ensures path[..|fileName|] == fileName && path[|fileName|..] == RECEIVED_SUFFIX
  {
    fileName + RECEIVED_SUFFIX
  }

  /** Distinct transferred names never share an output file. */
  lemma {:induction false} OutputNameInjective(a: string, b: string)
    requires OutputName(a) == OutputName(b)
    ensures a == b
  {
    assert |a| == |b|;
    assert a == OutputName(a)[..|a|];
  }

  /**
   * The C string held in a character field: everything before the first NUL.
   * A field without a NUL yields the whole field.
   */
  function CString(field: seq<char>): (name: string)
    ensures |name| <= |field| && name == field[..|name|]
    ensures forall j :: 0 <= j < |name| ==> name[j] != '\0'
    ensures |name| < |field| ==> field[|name|] == '\0'
    decreases |field|
  {
    if |field| == 0 || field[0] == '\0' then []
    else [field[0]] + CString(field[1..])
  }

  datatype HandshakeResult =
    | Named(fileName: string, rest: seq<Message>)  // the name, and the queue left behind
    | HandshakeFailed                              // msgrcv returned -1: the process exits with 1
    | AwaitingName                                 // no notice queued: msgrcv blocks

  /**
   * Receives the file name: the oldest file-name notice on the queue, if the
   * receive call does not fail.
   */
  function RecvFileName(queue: seq<Message>, recvOk: bool): (h: HandshakeResult)
    ensures h.HandshakeFailed? <==> !recvOk
    ensures h.AwaitingName? <==> recvOk && forall j :: 0 <= j < |queue| ==> TagOf(queue[j]) != FileNameTransfer
    ensures h.Named? ==>
              var i := FirstWithTag(queue, FileNameTransfer);
              i < |queue| && queue[i].FileNameNotice? && h.fileName == CString(queue[i].field) &&
              h.rest == queue[..i] + queue[i + 1..]
  {
    if !recvOk then HandshakeFailed
    else match Receive(queue, FileNameTransfer)
      case None => AwaitingName
      case Some((m, rest)) => Named(CString(m.field), rest)
  }

  /**
   * The handshake consumes exactly the head of the file-name sub-channel and
   * takes the name from it; the data-ready and ack sub-channels are untouched.
   */
  lemma {:induction false} HandshakeTakesOldestName(queue: seq<Message>, recvOk: bool, other: Tag)
    requires RecvFileName(queue, recvOk).Named?
    ensures var h := RecvFileName(queue, recvOk);
            var names := OfTag(queue, FileNameTransfer);
            |names| > 0 && names[0].FileNameNotice? && h.fileName == CString(names[0].field) &&
            OfTag(h.rest, FileNameTransfer) == names[1..]
    ensures other != FileNameTransfer ==>
              OfTag(RecvFileName(queue, recvOk).rest, other) == OfTag(queue, other)
  {
    ReceiveTakesHead(queue, FileNameTransfer);
    var (m, rest) := Receive(queue, FileNameTransfer).value;
    assert TagOf(m) == FileNameTransfer;
    if other != FileNameTransfer {
      ReceiveLeavesOtherTags(queue, FileNameTransfer, other);
    }
  }
}
