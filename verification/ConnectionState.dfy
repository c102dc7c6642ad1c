/** One end of a connection: the validation handshake, the outgoing queue's writer and the message reader.
    Every asynchronous operation is split into the steps in which the io thread can observe it: it moves some
    bytes, and later its completion handler runs. */
module ConnectionState {
  import opened Bytes
  import opened NetMessage

  datatype Owner = ServerSide | ClientSide

  /** History of one kind of asynchronous operation: how many have been started and how many have ended. */
  datatype Calls = Calls(started: nat, ended: nat)

  const NO_CALLS := Calls(0, 0)

  function Started(calls: Calls): Calls {
    calls.(started := calls.started + 1)
  }

  function Ended(calls: Calls): Calls {
    calls.(ended := calls.ended + 1)
  }

  /** The outstanding message write and how much of its buffer has gone out. */
  datatype WriteOp = NoWrite | HeaderWrite(sent: nat) | BodyWrite(sent: nat)

  /** The outgoing queue and its writer. History: what was posted, whether a write failed, the message bytes sent, the
      message writes. */
  datatype Writer = Writer(
    qOut: seq<Msg>, op: WriteOp, posted: seq<Msg>, failed: bool, wire: seq<byte>, calls: Calls)

  /** The outstanding read and what has arrived for it so far. */
  datatype ReadOp = NoRead | ChallengeRead(got: seq<byte>) | HeaderRead(got: seq<byte>) | BodyRead(got: seq<byte>)

  datatype Event = Validated | Delivered(msg: Msg)

  /** The message being assembled. History: the bytes of completed reads, what was reported upwards, the reads. */
  datatype Reader = Reader(op: ReadOp, tempIn: Msg, processed: seq<byte>, log: seq<Event>, calls: Calls)

  /** The handshake word's own write. */
  datatype Validation = NotSent | Sending(sent: nat) | Sent | SendFailed(sent: nat)

  /** A 64-bit word of the handshake. */
  datatype Word = Word(bits: bv64)

  const NO_WORD := Word(0)

  /** What a connection does with handshake words: their memory image and the scrambling of challenges.
      The laws of a connection hold for any such functions; module Handshake has the real ones. */
  datatype Words = Words(value: seq<byte> -> Word, image: Word -> seq<byte>, scramble: Word -> Word)

  /** `greetings` counts the writes of the handshake word that were started. */
  datatype Conn = Conn(
    owner: Owner, open: bool, writer: Writer, reader: Reader, validation: Validation, greetings: nat, words: Words,
    handshakeOut: Word, handshakeIn: Word, handshakeCheck: Word)

  const IDLE_WRITER := Writer([], NoWrite, [], false, [], NO_CALLS)
  const FRESH_READER := Reader(ChallengeRead([]), EMPTY, [], [], Calls(1, 0))

  /** A server-side connection right after `ConnectToClient`. */
  function AcceptedConn(words: Words, challenge: Word): Conn {
    Conn(ServerSide, true, IDLE_WRITER, FRESH_READER, Sending(0), 1, words, challenge, NO_WORD,
        words.scramble(challenge))
  }

  /** A client-side connection right after its socket connected. */
  function ConnectedConn(words: Words): Conn {
    Conn(ClientSide, true, IDLE_WRITER, FRESH_READER, NotSent, 0, words, NO_WORD, NO_WORD, NO_WORD)
  }

  // ----- Writing -----

  function WriteHeader(w: Writer): Writer {
    w.(op := HeaderWrite(0), calls := Started(w.calls))
  }

  function WriteBody(w: Writer): Writer {
    w.(op := BodyWrite(0), calls := Started(w.calls))
  }

  /** The handler posted by `Send`. */
  function Post(w: Writer, m: Msg): Writer {
    var queued := w.(qOut := w.qOut + [m], posted := w.posted + [m]);
    if w.qOut == [] then WriteHeader(queued) else queued
  }

  predicate Writing(w: Writer) {
    !w.op.NoWrite? && w.qOut != []
  }

  /** The buffer the outstanding write reads from. */
  function WriteBuffer(w: Writer): seq<byte>
    requires Writing(w)
  {
    if w.op.HeaderWrite? then HeaderBytes(w.qOut[0].header) else w.qOut[0].body
  }

  /** The socket takes `k` more bytes of the outstanding write. */
  function Transmit(w: Writer, k: nat): Writer
    requires Writing(w) && w.op.sent + k <= |WriteBuffer(w)|
  {
    var n := w.op.sent + k;
    w.(op := if w.op.HeaderWrite? then HeaderWrite(n) else BodyWrite(n), wire := w.wire + WriteBuffer(w)[w.op.sent..n])
  }

  function FinishMessage(w: Writer): Writer
    requires w.qOut != []
  {
    var popped := w.(qOut := w.qOut[1..]);
    if popped.qOut != [] then WriteHeader(popped) else popped
  }

  /** Completion handler of the outstanding header or body write. */
  function Written(w: Writer, ok: bool): Writer
    requires Writing(w)
  {
    var done := w.(op := NoWrite, calls := Ended(w.calls));
    if !ok then done.(failed := true)
    else if w.op.HeaderWrite? && w.qOut[0].body != [] then WriteBody(done)
    else FinishMessage(done)
  }

  // ----- Reading -----

  function ReadHeader(r: Reader): Reader {
    r.(op := HeaderRead([]), calls := Started(r.calls))
  }

  function ReadBody(r: Reader): Reader {
    r.(op := BodyRead([]), calls := Started(r.calls))
  }

  /** The outstanding read is over; `bs` is what it brought. */
  function ReadOver(r: Reader, bs: seq<byte>): Reader {
    r.(op := NoRead, processed := r.processed + bs, calls := Ended(r.calls))
  }

  /** How many bytes the outstanding read waits for. */
  function ReadSize(r: Reader): nat
    requires !r.op.NoRead?
  {
    if r.op.BodyRead? then |r.tempIn.body| else 8
  }

  function Receive(r: Reader, bs: seq<byte>): Reader
    requires !r.op.NoRead?
  {
    match r.op
    case ChallengeRead(got) => r.(op := ChallengeRead(got + bs))
    case HeaderRead(got) => r.(op := HeaderRead(got + bs))
    case BodyRead(got) => r.(op := BodyRead(got + bs))
  }

  /** `std::vector::resize`: keeps what fits and pads with zeros. */
  function Resize(b: seq<byte>, n: nat): (r: seq<byte>)
    ensures |r| == n
  {
    if n <= |b| then b[..n] else b + seq(n - |b|, _ => 0)
  }

  function AddToIncoming(r: Reader): Reader {
    ReadHeader(r.(log := r.log + [Delivered(r.tempIn)]))
  }

  /** A header announcing no body leaves the body of the previous message in place. */
  function HeaderReceived(r: Reader): Reader
    requires r.op.HeaderRead? && |r.op.got| == 8
  {
    var header := HeaderValue(r.op.got);
    var taken := ReadOver(r, r.op.got);
    if header.size > 0 then ReadBody(taken.(tempIn := Msg(header, Resize(r.tempIn.body, header.size))))
    else AddToIncoming(taken.(tempIn := Msg(header, r.tempIn.body)))
  }

  function BodyReceived(r: Reader): Reader
    requires r.op.BodyRead?
  {
    AddToIncoming(ReadOver(r, r.op.got).(tempIn := Msg(r.tempIn.header, r.op.got)))
  }

  /** What the reader does once the peer's handshake word is read: a server goes on if the answer is right, a client
      waits until its own answer is sent. */
  function ChallengeTaken(r: Reader, owner: Owner, right: bool): Reader
    requires r.op.ChallengeRead?
  {
    var taken := ReadOver(r, r.op.got);
    if owner.ServerSide? && right then ReadHeader(taken.(log := r.log + [Validated])) else taken
  }

  // ----- Handlers of a connection -----

  function WriteValidation(c: Conn): Conn {
    c.(validation := Sending(0), greetings := c.greetings + 1)
  }

  function ValidationTransmit(c: Conn, k: nat): Conn
    requires c.validation.Sending? && c.validation.sent + k <= 8
  {
    c.(validation := Sending(c.validation.sent + k))
  }

  function ValidationWritten(c: Conn, ok: bool): Conn
    requires c.validation.Sending?
  {
    if !ok then c.(validation := SendFailed(c.validation.sent), open := false)
    else if c.owner.ClientSide? then c.(validation := Sent, reader := ReadHeader(c.reader))
    else c.(validation := Sent)
  }

  function ChallengeReceived(c: Conn): Conn
    requires c.reader.op.ChallengeRead? && |c.reader.op.got| == 8
  {
    var answer := c.words.value(c.reader.op.got);
    var right := answer == c.handshakeCheck;
    var taken := c.(handshakeIn := answer, reader := ChallengeTaken(c.reader, c.owner, right));
    if c.owner.ClientSide? then WriteValidation(taken.(handshakeOut := c.words.scramble(answer)))
    else if right then taken
    else taken.(open := false)
  }

  /** Completion handler of the outstanding read. */
  function ReadDone(c: Conn, ok: bool): Conn
    requires !c.reader.op.NoRead? && (ok ==> |c.reader.op.got| == ReadSize(c.reader))
  {
    if !ok then c.(reader := ReadOver(c.reader, []), open := false)
    else
      match c.reader.op
      case ChallengeRead(_) => ChallengeReceived(c)
      case HeaderRead(_) => c.(reader := HeaderReceived(c.reader))
      case BodyRead(_) => c.(reader := BodyReceived(c.reader))
  }

  // ----- Steps -----

  datatype Action =
    | APost(m: Msg)
    | ATransmit(k: nat)
    | AWritten(ok: bool)
    | AValidationTransmit(k: nat)
    | AValidationWritten(ok: bool)
    | AReceive(bs: seq<byte>)
    | AReadDone(ok: bool)
    | AClose

  /** When a step can happen. Messages are posted once the own validation write has completed, with a size field
      that is the body's length; bytes move only while the socket is open. */
  predicate Enabled(c: Conn, a: Action) {
    match a
    case APost(m) => (c.validation.Sent? || c.validation.SendFailed?) && SizeMatches(m)
    case ATransmit(k) => c.open && Writing(c.writer) && c.writer.op.sent + k <= |WriteBuffer(c.writer)|
    case AWritten(ok) => Writing(c.writer) && (ok ==> c.writer.op.sent == |WriteBuffer(c.writer)|)
    case AValidationTransmit(k) => c.open && c.validation.Sending? && c.validation.sent + k <= 8
    case AValidationWritten(ok) => c.validation.Sending? && (ok ==> c.validation.sent == 8)
    case AReceive(bs) => c.open && !c.reader.op.NoRead? && |c.reader.op.got| + |bs| <= ReadSize(c.reader)
    case AReadDone(ok) => !c.reader.op.NoRead? && (ok ==> |c.reader.op.got| == ReadSize(c.reader))
    case AClose => true
  }

  function Step(c: Conn, a: Action): Conn
    requires Enabled(c, a)
  {
    match a
    case APost(m) => c.(writer := Post(c.writer, m))
    case ATransmit(k) => c.(writer := Transmit(c.writer, k))
    case AWritten(ok) => c.(writer := Written(c.writer, ok), open := c.open && ok)
    case AValidationTransmit(k) => ValidationTransmit(c, k)
    case AValidationWritten(ok) => ValidationWritten(c, ok)
    case AReceive(bs) => c.(reader := Receive(c.reader, bs))
    case AReadDone(ok) => ReadDone(c, ok)
    case AClose => c.(open := false)
  }
}
