/** Runs of one connection, whatever its peer sends. */
module ConnectionRuns {
  import opened Bytes
  import opened NetMessage
  import opened Framing
  import opened ConnectionState
  import opened ConnectionLaws

  /** The own handshake word and how much of it has gone out. */
  function HelloSent(c: Conn): nat {
    match c.validation
    case NotSent => 0
    case Sending(n) => n
    case Sent => 8
    case SendFailed(n) => n
  }

  /** How the validation stage, the socket, the writer and the reader hang together. */
  predicate StageInv(c: Conn) {
    && HelloSent(c) <= 8
    && (c.writer.failed || c.validation.SendFailed? ==> !c.open)
    && (|c.writer.posted| > 0 ==> c.validation.Sent? || c.validation.SendFailed?)
    && (|c.writer.wire| > 0 ==> c.validation.Sent?)
    && (c.owner.ServerSide? ==> !c.validation.NotSent?)
    && (c.owner.ClientSide? ==> (c.validation.NotSent? <==> |c.reader.processed| == 0))
    && (c.owner.ClientSide? && c.validation.Sending? ==>
        |c.reader.processed| == 8 && c.reader.op.NoRead? && c.reader.tempIn.body == [])
    && c.greetings == (if c.validation.NotSent? then 0 else 1)
    && (c.open && c.reader.op.NoRead? ==> c.owner.ClientSide? && c.validation.Sending?)
  }

  predicate Right(c: Conn) {
    c.handshakeIn == c.handshakeCheck
  }

  ghost predicate ConnInv(c: Conn) {
    WriterInv(c.writer) && ReaderInv(c.reader, c.owner, Right(c)) && OneRead(c.reader) && StageInv(c)
  }

  lemma WriterStepKeeps(c: Conn, w: Writer)
    requires ConnInv(c) && WriterInv(w)
    requires |w.posted| > 0 ==> |c.writer.posted| > 0 || c.validation.Sent? || c.validation.SendFailed?
    requires |w.wire| > 0 ==> |c.writer.wire| > 0 || (c.open && |c.writer.posted| > 0)
    requires w.failed ==> c.writer.failed
    ensures ConnInv(c.(writer := w))
  {
    WriterStage(c, w);
  }

  lemma WriterStage(c: Conn, w: Writer)
    requires StageInv(c) && (w.failed ==> c.writer.failed)
    requires |w.posted| > 0 ==> |c.writer.posted| > 0 || c.validation.Sent? || c.validation.SendFailed?
    requires |w.wire| > 0 ==> |c.writer.wire| > 0 || (c.open && |c.writer.posted| > 0)
    ensures StageInv(c.(writer := w)) && Right(c.(writer := w)) == Right(c)
  {
  }

  lemma WriteFailedKeeps(c: Conn)
    requires ConnInv(c) && Writing(c.writer)
    ensures ConnInv(c.(writer := Written(c.writer, false), open := false))
  {
    WrittenKeepsWriter(c.writer, false);
    ClosedStage(c, Written(c.writer, false), c.reader);
  }

  /** A closed connection may have a failed writer or no read. */
  lemma ClosedStage(c: Conn, w: Writer, r: Reader)
    requires StageInv(c) && |w.posted| == |c.writer.posted| && |w.wire| == |c.writer.wire|
    requires r == c.reader || (r == ReadOver(c.reader, []) && !c.reader.op.NoRead?)
    ensures
      var c' := c.(writer := w, reader := r, open := false);
      StageInv(c') && Right(c') == Right(c)
  {
  }

  lemma ValidationTransmitKeeps(c: Conn, k: nat)
    requires ConnInv(c) && c.validation.Sending? && c.validation.sent + k <= 8
    ensures ConnInv(ValidationTransmit(c, k))
  {
    ValidationTransmitStage(c, k);
  }

  lemma ValidationTransmitStage(c: Conn, k: nat)
    requires StageInv(c) && c.validation.Sending? && c.validation.sent + k <= 8
    ensures
      var c' := ValidationTransmit(c, k);
      && StageInv(c') && Right(c') == Right(c)
      && c'.writer == c.writer && c'.reader == c.reader && c'.owner == c.owner
  {
  }

  lemma ValidationWrittenKeeps(c: Conn, ok: bool)
    requires ConnInv(c) && c.validation.Sending? && (ok ==> c.validation.sent == 8)
    ensures ConnInv(ValidationWritten(c, ok))
  {
    ValidationWrittenStage(c, ok);
    if ok && c.owner.ClientSide? {
      ReadHeaderKeepsReader(c.reader, Right(c));
    }
  }

  lemma ValidationWrittenStage(c: Conn, ok: bool)
    requires StageInv(c) && c.validation.Sending? && (ok ==> c.validation.sent == 8)
    ensures StageInv(ValidationWritten(c, ok))
    ensures ValidationWritten(c, ok).writer == c.writer && Right(ValidationWritten(c, ok)) == Right(c)
    ensures ValidationWritten(c, ok).owner == c.owner
  {
  }

  lemma ChallengeStepKeeps(c: Conn)
    requires ConnInv(c) && c.reader.op.ChallengeRead? && |c.reader.op.got| == 8
    ensures ConnInv(ChallengeReceived(c))
  {
    ChallengeStage(c);
    ChallengeKeepsReader(c.reader, c.owner, Right(c), c.words.value(c.reader.op.got) == c.handshakeCheck);
  }

  lemma ChallengeStage(c: Conn)
    requires StageInv(c) && c.reader.op.ChallengeRead? && |c.reader.op.got| == 8
    requires |c.reader.processed| == 0 && c.reader.tempIn.body == []
    ensures StageInv(ChallengeReceived(c)) && ChallengeReceived(c).writer == c.writer
    ensures Right(ChallengeReceived(c)) == (c.words.value(c.reader.op.got) == c.handshakeCheck)
    ensures ChallengeReceived(c).reader == ChallengeTaken(c.reader, c.owner, Right(ChallengeReceived(c)))
  {
  }

  lemma ReaderStepKeeps(c: Conn, r: Reader)
    requires ConnInv(c) && !c.reader.op.NoRead? && ReaderInv(r, c.owner, Right(c)) && OneRead(r)
    requires !r.op.NoRead? && (|r.processed| == 0 <==> |c.reader.processed| == 0)
    ensures ConnInv(c.(reader := r))
  {
    ReaderStage(c, r);
  }

  lemma ReaderStage(c: Conn, r: Reader)
    requires StageInv(c) && !c.reader.op.NoRead? && !r.op.NoRead? && (|r.processed| == 0 <==> |c.reader.processed| == 0)
    ensures StageInv(c.(reader := r)) && Right(c.(reader := r)) == Right(c)
  {
  }

  lemma ReadFailedKeeps(c: Conn)
    requires ConnInv(c) && !c.reader.op.NoRead?
    ensures ConnInv(c.(reader := ReadOver(c.reader, []), open := false))
  {
    ReadFailedKeepsReader(c.reader, c.owner, Right(c));
    ClosedStage(c, c.writer, ReadOver(c.reader, []));
  }

  lemma HeaderStepKeeps(c: Conn)
    requires ConnInv(c) && c.reader.op.HeaderRead? && |c.reader.op.got| == 8
    ensures ConnInv(c.(reader := HeaderReceived(c.reader)))
  {
    HeaderKeepsReader(c.reader, c.owner, Right(c));
    ReaderStepKeeps(c, HeaderReceived(c.reader));
  }

  lemma BodyStepKeeps(c: Conn)
    requires ConnInv(c) && c.reader.op.BodyRead? && |c.reader.op.got| == |c.reader.tempIn.body|
    ensures ConnInv(c.(reader := BodyReceived(c.reader)))
  {
    BodyKeepsReader(c.reader, c.owner, Right(c));
    ReaderStepKeeps(c, BodyReceived(c.reader));
  }

  lemma ReadDoneKeeps(c: Conn, ok: bool)
    requires ConnInv(c) && Enabled(c, AReadDone(ok))
    ensures ConnInv(ReadDone(c, ok))
  {
    if !ok {
      ReadFailedKeeps(c);
    } else {
      match c.reader.op
      case ChallengeRead(_) => ChallengeStepKeeps(c);
      case HeaderRead(_) => HeaderStepKeeps(c);
      case BodyRead(_) => BodyStepKeeps(c);
    }
  }

  lemma PostKeeps(c: Conn, m: Msg)
    requires ConnInv(c) && Enabled(c, APost(m))
    ensures ConnInv(c.(writer := Post(c.writer, m)))
  {
    PostKeepsWriter(c.writer, m);
    WriterStepKeeps(c, Post(c.writer, m));
  }

  lemma TransmitKeeps(c: Conn, k: nat)
    requires ConnInv(c) && Enabled(c, ATransmit(k))
    ensures ConnInv(c.(writer := Transmit(c.writer, k)))
  {
    TransmitKeepsWriter(c.writer, k);
    WriterStepKeeps(c, Transmit(c.writer, k));
  }

  lemma WrittenKeeps(c: Conn, ok: bool)
    requires ConnInv(c) && Enabled(c, AWritten(ok))
    ensures ConnInv(Step(c, AWritten(ok)))
  {
    if ok {
      WrittenKeepsWriter(c.writer, true);
      WriterStepKeeps(c, Written(c.writer, true));
      assert Step(c, AWritten(true)) == c.(writer := Written(c.writer, true));
    } else {
      WriteFailedKeeps(c);
    }
  }

  lemma ReceiveKeeps(c: Conn, bs: seq<byte>)
    requires ConnInv(c) && Enabled(c, AReceive(bs))
    ensures ConnInv(c.(reader := Receive(c.reader, bs)))
  {
    ReceiveKeepsReader(c.reader, bs, c.owner, Right(c));
    ReaderStepKeeps(c, Receive(c.reader, bs));
  }

  lemma CloseKeeps(c: Conn)
    requires ConnInv(c)
    ensures ConnInv(c.(open := false))
  {
    ClosedStage(c, c.writer, c.reader);
  }

  /** Every step of a connection keeps its invariant, whatever arrives from the peer. */
  lemma StepKeeps(c: Conn, a: Action)
    requires ConnInv(c) && Enabled(c, a)
    ensures ConnInv(Step(c, a))
  {
    match a
    case APost(m) => PostKeeps(c, m);
    case ATransmit(k) => TransmitKeeps(c, k);
    case AWritten(ok) => WrittenKeeps(c, ok);
    case AValidationTransmit(k) => ValidationTransmitKeeps(c, k);
    case AValidationWritten(ok) => ValidationWrittenKeeps(c, ok);
    case AReceive(bs) => ReceiveKeeps(c, bs);
    case AReadDone(ok) => ReadDoneKeeps(c, ok);
    case AClose => CloseKeeps(c);
  }

  // ----- The handshake words -----

  predicate WordsInv(c: Conn) {
    && (|c.reader.processed| > 0 ==>
        |c.reader.processed| >= 8 && c.handshakeIn == c.words.value(c.reader.processed[..8]))
    && (c.owner.ClientSide? && |c.reader.processed| > 0 ==> c.handshakeOut == c.words.scramble(c.handshakeIn))
    && (c.owner.ServerSide? ==> c.handshakeCheck == c.words.scramble(c.handshakeOut))
  }

  /** Changing the reader by appending to the bytes read after the handshake word keeps the words. */
  lemma WordsExtend(c: Conn, r: Reader, bs: seq<byte>)
    requires WordsInv(c) && r.processed == c.reader.processed + bs && (|c.reader.processed| == 0 ==> |bs| == 0)
    ensures WordsInv(c.(reader := r))
  {
    if |c.reader.processed| == 0 {
      assert |r.processed| == 0;
    } else {
      assert r.processed[..8] == c.reader.processed[..8];
    }
  }

  lemma ChallengeReceivedWords(c: Conn)
    requires WordsInv(c) && |c.reader.processed| == 0 && c.reader.op.ChallengeRead? && |c.reader.op.got| == 8
    ensures WordsInv(ChallengeReceived(c))
  {
    var got := c.reader.op.got;
    assert c.reader.processed + got == got && got[..8] == got;
  }

  lemma ReadDoneWords(c: Conn)
    requires WordsInv(c) && ConnInv(c) && Enabled(c, AReadDone(true))
    ensures WordsInv(ReadDone(c, true))
  {
    match c.reader.op
    case ChallengeRead(_) => ChallengeReceivedWords(c);
    case HeaderRead(got) => WordsExtend(c, HeaderReceived(c.reader), got);
    case BodyRead(got) => WordsExtend(c, BodyReceived(c.reader), got);
  }

  lemma StepKeepsWords(c: Conn, a: Action)
    requires WordsInv(c) && ConnInv(c) && Enabled(c, a)
    ensures WordsInv(Step(c, a))
  {
    if a == AReadDone(true) {
      ReadDoneWords(c);
    } else {
      OthersKeepWords(c, a);
    }
  }

  lemma OthersKeepWords(c: Conn, a: Action)
    requires WordsInv(c) && Enabled(c, a) && a != AReadDone(true)
    ensures WordsInv(Step(c, a))
  {
    OthersProcessNothing(c, a);
  }

  /** Only a completed read takes bytes in or changes a handshake word. */
  lemma OthersProcessNothing(c: Conn, a: Action)
    requires Enabled(c, a) && a != AReadDone(true)
    ensures Step(c, a).reader.processed == c.reader.processed && Step(c, a).owner == c.owner &&
      Step(c, a).words == c.words
    ensures Step(c, a).handshakeIn == c.handshakeIn && Step(c, a).handshakeOut == c.handshakeOut
    ensures Step(c, a).handshakeCheck == c.handshakeCheck
  {
    match a
    case AReadDone(ok) => assert c.reader.processed + [] == c.reader.processed;
    case _ =>
  }

  // ----- Runs -----

  ghost predicate Initial(c: Conn) {
    c == ConnectedConn(c.words) || c == AcceptedConn(c.words, c.handshakeOut)
  }

  lemma InitialInv(c: Conn)
    requires Initial(c)
    ensures ConnInv(c) && WordsInv(c)
  {
    IdleIsRight();
    if c.owner.ServerSide? {
      assert c.writer == IDLE_WRITER && c.reader == FRESH_READER && StageInv(c);
    } else {
      assert c.writer == IDLE_WRITER && c.reader == FRESH_READER && StageInv(c);
    }
  }

  lemma IdleIsRight()
    ensures WriterInv(IDLE_WRITER) && OneRead(FRESH_READER)
    ensures forall owner, right :: ReaderInv(FRESH_READER, owner, right)
  {
  }

  ghost predicate Next(c: Conn, c': Conn) {
    exists a :: Enabled(c, a) && c' == Step(c, a)
  }

  ghost predicate NextAt(tr: seq<Conn>, i: nat)
    requires i + 1 < |tr|
  {
    Next(tr[i], tr[i + 1])
  }

  /** A run of one connection; its peer may send anything. */
  ghost predicate Run(tr: seq<Conn>) {
    && tr != [] && Initial(tr[0])
    && forall i :: 0 <= i < |tr| - 1 ==> NextAt(tr, i)
  }

  function Last(tr: seq<Conn>): Conn
    requires |tr| > 0
  {
    tr[|tr| - 1]
  }

  lemma Extend(tr: seq<Conn>, a: Action, c: Conn) returns (longer: seq<Conn>)
    requires Run(tr) && Enabled(Last(tr), a) && c == Step(Last(tr), a)
    ensures Run(longer) && Last(longer) == c
  {
    longer := tr + [c];
    assert Next(Last(tr), c);
    forall i | 0 <= i < |longer| - 1
      ensures NextAt(longer, i)
    {
      if i < |tr| - 1 {
        assert NextAt(tr, i);
        assert longer[i] == tr[i] && longer[i + 1] == tr[i + 1];
      } else {
        assert longer[i] == Last(tr) && longer[i + 1] == c;
      }
    }
  }

  lemma NextKeeps(c: Conn, c': Conn)
    requires ConnInv(c) && WordsInv(c) && Next(c, c')
    ensures ConnInv(c') && WordsInv(c')
  {
    var a :| Enabled(c, a) && c' == Step(c, a);
    StepKeeps(c, a);
    StepKeepsWords(c, a);
  }

  lemma {:induction false} RunKeeps(tr: seq<Conn>, i: nat)
    requires Run(tr) && i < |tr|
    ensures ConnInv(tr[i]) && WordsInv(tr[i])
  {
    if i == 0 {
      InitialInv(tr[0]);
    } else {
      RunKeeps(tr, i - 1);
      assert NextAt(tr, i - 1);
      NextKeeps(tr[i - 1], tr[i]);
    }
  }

  /** Completing a read touches neither the writer nor a server's challenge. */
  lemma ReadDoneFrame(c: Conn, ok: bool)
    requires Enabled(c, AReadDone(ok))
    ensures ReadDone(c, ok).writer == c.writer && ReadDone(c, ok).owner == c.owner && ReadDone(c, ok).words == c.words
    ensures c.owner.ServerSide? ==> ReadDone(c, ok).handshakeOut == c.handshakeOut
  {
  }

  lemma ReadDoneEnds(c: Conn, ok: bool)
    requires Enabled(c, AReadDone(ok))
    ensures ReadDone(c, ok).reader.calls.ended == c.reader.calls.ended + 1
    ensures ReadDone(c, ok).reader.calls.started >= c.reader.calls.started
  {
    var over := ReadOver(c.reader, if ok then c.reader.op.got else []);
    if ok {
      match c.reader.op
      case ChallengeRead(_) =>
        var taken := ChallengeReceived(c).reader;
        assert taken.calls == over.calls || taken.calls == Started(over.calls);
      case HeaderRead(_) => assert HeaderReceived(c.reader).calls == Started(over.calls);
      case BodyRead(_) => assert BodyReceived(c.reader).calls == Started(over.calls);
    } else {
      assert ReadDone(c, false).reader == over;
    }
  }

  /** In every state of every run: a write is outstanding exactly while the queue is non-empty and no write has
      failed, it writes a part of the front message and never more than it, and the queue is the posted tail; every
      other write ever started has ended. The handshake word is written once at most, and before any message. */
  lemma OneWriteOutstanding(tr: seq<Conn>, i: nat)
    requires Run(tr) && i < |tr|
    ensures WriterDiscipline(tr[i].writer) && IsTail(tr[i].writer.qOut, tr[i].writer.posted)
    ensures tr[i].writer.failed ==> !tr[i].open
    ensures tr[i].greetings <= 1 && (tr[i].validation.Sending? ==> tr[i].writer.calls.started == 0)
  {
    RunKeeps(tr, i);
  }

  /** Likewise for reads: all but the outstanding one have ended. */
  lemma OneReadOutstanding(tr: seq<Conn>, i: nat)
    requires Run(tr) && i < |tr|
    ensures OneRead(tr[i].reader)
  {
    RunKeeps(tr, i);
  }

  /** An operation starts in the step that ends the one before it, or when none is outstanding. */
  predicate Follows(before: Calls, after: Calls) {
    && before.ended <= after.ended <= before.ended + 1
    && before.started <= after.started <= before.started + 1
    && (after.started > before.started ==> after.ended > before.ended || before.started == before.ended)
  }

  lemma CallsAdvance(c: Conn, a: Action)
    requires Enabled(c, a)
    ensures Step(c, a).writer.calls.ended == c.writer.calls.ended + (if a.AWritten? then 1 else 0)
    ensures Step(c, a).reader.calls.ended == c.reader.calls.ended + (if a.AReadDone? then 1 else 0)
    ensures c.writer.calls.started <= Step(c, a).writer.calls.started
    ensures c.reader.calls.started <= Step(c, a).reader.calls.started
  {
    match a
    case APost(m) => assert Post(c.writer, m).calls.ended == c.writer.calls.ended;
    case AWritten(ok) => assert Written(c.writer, ok).calls.ended == c.writer.calls.ended + 1;
    case AReadDone(ok) =>
      ReadDoneFrame(c, ok);
      ReadDoneEnds(c, ok);
    case _ =>
  }

  /** No two writes and no two reads of a connection ever overlap. */
  lemma CallsFollowOneAnother(tr: seq<Conn>, i: nat, j: nat)
    requires Run(tr) && j == i + 1 < |tr|
    ensures Follows(tr[i].writer.calls, tr[j].writer.calls) && Follows(tr[i].reader.calls, tr[j].reader.calls)
    ensures tr[j].writer.calls.started > tr[i].writer.calls.started ==> !tr[j].validation.Sending?
  {
    OneWriteOutstanding(tr, i);
    OneWriteOutstanding(tr, j);
    OneReadOutstanding(tr, i);
    OneReadOutstanding(tr, j);
    RunNext(tr, i, j);
    var a :| Enabled(tr[i], a) && tr[j] == Step(tr[i], a);
    CallsAdvance(tr[i], a);
  }

  lemma RunNext(tr: seq<Conn>, i: nat, j: nat)
    requires Run(tr) && j == i + 1 < |tr|
    ensures Next(tr[i], tr[j])
  {
    assert tr[j] == tr[i + 1];
    assert NextAt(tr, i);
  }

  /** A writer that has failed, in the state `w0` or later. */
  predicate Stopped(w0: Writer, w: Writer) {
    w.failed && w.op.NoWrite? && w.qOut != [] && w0.qOut <= w.qOut && w.wire == w0.wire && w.calls == w0.calls
  }

  lemma StoppedNext(w0: Writer, c: Conn, c': Conn)
    requires ConnInv(c) && Stopped(w0, c.writer) && Next(c, c')
    ensures Stopped(w0, c'.writer)
  {
    var a :| Enabled(c, a) && c' == Step(c, a);
    match a
    case AReadDone(ok) => ReadDoneFrame(c, ok);
    case APost(m) => assert c'.writer == Post(c.writer, m);
    case _ =>
  }

  /** After a write has failed the queue never shrinks again, let alone empties, and no write is ever started. */
  lemma {:induction false} FailedWriterStops(tr: seq<Conn>, i: nat, j: nat)
    requires Run(tr) && i <= j < |tr| && tr[i].writer.failed
    ensures Stopped(tr[i].writer, tr[j].writer)
  {
    if i == j {
      OneWriteOutstanding(tr, i);
    } else {
      FailedWriterStops(tr, i, j - 1);
      RunKeeps(tr, j - 1);
      assert NextAt(tr, j - 1);
      StoppedNext(tr[i].writer, tr[j - 1], tr[j]);
    }
  }

  // ----- The handshake gate -----

  /** What an unfinished read has so far. */
  function Got(r: Reader): seq<byte> {
    if r.op.NoRead? then [] else r.op.got
  }

  /** All bytes that have arrived, including those of a read that has not completed. */
  function Received(r: Reader): seq<byte> {
    r.processed + Got(r)
  }

  /** What a server-side connection may report for the input `s`, by its challenge alone. */
  function GatedReport(words: Words, challenge: Word, s: seq<byte>): seq<Event> {
    if |s| < 8 || words.value(s[..8]) != words.scramble(challenge) then []
    else [Validated] + Deliveries(Deframe([], s[8..]))
  }

  lemma ServerKeepsChallenge(c: Conn, c': Conn)
    requires Next(c, c') && c.owner.ServerSide?
    ensures c'.owner.ServerSide? && c'.handshakeOut == c.handshakeOut && c'.words == c.words
  {
    var a :| Enabled(c, a) && c' == Step(c, a);
    ServerStepKeepsChallenge(c, a);
  }

  lemma ServerStepKeepsChallenge(c: Conn, a: Action)
    requires Enabled(c, a) && c.owner.ServerSide?
    ensures Step(c, a).owner.ServerSide? && Step(c, a).handshakeOut == c.handshakeOut && Step(c, a).words == c.words
  {
    if a.AReadDone? {
      ReadDoneFrame(c, a.ok);
    }
  }

  lemma StepKeepsOwner(c: Conn, a: Action)
    requires Enabled(c, a)
    ensures Step(c, a).owner == c.owner && Step(c, a).words == c.words
  {
    if a.AReadDone? {
      ReadDoneFrame(c, a.ok);
    } else {
      OthersProcessNothing(c, a);
    }
  }

  lemma {:induction false} OwnerStays(tr: seq<Conn>, i: nat)
    requires Run(tr) && i < |tr|
    ensures tr[i].owner == tr[0].owner && tr[i].words == tr[0].words
  {
    if i > 0 {
      OwnerStays(tr, i - 1);
      assert NextAt(tr, i - 1);
      var a :| Enabled(tr[i - 1], a) && tr[i] == Step(tr[i - 1], a);
      StepKeepsOwner(tr[i - 1], a);
    }
  }

  lemma {:induction false} ChallengeStays(tr: seq<Conn>, i: nat)
    requires Run(tr) && i < |tr| && tr[0].owner.ServerSide?
    ensures tr[i].owner.ServerSide? && tr[i].handshakeOut == tr[0].handshakeOut && tr[i].words == tr[0].words
  {
    if i > 0 {
      ChallengeStays(tr, i - 1);
      assert NextAt(tr, i - 1);
      ServerKeepsChallenge(tr[i - 1], tr[i]);
    }
  }

  lemma PrefixStays(p: seq<byte>, bs: seq<byte>)
    requires |p| >= 8
    ensures (p + bs)[..8] == p[..8] && (p + bs)[8..] == p[8..] + bs
  {
  }

  lemma DeliveriesPrefix(a: seq<Msg>, b: seq<Msg>)
    requires a <= b
    ensures Deliveries(a) <= Deliveries(b)
  {
    DeliveriesAppend(a, b[|a|..]);
    assert b == a + b[|a|..];
  }

  lemma GatedReportMonotone(words: Words, challenge: Word, s: seq<byte>, t: seq<byte>)
    ensures GatedReport(words, challenge, s) <= GatedReport(words, challenge, s + t)
  {
    if |s| >= 8 {
      PrefixStays(s, t);
      DeframeMonotone([], s[8..], t);
      DeliveriesPrefix(Deframe([], s[8..]), Deframe([], s[8..] + t));
    }
  }

  lemma GateHolds(c: Conn)
    requires ConnInv(c) && WordsInv(c) && c.owner.ServerSide?
    ensures c.reader.log == GatedReport(c.words, c.handshakeOut, c.reader.processed)
  {
  }

  /** For any bytes a peer sends, a server-side connection reports exactly what its completed reads call for: nothing
      before or without the right answer, then one validation, then the messages of the stream behind it. */
  lemma HandshakeGate(tr: seq<Conn>, i: nat)
    requires Run(tr) && i < |tr| && tr[0].owner.ServerSide?
    ensures tr[i].reader.log == GatedReport(tr[0].words, tr[0].handshakeOut, tr[i].reader.processed)
    ensures tr[i].reader.log <= GatedReport(tr[0].words, tr[0].handshakeOut, Received(tr[i].reader))
  {
    RunKeeps(tr, i);
    ChallengeStays(tr, i);
    GateHolds(tr[i]);
    var r := tr[i].reader;
    GatedReportMonotone(tr[i].words, tr[i].handshakeOut, r.processed, Got(r));
  }

  lemma SilentNext(c: Conn, c': Conn)
    requires c.reader.op.NoRead? && c.owner.ServerSide? && Next(c, c')
    ensures c'.reader == c.reader
  {
  }

  /** A server-side connection whose peer gave the wrong answer reports nothing and reads no more. */
  lemma WrongAnswerRejected(c: Conn)
    requires ConnInv(c) && WordsInv(c) && c.owner.ServerSide? && |c.reader.processed| >= 8
    requires c.words.value(c.reader.processed[..8]) != c.words.scramble(c.handshakeOut)
    ensures c.reader.log == [] && c.reader.op.NoRead?
  {
  }

  /** Once the wrong answer has been read, nothing is ever reported and nothing more is read. */
  lemma {:induction false} WrongAnswerSilences(tr: seq<Conn>, i: nat, j: nat)
    requires Run(tr) && i <= j < |tr| && tr[0].owner.ServerSide?
    requires |tr[i].reader.processed| >= 8
    requires tr[0].words.value(tr[i].reader.processed[..8]) != tr[0].words.scramble(tr[0].handshakeOut)
    ensures tr[j].reader.log == [] && tr[j].reader.op.NoRead? && tr[j].reader == tr[i].reader
  {
    if i == j {
      ChallengeStays(tr, i);
      RunKeeps(tr, i);
      WrongAnswerRejected(tr[i]);
    } else {
      WrongAnswerSilences(tr, i, j - 1);
      ChallengeStays(tr, j - 1);
      assert NextAt(tr, j - 1);
      SilentNext(tr[j - 1], tr[j]);
    }
  }

  // ----- The socket -----

  /** A server about to find that the answer it has read is not the expected one. */
  predicate AboutToReject(c: Conn) {
    c.owner.ServerSide? && c.reader.op.ChallengeRead? && c.words.value(c.reader.op.got) != c.handshakeCheck
  }

  /** The socket is closed by each failed operation, by a wrong answer and on demand, and by nothing else. */
  lemma SocketCloses(c: Conn, a: Action)
    requires Enabled(c, a)
    ensures
      Step(c, a).open <==>
        && c.open && a != AWritten(false) && a != AValidationWritten(false) && a != AReadDone(false) && a != AClose
        && !(a == AReadDone(true) && AboutToReject(c))
  {
    if a == AReadDone(true) && c.reader.op.ChallengeRead? {
      assert Step(c, a) == ChallengeReceived(c);
    }
  }

  /** What a closed socket can still do: end the operations that are out. No more bytes go out or come in. */
  predicate Still(c: Conn, c': Conn) {
    !c'.open && c'.writer.wire == c.writer.wire && Received(c'.reader) <= Received(c.reader)
  }

  lemma ReadEndsStill(c: Conn, ok: bool)
    requires Enabled(c, AReadDone(ok)) && !c.open
    ensures Still(c, ReadDone(c, ok))
  {
    ReadDoneFrame(c, ok);
    var r := ReadDone(c, ok).reader;
    assert Received(r) == r.processed == c.reader.processed + if ok then c.reader.op.got else [];
  }

  lemma StillNext(c: Conn, c': Conn)
    requires !c.open && Next(c, c')
    ensures Still(c, c')
  {
    var a :| Enabled(c, a) && c' == Step(c, a);
    match a
    case AReadDone(ok) => ReadEndsStill(c, ok);
    case _ =>
  }

  /** Once the socket is closed it stays closed, and in every later state nothing more has gone out or come in. */
  lemma {:induction false} ClosedSocketIsStill(tr: seq<Conn>, i: nat, j: nat)
    requires Run(tr) && i <= j < |tr| && !tr[i].open
    ensures Still(tr[i], tr[j])
  {
    if i < j {
      ClosedSocketIsStill(tr, i, j - 1);
      assert NextAt(tr, j - 1);
      StillNext(tr[j - 1], tr[j]);
    }
  }
}
