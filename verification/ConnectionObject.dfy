/** The connection as the object the source has: handlers that update its fields, each proved to be the step of
    module ConnectionState for its callback. An object's history is a run, so what holds of runs holds of it. */
module ConnectionObject {
  import opened Bytes
  import opened NetMessage
  import opened Framing
  import opened ConnectionState
  import opened ConnectionLaws
  import Runs = ConnectionRuns
  import TSQueue

  /** The messages an event log delivers. */
  function Handed(log: seq<Event>): seq<Msg> {
    if log == [] then []
    else Handed(log[..|log| - 1]) + if log[|log| - 1].Delivered? then [log[|log| - 1].msg] else []
  }

  lemma HandedPush(log: seq<Event>, e: Event)
    ensures Handed(log + [e]) == Handed(log) + if e.Delivered? then [e.msg] else []
  {
    assert (log + [e])[..|log|] == log;
  }

  lemma {:induction false} HandedDeliveries(log: seq<Event>, ms: seq<Msg>)
    ensures Handed(log + Deliveries(ms)) == Handed(log) + ms
  {
    if ms == [] {
      assert log + Deliveries(ms) == log;
    } else {
      var front, last := ms[..|ms| - 1], ms[|ms| - 1];
      HandedDeliveries(log, front);
      Assoc(log, Deliveries(front), [Delivered(last)]);
      HandedPush(log + Deliveries(front), Delivered(last));
      assert ms == front + [last];
    }
  }

  lemma HandedOnly(ms: seq<Msg>)
    ensures Handed(Deliveries(ms)) == ms && [] + Deliveries(ms) == Deliveries(ms)
  {
    HandedDeliveries([], ms);
    assert [] + ms == ms && [] + Deliveries(ms) == Deliveries(ms);
  }

  /** The messages a connection may hand on for the input `s`: those of the stream behind the handshake word, on the
      server only if the word is the answer to its challenge. */
  function GatedMessages(owner: Owner, words: Words, challenge: Word, s: seq<byte>): seq<Msg> {
    if |s| < 8 || (owner.ServerSide? && words.value(s[..8]) != words.scramble(challenge)) then []
    else Deframe([], s[8..])
  }

  lemma HandedByGate(tr: seq<Conn>)
    requires Runs.Run(tr)
    ensures
      var c := Runs.Last(tr);
      Handed(c.reader.log) == GatedMessages(c.owner, c.words, c.handshakeOut, c.reader.processed)
  {
    if Runs.Last(tr).owner.ServerSide? {
      HandedByServer(tr);
    } else {
      HandedByClient(tr);
    }
  }

  lemma HandedByServer(tr: seq<Conn>)
    requires Runs.Run(tr) && Runs.Last(tr).owner.ServerSide?
    ensures
      var c := Runs.Last(tr);
      Handed(c.reader.log) == GatedMessages(ServerSide, c.words, c.handshakeOut, c.reader.processed)
  {
    var i, c := |tr| - 1, Runs.Last(tr);
    Runs.OwnerStays(tr, i);
    Runs.ChallengeStays(tr, i);
    Runs.HandshakeGate(tr, i);
    ReportIsHanded(c.words, c.handshakeOut, c.reader.processed);
  }

  lemma ReportIsHanded(words: Words, challenge: Word, s: seq<byte>)
    ensures Handed(Runs.GatedReport(words, challenge, s)) == GatedMessages(ServerSide, words, challenge, s)
  {
    assert Handed([Validated]) == Handed([]) == [];
    if |s| >= 8 {
      HandedDeliveries([Validated], Deframe([], s[8..]));
    }
  }

  lemma HandedByClient(tr: seq<Conn>)
    requires Runs.Run(tr) && Runs.Last(tr).owner.ClientSide?
    ensures
      var c := Runs.Last(tr);
      Handed(c.reader.log) == GatedMessages(ClientSide, c.words, c.handshakeOut, c.reader.processed)
  {
    var i, c := |tr| - 1, Runs.Last(tr);
    Runs.RunKeeps(tr, i);
    assert tr[i] == c;
    ClientHanded(c);
  }

  lemma ClientHanded(c: Conn)
    requires Runs.ConnInv(c) && c.owner.ClientSide?
    ensures Handed(c.reader.log) == GatedMessages(ClientSide, c.words, c.handshakeOut, c.reader.processed)
  {
    HandedOnly(Deframe([], Stream(c.reader)));
  }

  lemma LinkGrows(pushed: seq<OwnedMessage>, remote: Option<uint32>, m: Msg, earlier: seq<Msg>, log: seq<Event>)
    requires From(pushed, remote) == earlier + Handed(log)
    ensures From(pushed + [OwnedMessage(remote, m)], remote) == earlier + Handed(log + [Delivered(m)])
  {
    FromPush(pushed, OwnedMessage(remote, m), remote);
    HandedPush(log, Delivered(m));
    Assoc(earlier, Handed(log), [m]);
  }

  lemma AnswerIs(c: Conn, word: Word, right: bool)
    requires c.owner.ServerSide? && c.reader.op.ChallengeRead? && |c.reader.op.got| == 8
    requires word == c.words.value(c.reader.op.got) && right == (word == c.handshakeCheck)
    ensures ChallengeReceived(c)
         == c.(handshakeIn := word, reader := ChallengeTaken(c.reader, ServerSide, right), open := c.open && right)
  {
  }

  /** The step of a completed header or body read. */
  lemma ReadStep(c: Conn)
    requires (c.reader.op.HeaderRead? || c.reader.op.BodyRead?) && |c.reader.op.got| == ReadSize(c.reader)
    ensures Enabled(c, AReadDone(true))
    ensures
      Step(c, AReadDone(true))
   == c.(reader := if c.reader.op.HeaderRead? then HeaderReceived(c.reader) else BodyReceived(c.reader))
  {
  }

  class Connection {
    const owner: Owner
    const id: uint32
    const words: Words
    const qMessagesOut: TSQueue.Queue<Msg>
    const qMessagesIn: TSQueue.Queue<OwnedMessage>
    var socketOpen: bool
    var msgTemporaryIn: Msg
    var handshakeOut: Word
    var handshakeIn: Word
    var handshakeCheck: Word

    // The outstanding asynchronous operations.
    var writeOp: WriteOp
    var readOp: ReadOp
    var validation: Validation

    // History: of each part, of the whole, and what the incoming queue had seen under this id before.
    ghost var posted: seq<Msg>
    ghost var writeFailed: bool
    ghost var wire: seq<byte>
    ghost var writeCalls: Calls
    ghost var processed: seq<byte>
    ghost var log: seq<Event>
    ghost var readCalls: Calls
    ghost var greetings: nat
    ghost var history: seq<Conn>
    ghost const earlier: seq<Msg>

    ghost function Out(): Writer
      reads this, qMessagesOut
    {
      Writer(qMessagesOut.deq, writeOp, posted, writeFailed, wire, writeCalls)
    }

    ghost function In(): Reader
      reads this
    {
      Reader(readOp, msgTemporaryIn, processed, log, readCalls)
    }

    ghost function View(): Conn
      reads this, qMessagesOut
    {
      Conn(owner, socketOpen, Out(), In(), validation, greetings, words, handshakeOut, handshakeIn, handshakeCheck)
    }

    ghost function Remote(): Option<uint32> {
      if owner.ServerSide? then Some(id) else None
    }

    /** All that the incoming queue has ever been given under this connection's id is what the log says. */
    ghost predicate Linked()
      reads this, qMessagesIn
    {
      From(qMessagesIn.Pushed(), Remote()) == earlier + Handed(log)
    }

    /** The object is at the end of a run, and the incoming queue has had what the run delivered. */
    ghost predicate Valid()
      reads this, qMessagesOut, qMessagesIn
    {
      && qMessagesOut as object != qMessagesIn as object
      && Runs.Run(history) && Runs.Last(history) == View()
      && Linked()
    }

    /** Constructor for an accepted socket, followed by `ConnectToClient`. */
    constructor AcceptClient(words: Words, uid: uint32, now: Word, qIn: TSQueue.Queue<OwnedMessage>)
      ensures View() == AcceptedConn(words, now) && id == uid && qMessagesIn == qIn
      ensures fresh(qMessagesOut) && Valid()
    {
      owner, id, socketOpen, this.words := ServerSide, uid, true, words;
      qMessagesOut := new TSQueue.Queue();
      qMessagesIn := qIn;
      msgTemporaryIn := EMPTY;
      handshakeOut, handshakeIn, handshakeCheck := now, NO_WORD, words.scramble(now);
      writeOp, readOp, validation := NoWrite, ChallengeRead([]), Sending(0);
      posted, writeFailed, wire, processed, log := [], false, [], [], [];
      writeCalls, readCalls, greetings := NO_CALLS, Calls(1, 0), 1;
      history, earlier := [AcceptedConn(words, now)], From(qIn.Pushed(), Some(uid));
    }

    /** Constructor for a client whose socket has just connected. */
    constructor ConnectToServer(words: Words, qIn: TSQueue.Queue<OwnedMessage>)
      ensures View() == ConnectedConn(words) && qMessagesIn == qIn
      ensures fresh(qMessagesOut) && Valid()
    {
      owner, id, socketOpen, this.words := ClientSide, 0, true, words;
      qMessagesOut := new TSQueue.Queue();
      qMessagesIn := qIn;
      msgTemporaryIn := EMPTY;
      handshakeOut, handshakeIn, handshakeCheck := NO_WORD, NO_WORD, NO_WORD;
      writeOp, readOp, validation := NoWrite, ChallengeRead([]), NotSent;
      posted, writeFailed, wire, processed, log := [], false, [], [], [];
      writeCalls, readCalls, greetings := NO_CALLS, Calls(1, 0), 0;
      history, earlier := [ConnectedConn(words)], From(qIn.Pushed(), None);
    }

    /** What the theorems about runs say of an object: one write and one read at most; and the queue was given, under
        this id, exactly the messages of the stream behind the handshake, on the server none without the right
        answer. */
    lemma Guarantee()
      requires Valid()
      ensures WriterDiscipline(Out()) && OneRead(In())
      ensures From(qMessagesIn.Pushed(), Remote()) == earlier + GatedMessages(owner, words, handshakeOut, processed)
    {
      Runs.OneWriteOutstanding(history, |history| - 1);
      Runs.OneReadOutstanding(history, |history| - 1);
      HandedByGate(history);
    }

    /** The step `a` has been taken from the state `before`. */
    ghost method Record(before: Conn, a: Action)
      requires Runs.Run(history) && Runs.Last(history) == before && Enabled(before, a) && View() == Step(before, a)
      modifies this`history
      ensures Runs.Run(history) && Runs.Last(history) == View()
    {
      history := Runs.Extend(history, a, View());
    }

    // ----- What others do with the shared queue -----

    /** Another connection hands on a message. */
    method OnOthersPush(item: OwnedMessage)
      requires Valid() && item.remote != Remote()
      modifies qMessagesIn
      ensures Valid() && View() == old(View()) && qMessagesIn.deq == old(qMessagesIn.deq) + [item]
    {
      FromPush(qMessagesIn.Pushed(), item, Remote());
      assert From(qMessagesIn.Pushed() + [item], Remote()) == From(qMessagesIn.Pushed(), Remote());
      qMessagesIn.PushBack(item);
    }

    /** The consumer takes the oldest message off. */
    method OnTaken() returns (item: OwnedMessage)
      requires Valid() && qMessagesIn.deq != []
      modifies qMessagesIn
      ensures Valid() && View() == old(View()) && [item] + qMessagesIn.deq == old(qMessagesIn.deq)
    {
      item := qMessagesIn.PopFront();
    }

    // ----- What the socket does -----

    method OnBytesTaken(k: nat)
      requires Valid() && Enabled(View(), ATransmit(k))
      modifies this
      ensures Valid() && View() == Step(old(View()), ATransmit(k))
    {
      ghost var before := View();
      wire := wire + WriteBuffer(Out())[writeOp.sent..writeOp.sent + k];
      writeOp := if writeOp.HeaderWrite? then HeaderWrite(writeOp.sent + k) else BodyWrite(writeOp.sent + k);
      Record(before, ATransmit(k));
    }

    method OnHandshakeBytesTaken(k: nat)
      requires Valid() && Enabled(View(), AValidationTransmit(k))
      modifies this
      ensures Valid() && View() == Step(old(View()), AValidationTransmit(k))
    {
      ghost var before := View();
      validation := Sending(validation.sent + k);
      Record(before, AValidationTransmit(k));
    }

    method OnBytesArrived(bs: seq<byte>)
      requires Valid() && Enabled(View(), AReceive(bs))
      modifies this
      ensures Valid() && View() == Step(old(View()), AReceive(bs))
    {
      ghost var before := View();
      match readOp {
        case ChallengeRead(got) => readOp := ChallengeRead(got + bs);
        case HeaderRead(got) => readOp := HeaderRead(got + bs);
        case BodyRead(got) => readOp := BodyRead(got + bs);
      }
      Record(before, AReceive(bs));
    }

    method Close()
      requires Valid()
      modifies this
      ensures Valid() && View() == Step(old(View()), AClose)
      ensures !socketOpen && Out() == old(Out()) && In() == old(In()) && validation == old(validation)
    {
      ghost var before := View();
      socketOpen := false;
      Record(before, AClose);
    }

    // ----- Writing -----

    method WriteHeader()
      modifies this`writeOp, this`writeCalls
      ensures writeOp == HeaderWrite(0) && writeCalls == Started(old(writeCalls))
    {
      writeOp, writeCalls := HeaderWrite(0), Started(writeCalls);
    }

    method WriteBody()
      modifies this`writeOp, this`writeCalls
      ensures writeOp == BodyWrite(0) && writeCalls == Started(old(writeCalls))
    {
      writeOp, writeCalls := BodyWrite(0), Started(writeCalls);
    }

    /** The handler `Send` posts to the io thread. */
    method OnSendPosted(msg: Msg)
      requires Valid() && Enabled(View(), APost(msg))
      modifies this, qMessagesOut
      ensures Valid() && View() == Step(old(View()), APost(msg))
      ensures qMessagesOut.deq == old(qMessagesOut.deq) + [msg] && posted == old(posted) + [msg]
      ensures writeOp == if old(qMessagesOut.deq) == [] then HeaderWrite(0) else old(writeOp)
    {
      ghost var before := View();
      var idle := qMessagesOut.Empty();
      qMessagesOut.PushBack(msg);
      posted := posted + [msg];
      if idle {
        WriteHeader();
      }
      Record(before, APost(msg));
    }

    method OnHeaderWritten(ok: bool)
      requires Valid() && writeOp.HeaderWrite? && Enabled(View(), AWritten(ok))
      modifies this, qMessagesOut
      ensures Valid() && View() == Step(old(View()), AWritten(ok))
    {
      ghost var before := View();
      if ok {
        EndHeader();
      } else {
        WriteFailed();
      }
      Record(before, AWritten(ok));
    }

    method EndHeader()
      requires writeOp.HeaderWrite? && qMessagesOut.deq != []
      modifies this`writeOp, this`writeCalls, qMessagesOut
      ensures Out() == Written(old(Out()), true)
    {
      writeOp, writeCalls := NoWrite, Ended(writeCalls);
      var front := qMessagesOut.Front();
      if |front.body| > 0 {
        WriteBody();
      } else {
        NextMessage();
      }
    }

    method OnBodyWritten(ok: bool)
      requires Valid() && writeOp.BodyWrite? && Enabled(View(), AWritten(ok))
      modifies this, qMessagesOut
      ensures Valid() && View() == Step(old(View()), AWritten(ok))
    {
      ghost var before := View();
      if ok {
        EndBody();
      } else {
        WriteFailed();
      }
      Record(before, AWritten(ok));
    }

    method EndBody()
      requires writeOp.BodyWrite? && qMessagesOut.deq != []
      modifies this`writeOp, this`writeCalls, qMessagesOut
      ensures Out() == Written(old(Out()), true)
    {
      writeOp, writeCalls := NoWrite, Ended(writeCalls);
      NextMessage();
    }

    method WriteFailed()
      requires Writing(Out())
      modifies this`writeOp, this`writeCalls, this`writeFailed, this`socketOpen
      ensures Out() == Written(old(Out()), false) && !socketOpen
    {
      writeOp, writeCalls, writeFailed, socketOpen := NoWrite, Ended(writeCalls), true, false;
    }

    /** Pops the message just sent and starts on the next one, if any. */
    method NextMessage()
      requires qMessagesOut.deq != [] && writeOp.NoWrite?
      modifies this`writeOp, this`writeCalls, qMessagesOut
      ensures Out() == FinishMessage(old(Out()))
    {
      var _ := qMessagesOut.PopFront();
      var empty := qMessagesOut.Empty();
      if !empty {
        WriteHeader();
      }
    }

    // ----- Reading -----

    method ReadHeader()
      modifies this`readOp, this`readCalls
      ensures readOp == HeaderRead([]) && readCalls == Started(old(readCalls))
    {
      readOp, readCalls := HeaderRead([]), Started(readCalls);
    }

    method ReadBody()
      modifies this`readOp, this`readCalls
      ensures readOp == BodyRead([]) && readCalls == Started(old(readCalls))
    {
      readOp, readCalls := BodyRead([]), Started(readCalls);
    }

    method AddToIncomingMessageQueue()
      requires Linked()
      modifies this`readOp, this`readCalls, this`log, qMessagesIn
      ensures qMessagesIn.deq == old(qMessagesIn.deq) + [OwnedMessage(Remote(), msgTemporaryIn)]
      ensures In() == AddToIncoming(old(In())) && Linked()
    {
      LinkGrows(qMessagesIn.Pushed(), Remote(), msgTemporaryIn, earlier, log);
      if owner.ServerSide? {
        qMessagesIn.PushBack(OwnedMessage(Some(id), msgTemporaryIn));
      } else {
        qMessagesIn.PushBack(OwnedMessage(None, msgTemporaryIn));
      }
      log := log + [Delivered(msgTemporaryIn)];
      ReadHeader();
    }

    /** Takes the bytes of the read that is over. */
    method EndRead(bs: seq<byte>)
      modifies this`readOp, this`processed, this`readCalls
      ensures In() == ReadOver(old(In()), bs)
    {
      processed, readOp, readCalls := processed + bs, NoRead, Ended(readCalls);
    }

    method OnReadFailed()
      requires Valid() && !readOp.NoRead?
      modifies this
      ensures Valid() && View() == Step(old(View()), AReadDone(false))
    {
      ghost var before := View();
      EndRead([]);
      socketOpen := false;
      assert View() == before.(reader := ReadOver(before.reader, []), open := false);
      Record(before, AReadDone(false));
    }

    method OnHeaderRead(ok: bool)
      requires Valid() && readOp.HeaderRead? && (ok ==> |readOp.got| == 8)
      modifies this, qMessagesIn
      ensures Valid() && View() == Step(old(View()), AReadDone(ok))
    {
      if ok {
        OnHeaderComplete();
      } else {
        OnReadFailed();
      }
    }

    method OnHeaderComplete()
      requires Valid() && readOp.HeaderRead? && |readOp.got| == 8
      modifies this, qMessagesIn
      ensures Valid() && View() == Step(old(View()), AReadDone(true))
    {
      ghost var before := View();
      ReadStep(before);
      TakeHeader();
      assert View() == before.(reader := In());
      Record(before, AReadDone(true));
    }

    method TakeHeader()
      requires readOp.HeaderRead? && |readOp.got| == 8 && Linked() && qMessagesOut as object != qMessagesIn as object
      modifies this`readOp, this`readCalls, this`processed, this`msgTemporaryIn, this`log, qMessagesIn
      ensures In() == HeaderReceived(old(In())) && Out() == old(Out()) && Linked()
    {
      var header := HeaderValue(readOp.got);
      EndRead(readOp.got);
      if header.size > 0 {
        msgTemporaryIn := Msg(header, Resize(msgTemporaryIn.body, header.size));
        ReadBody();
      } else {
        msgTemporaryIn := Msg(header, msgTemporaryIn.body);
        AddToIncomingMessageQueue();
      }
    }

    method OnBodyRead(ok: bool)
      requires Valid() && readOp.BodyRead? && (ok ==> |readOp.got| == |msgTemporaryIn.body|)
      modifies this, qMessagesIn
      ensures Valid() && View() == Step(old(View()), AReadDone(ok))
    {
      if ok {
        OnBodyComplete();
      } else {
        OnReadFailed();
      }
    }

    method OnBodyComplete()
      requires Valid() && readOp.BodyRead? && |readOp.got| == |msgTemporaryIn.body|
      modifies this, qMessagesIn
      ensures Valid() && View() == Step(old(View()), AReadDone(true))
    {
      ghost var before := View();
      ReadStep(before);
      TakeBody();
      assert View() == before.(reader := In());
      Record(before, AReadDone(true));
    }

    method TakeBody()
      requires readOp.BodyRead? && Linked() && qMessagesOut as object != qMessagesIn as object
      modifies this`readOp, this`readCalls, this`processed, this`msgTemporaryIn, this`log, qMessagesIn
      ensures In() == BodyReceived(old(In())) && Out() == old(Out()) && Linked()
    {
      msgTemporaryIn := Msg(msgTemporaryIn.header, readOp.got);
      EndRead(readOp.got);
      AddToIncomingMessageQueue();
    }

    // ----- Handshake -----

    method WriteValidation()
      modifies this`validation, this`greetings
      ensures validation == Sending(0) && greetings == old(greetings) + 1
    {
      validation, greetings := Sending(0), greetings + 1;
    }

    method OnValidationWritten(ok: bool)
      requires Valid() && Enabled(View(), AValidationWritten(ok))
      modifies this
      ensures Valid() && View() == Step(old(View()), AValidationWritten(ok))
    {
      ghost var before := View();
      if ok {
        validation := Sent;
        if owner.ClientSide? {
          ReadHeader();
        }
      } else {
        validation, socketOpen := SendFailed(validation.sent), false;
      }
      Record(before, AValidationWritten(ok));
    }

    /** The result says whether `OnClientValidated` is called. */
    method OnValidationRead(ok: bool) returns (validated: bool)
      requires Valid() && readOp.ChallengeRead? && (ok ==> |readOp.got| == 8)
      modifies this
      ensures Valid() && View() == Step(old(View()), AReadDone(ok))
      ensures log == old(log) + if validated then [Validated] else []
    {
      validated := false;
      if !ok {
        OnReadFailed();
      } else if owner.ServerSide? {
        validated := OnAnswer();
      } else {
        OnServersChallenge();
      }
    }

    method OnAnswer() returns (validated: bool)
      requires Valid() && owner.ServerSide? && readOp.ChallengeRead? && |readOp.got| == 8
      modifies this
      ensures Valid() && View() == Step(old(View()), AReadDone(true))
      ensures log == old(log) + if validated then [Validated] else []
    {
      ghost var before := View();
      validated := TakeAnswer();
      AnswerIs(before, handshakeIn, validated);
      assert View() == before.(
        handshakeIn := handshakeIn, reader := ChallengeTaken(before.reader, ServerSide, validated),
        open := before.open && validated);
      Record(before, AReadDone(true));
    }

    method OnServersChallenge()
      requires Valid() && owner.ClientSide? && readOp.ChallengeRead? && |readOp.got| == 8
      modifies this
      ensures Valid() && View() == Step(old(View()), AReadDone(true)) && log == old(log)
    {
      ghost var before := View();
      TakeChallenge();
      assert View() == ChallengeReceived(before);
      Record(before, AReadDone(true));
    }

    /** The server has read the client's answer. */
    method TakeAnswer() returns (validated: bool)
      requires owner.ServerSide? && readOp.ChallengeRead? && |readOp.got| == 8 && Linked()
      modifies this`readOp, this`readCalls, this`socketOpen, this`processed, this`log, this`handshakeIn
      ensures handshakeIn == words.value(old(readOp.got)) && validated == (handshakeIn == handshakeCheck)
      ensures In() == ChallengeTaken(old(In()), owner, validated) && socketOpen == (old(socketOpen) && validated)
      ensures Linked() && log == old(log) + if validated then [Validated] else []
    {
      handshakeIn := words.value(readOp.got);
      EndRead(readOp.got);
      validated := handshakeIn == handshakeCheck;
      if validated {
        HandedPush(log, Validated);
        log := log + [Validated];
        ReadHeader();
      } else {
        socketOpen := false;
      }
    }

    /** The client has read the server's challenge. */
    method TakeChallenge()
      requires owner.ClientSide? && readOp.ChallengeRead? && |readOp.got| == 8
      modifies this`readOp, this`readCalls, this`processed, this`validation, this`greetings,
        this`handshakeIn, this`handshakeOut
      ensures forall right :: In() == ChallengeTaken(old(In()), owner, right)
      ensures handshakeIn == words.value(old(readOp.got)) && handshakeOut == words.scramble(handshakeIn)
      ensures validation == Sending(0) && greetings == old(greetings) + 1
    {
      handshakeIn := words.value(readOp.got);
      EndRead(readOp.got);
      handshakeOut := words.scramble(handshakeIn);
      WriteValidation();
    }
  }
}
