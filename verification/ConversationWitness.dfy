/** Conversations do happen: whatever a client asks, there is a run in which it reads the server's answer. */
module ConversationWitness {
  import opened Bytes
  import opened Wire
  import opened Messages
  import opened ConnectionState
  import opened Framing
  import opened Delivery
  import opened DeliveryWitness
  import N = NetMessage
  import K = KeyRegistry
  import Q = RequestCodec
  import S = Server
  import opened Reply
  import opened Conversation

  ghost predicate JointReached(x: Setting, w: World) {
    exists tr :: JointRun(x, tr) && tr[|tr| - 1] == w
  }

  lemma HappenIsReached(x: Setting, w: World, e: Conversation.Event)
    requires JointReached(x, w) && Can(w, e)
    ensures JointReached(x, Happen(x, w, e))
  {
    assert Follows(x, w, Happen(x, w, e));
    NextIsReached(x, w, Happen(x, w, e));
  }

  lemma NextIsReached(x: Setting, w: World, v: World)
    requires JointReached(x, w) && Follows(x, w, v)
    ensures JointReached(x, v)
  {
    var tr :| JointRun(x, tr) && tr[|tr| - 1] == w;
    var longer := tr + [v];
    forall i | 0 <= i < |longer| - 1
      ensures NextAt(x, longer, i)
    {
      assert i < |tr| - 1 ==> NextAt(x, tr, i);
    }
    assert JointRun(x, longer) && longer[|longer| - 1] == v;
  }

  /** The connection moves without anyone posting. */
  lemma LeadsIsJointlyReached(x: Setting, w: World, q: Pair)
    requires JointReached(x, w) && Leads(w.pair, q)
    ensures JointReached(x, w.(pair := q))
  {
    var ps :| Path(ps, w.pair, q);
    PathIsJointlyReached(x, w, ps, q, |ps| - 1);
  }

  lemma {:induction false} PathIsJointlyReached(x: Setting, w: World, ps: seq<Pair>, q: Pair, n: nat)
    requires JointReached(x, w) && Path(ps, w.pair, q) && n < |ps|
    ensures JointReached(x, w.(pair := ps[n]))
  {
    if n == 0 {
      assert w.(pair := ps[0]) == w;
    } else {
      var m := n - 1;
      PathIsJointlyReached(x, w, ps, q, m);
      assert MovesAt(ps, m);
      var side, a :| PairEnabled(ps[m], side, a) && !a.APost? && ps[m + 1] == PairStep(ps[m], side, a);
      HappenIsReached(x, w.(pair := ps[m]), OnConnection(side, a));
    }
  }

  /** The registry handles one request, uninterrupted. */
  lemma {:induction false} WorkIsReached(x: Setting, w: World, order: seq<nat>)
    requires JointReached(x, w) && forall k :: 0 <= k < |order| ==> order[k] < |w.reg.handlers|
    ensures JointReached(x, w.(reg := K.Steps(x.c, x.serverId, w.reg, order)))
    decreases order
  {
    if order == [] {
      assert w.(reg := w.reg) == w;
    } else {
      HappenIsReached(x, w, Work(order[0]));
      WorkIsReached(x, Happen(x, w, Work(order[0])), order[1..]);
    }
  }

  // ----- The conversation -----

  /** The message by which a client asks. */
  function Asking(r: RequestInfo): N.Msg {
    S.StringMsg(S.SECKEY_AGREE, EncodeRequest(r))
  }

  lemma AskingFits(r: RequestInfo)
    ensures N.SizeMatches(Asking(r))
  {
  }

  /** Nobody has asked anything yet. */
  ghost predicate Untouched(x: Setting, w: World) {
    w.reg == K.Registry(K.Holding(x.init), [], []) && w.asked == [] && w.sent == []
  }

  /** Handshake done, nothing posted yet. */
  lemma MeetingIsDone(x: Setting, challenge: Word) returns (w: World)
    requires Lawful(x.words)
    ensures JointReached(x, w) && Untouched(x, w)
    ensures Quiet(w.pair, AtClient, []) && Quiet(w.pair, AtServer, [])
  {
    var start := World(Meeting(x.words, challenge), K.Registry(K.Holding(x.init), [], []), [], []);
    assert JointRun(x, [start]) && [start][|[start]| - 1] == start;
    var q := HandshakeDone(x.words, challenge);
    LeadsIsJointlyReached(x, start, q);
    w := start.(pair := q);
  }

  lemma PostingIsReached(x: Setting, w: World, m: N.Msg, q: Pair)
    requires JointReached(x, w) && PairEnabled(w.pair, AtClient, APost(m))
    requires Leads(PairStep(w.pair, AtClient, APost(m)), q)
    ensures JointReached(x, w.(pair := q))
  {
    HappenIsReached(x, w, OnConnection(AtClient, APost(m)));
    LeadsIsJointlyReached(x, Happen(x, w, OnConnection(AtClient, APost(m))), q);
  }

  /** The client's first message has arrived. */
  lemma FirstArrives(x: Setting, challenge: Word, m: N.Msg) returns (w: World)
    requires Lawful(x.words) && N.SizeMatches(m)
    ensures JointReached(x, w) && Untouched(x, w)
    ensures Quiet(w.pair, AtClient, [m]) && Quiet(w.pair, AtServer, [])
  {
    w := MeetingIsDone(x, challenge);
    var q := PostAndTransfer(w.pair, AtClient, [], [], m);
    PostingIsReached(x, w, m, q);
    assert [] + [m] == [m];
    w := w.(pair := q);
  }

  /** A handler takes the question. */
  lemma QuestionIsTaken(x: Setting, w: World, r: RequestInfo, aesKey: seq<byte>) returns (v: World)
    requires JointReached(x, w) && Untouched(x, w)
    requires |DeliveredMsgs(w.pair.server)| > 0 && IsRequest(DeliveredMsgs(w.pair.server)[0], r)
    ensures JointReached(x, v) && v.pair == w.pair
    ensures v.reg == S.Alone(x.init, r, aesKey, K.Arrived) && v.asked == [Some(0)] && v.sent == []
  {
    HappenIsReached(x, w, Ask(0, r, aesKey));
    v := Happen(x, w, Ask(0, r, aesKey));
  }

  /** What the server makes of the question. */
  lemma QuestionIsDelivered(x: Setting, w: World, r: RequestInfo)
    requires PairReached(x, w.pair) && Quiet(w.pair, AtClient, [Asking(r)])
    requires r != RequestInfo([], [], [], []) && |Q.Serialize(RequestProto(r))| <= INT_MAX
    ensures |DeliveredMsgs(w.pair.server)| == 1 && IsRequest(DeliveredMsgs(w.pair.server)[0], r)
  {
    QuietHasDelivered(x.words, w.pair, AtClient, [Asking(r)]);
    RequestDecodes(x, w.pair, 0, r);
    StickyOne(Asking(r));
  }

  lemma AloneAnswers(c: K.Crypto, serverId: seq<byte>, files: map<K.Path, seq<byte>>, r: RequestInfo, aesKey: seq<byte>)
      returns (order: seq<nat>, end: K.Registry)
    ensures forall k :: 0 <= k < |order| ==> order[k] < 1
    ensures end == K.Steps(c, serverId, S.Alone(files, r, aesKey, K.Arrived), order)
    ensures end.replies == [K.Addressed(0, S.Agreement(c, serverId, files, r, aesKey).reply)]
  {
    order := [0, 0, 0, 0, 0, 0];
    S.AgreementIsHandled(c, serverId, files, r, aesKey);
    end := K.Steps(c, serverId, S.Alone(files, r, aesKey, K.Arrived), order);
  }

  /** A handler has taken the question and done its work. */
  lemma QuestionIsHandled(x: Setting, w: World, r: RequestInfo, aesKey: seq<byte>) returns (v: World)
    requires JointReached(x, w) && Untouched(x, w)
    requires |DeliveredMsgs(w.pair.server)| > 0 && IsRequest(DeliveredMsgs(w.pair.server)[0], r)
    ensures JointReached(x, v) && v.pair == w.pair && v.asked == [Some(0)] && v.sent == []
    ensures v.reg.replies == [K.Addressed(0, S.Agreement(x.c, x.serverId, x.init, r, aesKey).reply)]
  {
    v := QuestionIsTaken(x, w, r, aesKey);
    var order, end := AloneAnswers(x.c, x.serverId, x.init, r, aesKey);
    WorkIsReached(x, v, order);
    v := v.(reg := end);
  }

  lemma StickyOne(m: N.Msg)
    ensures |Sticky([], [m])| == 1 && Sticky([], [m])[0].header == m.header
  {
  }

  lemma PairIsReached(x: Setting, w: World)
    requires JointReached(x, w)
    ensures PairReached(x, w.pair) && JointInv(x, w)
  {
    var tr :| JointRun(x, tr) && tr[|tr| - 1] == w;
    var n := |tr| - 1;
    JointRunKeeps(x, tr, n);
    assert tr[n] == w;
  }

  lemma AnsweringIsReached(x: Setting, w: World, o: S.Outcome, q: Pair)
    requires JointReached(x, w)
    requires w.asked == [Some(0)] && w.sent == [] && w.reg.replies == [K.Addressed(0, o.reply)]
    requires PairEnabled(w.pair, AtServer, APost(S.ReplyMsg(o.reply)))
    requires Leads(PairStep(w.pair, AtServer, APost(S.ReplyMsg(o.reply))), q)
    ensures JointReached(x, w.(pair := q, sent := [0]))
  {
    HappenIsReached(x, w, Answer(0));
    assert [] + [0] == [0];
    LeadsIsJointlyReached(x, Happen(x, w, Answer(0)), q);
  }

  /** The reply has been posted and has arrived. */
  lemma ReplyArrivesToo(x: Setting, w: World, ms: seq<N.Msg>, o: S.Outcome) returns (v: World)
    requires JointReached(x, w) && Quiet(w.pair, AtClient, ms) && Quiet(w.pair, AtServer, [])
    requires w.asked == [Some(0)] && w.sent == [] && w.reg.replies == [K.Addressed(0, o.reply)]
    ensures JointReached(x, v) && Quiet(v.pair, AtClient, ms) && Quiet(v.pair, AtServer, [S.ReplyMsg(o.reply)])
  {
    var m := S.ReplyMsg(o.reply);
    ReplyFits(o.reply);
    var q := PostAndTransfer(w.pair, AtServer, [], ms, m);
    AnsweringIsReached(x, w, o, q);
    assert [] + [m] == [m];
    v := w.(pair := q, sent := [0]);
  }

  /** For every challenge, request and directory there is a run in which the client asks and reads the answer: a
      refusal if there is a key file or the request does not verify, otherwise the secret for its key. */
  lemma AnswerCanBeRead(x: Setting, challenge: Word, r: RequestInfo, aesKey: seq<byte>) returns (tr: seq<World>)
    requires Lawful(x.words) && r != RequestInfo([], [], [], []) && |Q.Serialize(RequestProto(r))| <= INT_MAX
    ensures JointRun(x, tr) && tr[|tr| - 1].pair.client.writer.posted == [Asking(r)]
    ensures |DeliveredMsgs(tr[|tr| - 1].pair.client)| == 1
    ensures
      var m := DeliveredMsgs(tr[|tr| - 1].pair.client)[0];
      var info := RespondInfo(r.clientId, x.serverId, x.c.encrypt(r.data, aesKey), 12);
      if K.KeyPath(r.clientId) in x.init || !x.c.verify(r.data, x.c.hash(r.data), r.sign) then m.header.id == 3
      else m.header.id == 0 && (Encodable(info) ==> DecodeRespond(StringOf(m)) == Ok(info))
  {
    var o := S.Agreement(x.c, x.serverId, x.init, r, aesKey);
    AskingFits(r);
    var w := FirstArrives(x, challenge, Asking(r));
    PairIsReached(x, w);
    QuestionIsDelivered(x, w, r);
    w := QuestionIsHandled(x, w, r, aesKey);
    w := ReplyArrivesToo(x, w, [Asking(r)], o);
    AnswerIsRead(x, w, o);
    tr :| JointRun(x, tr) && tr[|tr| - 1] == w;
  }

  /** What the client has read at the end. */
  lemma AnswerIsRead(x: Setting, v: World, o: S.Outcome)
    requires JointReached(x, v) && Quiet(v.pair, AtServer, [S.ReplyMsg(o.reply)])
    ensures |DeliveredMsgs(v.pair.client)| == 1
    ensures
      var m := DeliveredMsgs(v.pair.client)[0];
      match o.reply
      case Refused => m.header.id == 3
      case Agreed(info) =>
        m.header.id == 0 && (Encodable(info) && info.seckeyId > 0 ==> DecodeRespond(StringOf(m)) == Ok(info))
  {
    PairIsReached(x, v);
    QuietHasDelivered(x.words, v.pair, AtServer, [S.ReplyMsg(o.reply)]);
    StickyOne(S.ReplyMsg(o.reply));
    match o.reply
    case Refused =>
    case Agreed(info) =>
      if Encodable(info) && info.seckeyId > 0 {
        ReplyDecodes(x, v.pair, 0, info);
      }
  }
}
