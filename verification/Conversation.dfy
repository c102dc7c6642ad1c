/** Client, connection, handlers and key directory run together: what a client reads back is the answer to what it
    asked. */
module Conversation {
  import opened Bytes
  import opened Messages
  import opened Wire
  import opened ConnectionState
  import opened ConnectionLaws
  import opened ConnectionRuns
  import opened Delivery
  import opened Framing
  import Q = RequestCodec
  import N = NetMessage
  import K = KeyRegistry
  import S = Server
  import opened Reply

  datatype Setting = Setting(words: Words, c: K.Crypto, serverId: seq<byte>, init: map<K.Path, seq<byte>>)

  /** One client's connection and the server's registry. `asked` tells of each handler which message delivered on this
      connection it is for, if any; `sent` which replies have been posted on it, by their number, in order. */
  datatype World = World(pair: Pair, reg: K.Registry, asked: seq<Option<nat>>, sent: seq<nat>)

  datatype Event =
    | OnConnection(side: Side, a: Action)
    | Ask(j: nat, request: RequestInfo, aesKey: seq<byte>)
    | OthersAsk(request: RequestInfo, aesKey: seq<byte>)
    | Work(i: nat)
    | Answer(k: nat)

  /** A handler of the message takes it for this request. If it does not decode, it may be taken for anything. */
  predicate IsRequest(m: N.Msg, r: RequestInfo) {
    m.header.id == S.SECKEY_AGREE && (DecodeRequest(StringOf(m)).Ok? ==> DecodeRequest(StringOf(m)).value == r)
  }

  function ReplyOf(w: World, k: nat): N.Msg
    requires k < |w.reg.replies|
  {
    S.ReplyMsg(w.reg.replies[k].reply)
  }

  /** What can happen: anything on the connection, except that the server posts replies only; a delivered message
      reaches a handler, once; requests of other clients; handlers move; a reply is posted, once. No two requests in
      flight share a client id. */
  ghost predicate Can(w: World, e: Event) {
    match e
    case OnConnection(side, a) => PairEnabled(w.pair, side, a) && (side == AtServer ==> !a.APost?)
    case Ask(j, r, aesKey) =>
      && j < |DeliveredMsgs(w.pair.server)| && Some(j) !in w.asked && IsRequest(DeliveredMsgs(w.pair.server)[j], r)
      && K.Exclusive(w.reg, K.Arrive(r, aesKey))
    case OthersAsk(r, aesKey) => K.Exclusive(w.reg, K.Arrive(r, aesKey))
    case Work(i) => i < |w.reg.handlers|
    case Answer(k) =>
      && k < |w.reg.replies| && k !in w.sent
      && w.reg.replies[k].to < |w.asked| && w.asked[w.reg.replies[k].to].Some?
      && PairEnabled(w.pair, AtServer, APost(ReplyOf(w, k)))
  }

  ghost function Happen(x: Setting, w: World, e: Event): World
    requires Can(w, e)
  {
    match e
    case OnConnection(side, a) => w.(pair := PairStep(w.pair, side, a))
    case Ask(j, r, aesKey) =>
      w.(reg := K.Step(x.c, x.serverId, w.reg, K.Arrive(r, aesKey)), asked := w.asked + [Some(j)])
    case OthersAsk(r, aesKey) =>
      w.(reg := K.Step(x.c, x.serverId, w.reg, K.Arrive(r, aesKey)), asked := w.asked + [None])
    case Work(i) => w.(reg := K.Step(x.c, x.serverId, w.reg, K.Access(i)))
    case Answer(k) => w.(pair := PairStep(w.pair, AtServer, APost(ReplyOf(w, k))), sent := w.sent + [k])
  }

  ghost predicate Begins(x: Setting, w: World) {
    && Lawful(x.words) && PairInitial(w.pair, x.words)
    && w.reg == K.Registry(K.Holding(x.init), [], []) && w.asked == [] && w.sent == []
  }

  ghost predicate Follows(x: Setting, w: World, next: World) {
    exists e :: Can(w, e) && next == Happen(x, w, e)
  }

  ghost predicate NextAt(x: Setting, tr: seq<World>, i: nat)
    requires i + 1 < |tr|
  {
    Follows(x, tr[i], tr[i + 1])
  }

  ghost predicate JointRun(x: Setting, tr: seq<World>) {
    tr != [] && Begins(x, tr[0]) && forall i :: 0 <= i < |tr| - 1 ==> NextAt(x, tr, i)
  }

  // ----- The parts run as they do alone -----

  ghost predicate PairReached(x: Setting, p: Pair) {
    Reached(x.words, p)
  }

  ghost predicate RegistryReached(x: Setting, s: K.Registry) {
    exists tr: seq<K.Registry> :: K.Run(x.c, x.serverId, x.init, tr) && tr[|tr| - 1] == s
  }

  lemma PairGoesOn(x: Setting, p: Pair, side: Side, a: Action)
    requires PairReached(x, p) && PairEnabled(p, side, a)
    ensures PairReached(x, PairStep(p, side, a))
  {
    GoOn(x.words, p, side, a);
  }

  lemma RegistryGoesOn(x: Setting, s: K.Registry, a: K.Action)
    requires RegistryReached(x, s) && K.Possible(s, a) && K.Exclusive(s, a)
    ensures RegistryReached(x, K.Step(x.c, x.serverId, s, a))
  {
    var tr: seq<K.Registry> :| K.Run(x.c, x.serverId, x.init, tr) && tr[|tr| - 1] == s;
    var longer := K.Extend(x.c, x.serverId, x.init, tr, a);
  }

  ghost predicate PartsReached(x: Setting, w: World) {
    PairReached(x, w.pair) && RegistryReached(x, w.reg)
  }

  lemma HappenKeepsParts(x: Setting, w: World, e: Event)
    requires PartsReached(x, w) && Can(w, e)
    ensures PartsReached(x, Happen(x, w, e))
  {
    match e
    case OnConnection(side, a) => PairGoesOn(x, w.pair, side, a);
    case Ask(_, r, aesKey) => RegistryGoesOn(x, w.reg, K.Arrive(r, aesKey));
    case OthersAsk(r, aesKey) => RegistryGoesOn(x, w.reg, K.Arrive(r, aesKey));
    case Work(i) => RegistryGoesOn(x, w.reg, K.Access(i));
    case Answer(k) => PairGoesOn(x, w.pair, AtServer, APost(ReplyOf(w, k)));
  }

  // ----- The books -----

  /** The handlers of this connection have the requests delivered on it, each message going to one handler. */
  predicate AskedRight(w: World) {
    && |w.asked| == |w.reg.handlers|
    && (forall i :: 0 <= i < |w.asked| && w.asked[i].Some? ==> AskedFor(w, i, w.asked[i].value))
    && forall i, k :: 0 <= i < k < |w.asked| && w.asked[i].Some? ==> w.asked[i] != w.asked[k]
  }

  predicate AskedFor(w: World, i: nat, j: nat) {
    && i < |w.reg.handlers| && j < |DeliveredMsgs(w.pair.server)|
    && IsRequest(DeliveredMsgs(w.pair.server)[j], w.reg.handlers[i].request)
  }

  /** What the server has posted are replies to requests of this connection, each at most once. */
  predicate SentRight(w: World) {
    && |w.sent| == |w.pair.server.writer.posted|
    && (forall q :: 0 <= q < |w.sent| ==> SentFor(w, q, w.sent[q]))
    && forall q, t :: 0 <= q < t < |w.sent| ==> w.sent[q] != w.sent[t]
  }

  predicate SentFor(w: World, q: nat, k: nat) {
    && k < |w.reg.replies| && w.reg.replies[k].to < |w.asked| && w.asked[w.reg.replies[k].to].Some?
    && q < |w.pair.server.writer.posted| && w.pair.server.writer.posted[q] == ReplyOf(w, k)
  }

  lemma DeliveredGrow(c: Conn, a: Action)
    requires ConnInv(c) && Enabled(c, a)
    ensures DeliveredMsgs(c) <= DeliveredMsgs(Step(c, a))
  {
    if a == AReadDone(true) {
      if !c.reader.op.ChallengeRead? {
        ReadGrows(c);
      }
    } else {
      OthersProcessNothing(c, a);
    }
  }

  lemma ReadGrows(c: Conn)
    requires ConnInv(c) && Enabled(c, AReadDone(true)) && !c.reader.op.ChallengeRead?
    ensures DeliveredMsgs(c) <= DeliveredMsgs(ReadDone(c, true))
  {
    var got := c.reader.op.got;
    assert ReadDone(c, true).reader.processed == c.reader.processed + got;
    assert Right(ReadDone(c, true)) == Right(c);
    if Accepted(c) {
      StreamGrows(c.reader, got);
      DeframeMonotone([], Stream(c.reader), got);
    }
  }

  lemma PostedStay(c: Conn, a: Action)
    requires Enabled(c, a) && !a.APost?
    ensures Step(c, a).writer.posted == c.writer.posted
  {
    if a.AReadDone? {
      ReadDoneFrame(c, a.ok);
    }
  }

  lemma PostAdds(c: Conn, m: N.Msg)
    requires Enabled(c, APost(m))
    ensures Step(c, APost(m)).writer.posted == c.writer.posted + [m]
    ensures DeliveredMsgs(Step(c, APost(m))) == DeliveredMsgs(c)
  {
  }

  /** More may have been delivered. */
  lemma AskedStay(w: World, w': World)
    requires AskedRight(w) && w'.reg == w.reg && w'.asked == w.asked
    requires DeliveredMsgs(w.pair.server) <= DeliveredMsgs(w'.pair.server)
    ensures AskedRight(w')
  {
    forall i | 0 <= i < |w.asked| && w.asked[i].Some?
      ensures AskedFor(w', i, w.asked[i].value)
    {
      assert AskedFor(w, i, w.asked[i].value);
    }
  }

  lemma SentStay(w: World, w': World)
    requires SentRight(w) && w'.reg == w.reg && w'.asked == w.asked && w'.sent == w.sent
    requires w'.pair.server.writer.posted == w.pair.server.writer.posted
    ensures SentRight(w')
  {
    forall q | 0 <= q < |w.sent|
      ensures SentFor(w', q, w.sent[q])
    {
      assert SentFor(w, q, w.sent[q]);
    }
  }

  lemma SentGrow(w: World, w': World, k: nat)
    requires SentRight(w) && w'.reg == w.reg && w'.asked == w.asked && w'.sent == w.sent + [k] && k !in w.sent
    requires k < |w.reg.replies| && w.reg.replies[k].to < |w.asked| && w.asked[w.reg.replies[k].to].Some?
    requires w'.pair.server.writer.posted == w.pair.server.writer.posted + [ReplyOf(w, k)]
    ensures SentRight(w')
  {
    forall q | 0 <= q < |w'.sent|
      ensures SentFor(w', q, w'.sent[q])
    {
      assert q < |w.sent| ==> SentFor(w, q, w.sent[q]);
    }
  }

  lemma ConnectionKeepsBooks(x: Setting, w: World, side: Side, a: Action)
    requires PartsReached(x, w) && AskedRight(w) && SentRight(w) && Can(w, OnConnection(side, a))
    ensures AskedRight(Happen(x, w, OnConnection(side, a))) && SentRight(Happen(x, w, OnConnection(side, a)))
  {
    var w' := Happen(x, w, OnConnection(side, a));
    if side == AtServer {
      PairIsSound(x, w.pair);
      DeliveredGrow(w.pair.server, a);
      PostedStay(w.pair.server, a);
    }
    AskedStay(w, w');
    SentStay(w, w');
  }

  lemma PairIsSound(x: Setting, p: Pair)
    requires PairReached(x, p)
    ensures PairInv(p, x.words)
  {
    var tr :| PairRun(tr, x.words) && LastPair(tr) == p;
    var n := |tr| - 1;
    PairRunKeeps(tr, x.words, n);
    assert p == tr[n];
  }

  /** A request arrives, for this connection or another. */
  lemma ArrivalKeepsBooks(x: Setting, w: World, r: RequestInfo, aesKey: seq<byte>, from: Option<nat>)
    requires AskedRight(w) && SentRight(w)
    requires from.Some? ==>
      && from !in w.asked && from.value < |DeliveredMsgs(w.pair.server)|
      && IsRequest(DeliveredMsgs(w.pair.server)[from.value], r)
    ensures
      var w' := w.(reg := K.Step(x.c, x.serverId, w.reg, K.Arrive(r, aesKey)), asked := w.asked + [from]);
      AskedRight(w') && SentRight(w')
  {
    var w' := w.(reg := K.Step(x.c, x.serverId, w.reg, K.Arrive(r, aesKey)), asked := w.asked + [from]);
    forall i | 0 <= i < |w'.asked| && w'.asked[i].Some?
      ensures AskedFor(w', i, w'.asked[i].value)
    {
      assert i < |w.asked| ==> AskedFor(w, i, w.asked[i].value);
    }
    forall q | 0 <= q < |w.sent|
      ensures SentFor(w', q, w.sent[q])
    {
      assert SentFor(w, q, w.sent[q]);
    }
  }

  lemma WorkKeepsBooks(x: Setting, w: World, i: nat)
    requires AskedRight(w) && SentRight(w) && i < |w.reg.handlers|
    ensures AskedRight(Happen(x, w, Work(i))) && SentRight(Happen(x, w, Work(i)))
  {
    var w' := Happen(x, w, Work(i));
    forall h | 0 <= h < |w.asked| && w.asked[h].Some?
      ensures AskedFor(w', h, w.asked[h].value)
    {
      assert AskedFor(w, h, w.asked[h].value);
      K.OnlyOneMoves(x.c, x.serverId, w.reg, i, h);
    }
    forall q | 0 <= q < |w.sent|
      ensures SentFor(w', q, w.sent[q])
    {
      assert SentFor(w, q, w.sent[q]);
      assert w.reg.replies <= w'.reg.replies;
    }
  }

  lemma AnswerKeepsBooks(x: Setting, w: World, k: nat)
    requires AskedRight(w) && SentRight(w) && Can(w, Answer(k))
    ensures AskedRight(Happen(x, w, Answer(k))) && SentRight(Happen(x, w, Answer(k)))
  {
    var w' := Happen(x, w, Answer(k));
    PostAdds(w.pair.server, ReplyOf(w, k));
    AskedStay(w, w');
    SentGrow(w, w', k);
  }

  ghost predicate JointInv(x: Setting, w: World) {
    PartsReached(x, w) && AskedRight(w) && SentRight(w)
  }

  lemma HappenKeeps(x: Setting, w: World, e: Event)
    requires JointInv(x, w) && Can(w, e)
    ensures JointInv(x, Happen(x, w, e))
  {
    HappenKeepsParts(x, w, e);
    match e
    case OnConnection(side, a) => ConnectionKeepsBooks(x, w, side, a);
    case Ask(j, r, aesKey) => ArrivalKeepsBooks(x, w, r, aesKey, Some(j));
    case OthersAsk(r, aesKey) => ArrivalKeepsBooks(x, w, r, aesKey, None);
    case Work(i) => WorkKeepsBooks(x, w, i);
    case Answer(k) => AnswerKeepsBooks(x, w, k);
  }

  lemma BeginsRight(x: Setting, w: World)
    requires Begins(x, w)
    ensures JointInv(x, w)
  {
    assert PairRun([w.pair], x.words) && LastPair([w.pair]) == w.pair;
    var tr := [w.reg];
    assert K.Run(x.c, x.serverId, x.init, tr) && tr[|tr| - 1] == w.reg;
  }

  lemma {:induction false} JointRunKeeps(x: Setting, tr: seq<World>, n: nat)
    requires JointRun(x, tr) && n < |tr|
    ensures JointInv(x, tr[n])
  {
    if n == 0 {
      BeginsRight(x, tr[0]);
    } else {
      var m := n - 1;
      JointRunKeeps(x, tr, m);
      var e := JointRunNext(x, tr, m, n);
      HappenKeeps(x, tr[m], e);
    }
  }

  lemma JointRunNext(x: Setting, tr: seq<World>, m: nat, n: nat) returns (e: Event)
    requires JointRun(x, tr) && m + 1 == n < |tr|
    ensures Can(tr[m], e) && tr[n] == Happen(x, tr[m], e)
  {
    assert NextAt(x, tr, m);
    e :| Can(tr[m], e) && tr[m + 1] == Happen(x, tr[m], e);
  }

  // ----- What the client reads -----

  /** What handler `h`, done, has told its client by the message `m`. */
  predicate Tells(x: Setting, h: K.Handler, m: N.Msg) {
    var info := RespondInfo(h.request.clientId, x.serverId, x.c.encrypt(h.request.data, h.aesKey), K.SECKEY_ID);
    match h.phase
    case Done(true) => m.header.id == S.SECKEY_AGREE && (Encodable(info) ==> DecodeRespond(StringOf(m)) == Ok(info))
    case Done(false) => m.header.id == S.FAILED
    case _ => false
  }

  lemma {:induction false} ReplyIsListed(rs: seq<K.Addressed>, k: nat)
    requires k < |rs|
    ensures rs[k].reply in K.RepliesTo(rs, rs[k].to)
  {
    if k < |rs| - 1 {
      ReplyIsListed(rs[..|rs| - 1], k);
    }
  }

  lemma {:induction false} TwoAreListed(rs: seq<K.Addressed>, k: nat, l: nat)
    requires k < l < |rs| && rs[k].to == rs[l].to
    ensures |K.RepliesTo(rs, rs[k].to)| >= 2
  {
    if l == |rs| - 1 {
      ReplyIsListed(rs[..l], k);
    } else {
      TwoAreListed(rs[..|rs| - 1], k, l);
    }
  }

  lemma RegistryIsRight(x: Setting, s: K.Registry, i: nat)
    requires RegistryReached(x, s) && i < |s.handlers|
    ensures K.SoundAt(x.c, x.init, s, i)
    ensures K.RepliesTo(s.replies, i) == K.DueReplies(x.c, x.serverId, s.handlers[i])
  {
    var tr: seq<K.Registry> :| K.Run(x.c, x.serverId, x.init, tr) && tr[|tr| - 1] == s;
    K.AgreementIsSound(x.c, x.serverId, x.init, tr, |tr| - 1, i);
  }

  /** The handler that answered with the `q`-th message posted by the server. */
  function Answerer(w: World, q: nat): nat
    requires SentRight(w) && q < |w.sent|
  {
    assert SentFor(w, q, w.sent[q]);
    w.reg.replies[w.sent[q]].to
  }

  /** The message it was to answer. */
  function Question(w: World, q: nat): nat
    requires SentRight(w) && q < |w.sent|
  {
    assert SentFor(w, q, w.sent[q]);
    w.asked[Answerer(w, q)].value
  }

  /** A delivered reply tells the client the verdict of the handler that sent it. */
  lemma ReplyTells(x: Setting, w: World, q: nat)
    requires JointInv(x, w) && q < |w.sent| && q < |DeliveredMsgs(w.pair.client)|
    ensures Tells(x, w.reg.handlers[Answerer(w, q)], DeliveredMsgs(w.pair.client)[q])
  {
    var k, i := w.sent[q], Answerer(w, q);
    assert SentFor(w, q, k);
    RegistryIsRight(x, w.reg, i);
    ReplyIsListed(w.reg.replies, k);
    var h, reply := w.reg.handlers[i], w.reg.replies[k].reply;
    assert K.DueReplies(x.c, x.serverId, h) == [reply];
    assert w.pair.server.writer.posted[q] == S.ReplyMsg(reply);
    ReplyIsRead(x, w, q, h, reply);
  }

  lemma ReplyIsRead(x: Setting, w: World, q: nat, h: K.Handler, reply: K.Reply)
    requires PairReached(x, w.pair) && q < |DeliveredMsgs(w.pair.client)| && q < |w.pair.server.writer.posted|
    requires w.pair.server.writer.posted[q] == S.ReplyMsg(reply) && K.DueReplies(x.c, x.serverId, h) == [reply]
    ensures Tells(x, h, DeliveredMsgs(w.pair.client)[q])
  {
    match reply
    case Refused => StringIsRead(x, w.pair, q, S.FAILED, []);
    case Agreed(info) =>
      StringIsRead(x, w.pair, q, S.SECKEY_AGREE, EncodeRespond(info));
      if Encodable(info) {
        ReplyDecodes(x, w.pair, q, info);
      }
  }

  lemma StringIsRead(x: Setting, p: Pair, q: nat, id: uint32, text: seq<byte>)
    requires PairReached(x, p) && q < |DeliveredMsgs(p.client)| && q < |p.server.writer.posted|
    requires p.server.writer.posted[q] == S.StringMsg(id, text)
    ensures DeliveredMsgs(p.client)[q].header.id == id
  {
    PairIsFaithful(x, p);
    StringArrives(p.server, p.client, q, id, text);
  }

  lemma ReplyDecodes(x: Setting, p: Pair, q: nat, info: RespondInfo)
    requires PairReached(x, p) && q < |DeliveredMsgs(p.client)| && q < |p.server.writer.posted|
    requires Encodable(info) && info.seckeyId > 0 && p.server.writer.posted[q] == S.AgreedMsg(info)
    ensures DecodeRespond(StringOf(DeliveredMsgs(p.client)[q])) == Ok(info)
  {
    var tr :| PairRun(tr, x.words) && LastPair(tr) == p;
    var n := |tr| - 1;
    assert tr[n] == p;
    ReplyArrives(tr, x.words, n, q, info);
  }

  /** A handler has the very request the client encoded, unless that had every field empty. */
  lemma RequestIsRead(x: Setting, w: World, i: nat, j: nat, r: RequestInfo)
    requires PairReached(x, w.pair) && AskedFor(w, i, j)
    requires r != RequestInfo([], [], [], []) && |Q.Serialize(RequestProto(r))| <= INT_MAX
    requires j < |w.pair.client.writer.posted|
    requires w.pair.client.writer.posted[j] == S.StringMsg(S.SECKEY_AGREE, EncodeRequest(r))
    ensures w.reg.handlers[i].request == r
  {
    RequestDecodes(x, w.pair, j, r);
  }

  lemma RequestDecodes(x: Setting, p: Pair, j: nat, r: RequestInfo)
    requires PairReached(x, p) && j < |DeliveredMsgs(p.server)| && j < |p.client.writer.posted|
    requires r != RequestInfo([], [], [], []) && |Q.Serialize(RequestProto(r))| <= INT_MAX
    requires p.client.writer.posted[j] == S.StringMsg(S.SECKEY_AGREE, EncodeRequest(r))
    ensures DecodeRequest(StringOf(DeliveredMsgs(p.server)[j])) == Ok(r)
  {
    var tr :| PairRun(tr, x.words) && LastPair(tr) == p;
    var n := |tr| - 1;
    assert tr[n] == p;
    RequestArrives(tr, x.words, n, j, S.SECKEY_AGREE, r);
  }

  lemma QuestionsDiffer(x: Setting, w: World, q: nat, t: nat)
    requires JointInv(x, w) && q < t < |w.sent|
    ensures Question(w, q) != Question(w, t)
  {
    var k, l := w.sent[q], w.sent[t];
    assert SentFor(w, q, k) && SentFor(w, t, l);
    RegistryIsRight(x, w.reg, Answerer(w, q));
    if Answerer(w, q) == Answerer(w, t) {
      TwoAreListed(w.reg.replies, if k < l then k else l, if k < l then l else k);
    }
  }

  /** Whatever client, connection, handlers and other clients do: the `q`-th message the client reads is the answer to
      one of the requests it posted, to no two the same. It is the failure message, and then the request does not verify
      or the client id's key is kept in the directory; or it decodes to the secret for the key and client id that the
      client sent, and then the request verifies and its key is the one in the directory. */
  lemma ConversationIsFaithful(x: Setting, tr: seq<World>, n: nat, q: nat, r: RequestInfo) returns (i: nat, j: nat)
    requires JointRun(x, tr) && n < |tr| && q < |DeliveredMsgs(tr[n].pair.client)|
    ensures i < |tr[n].reg.handlers| && j < |tr[n].pair.client.writer.posted|
    ensures q < |tr[n].sent| && SentRight(tr[n]) && i == Answerer(tr[n], q) && j == Question(tr[n], q)
    ensures forall t :: 0 <= t < |tr[n].sent| && t != q ==> Question(tr[n], t) != j
    ensures
      && tr[n].pair.client.writer.posted[j] == S.StringMsg(S.SECKEY_AGREE, EncodeRequest(r))
      && r != RequestInfo([], [], [], []) && |Q.Serialize(RequestProto(r))| <= INT_MAX ==>
         tr[n].reg.handlers[i].request == r
    ensures Tells(x, tr[n].reg.handlers[i], DeliveredMsgs(tr[n].pair.client)[q])
    ensures K.SoundAt(x.c, x.init, tr[n].reg, i)
  {
    var w := tr[n];
    JointRunKeeps(x, tr, n);
    PairIsFaithful(x, w.pair);
    i, j := Answerer(w, q), Question(w, q);
    assert SentFor(w, q, w.sent[q]) && AskedFor(w, i, j);
    forall t | 0 <= t < |w.sent| && t != q
      ensures Question(w, t) != j
    {
      QuestionsDiffer(x, w, if t < q then t else q, if t < q then q else t);
    }
    ReplyTells(x, w, q);
    RegistryIsRight(x, w.reg, i);
    if
      && w.pair.client.writer.posted[j] == S.StringMsg(S.SECKEY_AGREE, EncodeRequest(r))
      && r != RequestInfo([], [], [], []) && |Q.Serialize(RequestProto(r))| <= INT_MAX
    {
      RequestIsRead(x, w, i, j, r);
    }
  }

  lemma PairIsFaithful(x: Setting, p: Pair)
    requires PairReached(x, p)
    ensures DeliveredInOrder(p.client, p.server) && DeliveredInOrder(p.server, p.client)
  {
    var tr :| PairRun(tr, x.words) && LastPair(tr) == p;
    var n := |tr| - 1;
    assert tr[n] == p;
    DeliveryIsFaithful(tr, x.words, n);
  }
}
