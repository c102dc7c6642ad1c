/** The server's message pump: connections append to one shared queue, one consumer drains it in batches. */
module MessagePump {
  import opened Bytes
  import opened NetMessage

  // ----- Steps -----

  /** Where the consumer is: outside `Update`, about to test the queue, or past a test that found it non-empty. */
  datatype Consumer = Outside | Testing(handledNow: nat, limit: nat) | Popping(handledNow: nat, limit: nat)

  /** History: what each connection received and what was handed to `OnMessage`. */
  datatype Pump = Pump(queue: seq<OwnedMessage>, consumer: Consumer, received: map<uint32, seq<Msg>>,
      handled: seq<OwnedMessage>)

  datatype Action =
    | AReceive(id: uint32, m: Msg)   // a connection's reader completes a message
    | AUpdate(limit: nat)            // the consumer enters `Update`
    | ATest                          // it evaluates the loop condition
    | APop                           // it takes the front message and handles it

  predicate Enabled(p: Pump, a: Action) {
    match a
    case AReceive(_, _) => true
    case AUpdate(_) => p.consumer.Outside?
    case ATest => p.consumer.Testing?
    case APop => p.consumer.Popping?
  }

  function ReceivedBy(received: map<uint32, seq<Msg>>, id: uint32): seq<Msg> {
    if id in received then received[id] else []
  }

  /** The pop is undefined on an empty queue. */
  function Step(p: Pump, a: Action): Option<Pump>
    requires Enabled(p, a)
  {
    match a
    case AReceive(id, m) =>
      Some(p.(queue := p.queue + [OwnedMessage(Some(id), m)],
          received := p.received[id := ReceivedBy(p.received, id) + [m]]))
    case AUpdate(limit) => Some(p.(consumer := Testing(0, limit)))
    case ATest =>
      var Testing(n, limit) := p.consumer;
      Some(p.(consumer := if n < limit && p.queue != [] then Popping(n, limit) else Outside))
    case APop =>
      if p.queue == [] then None
      else
        Some(p.(queue := p.queue[1..], handled := p.handled + [p.queue[0]],
                consumer := Testing(p.consumer.handledNow + 1, p.consumer.limit)))
  }

  ghost predicate PumpInv(p: Pump) {
    && (p.consumer.Popping? ==> p.queue != [] && p.consumer.handledNow < p.consumer.limit)
    && (!p.consumer.Outside? ==> p.consumer.handledNow <= p.consumer.limit && p.consumer.handledNow <= |p.handled|)
    && forall id {:trigger ReceivedBy(p.received, id)} ::
         ReceivedBy(p.received, id) == From(p.handled + p.queue, Some(id))
  }

  lemma StepKeeps(p: Pump, a: Action)
    requires PumpInv(p) && Enabled(p, a)
    ensures Step(p, a).Some? && PumpInv(Step(p, a).value)
  {
    var p' := Step(p, a).value;
    forall id
      ensures ReceivedBy(p'.received, id) == From(p'.handled + p'.queue, Some(id))
    {
      assert ReceivedBy(p.received, id) == From(p.handled + p.queue, Some(id));
      match a
      case AReceive(from, m) => ReceiveKeepsOrder(p, from, m, id);
      case APop => assert p'.handled + p'.queue == p.handled + p.queue;
      case _ =>
    }
  }

  lemma ReceiveKeepsOrder(p: Pump, from: uint32, m: Msg, id: uint32)
    requires ReceivedBy(p.received, id) == From(p.handled + p.queue, Some(id))
    ensures
      var p' := Step(p, AReceive(from, m)).value;
      ReceivedBy(p'.received, id) == From(p'.handled + p'.queue, Some(id))
  {
    var owned := OwnedMessage(Some(from), m);
    Assoc(p.handled, p.queue, [owned]);
    FromPush(p.handled + p.queue, owned, Some(id));
  }

  ghost predicate NextAt(tr: seq<Pump>, i: nat)
    requires i + 1 < |tr|
  {
    exists a :: Enabled(tr[i], a) && Step(tr[i], a) == Some(tr[i + 1])
  }

  ghost predicate PumpRun(tr: seq<Pump>) {
    && tr != [] && tr[0] == Pump([], Outside, map[], [])
    && forall i :: 0 <= i < |tr| - 1 ==> NextAt(tr, i)
  }

  lemma {:induction false} PumpRunKeeps(tr: seq<Pump>, i: nat)
    requires PumpRun(tr) && i < |tr|
    ensures PumpInv(tr[i])
  {
    if i > 0 {
      PumpRunKeeps(tr, i - 1);
      assert NextAt(tr, i - 1);
      var a :| Enabled(tr[i - 1], a) && Step(tr[i - 1], a) == Some(tr[i]);
      StepKeeps(tr[i - 1], a);
    }
  }

  /** In every state of every run with any number of connections and one consumer: no step of the pump pops an empty
      queue, a batch never exceeds its limit, and what a connection received is what was handled from it and then
      what is still queued from it, in order. */
  lemma HandledInOrder(tr: seq<Pump>, i: nat, id: uint32)
    requires PumpRun(tr) && i < |tr|
    ensures tr[i].consumer.Popping? ==> tr[i].queue != []
    ensures !tr[i].consumer.Outside? ==> tr[i].consumer.handledNow <= tr[i].consumer.limit
    ensures ReceivedBy(tr[i].received, id) == From(tr[i].handled, Some(id)) + From(tr[i].queue, Some(id))
  {
    PumpRunKeeps(tr, i);
    FromAppend(tr[i].handled, tr[i].queue, Some(id));
    assert ReceivedBy(tr[i].received, id) == From(tr[i].handled + tr[i].queue, Some(id));
  }

  /** What is received is queued, whoever it is from, and counted for its connection only. */
  lemma ReceiveQueues(p: Pump, from: uint32, m: Msg, id: uint32)
    ensures
      var p' := Step(p, AReceive(from, m)).value;
      && p'.queue == p.queue + [OwnedMessage(Some(from), m)] && p'.handled == p.handled
      && ReceivedBy(p'.received, id) == ReceivedBy(p.received, id) + if id == from then [m] else []
  {
  }

  // ----- Messages do get handled -----

  function Last(tr: seq<Pump>): Pump
    requires |tr| > 0
  {
    tr[|tr| - 1]
  }

  lemma Extend(tr: seq<Pump>, a: Action, p: Pump) returns (longer: seq<Pump>)
    requires PumpRun(tr) && Enabled(Last(tr), a) && Step(Last(tr), a) == Some(p)
    ensures PumpRun(longer) && Last(longer) == p
  {
    longer := tr + [p];
    forall i | 0 <= i < |longer| - 1
      ensures NextAt(longer, i)
    {
      if i < |tr| - 1 {
        assert NextAt(tr, i);
        assert longer[i] == tr[i] && longer[i + 1] == tr[i + 1];
      } else {
        assert longer[i] == Last(tr) && Enabled(longer[i], a);
      }
    }
  }

  /** Any messages of any connections can be received and handled, each in a batch of its own. */
  lemma {:induction false} MessagesGetHandled(ms: seq<(uint32, Msg)>) returns (tr: seq<Pump>)
    ensures PumpRun(tr) && Last(tr).queue == [] && Last(tr).consumer.Outside? && |Last(tr).handled| == |ms|
    ensures forall i :: 0 <= i < |ms| ==> Last(tr).handled[i] == OwnedMessage(Some(ms[i].0), ms[i].1)
  {
    if ms == [] {
      tr := [Pump([], Outside, map[], [])];
    } else {
      var n := |ms| - 1;
      tr := MessagesGetHandled(ms[..n]);
      var p, owned := Last(tr), OwnedMessage(Some(ms[n].0), ms[n].1);
      var received := p.received[ms[n].0 := ReceivedBy(p.received, ms[n].0) + [ms[n].1]];
      var q := p.(queue := [owned], received := received);
      assert p.queue + [owned] == [owned];
      tr := Extend(tr, AReceive(ms[n].0, ms[n].1), q);
      tr := Extend(tr, AUpdate(1), q.(consumer := Testing(0, 1)));
      tr := Extend(tr, ATest, q.(consumer := Popping(0, 1)));
      var handled := q.(queue := [], handled := p.handled + [owned], consumer := Testing(1, 1));
      assert [owned][1..] == [];
      tr := Extend(tr, APop, handled);
      tr := Extend(tr, ATest, handled.(consumer := Outside));
    }
  }
}
