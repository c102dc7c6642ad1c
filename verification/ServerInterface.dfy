/** The server's container of connections, its broadcasts and its message pump, as the object the source has. */
module ServerInterface {
  import opened Bytes
  import opened NetMessage
  import TSQueue

  const FIRST_ID: uint32 := 10000

  /** A connection as the container sees it. */
  class Remote {
    var id: uint32
    var open: bool
    var sent: seq<Msg>

    constructor (socketOpen: bool)
      ensures id == 0 && open == socketOpen && sent == []
    {
      id, open, sent := 0, socketOpen, [];
    }

    /** Takes the id and starts the handshake, if the accepted socket is still open. */
    method ConnectToClient(uid: uint32)
      modifies this`id
      ensures id == if open then uid else old(id)
    {
      if open {
        id := uid;
      }
    }

    method Send(msg: Msg)
      modifies this`sent
      ensures sent == old(sent) + [msg]
    {
      sent := sent + [msg];
    }

    method Disconnect()
      modifies if open then {this} else {}
      ensures !open && id == old(id) && sent == old(sent)
    {
      if open {
        open := false;
      }
    }
  }

  // ----- The container -----

  predicate AllDistinct(cs: seq<Remote?>) {
    (forall i :: 0 <= i < |cs| ==> cs[i] != null) && forall i, j :: 0 <= i < j < |cs| ==> cs[i] != cs[j]
  }

  /** Connections have an id if their socket was open when accepted; ids grow along the container and are below the
      counter. */
  ghost predicate Numbered(cs: seq<Remote?>, next: uint32)
    reads cs`id
  {
    && FIRST_ID <= next
    && (forall c :: c in cs && c != null ==> c.id == 0 || FIRST_ID <= c.id < next)
    && forall i, j :: 0 <= i < j < |cs| && cs[i] != null && cs[j] != null && cs[i].id != 0 && cs[j].id != 0 ==>
         cs[i].id < cs[j].id
  }

  ghost predicate OpenHaveIds(cs: seq<Remote?>)
    reads cs`open, cs`id
  {
    forall c :: c in cs && c != null && c.open ==> c.id != 0
  }

  lemma CounterSteps(n: nat)
    ensures ((FIRST_ID + n) % TWO_TO_THE_32 + 1) % TWO_TO_THE_32 == (FIRST_ID + n + 1) % TWO_TO_THE_32
    ensures n + 1 < TWO_TO_THE_32 - FIRST_ID ==> (FIRST_ID + n) % TWO_TO_THE_32 + 1 < TWO_TO_THE_32
  {
    var v := FIRST_ID + n;
    var q, r := v / TWO_TO_THE_32, v % TWO_TO_THE_32;
    if r + 1 < TWO_TO_THE_32 {
      RemainderIs(v + 1, q, r + 1);
      RemainderIs(r + 1, 0, r + 1);
    } else {
      RemainderIs(v + 1, q + 1, 0);
      RemainderIs(r + 1, 1, 0);
    }
    if n + 1 < TWO_TO_THE_32 - FIRST_ID {
      RemainderIs(v, 0, v);
    }
  }

  /** A new connection takes the counter's id, or none, and goes to the end. */
  lemma Appended(cs: seq<Remote?>, c: Remote, next: uint32)
    requires AllDistinct(cs) && c !in cs && (c.id == 0 || c.id == next) && (c.open ==> c.id == next)
    ensures AllDistinct(cs + [c])
    ensures Numbered(cs, next) && next + 1 < TWO_TO_THE_32 ==> Numbered(cs + [c], next + 1)
    ensures OpenHaveIds(cs) && next > 0 ==> OpenHaveIds(cs + [c])
  {
  }

  /** What `std::remove` of null and the erase after it leave. */
  function NonNull(cs: seq<Remote?>): seq<Remote?> {
    if cs == [] then []
    else NonNull(cs[..|cs| - 1]) + if cs[|cs| - 1] != null then [cs[|cs| - 1]] else []
  }

  lemma {:induction false} NothingToErase(cs: seq<Remote?>)
    requires forall i :: 0 <= i < |cs| ==> cs[i] != null
    ensures NonNull(cs) == cs
  {
    if cs != [] {
      NothingToErase(cs[..|cs| - 1]);
      assert cs == cs[..|cs| - 1] + [cs[|cs| - 1]];
    }
  }

  /** The connections flagged in `keep`, in container order. */
  function Keep(cs: seq<Remote?>, keep: seq<bool>): (r: seq<Remote?>)
    requires |keep| == |cs|
    ensures forall i :: 0 <= i < |r| ==> r[i] in cs
  {
    if cs == [] then []
    else
      var n := |cs| - 1;
      assert cs == cs[..n] + [cs[n]];
      Keep(cs[..n], keep[..n]) + if keep[n] then [cs[n]] else []
  }

  /** The places `ks`, ascending, are those at which `keep` is set. */
  ghost predicate PlacesOf(keep: seq<bool>, ks: seq<nat>) {
    && (forall i, j :: 0 <= i < j < |ks| ==> ks[i] < ks[j])
    && (forall i :: 0 <= i < |ks| ==> ks[i] < |keep|)
    && forall k :: 0 <= k < |keep| ==> (keep[k] <==> k in ks)
  }

  /** What is kept, place by place. */
  lemma {:induction false} KeepsPlaces(cs: seq<Remote?>, keep: seq<bool>) returns (ks: seq<nat>)
    requires |keep| == |cs|
    ensures PlacesOf(keep, ks) && |ks| == |Keep(cs, keep)|
    ensures forall i :: 0 <= i < |ks| ==> 0 <= ks[i] < |cs| && Keep(cs, keep)[i] == cs[ks[i]]
  {
    if cs == [] {
      ks := [];
    } else {
      var n := |cs| - 1;
      ks := KeepsPlaces(cs[..n], keep[..n]);
      if keep[n] {
        ks := ks + [n];
      }
    }
  }

  lemma {:induction false} KeepDistinct(cs: seq<Remote?>, keep: seq<bool>)
    requires |keep| == |cs| && AllDistinct(cs)
    ensures AllDistinct(Keep(cs, keep))
  {
    if cs != [] {
      KeepDistinct(cs[..|cs| - 1], keep[..|cs| - 1]);
    }
  }

  lemma {:induction false} KeepNumbered(cs: seq<Remote?>, keep: seq<bool>, next: uint32)
    requires |keep| == |cs| && Numbered(cs, next)
    ensures Numbered(Keep(cs, keep), next)
  {
    if cs != [] {
      KeepNumbered(cs[..|cs| - 1], keep[..|cs| - 1], next);
    }
  }

  /** Marking connections by null and erasing the nulls leaves the others. */
  lemma {:induction false} ErasedMarks(cs: seq<Remote?>, keep: seq<bool>, marked: seq<Remote?>)
    requires |marked| == |cs| == |keep| && forall i :: 0 <= i < |cs| ==> cs[i] != null
    requires forall i :: 0 <= i < |cs| ==> marked[i] == if keep[i] then cs[i] else null
    ensures NonNull(marked) == Keep(cs, keep)
  {
    if cs != [] {
      var n := |cs| - 1;
      ErasedMarks(cs[..n], keep[..n], marked[..n]);
    }
  }

  /** The arrivals of the first `n` gaps. */
  function Arrived(arrivals: seq<seq<OwnedMessage>>, n: nat): seq<OwnedMessage> {
    if n == 0 then [] else Arrived(arrivals, n - 1) + Gap(arrivals, n - 1)
  }

  lemma ArrivedNext(queue: seq<OwnedMessage>, base: seq<OwnedMessage>, arrivals: seq<seq<OwnedMessage>>, n: nat)
    requires queue == base + Arrived(arrivals, n)
    ensures queue + Gap(arrivals, n) == base + Arrived(arrivals, n + 1)
  {
    Assoc(base, Arrived(arrivals, n), Gap(arrivals, n));
  }

  function Gap(arrivals: seq<seq<OwnedMessage>>, n: nat): seq<OwnedMessage> {
    if n < |arrivals| then arrivals[n] else []
  }

  class ServerInterface {
    var connections: seq<Remote?>
    var nIDCounter: uint32
    const qMessagesIn: TSQueue.Queue<OwnedMessage>

    // History: how many connections were approved, and what was handed to `OnMessage`.
    ghost var approvals: nat
    ghost var handled: seq<OwnedMessage>

    ghost predicate Valid()
      reads this, connections`open, connections`id
    {
      && AllDistinct(connections)
      && nIDCounter as int == (FIRST_ID + approvals) % TWO_TO_THE_32
      && (approvals < TWO_TO_THE_32 - FIRST_ID ==> Numbered(connections, nIDCounter) && OpenHaveIds(connections))
    }

    /** Only `Update` takes messages off the queue: all that were taken off have been handled, in that order. */
    ghost predicate OneConsumer()
      reads this, qMessagesIn
    {
      handled == qMessagesIn.popped
    }

    constructor ()
      ensures nIDCounter == 10000
      ensures OneConsumer() && Valid() && connections == [] && approvals == 0 && handled == [] &&
        fresh(qMessagesIn) && qMessagesIn.deq == []
    {
      connections, nIDCounter, approvals, handled := [], FIRST_ID, 0, [];
      qMessagesIn := new TSQueue.Queue();
    }

    /** `nIDCounter++`, once for every approved connection. */
    method NextId() returns (uid: uint32)
      requires nIDCounter as int == (FIRST_ID + approvals) % TWO_TO_THE_32
      modifies this`nIDCounter, this`approvals
      ensures uid == old(nIDCounter) && approvals == old(approvals) + 1
      ensures nIDCounter as int == (FIRST_ID + approvals) % TWO_TO_THE_32
      ensures approvals < TWO_TO_THE_32 - FIRST_ID ==> nIDCounter as int == uid + 1
    {
      CounterSteps(approvals);
      uid := nIDCounter;
      nIDCounter := (nIDCounter + 1) % TWO_TO_THE_32;
      approvals := approvals + 1;
      if approvals < TWO_TO_THE_32 - FIRST_ID {
        RemainderIs(uid + 1, 0, uid + 1);
      }
    }

    /** An approved connection enters the container and, its socket still open, takes the counter's id. */
    method Approve(newconn: Remote)
      requires Valid() && newconn !in connections && newconn.id == 0
      modifies this`connections, this`nIDCounter, this`approvals, newconn`id
      ensures Valid() && approvals == old(approvals) + 1 && connections == old(connections) + [newconn]
      ensures newconn.id == if newconn.open then old(nIDCounter) else 0
    {
      var uid := NextId();
      Enter(newconn, uid);
    }

    method Enter(newconn: Remote, uid: uint32)
      requires AllDistinct(connections) && newconn !in connections && newconn.id == 0
      modifies this`connections, newconn`id
      ensures connections == old(connections) + [newconn] && AllDistinct(connections)
      ensures newconn.id == if newconn.open then uid else 0
      ensures old(Numbered(connections, uid)) && uid + 1 < TWO_TO_THE_32 ==> Numbered(connections, uid + 1)
      ensures old(OpenHaveIds(connections)) && uid > 0 ==> OpenHaveIds(connections)
    {
      ghost var cs := connections;
      connections := connections + [newconn];
      newconn.ConnectToClient(uid);
      Appended(cs, newconn, uid);
    }

    /** The accept handler; `approved` is the verdict of `OnClientConnect`. */
    method OnAccept(failed: bool, socketOpen: bool, approved: bool)
      requires Valid()
      modifies this`connections, this`nIDCounter, this`approvals
      ensures Valid()
      ensures approvals == old(approvals) + if !failed && approved then 1 else 0
      ensures
        if failed || !approved then connections == old(connections)
        else
          var n := |old(connections)|;
          && |connections| == n + 1 && connections[..n] == old(connections) && fresh(connections[n])
          && connections[n].open == socketOpen && connections[n].sent == []
          && connections[n].id == if socketOpen then old(nIDCounter) else 0
    {
      if !failed {
        var newconn := new Remote(socketOpen);
        if approved {
          Approve(newconn);
        }
      }
    }

    /** The socket of a connection closes, by an error or by either side's wish. */
    method OnSocketClosed(client: Remote)
      requires Valid() && client in connections
      modifies client
      ensures Valid() && !client.open && client.id == old(client.id) && client.sent == old(client.sent)
    {
      client.Disconnect();
    }

    /** Sends to one client. A closed client is meant to leave the container, but the reference is cleared before the
        container is searched for it: the container stays as it was. The disconnect hook is skipped for a null client,
        which the server's own hook would dereference. */
    method MessageClient(client: Remote?, msg: Msg)
      requires Valid()
      modifies this`connections, (if client != null then {client} else {})`sent
      ensures connections == old(connections)
      ensures client != null ==>
        client.sent == old(client.sent) + if client.open then [msg] else []
      ensures Valid()
    {
      if client != null && client.open {
        client.Send(msg);
      } else {
        if client != null {
          client.Disconnect();
        }
        EraseNulls();
      }
    }

    /** Erases the null references, of which there are none between operations. */
    method EraseNulls()
      requires AllDistinct(connections)
      modifies this`connections
      ensures connections == old(connections)
    {
      NothingToErase(connections);
      connections := NonNull(connections);
    }

    /** Sockets close while the server is busy: by an error or by either side's wish. */
    method CloseSockets(cs: seq<Remote>)
      modifies cs`open
      ensures forall c :: c in cs ==> !c.open
    {
      var i := 0;
      while i < |cs|
        invariant 0 <= i <= |cs| && forall k :: 0 <= k < i ==> !cs[k].open
      {
        cs[i].open := false;
        i := i + 1;
      }
    }

    /** The sockets that close right before the `k`-th look are connections of the container. */
    ghost predicate Closings(closing: seq<seq<Remote>>)
      reads this
    {
      forall k, c :: 0 <= k < |closing| && c in closing[k] ==> c in connections
    }

    /** What closes right before the `i`-th look; `cs` is the container before the loop. */
    method CloseBefore(i: nat, closing: seq<seq<Remote>>, ghost cs: seq<Remote?>)
      requires forall k, c :: 0 <= k < |closing| && c in closing[k] ==> c in cs
      modifies cs`open
      ensures forall k :: 0 <= k < |cs| && cs[k] != null && cs[k].open ==> old(cs[k].open)
      ensures closing == [] ==> forall k :: 0 <= k < |cs| && cs[k] != null ==> cs[k].open == old(cs[k].open)
    {
      if i < |closing| {
        forall k | 0 <= k < |closing[i]|
          ensures closing[i][k] in cs
        {
          assert closing[i][k] in closing[i];
        }
        CloseSockets(closing[i]);
      }
    }

    /** One look of the broadcast: sends to the client, unless it is the ignored one, or clears the reference to it. */
    method SendOrClear(i: nat, msg: Msg, ignore: Remote?) returns (open: bool)
      requires i < |connections| && connections[i] != null
      modifies this`connections, {connections[i]}`sent
      ensures
        var c := old(connections)[i];
        && open == c.open && c.sent == old(c.sent) + (if open && c != ignore then [msg] else [])
        && connections == if open then old(connections) else old(connections)[i := null]
    {
      var client := connections[i];
      open := client.open;
      if open {
        if client != ignore {
          client.Send(msg);
        }
      } else {
        client.Disconnect();
        connections := connections[i := null];
      }
    }

    /** What the broadcast has done after `|seen|` looks: `cs` is the container before it, `was` and `had` tell which of
        its connections were open then and what they had been sent. */
    ghost predicate Looked(
        cs: seq<Remote?>, was: seq<bool>, had: seq<seq<Msg>>, seen: seq<bool>, msg: Msg, ignore: Remote?)
      reads this`connections, cs`open, cs`sent
    {
      && |seen| <= |cs| == |was| == |had| == |connections| && AllDistinct(cs)
      && (forall k :: 0 <= k < |cs| && cs[k].open ==> was[k])
      && (forall k :: 0 <= k < |seen| ==> (cs[k].open ==> seen[k]) && (seen[k] ==> was[k]))
      && (forall k :: 0 <= k < |cs| ==> connections[k] == if k < |seen| && !seen[k] then null else cs[k])
      && forall k :: 0 <= k < |cs| ==>
           cs[k].sent == had[k] + if k < |seen| && seen[k] && cs[k] != ignore then [msg] else []
    }

    /** One round of the broadcast's loop; some sockets may close right before it. */
    method Look(
        msg: Msg, ignore: Remote?, closing: seq<seq<Remote>>, ghost cs: seq<Remote?>, ghost was: seq<bool>,
        ghost had: seq<seq<Msg>>, i: nat, ghost seen: seq<bool>)
        returns (open: bool)
      requires Looked(cs, was, had, seen, msg, ignore) && i == |seen| < |cs|
      requires forall k, c :: 0 <= k < |closing| && c in closing[k] ==> c in cs
      modifies this`connections, cs`sent, cs`open
      ensures Looked(cs, was, had, seen + [open], msg, ignore)
      ensures closing == [] ==> forall k :: 0 <= k < |cs| && cs[k] != null ==> cs[k].open == old(cs[k].open)
    {
      CloseBefore(i, closing, cs);
      open := SendOrClear(i, msg, ignore);
    }

    /** The broadcast's loop: sends to open clients but one, and clears the references to closed ones. `seen` tells
        which were open when the loop came to them; `closing[k]` close right before it comes to the `k`-th. */
    method SendToOpen(msg: Msg, ignore: Remote?, closing: seq<seq<Remote>>)
        returns (invalidClientExists: bool, ghost seen: seq<bool>)
      requires AllDistinct(connections) && Closings(closing)
      modifies this`connections, connections`sent, connections`open
      ensures |connections| == |old(connections)| == |seen|
      ensures forall k :: 0 <= k < |seen| ==>
        var c := old(connections)[k];
        && (c.open ==> seen[k]) && (seen[k] ==> old(c.open)) && (closing == [] ==> c.open == old(c.open))
        && c.sent == old(c.sent) + (if seen[k] && c != ignore then [msg] else [])
        && connections[k] == if seen[k] then c else null
      ensures invalidClientExists <==> false in seen
    {
      ghost var cs := connections;
      ghost var was := seq(|cs|, k requires 0 <= k < |cs| reads cs => cs[k].open);
      ghost var had := seq(|cs|, k requires 0 <= k < |cs| reads cs => cs[k].sent);
      invalidClientExists, seen := false, [];
      var i := 0;
      while i < |connections|
        invariant i == |seen| && Looked(cs, was, had, seen, msg, ignore)
        invariant closing == [] ==> forall k :: 0 <= k < |cs| ==> cs[k].open == was[k]
        invariant invalidClientExists <==> false in seen
      {
        var open := Look(msg, ignore, closing, cs, was, had, i, seen);
        if !open {
          invalidClientExists := true;
        }
        seen := seen + [open];
        i := i + 1;
      }
    }

    /** Takes the cleared references out; `cs` is the container before they were cleared. */
    method EraseInvalid(ghost cs: seq<Remote?>, ghost seen: seq<bool>, invalidClientExists: bool)
      requires |connections| == |cs| == |seen| && forall k :: 0 <= k < |cs| ==> cs[k] != null
      requires forall k :: 0 <= k < |cs| ==> connections[k] == if seen[k] then cs[k] else null
      requires invalidClientExists <==> false in seen
      requires AllDistinct(cs)
      modifies this`connections
      ensures connections == Keep(cs, seen) && AllDistinct(connections)
      ensures Numbered(cs, nIDCounter) ==> Numbered(connections, nIDCounter)
    {
      ErasedMarks(cs, seen, connections);
      if invalidClientExists {
        connections := NonNull(connections);
      } else {
        NothingToErase(connections);
      }
      KeepDistinct(cs, seen);
      if Numbered(cs, nIDCounter) {
        KeepNumbered(cs, seen, nIDCounter);
      }
    }

    /** Sends to every client but one; closed clients leave the container. Sockets may close meanwhile: what counts is
        whether a client was open when the loop came to it. Every client still open at the end was. */
    method MessageAllClients(msg: Msg, ignore: Remote?, closing: seq<seq<Remote>>)
        returns (ghost seen: seq<bool>, ghost ks: seq<nat>)
      requires Valid() && Closings(closing)
      modifies this`connections, connections`sent, connections`open
      ensures Valid()
      ensures |seen| == |old(connections)| && |ks| == |connections|
      ensures forall i, j :: 0 <= i < j < |ks| ==> ks[i] < ks[j]
      ensures forall k :: 0 <= k < |seen| ==> (seen[k] <==> k in ks)
      ensures forall i :: 0 <= i < |ks| ==> ks[i] < |old(connections)| && connections[i] == old(connections)[ks[i]]
      ensures forall k :: 0 <= k < |seen| ==>
        var c := old(connections)[k];
        && (c.open ==> seen[k]) && (seen[k] ==> old(c.open)) && (closing == [] ==> (seen[k] <==> c.open))
        && c.sent == old(c.sent) + if seen[k] && c != ignore then [msg] else []
    {
      ghost var cs := connections;
      seen := Broadcast(msg, ignore, closing);
      ks := KeepsPlaces(cs, seen);
    }

    method Broadcast(msg: Msg, ignore: Remote?, closing: seq<seq<Remote>>) returns (ghost seen: seq<bool>)
      requires AllDistinct(connections) && Closings(closing)
      modifies this`connections, connections`sent, connections`open
      ensures |seen| == |old(connections)| && connections == Keep(old(connections), seen) && AllDistinct(connections)
      ensures old(Numbered(connections, nIDCounter)) ==> Numbered(connections, nIDCounter)
      ensures old(OpenHaveIds(connections)) ==> OpenHaveIds(connections)
      ensures forall k :: 0 <= k < |seen| ==>
        var c := old(connections)[k];
        && (c.open ==> seen[k]) && (seen[k] ==> old(c.open)) && (closing == [] ==> (seen[k] <==> c.open))
        && c.sent == old(c.sent) + if seen[k] && c != ignore then [msg] else []
    {
      ghost var cs := connections;
      var invalidClientExists;
      invalidClientExists, seen := SendToOpen(msg, ignore, closing);
      EraseInvalid(cs, seen, invalidClientExists);
    }

    /** Connections' readers append to the shared queue between two accesses of the consumer. */
    method Interleave(messages: seq<OwnedMessage>)
      modifies qMessagesIn
      ensures qMessagesIn.deq == old(qMessagesIn.deq) + messages && qMessagesIn.popped == old(qMessagesIn.popped)
    {
      var i := 0;
      while i < |messages|
        invariant 0 <= i <= |messages| && qMessagesIn.deq == old(qMessagesIn.deq) + messages[..i]
        invariant qMessagesIn.popped == old(qMessagesIn.popped)
      {
        qMessagesIn.PushBack(messages[i]);
        assert messages[..i + 1] == messages[..i] + [messages[i]];
        i := i + 1;
      }
    }

    /** Drains up to `nMaxMessages` messages while others arrive; `arrivals` says what is appended in each gap between
        two accesses to the queue. Stops early only on an empty queue. */
    method Update(nMaxMessages: nat, arrivals: seq<seq<OwnedMessage>>) returns (ghost gaps: nat)
      requires OneConsumer()
      modifies this`handled, qMessagesIn
      ensures OneConsumer()
      ensures old(handled) <= handled && |handled| <= |old(handled)| + nMaxMessages
      ensures handled + qMessagesIn.deq == old(handled) + old(qMessagesIn.deq) + Arrived(arrivals, gaps)
      ensures |handled| == |old(handled)| + nMaxMessages || qMessagesIn.deq == []
    {
      gaps := 0;
      ghost var base := handled + qMessagesIn.deq;
      var nMessageCount, k := 0, 0;
      while nMessageCount < nMaxMessages
        invariant nMessageCount <= nMaxMessages && k == gaps && OneConsumer()
        invariant old(handled) <= handled && |handled| == |old(handled)| + nMessageCount
        invariant handled + qMessagesIn.deq == base + Arrived(arrivals, gaps)
      {
        ArrivedNext(handled + qMessagesIn.deq, base, arrivals, k);
        Assoc(handled, qMessagesIn.deq, Gap(arrivals, k));
        Interleave(Gap(arrivals, k));
        k, gaps := k + 1, gaps + 1;
        var empty := qMessagesIn.Empty();
        if empty {
          break;
        }
        ArrivedNext(handled + qMessagesIn.deq, base, arrivals, k);
        Assoc(handled, qMessagesIn.deq, Gap(arrivals, k));
        Interleave(Gap(arrivals, k));
        k, gaps := k + 1, gaps + 1;
        var msg := qMessagesIn.PopFront();
        Assoc(handled, [msg], qMessagesIn.deq);
        handled := handled + [msg];
        nMessageCount := nMessageCount + 1;
      }
    }
  }
}
