/** Agreement requests that share a client id: exactly when their handlers can break soundness or lose an accepted
    key. */
module SharedClientId {
  import opened Bytes
  import opened Messages
  import opened KeyRegistry
  import opened KeyTraffic
  import opened KeySchedules

  // ----- Unsound verdicts -----

  ghost predicate Unsound(x: Setting, s: Registry) {
    exists k :: 0 <= k < |s.handlers| && !SoundAt(x.c, x.init, s, k)
  }

  ghost predicate CanBreakSoundness(x: Setting) {
    exists s :: Reached(x, s) && Unsound(x, s)
  }

  lemma CanPassBreaksSoundness(x: Setting, r: RequestInfo, ds: seq<seq<byte>>)
    requires CanPass(x, r, ds)
    ensures CanBreakSoundness(x)
  {
    if Passes(x.c, r, r.data) {
      var s := AcceptedThenOverwritten(x, r, r);
      assert Accepted(s.handlers[0]) && Accepted(s.handlers[1]);
      assert !SoundAt(x.c, x.init, s, 0);
    } else if ds == [] {
      var s := AcceptedUnderEmptyFile(x, r);
      assert !SoundAt(x.c, x.init, s, 0);
    } else {
      var s, k := AcceptedUnderLaidKeys(x, r, ds);
      assert !SoundAt(x.c, x.init, s, k);
    }
  }

  // ----- Where nobody can pass -----

  ghost predicate NobodyCanPass(x: Setting) {
    forall r, ds :: !CanPass(x, r, ds)
  }

  ghost predicate NobodyAccepted(x: Setting, s: Registry) {
    forall k :: 0 <= k < |s.handlers| && PathOf(s.handlers[k]) !in x.init ==>
      !s.handlers[k].phase.Accepting? && !Accepted(s.handlers[k])
  }

  lemma HandleAcceptsNobody(x: Setting, s: Registry, i: nat)
    requires NobodyCanPass(x) && SentFrom(x.rs, s) && FilesAreLaid(x, s) && NobodyAccepted(x, s) && i < |s.handlers|
    ensures NobodyAccepted(x, Handle(x.c, x.serverId, s, i))
  {
    var h := s.handlers[i];
    if h.phase.Written? && PathOf(h) !in x.init {
      var ds := StoredIsLaid(x, s, i);
      assert !CanPass(x, h.request, ds);
    }
  }

  lemma {:induction false} NobodyIsAccepted(x: Setting, tr: seq<Registry>, i: nat)
    requires NobodyCanPass(x) && Traffic(x, tr) && i < |tr|
    ensures NobodyAccepted(x, tr[i])
  {
    if i > 0 {
      NobodyIsAccepted(x, tr, i - 1);
      FilesStayLaid(x, tr, i - 1);
      assert AnyNextAt(x.c, x.serverId, tr, i - 1) && SentFrom(x.rs, tr[i - 1]);
      var a :| Possible(tr[i - 1], a) && tr[i] == Step(x.c, x.serverId, tr[i - 1], a);
      if a.Access? {
        HandleAcceptsNobody(x, tr[i - 1], a.i);
      }
    }
  }

  lemma OwnKeyIsLaid(x: Setting, r: RequestInfo)
    requires r in x.rs
    ensures Laid([r.data]) == r.data && AllSentFor(x, r.clientId, [r.data])
  {
    LaidPush([], r.data);
    assert [] + [r.data] == [r.data];
    assert SentFor(x, r.clientId, r.data);
  }

  lemma NobodyAcceptedIsSound(x: Setting, s: Registry, k: nat)
    requires NobodyCanPass(x) && Reached(x, s) && k < |s.handlers|
    ensures SoundAt(x.c, x.init, s, k)
  {
    var tr :| Traffic(x, tr) && Last(tr) == s;
    var i, r := |tr| - 1, s.handlers[k].request;
    NobodyIsAccepted(x, tr, i);
    EveryInterleaving(x.c, x.serverId, x.init, tr, i);
    assert SentFrom(x.rs, tr[i]);
    if KeyPath(r.clientId) !in x.init {
      OwnKeyIsLaid(x, r);
      assert !CanPass(x, r, [r.data]);
    }
  }

  /** Two keys written by streams that are open at once: a request breaks soundness if it verifies with the mixture, be
      it with neither of them. */
  lemma MixtureBreaksSoundness(x: Setting, r: RequestInfo, other: RequestInfo)
    requires r in x.rs && other in x.rs && other.clientId == r.clientId && KeyPath(r.clientId) !in x.init
    requires
      var tail := if |other.data| < |r.data| then r.data[|other.data|..] else [];
      Passes(x.c, r, other.data + tail)
    ensures CanBreakSoundness(x)
  {
    var ds := [r.data, other.data];
    OverlayParts(r.data, other.data);
    assert other.data + [] == other.data;
    OwnKeyIsLaid(x, r);
    LaidPush([r.data], other.data);
    assert [r.data] + [other.data] == ds;
    assert SentFor(x, r.clientId, other.data) && SentFor(x, r.clientId, r.data);
    assert CanPass(x, r, ds);
    CanPassBreaksSoundness(x, r, ds);
  }

  /** Some requests can break the soundness of verdicts under some interleaving if and only if one of them has a client
      id without a key file and verifies with keys sent for that client id, laid over one another. */
  lemma SoundnessBreaksExactly(x: Setting)
    ensures CanBreakSoundness(x) <==> exists r, ds :: CanPass(x, r, ds)
  {
    if r, ds :| CanPass(x, r, ds) {
      CanPassBreaksSoundness(x, r, ds);
    } else if s :| Reached(x, s) && Unsound(x, s) {
      var k :| 0 <= k < |s.handlers| && !SoundAt(x.c, x.init, s, k);
      NobodyAcceptedIsSound(x, s, k);
    }
  }

  // ----- Lost keys -----

  /** No request is in flight, one was accepted, and its key is not in place. */
  ghost predicate LosesKey(s: Registry) {
    && (forall k :: 0 <= k < |s.handlers| ==> s.handlers[k].phase.Done?)
    && exists k :: 0 <= k < |s.handlers| && Accepted(s.handlers[k]) && !Has(s, s.handlers[k])
  }

  predicate Has(s: Registry, h: Handler) {
    Holds(s, PathOf(h), h.request.data)
  }

  ghost predicate CanLoseKey(x: Setting) {
    exists s :: Reached(x, s) && LosesKey(s)
  }

  /** The first `n` handlers finish. */
  lemma {:induction false} FinishAll(x: Setting, s: Registry, p: Path, n: nat) returns (s': Registry)
    requires OnFile(x, s, p) && n <= |s.handlers|
    ensures OnFile(x, s', p) && |s'.handlers| == |s.handlers|
    ensures forall k :: 0 <= k < n ==> s'.handlers[k].phase.Done?
    ensures forall k :: 0 <= k < |s.handlers| ==>
      if k >= n || s.handlers[k].phase.Done? then s'.handlers[k] == s.handlers[k]
      else s'.handlers[k].request == s.handlers[k].request
    ensures Calm(s) ==> Calm(s') && NoNewContent(s, s', p)
  {
    if n == 0 {
      s' := s;
    } else {
      s' := FinishAll(x, s, p, n - 1);
      s' := Finish(x, s', p, n - 1);
    }
  }

  /** A request that passes, though not with its own key, has lost it when all are done: nobody puts it in place and is
      accepted with it. */
  lemma LaidKeysLoseKey(x: Setting, r: RequestInfo, ds: seq<seq<byte>>)
    requires CanPass(x, r, ds) && !Passes(x.c, r, r.data)
    ensures CanLoseKey(x)
  {
    var p, s, k := KeyPath(r.clientId), Registry(Holding(x.init), [], []), 0;
    if ds == [] {
      s := AcceptedUnderEmptyFile(x, r);
      s := Lay(x, s, p, 1);
      s := Judge(x, s, p, 1);
    } else {
      s, k := AcceptedUnderLaidKeys(x, r, ds);
      s := FinishAll(x, s, p, |s.handlers|);
    }
    assert Accepted(s.handlers[k]) && !Has(s, s.handlers[k]);
    assert LosesKey(s);
  }

  /** A request that verifies with its own key loses it, unless it and the other are harmless. */
  lemma OwnKeyIsLost(x: Setting, r: RequestInfo, other: RequestInfo)
    requires r in x.rs && other in x.rs && other.clientId == r.clientId && KeyPath(r.clientId) !in x.init
    requires Passes(x.c, r, r.data) && !Harmless(x.c, r, other)
    ensures CanLoseKey(x)
  {
    if !Passes(x.c, r, []) {
      RetriedKeyIsLost(x, r, r);
    } else if Passes(x.c, other, other.data) && other.data == r.data {
      RetriedKeyIsLost(x, other, other);
    } else {
      var s := AcceptedThenOverwritten(x, r, other);
      assert Accepted(s.handlers[0]) && !Has(s, s.handlers[0]);
      assert LosesKey(s);
    }
  }

  lemma RetriedKeyIsLost(x: Setting, r: RequestInfo, other: RequestInfo)
    requires r in x.rs && other in x.rs && other.clientId == r.clientId && KeyPath(r.clientId) !in x.init
    requires !Passes(x.c, r, []) && Passes(x.c, other, other.data)
    ensures CanLoseKey(x)
  {
    var s := RetryLosesKey(x, r, other);
    assert Accepted(s.handlers[1]) && !Has(s, s.handlers[1]);
    assert LosesKey(s);
  }

  // ----- Where no key can be lost -----

  /** A request that can pass, and another one for the client id, that are not harmless together. */
  ghost predicate Harmful(x: Setting, r: RequestInfo, ds: seq<seq<byte>>, other: RequestInfo) {
    CanPass(x, r, ds) && other in x.rs && other.clientId == r.clientId && !Harmless(x.c, r, other)
  }

  ghost predicate AllHarmless(x: Setting) {
    forall r, ds, other :: !Harmful(x, r, ds, other)
  }

  /** The client id of a sure request has only sure requests, with the same key. */
  lemma SureAmongSure(x: Setting, r: RequestInfo, other: RequestInfo)
    requires AllHarmless(x) && r in x.rs && other in x.rs && Sure(x.c, r)
    requires other.clientId == r.clientId && KeyPath(r.clientId) !in x.init
    ensures Sure(x.c, other) && other.data == r.data
  {
    assert Laid([]) == [] && AllSentFor(x, r.clientId, []);
    assert !Harmful(x, r, [], other);
  }

  lemma {:induction false} SureMixture(x: Setting, r: RequestInfo, ds: seq<seq<byte>>)
    requires AllHarmless(x) && r in x.rs && Sure(x.c, r) && KeyPath(r.clientId) !in x.init
    requires AllSentFor(x, r.clientId, ds)
    ensures Laid(ds) == [] || Laid(ds) == r.data
  {
    if ds != [] {
      var n := |ds| - 1;
      SureMixture(x, r, ds[..n]);
      assert SentFor(x, r.clientId, ds[n]);
      var q :| q in x.rs && q.clientId == r.clientId && q.data == ds[n];
      SureAmongSure(x, r, q);
    }
  }

  /** With whatever the file holds a handler passes exactly if its request is sure. */
  lemma PassesIfSure(x: Setting, s: Registry, i: nat)
    requires AllHarmless(x) && SentFrom(x.rs, s) && FilesAreLaid(x, s) && i < |s.handlers|
    requires s.handlers[i].phase.Written? && PathOf(s.handlers[i]) !in x.init
    ensures
      var h := s.handlers[i];
      Passes(x.c, h.request, Stored(s.dir.files, PathOf(h))) <==> Sure(x.c, h.request)
  {
    var r := s.handlers[i].request;
    var ds := StoredIsLaid(x, s, i);
    assert !Harmful(x, r, ds, r);
    if Sure(x.c, r) {
      SureMixture(x, r, ds);
    }
  }

  lemma SureContent(x: Setting, s: Registry, h: Handler)
    requires AllHarmless(x) && SentFrom(x.rs, s) && FilesAreLaid(x, s) && PathOf(h) !in x.init
    requires h.request in x.rs && Sure(x.c, h.request) && PathOf(h) in s.dir.files
    ensures Holds(s, PathOf(h), []) || Has(s, h)
  {
    var w :| WrittenBy(s, PathOf(h), w);
    KeysAreSent(x, s, h, w);
    SureMixture(x, h.request, KeysOf(s, w));
  }

  /** What is known of a handler's file. */
  predicate Known(c: Crypto, s: Registry, h: Handler) {
    && (h.phase.Written? ==> (Passes(c, h.request, Stored(s.dir.files, PathOf(h))) <==> Sure(c, h.request)))
    && (Sure(c, h.request) && PathOf(h) in s.dir.files ==> Holds(s, PathOf(h), []) || Has(s, h))
  }

  ghost predicate FilesAreKnown(x: Setting, s: Registry) {
    forall k :: 0 <= k < |s.handlers| && PathOf(s.handlers[k]) !in x.init ==> Known(x.c, s, s.handlers[k])
  }

  lemma LaidIsKnown(x: Setting, s: Registry)
    requires AllHarmless(x) && SentFrom(x.rs, s) && FilesAreLaid(x, s)
    ensures FilesAreKnown(x, s)
  {
    forall k | 0 <= k < |s.handlers| && PathOf(s.handlers[k]) !in x.init
      ensures Known(x.c, s, s.handlers[k])
    {
      var h := s.handlers[k];
      if h.phase.Written? {
        PassesIfSure(x, s, k);
      }
      if Sure(x.c, h.request) && PathOf(h) in s.dir.files {
        SureContent(x, s, h);
      }
    }
  }

  predicate HasWritten(phase: Phase) {
    phase.Written? || phase.Accepting? || phase == Done(true)
  }

  /** Somebody has a stream open that will write to the file. */
  ghost predicate Rewriting(s: Registry, p: Path) {
    p in s.dir.files && exists j :: 0 <= j < |s.handlers| && Streams(s, s.handlers[j], p)
  }

  /** Only a sure request is accepted, none is refuted; a sure one's stream has the file that is in place, and its key
      is in place unless it is being written again. */
  ghost predicate SafeAt(c: Crypto, s: Registry, k: nat)
    requires k < |s.handlers|
  {
    var h := s.handlers[k];
    && (h.phase.Accepting? || Accepted(h) ==> Sure(c, h.request))
    && (h.phase.Refuting? ==> !Sure(c, h.request))
    && (h.phase.Opened? && Sure(c, h.request) ==> Streams(s, h, PathOf(h)))
    && (HasWritten(h.phase) && Sure(c, h.request) ==> Has(s, h) || Rewriting(s, PathOf(h)))
  }

  ghost predicate KeysAreSafe(x: Setting, s: Registry) {
    forall k :: 0 <= k < |s.handlers| && PathOf(s.handlers[k]) !in x.init ==> SafeAt(x.c, s, k)
  }

  /** The file of a sure request is changed by requests with its key only, and never removed. */
  lemma SureTouch(x: Setting, s: Registry, i: nat, h: Handler)
    requires AllHarmless(x) && SentFrom(x.rs, s) && KeysAreSafe(x, s) && i < |s.handlers|
    requires h.request in x.rs && Sure(x.c, h.request) && PathOf(h) !in x.init && PathOf(h) in s.dir.files
    ensures
      var d' := Touch(s.dir, s.handlers[i]);
      PathOf(h) in d'.files && Inode(d', PathOf(h)) == Inode(s.dir, PathOf(h))
  {
    SureMover(x, s, i, h);
  }

  lemma SureMover(x: Setting, s: Registry, i: nat, h: Handler)
    requires AllHarmless(x) && SentFrom(x.rs, s) && KeysAreSafe(x, s) && i < |s.handlers|
    requires h.request in x.rs && Sure(x.c, h.request) && PathOf(h) !in x.init
    ensures PathOf(s.handlers[i]) == PathOf(h) ==>
      !s.handlers[i].phase.Refuting? && s.handlers[i].request.data == h.request.data
  {
    var mover := s.handlers[i];
    if PathOf(mover) == PathOf(h) {
      SamePath(mover, h);
      SureAmongSure(x, h.request, mover.request);
      assert SafeAt(x.c, s, i);
    }
  }

  lemma RewritingStays(x: Setting, s: Registry, i: nat, p: Path)
    requires i < |s.handlers| && Rewriting(s, p) && !Streams(s, s.handlers[i], p)
    requires p in Touch(s.dir, s.handlers[i]).files && Inode(Touch(s.dir, s.handlers[i]), p) == Inode(s.dir, p)
    ensures Rewriting(Handle(x.c, x.serverId, s, i), p)
  {
    var j :| 0 <= j < |s.handlers| && Streams(s, s.handlers[j], p);
    var s' := Handle(x.c, x.serverId, s, i);
    OnlyOneMoves(x.c, x.serverId, s, i, j);
    assert Streams(s', s'.handlers[j], p);
  }

  /** Once written a sure request's key is in place or being written. */
  lemma WrittenStaysWritten(x: Setting, s: Registry, i: nat, h: Handler)
    requires AllHarmless(x) && SentFrom(x.rs, s) && KeysAreSafe(x, s) && Known(x.c, s, h) && i < |s.handlers|
    requires h.request in x.rs && Sure(x.c, h.request) && PathOf(h) !in x.init
    requires Has(s, h) || Rewriting(s, PathOf(h))
    ensures var s' := Handle(x.c, x.serverId, s, i); Has(s', h) || Rewriting(s', PathOf(h))
  {
    var mover, s' := s.handlers[i], Handle(x.c, x.serverId, s, i);
    SureTouch(x, s, i, h);
    if PathOf(mover) == PathOf(h) && mover.phase.Absent? {
      assert Streams(s', s'.handlers[i], PathOf(h));
    } else if Streams(s, mover, PathOf(h)) {
      StreamWritesKey(x, s, i, h);
    } else if Rewriting(s, PathOf(h)) {
      RewritingStays(x, s, i, PathOf(h));
    }
  }

  lemma StreamWritesKey(x: Setting, s: Registry, i: nat, h: Handler)
    requires AllHarmless(x) && SentFrom(x.rs, s) && KeysAreSafe(x, s) && Known(x.c, s, h) && i < |s.handlers|
    requires h.request in x.rs && Sure(x.c, h.request) && PathOf(h) !in x.init && Streams(s, s.handlers[i], PathOf(h))
    ensures Has(Handle(x.c, x.serverId, s, i), h)
  {
    SureMover(x, s, i, h);
  }

  /** The handler that moves. */
  lemma MoverIsSafe(x: Setting, s: Registry, i: nat)
    requires AllHarmless(x) && SentFrom(x.rs, s) && FilesAreKnown(x, s) && KeysAreSafe(x, s)
    requires i < |s.handlers| && PathOf(s.handlers[i]) !in x.init
    ensures SafeAt(x.c, Handle(x.c, x.serverId, s, i), i)
  {
    var h := s.handlers[i];
    assert SafeAt(x.c, s, i) && Known(x.c, s, h);
    if Sure(x.c, h.request) {
      if h.phase.Opened? {
        StreamWritesKey(x, s, i, h);
      } else if HasWritten(h.phase) {
        WrittenStaysWritten(x, s, i, h);
      }
    }
  }

  lemma OthersAreSafe(x: Setting, s: Registry, i: nat, k: nat)
    requires AllHarmless(x) && SentFrom(x.rs, s) && FilesAreKnown(x, s) && KeysAreSafe(x, s)
    requires i < |s.handlers| && k < |s.handlers| && k != i && PathOf(s.handlers[k]) !in x.init
    ensures SafeAt(x.c, Handle(x.c, x.serverId, s, i), k)
  {
    var h := s.handlers[k];
    assert SafeAt(x.c, s, k) && Known(x.c, s, h);
    OnlyOneMoves(x.c, x.serverId, s, i, k);
    if Sure(x.c, h.request) {
      if h.phase.Opened? {
        SureTouch(x, s, i, h);
      } else if HasWritten(h.phase) {
        WrittenStaysWritten(x, s, i, h);
      }
    }
  }

  lemma ArrivalIsSafe(x: Setting, s: Registry, a: Action, k: nat)
    requires a.Arrive? && k < |s.handlers| && SafeAt(x.c, s, k)
    ensures SafeAt(x.c, Step(x.c, x.serverId, s, a), k)
  {
    var p, s' := PathOf(s.handlers[k]), Step(x.c, x.serverId, s, a);
    if Rewriting(s, p) {
      var j :| 0 <= j < |s.handlers| && Streams(s, s.handlers[j], p);
      assert Streams(s', s'.handlers[j], p);
    }
  }

  lemma StepKeepsKeysSafe(x: Setting, s: Registry, a: Action)
    requires AllHarmless(x) && SentFrom(x.rs, s) && FilesAreKnown(x, s) && KeysAreSafe(x, s) && Possible(s, a)
    ensures KeysAreSafe(x, Step(x.c, x.serverId, s, a))
  {
    var s' := Step(x.c, x.serverId, s, a);
    forall k | 0 <= k < |s'.handlers| && PathOf(s'.handlers[k]) !in x.init
      ensures SafeAt(x.c, s', k)
    {
      if a.Access? && k == a.i {
        MoverIsSafe(x, s, k);
      } else if a.Access? {
        OthersAreSafe(x, s, a.i, k);
      } else if k < |s.handlers| {
        ArrivalIsSafe(x, s, a, k);
      }
    }
  }

  lemma {:induction false} KeysStaySafe(x: Setting, tr: seq<Registry>, i: nat)
    requires AllHarmless(x) && Traffic(x, tr) && i < |tr|
    ensures KeysAreSafe(x, tr[i])
  {
    if i > 0 {
      KeysStaySafe(x, tr, i - 1);
      FilesStayLaid(x, tr, i - 1);
      assert AnyNextAt(x.c, x.serverId, tr, i - 1) && SentFrom(x.rs, tr[i - 1]);
      LaidIsKnown(x, tr[i - 1]);
      var a :| Possible(tr[i - 1], a) && tr[i] == Step(x.c, x.serverId, tr[i - 1], a);
      StepKeepsKeysSafe(x, tr[i - 1], a);
    }
  }

  lemma NoKeyIsLost(x: Setting, s: Registry)
    requires AllHarmless(x) && Reached(x, s)
    ensures !LosesKey(s)
  {
    var tr :| Traffic(x, tr) && Last(tr) == s;
    KeysStaySafe(x, tr, |tr| - 1);
    EveryInterleaving(x.c, x.serverId, x.init, tr, |tr| - 1);
    if forall k :: 0 <= k < |s.handlers| ==> s.handlers[k].phase.Done? {
      forall k | 0 <= k < |s.handlers| && Accepted(s.handlers[k])
        ensures Has(s, s.handlers[k])
      {
        assert Busy(s.handlers[k]);
        assert SafeAt(x.c, s, k);
      }
    }
  }

  /** Some requests can lose an accepted key for good under some interleaving if and only if one of them has a client id
      without a key file and verifies with keys sent for that client id, laid over one another, and not all requests for
      the client id carry its key and verify with it and with an empty file. */
  lemma KeyIsLostExactly(x: Setting)
    ensures CanLoseKey(x) <==> exists r, ds, other :: Harmful(x, r, ds, other)
  {
    if r, ds, other :| Harmful(x, r, ds, other) {
      if Passes(x.c, r, r.data) {
        OwnKeyIsLost(x, r, other);
      } else {
        LaidKeysLoseKey(x, r, ds);
      }
    } else if s :| Reached(x, s) && LosesKey(s) {
      NoKeyIsLost(x, s);
    }
  }
}
