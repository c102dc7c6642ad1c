/** Any number of agreement requests at once, and what the files they share hold: keys laid over one another. */
module KeyTraffic {
  import opened Bytes
  import opened Messages
  import opened KeyRegistry

  /** A server, its initial keys, and the requests that may be sent, each any number of times. */
  datatype Setting = Setting(c: Crypto, serverId: seq<byte>, init: map<Path, seq<byte>>, rs: iset<RequestInfo>)

  predicate SentFrom(rs: iset<RequestInfo>, s: Registry) {
    forall k :: 0 <= k < |s.handlers| ==> s.handlers[k].request in rs
  }

  // The size of the thread pool handlers run on.
  const THREADS := 4

  /** The handlers that have begun and not finished. */
  function Running(s: Registry): set<nat> {
    set i: nat | i < |s.handlers| && !s.handlers[i].phase.Arrived? && InFlight(s.handlers[i])
  }

  /** Each running handler has a thread. */
  predicate Fits(s: Registry) {
    |Running(s)| <= THREADS
  }

  lemma {:induction false} FewFit(n: nat, a: set<nat>)
    requires forall i :: i in a ==> i < n
    ensures |a| <= n
  {
    if n > 0 {
      FewFit(n - 1, a - {n - 1});
    }
  }

  /** A run under any interleaving of any number of requests, as many at a time as there are threads. */
  ghost predicate Traffic(x: Setting, tr: seq<Registry>) {
    Behaviour(x.c, x.serverId, x.init, tr) && forall i :: 0 <= i < |tr| ==> SentFrom(x.rs, tr[i]) && Fits(tr[i])
  }

  function Last(tr: seq<Registry>): Registry
    requires |tr| > 0
  {
    tr[|tr| - 1]
  }

  ghost predicate Reached(x: Setting, s: Registry) {
    exists tr :: Traffic(x, tr) && Last(tr) == s
  }

  lemma GoOn(x: Setting, s: Registry, a: Action)
    requires Reached(x, s) && Possible(s, a) && (a.Arrive? ==> a.request in x.rs)
    requires |Step(x.c, x.serverId, s, a).handlers| <= THREADS
    ensures Reached(x, Step(x.c, x.serverId, s, a))
  {
    var tr :| Traffic(x, tr) && Last(tr) == s;
    var next := Step(x.c, x.serverId, s, a);
    var longer := tr + [next];
    forall i | 0 <= i < |longer| - 1
      ensures AnyNextAt(x.c, x.serverId, longer, i)
    {
      if i < |tr| - 1 {
        assert AnyNextAt(x.c, x.serverId, tr, i);
        assert longer[i] == tr[i] && longer[i + 1] == tr[i + 1];
      } else {
        assert longer[i] == s && longer[i + 1] == next;
      }
    }
    StepSendsFrom(x, s, a);
    FewFit(|next.handlers|, Running(next));
    assert Traffic(x, longer) && Last(longer) == next;
  }

  lemma StepSendsFrom(x: Setting, s: Registry, a: Action)
    requires Reached(x, s) && Possible(s, a) && (a.Arrive? ==> a.request in x.rs)
    ensures SentFrom(x.rs, s) && SentFrom(x.rs, Step(x.c, x.serverId, s, a))
  {
    var tr :| Traffic(x, tr) && Last(tr) == s;
    assert SentFrom(x.rs, tr[|tr| - 1]);
  }

  // ----- The conditions -----

  /** Whether the request's signature verifies under a key, be it its own or not. */
  predicate Passes(c: Crypto, r: RequestInfo, key: seq<byte>) {
    c.verify(key, c.hash(r.data), r.sign)
  }

  /** What an empty file holds after these keys have been written at its start, one after the other: each leaves the
      tail of what was longer. */
  function Laid(ds: seq<seq<byte>>): seq<byte> {
    if ds == [] then [] else Overlay(Laid(ds[..|ds| - 1]), ds[|ds| - 1])
  }

  lemma LaidPush(ds: seq<seq<byte>>, d: seq<byte>)
    ensures Laid(ds + [d]) == Overlay(Laid(ds), d)
  {
    assert (ds + [d])[..|ds|] == ds;
  }

  /** A write leaves its data at the start of the file and behind it what was longer than that. */
  lemma OverlayParts(content: seq<byte>, data: seq<byte>)
    ensures |Overlay(content, data)| == if |data| < |content| then |content| else |data|
    ensures Overlay(content, data)[..|data|] == data
    ensures |data| < |content| ==> Overlay(content, data)[|data|..] == content[|data|..]
  {
  }

  /** Each byte is that of the last key long enough to have one there, and the longest key gives the length. */
  lemma {:induction false} LaidAt(ds: seq<seq<byte>>, k: nat) returns (j: nat)
    requires k < |Laid(ds)|
    ensures j < |ds| && k < |ds[j]| && Laid(ds)[k] == ds[j][k]
    ensures forall l :: j < l < |ds| ==> |ds[l]| <= k
  {
    var n := |ds| - 1;
    OverlayParts(Laid(ds[..n]), ds[n]);
    if k < |ds[n]| {
      assert Laid(ds)[k] == Laid(ds)[..|ds[n]|][k];
      j := n;
    } else {
      assert Laid(ds)[k] == Laid(ds)[|ds[n]|..][k - |ds[n]|];
      j := LaidAt(ds[..n], k);
    }
  }

  lemma {:induction false} LaidIsLongest(ds: seq<seq<byte>>, j: nat)
    requires j < |ds|
    ensures |ds[j]| <= |Laid(ds)|
  {
    var n := |ds| - 1;
    OverlayParts(Laid(ds[..n]), ds[n]);
    if j < n {
      LaidIsLongest(ds[..n], j);
    }
  }

  ghost predicate SentFor(x: Setting, clientId: seq<byte>, d: seq<byte>) {
    exists q :: q in x.rs && q.clientId == clientId && q.data == d
  }

  ghost predicate AllSentFor(x: Setting, clientId: seq<byte>, ds: seq<seq<byte>>) {
    forall j :: 0 <= j < |ds| ==> SentFor(x, clientId, ds[j])
  }

  /** The request verifies with keys sent for its client id, which has no key file, laid over one another: with one key,
      be it its own or another's, with an empty file, or with a mixture. Every key takes a thread to write it, and so
      does the request itself, unless one of the keys is its own. */
  ghost predicate CanPass(x: Setting, r: RequestInfo, ds: seq<seq<byte>>) {
    && r in x.rs && KeyPath(r.clientId) !in x.init && AllSentFor(x, r.clientId, ds) && Passes(x.c, r, Laid(ds))
    && |ds| <= THREADS && (|ds| == THREADS ==> r.data in ds)
  }

  /** A request that verifies with its own key and with an empty file. */
  predicate Sure(c: Crypto, r: RequestInfo) {
    Passes(c, r, r.data) && Passes(c, r, [])
  }

  /** Both requests carry one key, and both verify with it and with an empty file. */
  predicate Harmless(c: Crypto, r0: RequestInfo, r1: RequestInfo) {
    r0.data == r1.data && Sure(c, r0) && Sure(c, r1)
  }

  // ----- What a file holds -----

  predicate Holds(s: Registry, p: Path, content: seq<byte>) {
    p in s.dir.files && s.dir.files[p] == content
  }

  /** The handler is not going to write any more. */
  predicate Past(phase: Phase) {
    !phase.Arrived? && !phase.Absent? && !phase.Opened?
  }

  /** The handler's stream will write to the file of that name. */
  predicate Streams(s: Registry, h: Handler, p: Path) {
    h.phase.Opened? && PathOf(h) == p && p in s.dir.files && h.phase.inode == Inode(s.dir, p)
  }

  /** The handlers about the file `p` that found none and are still running. */
  function Tested(s: Registry, p: Path): set<nat> {
    set i: nat | i < |s.handlers| && PathOf(s.handlers[i]) == p && FoundNone(s.handlers[i].phase)
  }

  predicate FoundNone(phase: Phase) {
    phase.Absent? || phase.Opened? || phase.Written? || phase.Refuting? || phase.Accepting?
  }

  function Elements(w: seq<nat>): set<nat> {
    set i | i in w
  }

  predicate Distinct(w: seq<nat>) {
    forall a, b :: 0 <= a < b < |w| ==> w[a] != w[b]
  }

  lemma {:induction false} DistinctCount(w: seq<nat>)
    requires Distinct(w)
    ensures |Elements(w)| == |w|
  {
    if w != [] {
      var n := |w| - 1;
      DistinctCount(w[..n]);
      assert Elements(w) == Elements(w[..n]) + {w[n]};
    }
  }

  predicate AllPast(s: Registry, p: Path, w: seq<nat>) {
    forall j :: 0 <= j < |w| ==>
      w[j] < |s.handlers| && PathOf(s.handlers[w[j]]) == p && Past(s.handlers[w[j]].phase)
  }

  /** The keys these handlers write. */
  function KeysOf(s: Registry, w: seq<nat>): (ds: seq<seq<byte>>)
    requires forall j :: 0 <= j < |w| ==> w[j] < |s.handlers|
    ensures |ds| == |w| && forall j :: 0 <= j < |w| ==> ds[j] == s.handlers[w[j]].request.data
  {
    if w == [] then [] else KeysOf(s, w[..|w| - 1]) + [s.handlers[w[|w| - 1]].request.data]
  }

  lemma SameKeys(s: Registry, s': Registry, w: seq<nat>)
    requires forall j :: 0 <= j < |w| ==> w[j] < |s.handlers| && w[j] < |s'.handlers|
    requires forall j :: 0 <= j < |w| ==> s'.handlers[w[j]].request == s.handlers[w[j]].request
    ensures KeysOf(s', w) == KeysOf(s, w)
  {
  }

  predicate HaveThreads(s: Registry, p: Path, w: seq<nat>) {
    |Tested(s, p) + Elements(w)| <= THREADS
  }

  /** The handlers `w` have written to the file since it was last emptied, in this order. They and those that may still
      write to it ran when the file was created. */
  predicate WrittenBy(s: Registry, p: Path, w: seq<nat>) {
    Distinct(w) && AllPast(s, p, w) && Holds(s, p, Laid(KeysOf(s, w))) && HaveThreads(s, p, w)
  }

  ghost predicate FilesAreLaid(x: Setting, s: Registry) {
    forall p :: p in s.dir.files && p !in x.init ==> exists w :: WrittenBy(s, p, w)
  }

  lemma SubsetIsSmaller(a: set<nat>, b: set<nat>)
    requires a <= b
    ensures |a| <= |b|
  {
    assert b == a + (b - a);
  }

  /** Who finds the file there does not write to it. */
  lemma NobodyJoins(x: Setting, s: Registry, i: nat, p: Path)
    requires i < |s.handlers| && p in s.dir.files
    ensures Tested(Handle(x.c, x.serverId, s, i), p) <= Tested(s, p)
  {
    var s' := Handle(x.c, x.serverId, s, i);
    forall k | k in Tested(s', p)
      ensures k in Tested(s, p)
    {
      OnlyOneMoves(x.c, x.serverId, s, i, k);
    }
  }

  /** Those who have written stay the same. */
  lemma WritersStand(x: Setting, s: Registry, i: nat, p: Path, w: seq<nat>)
    requires i < |s.handlers| && AllPast(s, p, w)
    ensures AllPast(Handle(x.c, x.serverId, s, i), p, w)
    ensures KeysOf(Handle(x.c, x.serverId, s, i), w) == KeysOf(s, w)
  {
    var s' := Handle(x.c, x.serverId, s, i);
    forall j | 0 <= j < |w|
      ensures PathOf(s'.handlers[w[j]]) == p && Past(s'.handlers[w[j]].phase)
      ensures s'.handlers[w[j]].request == s.handlers[w[j]].request
    {
      OnlyOneMoves(x.c, x.serverId, s, i, w[j]);
    }
    SameKeys(s, s', w);
  }

  lemma FewerThreads(s: Registry, s': Registry, p: Path, w: seq<nat>, w': seq<nat>)
    requires HaveThreads(s, p, w) && Tested(s', p) <= Tested(s, p) && Elements(w') <= Elements(w) + Tested(s, p)
    ensures HaveThreads(s', p, w')
  {
    SubsetIsSmaller(Tested(s', p) + Elements(w'), Tested(s, p) + Elements(w));
  }

  lemma WritersStay(x: Setting, s: Registry, i: nat, p: Path, w: seq<nat>)
    requires i < |s.handlers| && WrittenBy(s, p, w)
    requires Holds(Handle(x.c, x.serverId, s, i), p, s.dir.files[p])
    ensures WrittenBy(Handle(x.c, x.serverId, s, i), p, w)
  {
    NobodyJoins(x, s, i, p);
    WritersStand(x, s, i, p, w);
    FewerThreads(s, Handle(x.c, x.serverId, s, i), p, w, w);
  }

  lemma StreamIsTested(s: Registry, i: nat, p: Path, w: seq<nat>)
    requires i < |s.handlers| && AllPast(s, p, w) && Distinct(w) && Streams(s, s.handlers[i], p)
    ensures i in Tested(s, p) && i !in w && Distinct(w + [i]) && Elements(w + [i]) == Elements(w) + {i}
  {
  }

  lemma NextIsPast(s: Registry, i: nat, p: Path, w: seq<nat>)
    requires i < |s.handlers| && AllPast(s, p, w) && PathOf(s.handlers[i]) == p && Past(s.handlers[i].phase)
    ensures AllPast(s, p, w + [i]) && KeysOf(s, w + [i]) == KeysOf(s, w) + [s.handlers[i].request.data]
  {
    assert (w + [i])[..|w|] == w;
  }

  lemma KeyIsLaid(x: Setting, s: Registry, i: nat, p: Path, w: seq<nat>)
    requires i < |s.handlers| && AllPast(s, p, w) && Holds(s, p, Laid(KeysOf(s, w))) && Streams(s, s.handlers[i], p)
    ensures
      var s' := Handle(x.c, x.serverId, s, i);
      AllPast(s', p, w + [i]) && Holds(s', p, Laid(KeysOf(s', w + [i])))
  {
    WritersStand(x, s, i, p, w);
    LaidPush(KeysOf(s, w), s.handlers[i].request.data);
    NextIsPast(Handle(x.c, x.serverId, s, i), i, p, w);
  }

  /** One more key is laid over those before. */
  lemma WriterJoins(x: Setting, s: Registry, i: nat, p: Path, w: seq<nat>)
    requires i < |s.handlers| && WrittenBy(s, p, w) && Streams(s, s.handlers[i], p)
    ensures WrittenBy(Handle(x.c, x.serverId, s, i), p, w + [i])
  {
    NobodyJoins(x, s, i, p);
    StreamIsTested(s, i, p, w);
    KeyIsLaid(x, s, i, p, w);
    FewerThreads(s, Handle(x.c, x.serverId, s, i), p, w, w + [i]);
  }

  lemma NoWriterYet(s: Registry, p: Path)
    requires Fits(s) && Holds(s, p, [])
    ensures WrittenBy(s, p, [])
  {
    assert Tested(s, p) + Elements([]) == Tested(s, p) <= Running(s);
    SubsetIsSmaller(Tested(s, p), Running(s));
    assert KeysOf(s, []) == [];
  }

  /** Who neither opens nor writes nor removes a file leaves its content. */
  lemma ContentStays(x: Setting, s: Registry, i: nat, p: Path)
    requires i < |s.handlers| && p in Handle(x.c, x.serverId, s, i).dir.files && !Streams(s, s.handlers[i], p)
    requires PathOf(s.handlers[i]) == p ==> !s.handlers[i].phase.Absent?
    ensures p in s.dir.files && Holds(Handle(x.c, x.serverId, s, i), p, s.dir.files[p])
  {
  }

  lemma HandleKeepsLaid(x: Setting, s: Registry, i: nat, p: Path)
    requires i < |s.handlers| && FilesAreLaid(x, s) && Fits(Handle(x.c, x.serverId, s, i))
    requires p in Handle(x.c, x.serverId, s, i).dir.files && p !in x.init
    ensures exists w :: WrittenBy(Handle(x.c, x.serverId, s, i), p, w)
  {
    var h, s' := s.handlers[i], Handle(x.c, x.serverId, s, i);
    if PathOf(h) == p && h.phase.Absent? {
      NoWriterYet(s', p);
    } else {
      if !Streams(s, h, p) {
        ContentStays(x, s, i, p);
      }
      var w :| WrittenBy(s, p, w);
      if Streams(s, h, p) {
        WriterJoins(x, s, i, p, w);
      } else {
        WritersStay(x, s, i, p, w);
      }
    }
  }

  lemma ArrivalIsNotTested(x: Setting, s: Registry, a: Action, p: Path)
    requires a.Arrive?
    ensures Tested(Step(x.c, x.serverId, s, a), p) <= Tested(s, p)
  {
    var s' := Step(x.c, x.serverId, s, a);
    forall k | k in Tested(s', p)
      ensures k in Tested(s, p)
    {
      assert k < |s.handlers| && s'.handlers[k] == s.handlers[k];
    }
  }

  lemma ArriveKeepsWriters(x: Setting, s: Registry, a: Action, p: Path, w: seq<nat>)
    requires a.Arrive? && WrittenBy(s, p, w)
    ensures WrittenBy(Step(x.c, x.serverId, s, a), p, w)
  {
    var s' := Step(x.c, x.serverId, s, a);
    ArrivalIsNotTested(x, s, a, p);
    FewerThreads(s, s', p, w, w);
    SameKeys(s, s', w);
  }

  lemma {:induction false} FilesStayLaid(x: Setting, tr: seq<Registry>, i: nat)
    requires Traffic(x, tr) && i < |tr|
    ensures FilesAreLaid(x, tr[i])
  {
    if i > 0 {
      FilesStayLaid(x, tr, i - 1);
      var s, s' := tr[i - 1], tr[i];
      assert AnyNextAt(x.c, x.serverId, tr, i - 1) && Fits(s');
      var a :| Possible(s, a) && s' == Step(x.c, x.serverId, s, a);
      forall p | p in s'.dir.files && p !in x.init
        ensures exists w :: WrittenBy(s', p, w)
      {
        if a.Access? {
          HandleKeepsLaid(x, s, a.i, p);
        } else {
          var w :| WrittenBy(s, p, w);
          ArriveKeepsWriters(x, s, a, p, w);
        }
      }
    }
  }

  /** The keys laid over one another in the file `h` has. */
  ghost predicate StoredIs(x: Setting, s: Registry, h: Handler, ds: seq<seq<byte>>) {
    Stored(s.dir.files, PathOf(h)) == Laid(ds) && AllSentFor(x, h.request.clientId, ds)
  }

  lemma KeysAreSent(x: Setting, s: Registry, h: Handler, w: seq<nat>)
    requires SentFrom(x.rs, s) && WrittenBy(s, PathOf(h), w)
    ensures StoredIs(x, s, h, KeysOf(s, w))
  {
    forall j | 0 <= j < |w|
      ensures SentFor(x, h.request.clientId, KeysOf(s, w)[j])
    {
      SamePath(s.handlers[w[j]], h);
    }
  }

  /** Whoever has yet to verify has a thread, too. */
  lemma FewWriters(s: Registry, i: nat, p: Path, w: seq<nat>)
    requires Distinct(w) && HaveThreads(s, p, w) && i in Tested(s, p)
    ensures |w| <= THREADS && (|w| == THREADS ==> i in w)
  {
    DistinctCount(w);
    SubsetIsSmaller(Elements(w), Tested(s, p) + Elements(w));
    SubsetIsSmaller(Elements(w) + {i}, Tested(s, p) + Elements(w));
    if i !in w {
      assert i !in Elements(w);
      assert |Elements(w) + {i}| == |w| + 1;
    }
  }

  lemma OwnKeyIsAmong(s: Registry, i: nat, p: Path, w: seq<nat>)
    requires AllPast(s, p, w) && i in w && i < |s.handlers|
    ensures s.handlers[i].request.data in KeysOf(s, w)
  {
    var j :| 0 <= j < |w| && w[j] == i;
    assert KeysOf(s, w)[j] == s.handlers[i].request.data;
  }

  /** What a handler verifies with are keys laid over one another, few enough for the threads. */
  ghost predicate LaidFor(x: Setting, s: Registry, i: nat, ds: seq<seq<byte>>)
    requires i < |s.handlers|
  {
    && StoredIs(x, s, s.handlers[i], ds)
    && |ds| <= THREADS && (|ds| == THREADS ==> s.handlers[i].request.data in ds)
  }

  lemma WrittenIsLaid(x: Setting, s: Registry, i: nat, w: seq<nat>)
    requires SentFrom(x.rs, s) && i < |s.handlers| && s.handlers[i].phase.Written?
    requires WrittenBy(s, PathOf(s.handlers[i]), w)
    ensures LaidFor(x, s, i, KeysOf(s, w))
  {
    KeysAreSent(x, s, s.handlers[i], w);
    FewWriters(s, i, PathOf(s.handlers[i]), w);
    assert |KeysOf(s, w)| == |w|;
    if i in w {
      OwnKeyIsAmong(s, i, PathOf(s.handlers[i]), w);
    }
  }

  lemma StoredIsLaid(x: Setting, s: Registry, i: nat) returns (ds: seq<seq<byte>>)
    requires SentFrom(x.rs, s) && FilesAreLaid(x, s) && i < |s.handlers| && s.handlers[i].phase.Written?
    requires PathOf(s.handlers[i]) !in x.init
    ensures LaidFor(x, s, i, ds)
  {
    if PathOf(s.handlers[i]) in s.dir.files {
      var w :| WrittenBy(s, PathOf(s.handlers[i]), w);
      WrittenIsLaid(x, s, i, w);
      ds := KeysOf(s, w);
    } else {
      ds := [];
      assert Laid([]) == [];
    }
  }
}
