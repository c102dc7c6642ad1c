/** Key agreement: handlers for `SeckeyAgree` requests, interleaved at every access to the key directory. */
module KeyRegistry {
  import opened Bytes
  import opened Messages

  /** The cryptographic operations, left uninterpreted. `verify` takes a key, a digest and a signature. */
  datatype Crypto = Crypto(
    hash: seq<byte> -> seq<byte>,
    verify: (seq<byte>, seq<byte>, seq<byte>) -> bool,
    encrypt: (seq<byte>, seq<byte>) -> seq<byte>)

  type Path = seq<byte>

  // "seckey/" and "_pubkey.pem"
  const DIRECTORY: seq<byte> := [115, 101, 99, 107, 101, 121, 47]
  const SUFFIX: seq<byte> := [95, 112, 117, 98, 107, 101, 121, 46, 112, 101, 109]

  function KeyPath(clientId: seq<byte>): Path {
    DIRECTORY + clientId + SUFFIX
  }

  function Ascii(s: string): seq<byte> {
    seq(|s|, i requires 0 <= i < |s| => s[i] as int % 256)
  }

  lemma KeyPathText(clientId: seq<byte>)
    ensures KeyPath(clientId) == Ascii("seckey/") + clientId + Ascii("_pubkey.pem")
  {
    assert DIRECTORY == Ascii("seckey/");
    assert SUFFIX == Ascii("_pubkey.pem");
  }

  lemma KeyPathInjective(a: seq<byte>, b: seq<byte>)
    ensures KeyPath(a) == KeyPath(b) <==> a == b
  {
    assert a == KeyPath(a)[|DIRECTORY|..|KeyPath(a)| - |SUFFIX|];
    assert b == KeyPath(b)[|DIRECTORY|..|KeyPath(b)| - |SUFFIX|];
  }

  /** How far a handler has come. */
  datatype Phase =
    | Arrived                 // about to test whether a key file exists
    | Absent                  // found none, about to create the file
    | Opened(inode: nat)      // has created or emptied the file, about to write the key to it
    | Written                 // about to verify the signature with the stored key
    | Refuting                // verification failed, about to remove the file
    | Accepting               // verification succeeded, about to encrypt and reply
    | Refusing                // about to reply with a failure
    | Done(accepted: bool)

  datatype Handler = Handler(request: RequestInfo, aesKey: seq<byte>, phase: Phase)

  datatype Reply = Agreed(info: RespondInfo) | Refused

  datatype Addressed = Addressed(to: nat, reply: Reply)

  /** The key directory: what each path's file holds, and which file that is, by number. Initial files have number 0 and
      `created` is the next number. A file without a name cannot be read again, so its content is not kept. */
  datatype Directory = Directory(files: map<Path, seq<byte>>, inodes: map<Path, nat>, created: nat)

  datatype Registry = Registry(dir: Directory, handlers: seq<Handler>, replies: seq<Addressed>)

  function Holding(files: map<Path, seq<byte>>): Directory {
    Directory(files, map[], 1)
  }

  const SECKEY_ID := 12

  function PathOf(h: Handler): Path {
    KeyPath(h.request.clientId)
  }

  /** Whether the request's signature verifies under the key it carries. */
  predicate Verifies(c: Crypto, r: RequestInfo) {
    c.verify(r.data, c.hash(r.data), r.sign)
  }

  function Stored(files: map<Path, seq<byte>>, p: Path): seq<byte> {
    if p in files then files[p] else []
  }

  function Answer(c: Crypto, serverId: seq<byte>, h: Handler, key: seq<byte>): Reply {
    Agreed(RespondInfo(h.request.clientId, serverId, c.encrypt(key, h.aesKey), SECKEY_ID))
  }

  // ----- Accesses to the directory -----

  function Inode(d: Directory, p: Path): nat {
    if p in d.inodes then d.inodes[p] else 0
  }

  /** Opening an output stream creates the file, or empties the one that is there. */
  function Open(d: Directory, p: Path): Directory {
    if p in d.files then d.(files := d.files[p := []])
    else Directory(d.files[p := []], d.inodes[p := d.created], d.created + 1)
  }

  /** What a file holds after `data` has been written at its start. */
  function Overlay(content: seq<byte>, data: seq<byte>): seq<byte> {
    if |data| < |content| then data + content[|data|..] else data
  }

  /** A stream writes at the start of the file it has opened, whether or not that still has its name. */
  function Write(d: Directory, p: Path, inode: nat, data: seq<byte>): Directory {
    if p in d.files && Inode(d, p) == inode then d.(files := d.files[p := Overlay(d.files[p], data)]) else d
  }

  function Remove(d: Directory, p: Path): Directory {
    d.(files := d.files - {p})
  }

  /** What the next access of a handler does to the directory. */
  function Touch(d: Directory, h: Handler): Directory {
    match h.phase
    case Absent => Open(d, PathOf(h))
    case Opened(inode) => Write(d, PathOf(h), inode, h.request.data)
    case Refuting => Remove(d, PathOf(h))
    case _ => d
  }

  function NextPhase(c: Crypto, d: Directory, h: Handler): Phase {
    match h.phase
    case Arrived => if PathOf(h) in d.files then Refusing else Absent
    case Absent => Opened(Inode(Open(d, PathOf(h)), PathOf(h)))
    case Opened(_) => Written
    case Written =>
      if c.verify(Stored(d.files, PathOf(h)), c.hash(h.request.data), h.request.sign) then Accepting else Refuting
    case Refuting => Refusing
    case Accepting => Done(true)
    case Refusing => Done(false)
    case Done(_) => h.phase
  }

  /** What a handler replies at its next access. */
  function NextReply(c: Crypto, serverId: seq<byte>, d: Directory, h: Handler): Option<Reply> {
    match h.phase
    case Accepting => Some(Answer(c, serverId, h, Stored(d.files, PathOf(h))))
    case Refusing => Some(Refused)
    case _ => None
  }

  function Replied(rs: seq<Addressed>, i: nat, r: Option<Reply>): seq<Addressed> {
    if r.Some? then rs + [Addressed(i, r.value)] else rs
  }

  /** The next access of handler `i`. */
  function Handle(c: Crypto, serverId: seq<byte>, s: Registry, i: nat): (r: Registry)
    requires i < |s.handlers|
    ensures |r.handlers| == |s.handlers|
  {
    var h := s.handlers[i];
    Registry(
      Touch(s.dir, h), s.handlers[i := h.(phase := NextPhase(c, s.dir, h))],
      Replied(s.replies, i, NextReply(c, serverId, s.dir, h)))
  }

  datatype Action = Arrive(request: RequestInfo, aesKey: seq<byte>) | Access(i: nat)

  predicate InFlight(h: Handler) {
    !h.phase.Done?
  }

  predicate Possible(s: Registry, a: Action) {
    a.Access? ==> a.i < |s.handlers|
  }

  /** No request in flight has the client id of the one that arrives. */
  predicate Exclusive(s: Registry, a: Action) {
    a.Arrive? ==> forall i :: 0 <= i < |s.handlers| && InFlight(s.handlers[i]) ==>
      s.handlers[i].request.clientId != a.request.clientId
  }

  function Step(c: Crypto, serverId: seq<byte>, s: Registry, a: Action): Registry
    requires Possible(s, a)
  {
    match a
    case Arrive(request, aesKey) => s.(handlers := s.handlers + [Handler(request, aesKey, Arrived)])
    case Access(i) => Handle(c, serverId, s, i)
  }

  // ----- What the directory holds -----

  /** The handler has a file in the directory: being written, under verification, or kept. */
  predicate Owns(h: Handler) {
    h.phase.Opened? || h.phase.Written? || h.phase.Refuting? || h.phase.Accepting? || h.phase == Done(true)
  }

  function Content(h: Handler): seq<byte> {
    if h.phase.Opened? then [] else h.request.data
  }

  /** The file an owning handler has, and writes to. */
  predicate OwnsRight(init: map<Path, seq<byte>>, s: Registry, h: Handler) {
    var p := PathOf(h);
    Owns(h) ==>
      && p !in init && p in s.dir.files && s.dir.files[p] == Content(h)
      && (h.phase.Opened? ==> h.phase.inode == Inode(s.dir, p))
  }

  /** Owners' files hold their content and initial files stay as they were. */
  predicate ContentInv(init: map<Path, seq<byte>>, s: Registry) {
    && (forall i :: 0 <= i < |s.handlers| ==> OwnsRight(init, s, s.handlers[i]))
    && (forall p :: p in init ==> p in s.dir.files && s.dir.files[p] == init[p])
  }

  /** Every file is initial or owned by a handler. */
  ghost predicate SourcesInv(init: map<Path, seq<byte>>, s: Registry) {
    forall p :: p in s.dir.files ==> p in init || OwnedPath(s, p)
  }

  ghost predicate OwnedPath(s: Registry, p: Path) {
    exists i :: 0 <= i < |s.handlers| && Owns(s.handlers[i]) && PathOf(s.handlers[i]) == p
  }

  predicate OwnersDiffer(s: Registry) {
    forall i, j :: 0 <= i < j < |s.handlers| && Owns(s.handlers[i]) && Owns(s.handlers[j]) ==>
      PathOf(s.handlers[i]) != PathOf(s.handlers[j])
  }

  predicate FlightsDiffer(s: Registry) {
    forall i, j :: 0 <= i < j < |s.handlers| && InFlight(s.handlers[i]) && InFlight(s.handlers[j]) ==>
      s.handlers[i].request.clientId != s.handlers[j].request.clientId
  }

  predicate AbsentInv(s: Registry) {
    forall i :: 0 <= i < |s.handlers| && s.handlers[i].phase.Absent? ==> PathOf(s.handlers[i]) !in s.dir.files
  }

  /** A key file that will never go away: initial, or of an accepted request. */
  ghost predicate Kept(init: map<Path, seq<byte>>, s: Registry, p: Path) {
    p in init || exists j :: 0 <= j < |s.handlers| && s.handlers[j].phase == Done(true) && PathOf(s.handlers[j]) == p
  }

  /** Verdicts are right: accepted requests verify; refused ones do not or came after a kept key. */
  ghost predicate VerdictsInv(c: Crypto, init: map<Path, seq<byte>>, s: Registry) {
    forall i :: 0 <= i < |s.handlers| ==> VerdictRight(c, init, s, s.handlers[i])
  }

  ghost predicate VerdictRight(c: Crypto, init: map<Path, seq<byte>>, s: Registry, h: Handler) {
    && (h.phase.Accepting? || h.phase == Done(true) ==> Verifies(c, h.request))
    && (h.phase.Refuting? ==> !Verifies(c, h.request))
    && (h.phase.Refusing? || h.phase == Done(false) ==> !Verifies(c, h.request) || Kept(init, s, PathOf(h)))
  }

  ghost predicate DirectoryInv(init: map<Path, seq<byte>>, s: Registry) {
    ContentInv(init, s) && SourcesInv(init, s) && OwnersDiffer(s) && FlightsDiffer(s) && AbsentInv(s)
  }

  lemma SamePath(a: Handler, b: Handler)
    ensures PathOf(a) == PathOf(b) <==> a.request.clientId == b.request.clientId
  {
    KeyPathInjective(a.request.clientId, b.request.clientId);
  }

  lemma PathsAreIds(s: Registry)
    ensures forall i, j :: 0 <= i < |s.handlers| && 0 <= j < |s.handlers| ==>
      (PathOf(s.handlers[i]) == PathOf(s.handlers[j]) <==>
       s.handlers[i].request.clientId == s.handlers[j].request.clientId)
  {
    forall i, j | 0 <= i < |s.handlers| && 0 <= j < |s.handlers|
      ensures PathOf(s.handlers[i]) == PathOf(s.handlers[j]) <==>
        s.handlers[i].request.clientId == s.handlers[j].request.clientId
    {
      SamePath(s.handlers[i], s.handlers[j]);
    }
  }

  /** A handler's access moves no other handler, and none that is done. */
  lemma OnlyOneMoves(c: Crypto, serverId: seq<byte>, s: Registry, i: nat, k: nat)
    requires i < |s.handlers| && k < |s.handlers|
    ensures Handle(c, serverId, s, i).handlers[k].request == s.handlers[k].request
    ensures k != i || !InFlight(s.handlers[k]) ==> Handle(c, serverId, s, i).handlers[k] == s.handlers[k]
  {
  }

  lemma HandleKeepsFlights(c: Crypto, serverId: seq<byte>, s: Registry, i: nat)
    requires i < |s.handlers| && FlightsDiffer(s)
    ensures FlightsDiffer(Handle(c, serverId, s, i))
  {
    forall k | 0 <= k < |s.handlers|
      ensures InFlight(Handle(c, serverId, s, i).handlers[k]) ==> InFlight(s.handlers[k])
      ensures Handle(c, serverId, s, i).handlers[k].request == s.handlers[k].request
    {
      OnlyOneMoves(c, serverId, s, i, k);
    }
  }

  lemma HandleKeepsSources(c: Crypto, serverId: seq<byte>, init: map<Path, seq<byte>>, s: Registry, i: nat, p: Path)
    requires i < |s.handlers| && SourcesInv(init, s)
    requires p in Handle(c, serverId, s, i).dir.files && p !in init
    ensures OwnedPath(Handle(c, serverId, s, i), p)
  {
    var s' := Handle(c, serverId, s, i);
    if p == PathOf(s.handlers[i]) && Owns(s'.handlers[i]) {
      assert PathOf(s'.handlers[i]) == p;
    } else {
      OtherFileIsOld(c, serverId, s, i, p);
      var j :| 0 <= j < |s.handlers| && Owns(s.handlers[j]) && PathOf(s.handlers[j]) == p;
      assert j != i ==> s'.handlers[j] == s.handlers[j];
    }
  }

  /** A file that is not one the handler has now was there before, and was not the handler's then. */
  lemma OtherFileIsOld(c: Crypto, serverId: seq<byte>, s: Registry, i: nat, p: Path)
    requires i < |s.handlers| && p in Handle(c, serverId, s, i).dir.files
    requires p != PathOf(s.handlers[i]) || !Owns(Handle(c, serverId, s, i).handlers[i])
    ensures p in s.dir.files && (p == PathOf(s.handlers[i]) ==> !Owns(s.handlers[i]))
  {
  }

  lemma OwnerKeepsContent(c: Crypto, serverId: seq<byte>, init: map<Path, seq<byte>>, s: Registry, i: nat)
    requires i < |s.handlers| && ContentInv(init, s) && AbsentInv(s)
    ensures OwnsRight(init, Handle(c, serverId, s, i), Handle(c, serverId, s, i).handlers[i])
  {
    assert OwnsRight(init, s, s.handlers[i]);
  }

  /** A handler that changes the directory changes only its own path, which is neither initial nor another owner's. */
  lemma HandleTouchesOwnPath(c: Crypto, serverId: seq<byte>, init: map<Path, seq<byte>>, s: Registry, i: nat, p: Path)
    requires i < |s.handlers| && ContentInv(init, s) && AbsentInv(s)
    requires p in init || p != PathOf(s.handlers[i])
    ensures
      var files' := Handle(c, serverId, s, i).dir.files;
      && (p in files' <==> p in s.dir.files) && (p in s.dir.files ==> files'[p] == s.dir.files[p])
      && Inode(Handle(c, serverId, s, i).dir, p) == Inode(s.dir, p)
  {
    assert OwnsRight(init, s, s.handlers[i]);
  }

  lemma OthersKeepContent(c: Crypto, serverId: seq<byte>, init: map<Path, seq<byte>>, s: Registry, i: nat, k: nat)
    requires i < |s.handlers| && k < |s.handlers| && k != i && DirectoryInv(init, s)
    ensures OwnsRight(init, Handle(c, serverId, s, i), s.handlers[k])
  {
    assert OwnsRight(init, s, s.handlers[k]);
    var p := PathOf(s.handlers[k]);
    SamePath(s.handlers[i], s.handlers[k]);
    if p != PathOf(s.handlers[i]) {
      HandleTouchesOwnPath(c, serverId, init, s, i, p);
    }
  }

  lemma HandleKeepsContent(c: Crypto, serverId: seq<byte>, init: map<Path, seq<byte>>, s: Registry, i: nat)
    requires i < |s.handlers| && DirectoryInv(init, s)
    ensures ContentInv(init, Handle(c, serverId, s, i))
  {
    var s' := Handle(c, serverId, s, i);
    forall k | 0 <= k < |s'.handlers|
      ensures OwnsRight(init, s', s'.handlers[k])
    {
      if k == i {
        OwnerKeepsContent(c, serverId, init, s, i);
      } else {
        OthersKeepContent(c, serverId, init, s, i, k);
      }
    }
    forall p | p in init
      ensures p in s'.dir.files && s'.dir.files[p] == init[p]
    {
      HandleTouchesOwnPath(c, serverId, init, s, i, p);
    }
  }

  lemma HandleKeepsOwners(c: Crypto, serverId: seq<byte>, init: map<Path, seq<byte>>, s: Registry, i: nat)
    requires i < |s.handlers| && DirectoryInv(init, s)
    ensures OwnersDiffer(Handle(c, serverId, s, i))
  {
    var s' := Handle(c, serverId, s, i);
    forall a, b | 0 <= a < b < |s'.handlers| && Owns(s'.handlers[a]) && Owns(s'.handlers[b])
      ensures PathOf(s'.handlers[a]) != PathOf(s'.handlers[b])
    {
      OnlyOneMoves(c, serverId, s, i, a);
      OnlyOneMoves(c, serverId, s, i, b);
      if b == i {
        OwnerDiffers(c, serverId, init, s, i, a);
      } else if a == i {
        OwnerDiffers(c, serverId, init, s, i, b);
      }
    }
  }

  /** The handler that moved has a path of its own: another owner is either in flight for another client, or done,
      and then the file was found. */
  lemma OwnerDiffers(c: Crypto, serverId: seq<byte>, init: map<Path, seq<byte>>, s: Registry, i: nat, k: nat)
    requires i < |s.handlers| && k < |s.handlers| && k != i && DirectoryInv(init, s)
    requires Owns(Handle(c, serverId, s, i).handlers[i]) && Owns(s.handlers[k])
    ensures PathOf(s.handlers[i]) != PathOf(s.handlers[k])
  {
    SamePath(s.handlers[i], s.handlers[k]);
    assert OwnsRight(init, s, s.handlers[k]);
    if InFlight(s.handlers[i]) && InFlight(s.handlers[k]) {
      assert s.handlers[i].request.clientId != s.handlers[k].request.clientId;
    }
  }

  lemma HandleKeepsAbsent(c: Crypto, serverId: seq<byte>, init: map<Path, seq<byte>>, s: Registry, i: nat)
    requires i < |s.handlers| && DirectoryInv(init, s)
    ensures AbsentInv(Handle(c, serverId, s, i))
  {
    var s' := Handle(c, serverId, s, i);
    forall k | 0 <= k < |s'.handlers| && s'.handlers[k].phase.Absent?
      ensures PathOf(s'.handlers[k]) !in s'.dir.files
    {
      if k != i {
        SamePath(s.handlers[i], s.handlers[k]);
      }
    }
  }

  lemma StepKeepsSources(c: Crypto, serverId: seq<byte>, init: map<Path, seq<byte>>, s: Registry, a: Action)
    requires DirectoryInv(init, s) && Possible(s, a)
    ensures SourcesInv(init, Step(c, serverId, s, a))
  {
    var s' := Step(c, serverId, s, a);
    forall p | p in s'.dir.files && p !in init
      ensures OwnedPath(s', p)
    {
      match a
      case Arrive(_, _) =>
        var j :| 0 <= j < |s.handlers| && Owns(s.handlers[j]) && PathOf(s.handlers[j]) == p;
        assert s'.handlers[j] == s.handlers[j];
      case Access(i) => HandleKeepsSources(c, serverId, init, s, i, p);
    }
  }

  lemma ArriveKeepsDirectory(c: Crypto, serverId: seq<byte>, init: map<Path, seq<byte>>, s: Registry, a: Action)
    requires DirectoryInv(init, s) && a.Arrive? && Exclusive(s, a)
    ensures
      var s' := Step(c, serverId, s, a);
      ContentInv(init, s') && OwnersDiffer(s') && FlightsDiffer(s') && AbsentInv(s')
  {
  }

  lemma StepKeepsDirectory(c: Crypto, serverId: seq<byte>, init: map<Path, seq<byte>>, s: Registry, a: Action)
    requires DirectoryInv(init, s) && Possible(s, a) && Exclusive(s, a)
    ensures DirectoryInv(init, Step(c, serverId, s, a))
  {
    StepKeepsSources(c, serverId, init, s, a);
    match a
    case Arrive(_, _) => ArriveKeepsDirectory(c, serverId, init, s, a);
    case Access(i) =>
      HandleKeepsFlights(c, serverId, s, i);
      HandleKeepsContent(c, serverId, init, s, i);
      HandleKeepsOwners(c, serverId, init, s, i);
      HandleKeepsAbsent(c, serverId, init, s, i);
  }

  // ----- Verdicts and replies -----

  lemma KeptStays(c: Crypto, serverId: seq<byte>, init: map<Path, seq<byte>>, s: Registry, a: Action, p: Path)
    requires Possible(s, a) && Kept(init, s, p)
    ensures Kept(init, Step(c, serverId, s, a), p)
  {
    if p !in init {
      var j :| 0 <= j < |s.handlers| && s.handlers[j].phase == Done(true) && PathOf(s.handlers[j]) == p;
      assert Step(c, serverId, s, a).handlers[j] == s.handlers[j];
    }
  }

  /** A file that a newly arrived request finds is one that is kept. */
  lemma FoundIsKept(init: map<Path, seq<byte>>, s: Registry, i: nat)
    requires DirectoryInv(init, s) && i < |s.handlers| && s.handlers[i].phase.Arrived? &&
      PathOf(s.handlers[i]) in s.dir.files
    ensures Kept(init, s, PathOf(s.handlers[i]))
  {
    var p := PathOf(s.handlers[i]);
    if p !in init {
      var j :| 0 <= j < |s.handlers| && Owns(s.handlers[j]) && PathOf(s.handlers[j]) == p;
      SamePath(s.handlers[i], s.handlers[j]);
      assert s.handlers[j].phase == Done(true);
    }
  }

  lemma HandlerKeepsVerdict(c: Crypto, serverId: seq<byte>, init: map<Path, seq<byte>>, s: Registry, i: nat)
    requires DirectoryInv(init, s) && i < |s.handlers| && VerdictRight(c, init, s, s.handlers[i])
    ensures VerdictRight(c, init, Handle(c, serverId, s, i), Handle(c, serverId, s, i).handlers[i])
  {
    var h := s.handlers[i];
    assert OwnsRight(init, s, h);
    if h.phase.Arrived? && PathOf(h) in s.dir.files {
      FoundIsKept(init, s, i);
    }
    if Kept(init, s, PathOf(h)) {
      KeptStays(c, serverId, init, s, Access(i), PathOf(h));
    }
  }

  lemma StepKeepsVerdicts(c: Crypto, serverId: seq<byte>, init: map<Path, seq<byte>>, s: Registry, a: Action)
    requires DirectoryInv(init, s) && VerdictsInv(c, init, s) && Possible(s, a)
    ensures VerdictsInv(c, init, Step(c, serverId, s, a))
  {
    var s' := Step(c, serverId, s, a);
    forall k | 0 <= k < |s'.handlers|
      ensures VerdictRight(c, init, s', s'.handlers[k])
    {
      if a == Access(k) {
        HandlerKeepsVerdict(c, serverId, init, s, k);
      } else if k < |s.handlers| {
        assert VerdictRight(c, init, s, s.handlers[k]) && s'.handlers[k] == s.handlers[k];
        if Kept(init, s, PathOf(s.handlers[k])) {
          KeptStays(c, serverId, init, s, a, PathOf(s.handlers[k]));
        }
      }
    }
  }

  /** The replies sent on behalf of handler `i`, in order. */
  function RepliesTo(rs: seq<Addressed>, i: nat): seq<Reply> {
    if rs == [] then []
    else RepliesTo(rs[..|rs| - 1], i) + if rs[|rs| - 1].to == i then [rs[|rs| - 1].reply] else []
  }

  lemma RepliesPush(rs: seq<Addressed>, i: nat, r: Option<Reply>, k: nat)
    ensures RepliesTo(Replied(rs, i, r), k) == RepliesTo(rs, k) + if r.Some? && i == k then [r.value] else []
  {
    if r.Some? {
      assert (rs + [Addressed(i, r.value)])[..|rs|] == rs;
    }
  }

  function DueReplies(c: Crypto, serverId: seq<byte>, h: Handler): seq<Reply> {
    if h.phase == Done(true) then [Answer(c, serverId, h, h.request.data)]
    else if h.phase == Done(false) then [Refused]
    else []
  }

  /** Every request has had exactly the replies due to it: one when it is done, none before. */
  predicate RepliesInv(c: Crypto, serverId: seq<byte>, s: Registry) {
    && (forall k :: 0 <= k < |s.replies| ==> s.replies[k].to < |s.handlers|)
    && forall i :: 0 <= i < |s.handlers| ==> RepliesTo(s.replies, i) == DueReplies(c, serverId, s.handlers[i])
  }

  lemma {:induction false} NoRepliesYet(rs: seq<Addressed>, i: nat)
    requires forall k :: 0 <= k < |rs| ==> rs[k].to < i
    ensures RepliesTo(rs, i) == []
  {
    if rs != [] {
      NoRepliesYet(rs[..|rs| - 1], i);
    }
  }

  lemma HandleKeepsReplies(c: Crypto, serverId: seq<byte>, init: map<Path, seq<byte>>, s: Registry, i: nat, k: nat)
    requires ContentInv(init, s) && RepliesInv(c, serverId, s) && i < |s.handlers| && k < |s.handlers|
    ensures
      var s' := Handle(c, serverId, s, i);
      RepliesTo(s'.replies, k) == DueReplies(c, serverId, s'.handlers[k])
  {
    var h := s.handlers[i];
    RepliesPush(s.replies, i, NextReply(c, serverId, s.dir, h), k);
    assert RepliesTo(s.replies, k) == DueReplies(c, serverId, s.handlers[k]);
    assert OwnsRight(init, s, h);
    OnlyOneMoves(c, serverId, s, i, k);
  }

  lemma StepKeepsReplies(c: Crypto, serverId: seq<byte>, init: map<Path, seq<byte>>, s: Registry, a: Action)
    requires ContentInv(init, s) && RepliesInv(c, serverId, s) && Possible(s, a)
    ensures RepliesInv(c, serverId, Step(c, serverId, s, a))
  {
    var s' := Step(c, serverId, s, a);
    forall k | 0 <= k < |s'.handlers|
      ensures RepliesTo(s'.replies, k) == DueReplies(c, serverId, s'.handlers[k])
    {
      if a.Access? {
        HandleKeepsReplies(c, serverId, init, s, a.i, k);
      } else if k == |s.handlers| {
        NoRepliesYet(s.replies, k);
      }
    }
  }

  // ----- Runs -----

  ghost predicate NextAt(c: Crypto, serverId: seq<byte>, tr: seq<Registry>, i: nat)
    requires i + 1 < |tr|
  {
    exists a :: Possible(tr[i], a) && Exclusive(tr[i], a) && tr[i + 1] == Step(c, serverId, tr[i], a)
  }

  /** A run from an initial directory under any interleaving in which no two requests in flight share a client id. */
  ghost predicate Run(c: Crypto, serverId: seq<byte>, init: map<Path, seq<byte>>, tr: seq<Registry>) {
    && tr != [] && tr[0] == Registry(Holding(init), [], [])
    && forall i :: 0 <= i < |tr| - 1 ==> NextAt(c, serverId, tr, i)
  }

  ghost predicate RegistryInv(c: Crypto, serverId: seq<byte>, init: map<Path, seq<byte>>, s: Registry) {
    DirectoryInv(init, s) && VerdictsInv(c, init, s) && RepliesInv(c, serverId, s)
  }

  lemma {:induction false} RunKeeps(c: Crypto, serverId: seq<byte>, init: map<Path, seq<byte>>, tr: seq<Registry>,
      i: nat)
    requires Run(c, serverId, init, tr) && i < |tr|
    ensures RegistryInv(c, serverId, init, tr[i])
  {
    if i > 0 {
      RunKeeps(c, serverId, init, tr, i - 1);
      assert NextAt(c, serverId, tr, i - 1);
      var s := tr[i - 1];
      var a :| Possible(s, a) && Exclusive(s, a) && tr[i] == Step(c, serverId, s, a);
      StepKeepsDirectory(c, serverId, init, s, a);
      StepKeepsVerdicts(c, serverId, init, s, a);
      StepKeepsReplies(c, serverId, init, s, a);
    }
  }

  /** A run goes on with any step that can happen. */
  lemma Extend(c: Crypto, serverId: seq<byte>, init: map<Path, seq<byte>>, tr: seq<Registry>, a: Action)
      returns (longer: seq<Registry>)
    requires Run(c, serverId, init, tr) && Possible(tr[|tr| - 1], a) && Exclusive(tr[|tr| - 1], a)
    ensures Run(c, serverId, init, longer)
    ensures longer[|longer| - 1] == Step(c, serverId, tr[|tr| - 1], a)
  {
    longer := tr + [Step(c, serverId, tr[|tr| - 1], a)];
    forall i | 0 <= i < |longer| - 1
      ensures NextAt(c, serverId, longer, i)
    {
      if i < |tr| - 1 {
        assert NextAt(c, serverId, tr, i);
        assert longer[i] == tr[i] && longer[i + 1] == tr[i + 1];
      } else {
        assert longer[i] == tr[|tr| - 1];
      }
    }
  }

  predicate Accepted(h: Handler) {
    h.phase == Done(true)
  }

  /** An accepted request's signature verifies under its own key, the key is stored under its client id, which was free
      initially and has no second accepted request; a refused request either does not verify or came to a client id
      whose key is kept. */
  ghost predicate SoundAt(c: Crypto, init: map<Path, seq<byte>>, s: Registry, k: nat)
    requires k < |s.handlers|
  {
    var h := s.handlers[k];
    && (Accepted(h) ==>
        && Verifies(c, h.request) && PathOf(h) !in init
        && PathOf(h) in s.dir.files && s.dir.files[PathOf(h)] == h.request.data
        && forall j :: 0 <= j < |s.handlers| && j != k && Accepted(s.handlers[j]) ==>
             s.handlers[j].request.clientId != h.request.clientId)
    && (h.phase == Done(false) ==> !Verifies(c, h.request) || Kept(init, s, PathOf(h)))
  }

  /** In every state of every run without shared client ids in flight every verdict is sound, and each request that is
      done has exactly one reply, the right one. */
  lemma AgreementIsSound(c: Crypto, serverId: seq<byte>, init: map<Path, seq<byte>>, tr: seq<Registry>, i: nat, k: nat)
    requires Run(c, serverId, init, tr) && i < |tr| && k < |tr[i].handlers|
    ensures SoundAt(c, init, tr[i], k)
    ensures RepliesTo(tr[i].replies, k) == DueReplies(c, serverId, tr[i].handlers[k])
  {
    RunKeeps(c, serverId, init, tr, i);
    var s, h := tr[i], tr[i].handlers[k];
    assert OwnsRight(init, s, h) && VerdictRight(c, init, s, h);
    PathsAreIds(s);
  }

  /** What the directory holds when no request is in flight: the initial keys and the accepted ones, nothing else. */
  lemma QuietDirectory(c: Crypto, serverId: seq<byte>, init: map<Path, seq<byte>>, tr: seq<Registry>, i: nat, p: Path)
    requires Run(c, serverId, init, tr) && i < |tr| && forall h :: h in tr[i].handlers ==> !InFlight(h)
    ensures p in tr[i].dir.files <==> Kept(init, tr[i], p)
    ensures p in init ==> p in tr[i].dir.files && tr[i].dir.files[p] == init[p]
  {
    RunKeeps(c, serverId, init, tr, i);
    KeptIsStored(c, init, tr[i], p);
    SourceIsKept(init, tr[i], p);
  }

  lemma SourceIsKept(init: map<Path, seq<byte>>, s: Registry, p: Path)
    requires SourcesInv(init, s) && forall h :: h in s.handlers ==> !InFlight(h)
    ensures p in s.dir.files ==> Kept(init, s, p)
  {
    if p in s.dir.files && p !in init {
      var j :| 0 <= j < |s.handlers| && Owns(s.handlers[j]) && PathOf(s.handlers[j]) == p;
      assert s.handlers[j] in s.handlers;
    }
  }

  lemma KeptIsStored(c: Crypto, init: map<Path, seq<byte>>, s: Registry, p: Path)
    requires DirectoryInv(init, s)
    ensures Kept(init, s, p) ==> p in s.dir.files
  {
    if Kept(init, s, p) && p !in init {
      var j :| 0 <= j < |s.handlers| && s.handlers[j].phase == Done(true) && PathOf(s.handlers[j]) == p;
      assert OwnsRight(init, s, s.handlers[j]);
    }
  }

  /** First accepted wins: once a key is kept it is kept, unchanged, in every later state. */
  lemma {:induction false} KeptForever(
      c: Crypto, serverId: seq<byte>, init: map<Path, seq<byte>>, tr: seq<Registry>, i: nat, j: nat, p: Path)
    requires Run(c, serverId, init, tr) && i <= j < |tr| && Kept(init, tr[i], p)
    ensures p in tr[i].dir.files && Kept(init, tr[j], p) && p in tr[j].dir.files &&
      tr[j].dir.files[p] == tr[i].dir.files[p]
  {
    KeptIsThere(c, serverId, init, tr, i, p);
    if i < j {
      KeptForever(c, serverId, init, tr, i, j - 1, p);
      KeptNext(c, serverId, init, tr, j - 1, p);
    }
  }

  lemma KeptIsThere(c: Crypto, serverId: seq<byte>, init: map<Path, seq<byte>>, tr: seq<Registry>, i: nat, p: Path)
    requires Run(c, serverId, init, tr) && i < |tr| && Kept(init, tr[i], p)
    ensures p in tr[i].dir.files
  {
    RunKeeps(c, serverId, init, tr, i);
    KeptIsStored(c, init, tr[i], p);
  }

  lemma KeptNext(c: Crypto, serverId: seq<byte>, init: map<Path, seq<byte>>, tr: seq<Registry>, i: nat, p: Path)
    requires Run(c, serverId, init, tr) && i + 1 < |tr| && Kept(init, tr[i], p) && p in tr[i].dir.files
    ensures Kept(init, tr[i + 1], p) && p in tr[i + 1].dir.files && tr[i + 1].dir.files[p] == tr[i].dir.files[p]
  {
    RunKeeps(c, serverId, init, tr, i);
    assert NextAt(c, serverId, tr, i);
    var s := tr[i];
    var a :| Possible(s, a) && Exclusive(s, a) && tr[i + 1] == Step(c, serverId, s, a);
    KeptStays(c, serverId, init, s, a, p);
    KeptIsUntouched(c, serverId, init, s, a, p);
  }

  /** A handler whose file another one has accepted leaves the directory as it is. */
  lemma OwnedIsUntouched(c: Crypto, serverId: seq<byte>, init: map<Path, seq<byte>>, s: Registry, i: nat, j: nat)
    requires i < |s.handlers| && j < |s.handlers| && ContentInv(init, s) && OwnersDiffer(s) && AbsentInv(s)
    requires s.handlers[j].phase == Done(true) && PathOf(s.handlers[i]) == PathOf(s.handlers[j])
    ensures Handle(c, serverId, s, i).dir.files == s.dir.files
  {
    assert OwnsRight(init, s, s.handlers[j]);
    assert i == j || !Owns(s.handlers[i]);
  }

  lemma KeptIsUntouched(c: Crypto, serverId: seq<byte>, init: map<Path, seq<byte>>, s: Registry, a: Action, p: Path)
    requires DirectoryInv(init, s) && Possible(s, a) && Kept(init, s, p) && p in s.dir.files
    ensures p in Step(c, serverId, s, a).dir.files && Step(c, serverId, s, a).dir.files[p] == s.dir.files[p]
  {
    if a.Access? {
      var i := a.i;
      if p in init || p != PathOf(s.handlers[i]) {
        HandleTouchesOwnPath(c, serverId, init, s, i, p);
      } else {
        var j :| 0 <= j < |s.handlers| && s.handlers[j].phase == Done(true) && PathOf(s.handlers[j]) == p;
        OwnedIsUntouched(c, serverId, init, s, i, j);
      }
    }
  }

  // ----- What holds under every interleaving -----

  function Steps(c: Crypto, serverId: seq<byte>, s: Registry, order: seq<nat>): Registry
    requires forall k :: 0 <= k < |order| ==> order[k] < |s.handlers|
    decreases order
  {
    if order == [] then s else Steps(c, serverId, Handle(c, serverId, s, order[0]), order[1..])
  }

  ghost predicate AnyNextAt(c: Crypto, serverId: seq<byte>, tr: seq<Registry>, i: nat)
    requires i + 1 < |tr|
  {
    exists a :: Possible(tr[i], a) && tr[i + 1] == Step(c, serverId, tr[i], a)
  }

  /** A run under any interleaving whatever: requests in flight may share client ids. */
  ghost predicate Behaviour(c: Crypto, serverId: seq<byte>, init: map<Path, seq<byte>>, tr: seq<Registry>) {
    && tr != [] && tr[0] == Registry(Holding(init), [], [])
    && forall i :: 0 <= i < |tr| - 1 ==> AnyNextAt(c, serverId, tr, i)
  }

  /** A request in progress has had no reply, and a finished one its only reply: the verdict. */
  predicate Answered(serverId: seq<byte>, h: Handler, rs: seq<Reply>) {
    match h.phase
    case Done(true) =>
      && |rs| == 1 && rs[0].Agreed? && rs[0].info.clientId == h.request.clientId && rs[0].info.serverId == serverId
      && rs[0].info.seckeyId == SECKEY_ID
    case Done(false) => rs == [Refused]
    case _ => rs == []
  }

  /** A handler that writes, verifies or removes a file found none, so its file is not an initial one. */
  predicate Busy(h: Handler) {
    h.phase.Absent? || Owns(h)
  }

  predicate AnswersInv(serverId: seq<byte>, s: Registry) {
    && (forall k :: 0 <= k < |s.replies| ==> s.replies[k].to < |s.handlers|)
    && forall i :: 0 <= i < |s.handlers| ==> Answered(serverId, s.handlers[i], RepliesTo(s.replies, i))
  }

  predicate InitialFilesInv(init: map<Path, seq<byte>>, s: Registry) {
    && (forall p :: p in init ==> p in s.dir.files && s.dir.files[p] == init[p])
    && forall i :: 0 <= i < |s.handlers| && Busy(s.handlers[i]) ==> PathOf(s.handlers[i]) !in init
  }

  lemma StepKeepsInitialFiles(c: Crypto, serverId: seq<byte>, init: map<Path, seq<byte>>, s: Registry, a: Action)
    requires InitialFilesInv(init, s) && Possible(s, a)
    ensures InitialFilesInv(init, Step(c, serverId, s, a))
  {
  }

  lemma HandleKeepsAnswers(c: Crypto, serverId: seq<byte>, s: Registry, i: nat, k: nat)
    requires AnswersInv(serverId, s) && i < |s.handlers| && k < |s.handlers|
    ensures
      var s' := Handle(c, serverId, s, i);
      Answered(serverId, s'.handlers[k], RepliesTo(s'.replies, k))
  {
    RepliesPush(s.replies, i, NextReply(c, serverId, s.dir, s.handlers[i]), k);
    assert Answered(serverId, s.handlers[k], RepliesTo(s.replies, k));
    OnlyOneMoves(c, serverId, s, i, k);
  }

  lemma StepKeepsAnswers(c: Crypto, serverId: seq<byte>, s: Registry, a: Action)
    requires AnswersInv(serverId, s) && Possible(s, a)
    ensures AnswersInv(serverId, Step(c, serverId, s, a))
  {
    var s' := Step(c, serverId, s, a);
    forall k | 0 <= k < |s'.handlers|
      ensures Answered(serverId, s'.handlers[k], RepliesTo(s'.replies, k))
    {
      if a.Access? {
        HandleKeepsAnswers(c, serverId, s, a.i, k);
      } else if k == |s.handlers| {
        NoRepliesYet(s.replies, k);
      } else {
        assert Answered(serverId, s.handlers[k], RepliesTo(s.replies, k));
      }
    }
  }

  /** Whatever the interleaving, shared client ids included: initial keys are never touched, and every request has no
      reply while in progress and exactly one when it is done, carrying its own client id if it was accepted. */
  lemma {:induction false} EveryInterleaving(
      c: Crypto, serverId: seq<byte>, init: map<Path, seq<byte>>, tr: seq<Registry>, i: nat)
    requires Behaviour(c, serverId, init, tr) && i < |tr|
    ensures InitialFilesInv(init, tr[i]) && AnswersInv(serverId, tr[i])
  {
    if i > 0 {
      EveryInterleaving(c, serverId, init, tr, i - 1);
      assert AnyNextAt(c, serverId, tr, i - 1);
      var a :| Possible(tr[i - 1], a) && tr[i] == Step(c, serverId, tr[i - 1], a);
      StepKeepsInitialFiles(c, serverId, init, tr[i - 1], a);
      StepKeepsAnswers(c, serverId, tr[i - 1], a);
    }
  }
}
