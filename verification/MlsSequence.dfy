/**
 The order of MLS messages in a group. Every handshake and application message reserves its place
 in one transaction before it is sent. A commit is recorded under the epoch it opens.
 */
module MlsSequence {
  import opened Wrappers
  import opened MlsRouting

  const I64_LIMIT: int := 0x8000_0000_0000_0000

  type Gid = int
  datatype Sender = Sender(uid: int, device: string)

  datatype CommitKey = CommitKey(gid: Gid, epoch: nat)
  datatype CommitRow = CommitRow(id: string, sender: Sender)
  datatype WelcomeKey = WelcomeKey(gid: Gid, epoch: nat, id: string)
  datatype ApplicationKey = ApplicationKey(gid: Gid, epoch: nat, sender: Sender, generation: nat)

  /** Maps and sets by primary key. Commits are also unique by group and commit id. */
  datatype Tables = Tables(
    commits: map<CommitKey, CommitRow>,
    welcomes: map<WelcomeKey, Sender>,
    applications: set<ApplicationKey>)

  // ---- the reservation ----

  function EpochsOf(t: Tables, gid: Gid): set<nat> {
    set k | k in t.commits && k.gid == gid :: k.epoch
  }

  function GenerationsOf(t: Tables, gid: Gid, epoch: nat, sender: Sender): set<nat> {
    set k | k in t.applications && k.gid == gid && k.epoch == epoch && k.sender == sender :: k.generation
  }

  ghost predicate IsMax(m: Option<nat>, s: set<nat>) {
    match m
    case None => s == {}
    case Some(n) => n in s && forall x :: x in s ==> x <= n
  }

  lemma {:induction false} MaxExists(s: set<nat>)
    ensures exists m :: IsMax(m, s)
    decreases |s|
  {
    if s == {} {
      assert IsMax(None, s);
    } else {
      var x :| x in s;
      MaxExists(s - {x});
      var m :| IsMax(m, s - {x});
      var n := if m.Some? && m.value > x then m.value else x;
      assert forall y :: y in s ==> y == x || y in s - {x};
      assert IsMax(Some(n), s);
    }
  }

  /** `select max(..)`: none of an empty set. */
  ghost function Max(s: set<nat>): (m: Option<nat>)
    ensures IsMax(m, s)
  {
    MaxExists(s);
    var m :| IsMax(m, s);
    m
  }

  lemma MaxIsUnique(s: set<nat>, m: Option<nat>)
    requires IsMax(m, s)
    ensures Max(s) == m
  {
  }

  ghost function CurrentEpoch(t: Tables, gid: Gid): nat {
    match Max(EpochsOf(t, gid))
    case Some(n) => n
    case None => 0
  }

  ghost function NextGeneration(t: Tables, gid: Gid, epoch: nat, sender: Sender): nat {
    match Max(GenerationsOf(t, gid, epoch, sender))
    case Some(n) => n + 1
    case None => 0
  }

  predicate CommitIdTaken(t: Tables, gid: Gid, id: string) {
    exists k :: k in t.commits && k.gid == gid && t.commits[k].id == id
  }

  /** None is a sequence conflict, which leaves the tables alone. */
  ghost function Reserve(t: Tables, gid: Gid, uid: int, r: Route): Option<Tables> {
    if r.protocol != Mls || r.mlsEpoch.None? || r.mlsEpoch.value >= I64_LIMIT || r.mlsGeneration.None? then None
    else
      var epoch, generation, sender := r.mlsEpoch.value, r.mlsGeneration.value, Sender(uid, r.senderDeviceId);
      if r.wireClass == Handshake && r.handshakeKind == Some(CommitKind) then
        if epoch != CurrentEpoch(t, gid) + 1 || r.commitId.None? then None
        else if CommitKey(gid, epoch) in t.commits || CommitIdTaken(t, gid, r.commitId.value) then None
        else Some(t.(commits := t.commits[CommitKey(gid, epoch) := CommitRow(r.commitId.value, sender)]))
      else if r.wireClass == Handshake && r.handshakeKind == Some(WelcomeKind) then
        if r.commitId.None? then None
        else
          var commit, welcome := CommitKey(gid, epoch), WelcomeKey(gid, epoch, r.commitId.value);
          if commit !in t.commits || t.commits[commit].id != r.commitId.value || welcome in t.welcomes then None
          else Some(t.(welcomes := t.welcomes[welcome := sender]))
      else if r.wireClass == ApplicationData && r.handshakeKind == None then
        var key := ApplicationKey(gid, epoch, sender, generation);
        if epoch != CurrentEpoch(t, gid) || generation != NextGeneration(t, gid, epoch, sender) then None
        else if key in t.applications then None
        else Some(t.(applications := t.applications + {key}))
      else None
  }

  // ---- runs ----

  datatype Request = Request(gid: Gid, uid: int, route: Route)

  /** The tables and the requests that were granted, oldest first. */
  datatype World = World(tables: Tables, granted: seq<Request>)

  ghost function Do(w: World, q: Request): World {
    match Reserve(w.tables, q.gid, q.uid, q.route)
    case Some(t) => World(t, w.granted + [q])
    case None => w
  }

  ghost function After(run: seq<Request>): World {
    if run == [] then World(Tables(map[], map[], {}), [])
    else Do(After(run[..|run| - 1]), run[|run| - 1])
  }

  // ---- the log of granted requests, and what it allows next ----

  function SenderOf(q: Request): Sender {
    Sender(q.uid, q.route.senderDeviceId)
  }

  predicate IsCommit(q: Request, gid: Gid) {
    q.gid == gid && q.route.handshakeKind == Some(CommitKind)
  }

  predicate IsWelcome(q: Request, key: WelcomeKey) {
    q.gid == key.gid && q.route.handshakeKind == Some(WelcomeKind) && q.route.mlsEpoch == Some(key.epoch)
      && q.route.commitId == Some(key.id)
  }

  predicate IsApplication(q: Request, gid: Gid, epoch: nat, sender: Sender) {
    && q.gid == gid && q.route.handshakeKind == None
    && q.route.mlsEpoch == Some(epoch) && SenderOf(q) == sender
  }

  /** The commits granted in a group, in order. */
  function Commits(log: seq<Request>, gid: Gid): seq<Request> {
    if log == [] then []
    else
      var last := log[|log| - 1];
      Commits(log[..|log| - 1], gid) + if IsCommit(last, gid) then [last] else []
  }

  predicate Welcomed(log: seq<Request>, key: WelcomeKey) {
    log != [] && (IsWelcome(log[|log| - 1], key) || Welcomed(log[..|log| - 1], key))
  }

  predicate WelcomedFrom(log: seq<Request>, key: WelcomeKey, sender: Sender) {
    log != [] &&
    (var last, front := log[|log| - 1], log[..|log| - 1];
     (IsWelcome(last, key) && SenderOf(last) == sender) || WelcomedFrom(front, key, sender))
  }

  /** The application messages granted to one sender in one epoch, in order. */
  function Applications(log: seq<Request>, gid: Gid, epoch: nat, sender: Sender): seq<Request> {
    if log == [] then []
    else
      var last := log[|log| - 1];
      Applications(log[..|log| - 1], gid, epoch, sender) +
      if IsApplication(last, gid, epoch, sender) then [last] else []
  }

  /** The next message a group accepts, by counting what it accepted before. */
  predicate Allowed(log: seq<Request>, gid: Gid, uid: int, s: Shape) {
    var commits := Commits(log, gid);
    match s
    case Commit(_, _, epoch, id) =>
      epoch == |commits| + 1 && epoch < 0x8000_0000_0000_0000 && forall i :: 0 <= i < |commits| ==>
        commits[i].route.commitId != Some(id)
    case Welcome(_, _, epoch, id) =>
      1 <= epoch <= |commits| && commits[epoch - 1].route.commitId == Some(id)
        && !Welcomed(log, WelcomeKey(gid, epoch, id))
    case Application(device, _, epoch, generation) =>
      epoch == |commits| && generation == |Applications(log, gid, epoch, Sender(uid, device))|
    case _ => false
  }

  // ---- the tables are the log ----

  ghost predicate CommitsAgree(t: Tables, log: seq<Request>, gid: Gid) {
    var commits := Commits(log, gid);
    && |commits| < I64_LIMIT
    && (forall e: nat :: CommitKey(gid, e) in t.commits <==> 1 <= e <= |commits|)
    && (forall i :: 0 <= i < |commits| ==>
          && Some(t.commits[CommitKey(gid, i + 1)].id) == commits[i].route.commitId
          && t.commits[CommitKey(gid, i + 1)].sender == SenderOf(commits[i]))
    && (forall i :: 0 <= i < |commits| ==> commits[i].route.mlsEpoch == Some(i + 1))
    && (forall i, j :: 0 <= i < j < |commits| ==> commits[i].route.commitId != commits[j].route.commitId)
  }

  ghost predicate ApplicationsAgree(t: Tables, log: seq<Request>, gid: Gid, epoch: nat, sender: Sender) {
    var messages := Applications(log, gid, epoch, sender);
    && (forall g: nat :: ApplicationKey(gid, epoch, sender, g) in t.applications <==> 0 <= g < |messages|)
    && (forall i :: 0 <= i < |messages| ==> messages[i].route.mlsGeneration == Some(i))
  }

  ghost predicate WelcomesAgree(t: Tables, log: seq<Request>, key: WelcomeKey) {
    && (key in t.welcomes <==> Welcomed(log, key))
    && (key in t.welcomes ==>
          && CommitKey(key.gid, key.epoch) in t.commits && t.commits[CommitKey(key.gid, key.epoch)].id == key.id
          && WelcomedFrom(log, key, t.welcomes[key]))
  }

  ghost predicate Invariant(w: World) {
    && (forall gid :: CommitsAgree(w.tables, w.granted, gid))
    && (forall gid, epoch, sender :: ApplicationsAgree(w.tables, w.granted, gid, epoch, sender))
    && (forall key :: WelcomesAgree(w.tables, w.granted, key))
  }

  lemma CommitsSnoc(log: seq<Request>, q: Request, gid: Gid)
    ensures Commits(log + [q], gid) == Commits(log, gid) + if IsCommit(q, gid) then [q] else []
  {
    assert (log + [q])[..|log + [q]| - 1] == log;
  }

  lemma ApplicationsSnoc(log: seq<Request>, q: Request, gid: Gid, epoch: nat, sender: Sender)
    ensures Applications(log + [q], gid, epoch, sender) ==
      Applications(log, gid, epoch, sender) + if IsApplication(q, gid, epoch, sender) then [q] else []
  {
    assert (log + [q])[..|log + [q]| - 1] == log;
  }

  lemma WelcomedSnoc(log: seq<Request>, q: Request, key: WelcomeKey)
    ensures Welcomed(log + [q], key) <==> Welcomed(log, key) || IsWelcome(q, key)
    ensures forall s :: WelcomedFrom(log + [q], key, s) <==>
      WelcomedFrom(log, key, s) || (IsWelcome(q, key) && SenderOf(q) == s)
  {
    assert (log + [q])[..|log + [q]| - 1] == log;
  }

  /** The largest recorded epoch is the number of commits granted. */
  lemma CurrentIsCount(t: Tables, log: seq<Request>, gid: Gid)
    requires CommitsAgree(t, log, gid)
    ensures CurrentEpoch(t, gid) == |Commits(log, gid)|
  {
    hide Commits;
    var n := |Commits(log, gid)|;
    assert forall e :: e in EpochsOf(t, gid) <==> CommitKey(gid, e) in t.commits;
    MaxIsUnique(EpochsOf(t, gid), if n == 0 then None else Some(n));
  }

  lemma NextIsCount(t: Tables, log: seq<Request>, gid: Gid, epoch: nat, sender: Sender)
    requires ApplicationsAgree(t, log, gid, epoch, sender)
    ensures NextGeneration(t, gid, epoch, sender) == |Applications(log, gid, epoch, sender)|
  {
    hide Applications;
    var n := |Applications(log, gid, epoch, sender)|;
    var s := GenerationsOf(t, gid, epoch, sender);
    assert forall g :: g in s <==> ApplicationKey(gid, epoch, sender, g) in t.applications;
    MaxIsUnique(s, if n == 0 then None else Some(n - 1));
  }

  /** A commit id is taken exactly if a granted commit carried it. */
  lemma TakenIsLogged(t: Tables, log: seq<Request>, gid: Gid, id: string)
    requires CommitsAgree(t, log, gid)
    ensures CommitIdTaken(t, gid, id) <==>
      exists i :: 0 <= i < |Commits(log, gid)| && Commits(log, gid)[i].route.commitId == Some(id)
  {
    var commits := Commits(log, gid);
    if CommitIdTaken(t, gid, id) {
      var k :| k in t.commits && k.gid == gid && t.commits[k].id == id;
      assert k == CommitKey(gid, k.epoch);
      assert commits[k.epoch - 1].route.commitId == Some(id);
    }
    if i :| 0 <= i < |commits| && commits[i].route.commitId == Some(id) {
      assert t.commits[CommitKey(gid, i + 1)].id == id;
    }
  }

  // ---- the grants are the allowed messages ----

  /** A request for an MLS message of shape `s`. */
  predicate Asks(q: Request, s: Shape) {
    q.route == RouteOf(s) && IsMls(s) && WellFormed(s)
  }

  lemma GrantedExactlyInState(w: World, q: Request, s: Shape)
    requires Invariant(w) && Asks(q, s)
    ensures Reserve(w.tables, q.gid, q.uid, q.route).Some? <==> Allowed(w.granted, q.gid, q.uid, s)
  {
    hide Commits, Applications, CurrentEpoch, NextGeneration, CommitIdTaken, Invariant;
    var t, log, gid := w.tables, w.granted, q.gid;
    assert CommitsAgree(t, log, gid) by { AgreeOf(w, gid); }
    CurrentIsCount(t, log, gid);
    match s
    case Commit(_, _, epoch, id) =>
      TakenIsLogged(t, log, gid, id);
    case Welcome(_, _, epoch, id) =>
      assert WelcomesAgree(t, log, WelcomeKey(gid, epoch, id)) by { WelcomeOf(w, WelcomeKey(gid, epoch, id)); }
    case Application(device, _, epoch, generation) =>
      var sender := Sender(q.uid, device);
      assert ApplicationsAgree(t, log, gid, epoch, sender) by { ApplicationsOf(w, gid, epoch, sender); }
      NextIsCount(t, log, gid, epoch, sender);
  }

  lemma AgreeOf(w: World, gid: Gid)
    requires Invariant(w)
    ensures CommitsAgree(w.tables, w.granted, gid)
  {
  }

  lemma WelcomeOf(w: World, key: WelcomeKey)
    requires Invariant(w)
    ensures WelcomesAgree(w.tables, w.granted, key)
  {
  }

  lemma ApplicationsOf(w: World, gid: Gid, epoch: nat, sender: Sender)
    requires Invariant(w)
    ensures ApplicationsAgree(w.tables, w.granted, gid, epoch, sender)
  {
  }

  lemma CommitStep(w: World, q: Request, gid: Gid)
    requires CommitsAgree(w.tables, w.granted, gid) && CommitsAgree(w.tables, w.granted, q.gid)
    requires Reserve(w.tables, q.gid, q.uid, q.route).Some?
    ensures CommitsAgree(Do(w, q).tables, Do(w, q).granted, gid)
  {
    hide CurrentEpoch, NextGeneration, Commits, CommitIdTaken;
    CommitsSnoc(w.granted, q, gid);
    CurrentIsCount(w.tables, w.granted, q.gid);
    if IsCommit(q, gid) { TakenIsLogged(w.tables, w.granted, gid, q.route.commitId.value); }
  }

  lemma ApplicationStep(w: World, q: Request, gid: Gid, epoch: nat, sender: Sender)
    requires ApplicationsAgree(w.tables, w.granted, gid, epoch, sender)
    requires Reserve(w.tables, q.gid, q.uid, q.route).Some?
    ensures ApplicationsAgree(Do(w, q).tables, Do(w, q).granted, gid, epoch, sender)
  {
    hide CurrentEpoch, NextGeneration, Applications;
    ApplicationsSnoc(w.granted, q, gid, epoch, sender);
    if IsApplication(q, gid, epoch, sender) { NextIsCount(w.tables, w.granted, gid, epoch, sender); }
  }

  lemma WelcomeStep(w: World, q: Request, key: WelcomeKey)
    requires WelcomesAgree(w.tables, w.granted, key)
    requires Reserve(w.tables, q.gid, q.uid, q.route).Some?
    ensures WelcomesAgree(Do(w, q).tables, Do(w, q).granted, key)
  {
    hide CurrentEpoch, NextGeneration;
    WelcomedSnoc(w.granted, q, key);
  }

  lemma InvariantStep(w: World, q: Request)
    requires Invariant(w)
    ensures Invariant(Do(w, q))
  {
    hide CommitsAgree, ApplicationsAgree, WelcomesAgree, Reserve;
    if Reserve(w.tables, q.gid, q.uid, q.route).Some? {
      forall gid ensures CommitsAgree(Do(w, q).tables, Do(w, q).granted, gid) { CommitStep(w, q, gid); }
      forall gid, epoch, sender ensures ApplicationsAgree(Do(w, q).tables, Do(w, q).granted, gid, epoch, sender) {
        ApplicationStep(w, q, gid, epoch, sender);
      }
      forall key ensures WelcomesAgree(Do(w, q).tables, Do(w, q).granted, key) { WelcomeStep(w, q, key); }
    }
  }

  lemma {:induction false} InvariantOfRun(run: seq<Request>)
    ensures Invariant(After(run))
  {
    if run != [] {
      hide Invariant, Do;
      InvariantOfRun(run[..|run| - 1]);
      InvariantStep(After(run[..|run| - 1]), run[|run| - 1]);
    }
  }

  // ---- the results ----

  /**
   After any run, the next MLS message is granted exactly if the log allows it: one commit epoch
   with a new id, one generation for each sender, and one welcome for each recorded commit.
   */
  lemma GrantedExactly(run: seq<Request>, q: Request, p: Properties)
    requires ValidateProperties(p) == Ok(q.route)
    ensures var s, w := ShapeOf(q.route), After(run);
      && s.Some? && (Asks(q, s.value) <==> IsMls(s.value))
      && (Reserve(w.tables, q.gid, q.uid, q.route).Some? <==>
            IsMls(s.value) && Allowed(w.granted, q.gid, q.uid, s.value))
  {
    hide After, Invariant, Allowed;
    AcceptedHasAShape(p);
    if !IsMls(ShapeOf(q.route).value) { return; }
    hide Reserve;
    InvariantOfRun(run);
    GrantedExactlyInState(After(run), q, ShapeOf(q.route).value);
  }

  /** A request that is granted is on record from then on, one that is not changes nothing. */
  lemma GrantsAreRecorded(run: seq<Request>, q: Request)
    ensures var w, w' := After(run), After(run + [q]);
      match Reserve(w.tables, q.gid, q.uid, q.route)
      case Some(t) => w'.granted == w.granted + [q] && w'.tables == t
      case None => w' == w
  {
    assert (run + [q])[..|run|] == run;
  }

  /** Any number of commits can be granted in a group, whatever the run before. */
  lemma CommitsCanBeGranted(run: seq<Request>, gid: Gid, uid: int, n: nat) returns (more: seq<Request>)
    requires |Commits(After(run).granted, gid)| + n < 0x8000_0000_0000_0000
    ensures |Commits(After(run + more).granted, gid)| == |Commits(After(run).granted, gid)| + n
  {
    more := [];
    assert run + more == run;
    var k := 0;
    while k < n
      invariant k <= n
      invariant |Commits(After(run + more).granted, gid)| == |Commits(After(run).granted, gid)| + k
    {
      var q := NextCommit(run + more, gid, uid);
      assert run + (more + [q]) == run + more + [q];
      more := more + [q];
      k := k + 1;
    }
  }

  lemma NextCommit(run: seq<Request>, gid: Gid, uid: int) returns (q: Request)
    requires |Commits(After(run).granted, gid)| + 1 < 0x8000_0000_0000_0000
    ensures |Commits(After(run + [q]).granted, gid)| == |Commits(After(run).granted, gid)| + 1
  {
    hide After, Invariant, Reserve, Commits;
    InvariantOfRun(run);
    var commits := Commits(After(run).granted, gid);
    var id := NewId(commits);
    var s := Commit("device", "local", |commits| + 1, id);
    q := Request(gid, uid, RouteOf(s));
    GrantedExactlyInState(After(run), q, s);
    GrantsAreRecorded(run, q);
    CommitsSnoc(After(run).granted, q, gid);
  }

  /** A commit id longer than all that were used. */
  lemma {:induction false} NewId(commits: seq<Request>) returns (id: string)
    ensures id != "" && forall i :: 0 <= i < |commits| ==> commits[i].route.commitId != Some(id)
    ensures forall i :: 0 <= i < |commits| && commits[i].route.commitId.Some? ==>
      |commits[i].route.commitId.value| < |id|
  {
    if commits == [] {
      id := "x";
    } else {
      var last := commits[|commits| - 1].route.commitId;
      id := NewId(commits[..|commits| - 1]);
      if last.Some? && |last.value| >= |id| { id := last.value + "x"; }
    }
  }

  /** A group's commits have epochs 1, 2, .. in the order they were granted, and the table holds just these. */
  lemma CommitsAreConsecutive(run: seq<Request>, gid: Gid)
    ensures var w := After(run);
      var commits := Commits(w.granted, gid);
      && (forall i :: 0 <= i < |commits| ==> commits[i].route.mlsEpoch == Some(i + 1))
      && (forall e: nat :: CommitKey(gid, e) in w.tables.commits <==> 1 <= e <= |commits|)
      && (forall i, j :: 0 <= i < j < |commits| ==> commits[i].route.commitId != commits[j].route.commitId)
      && (forall i :: 0 <= i < |commits| ==>
            var row := w.tables.commits[CommitKey(gid, i + 1)];
            Some(row.id) == commits[i].route.commitId && row.sender == SenderOf(commits[i]))
  {
    hide After, Invariant;
    InvariantOfRun(run);
    AgreeOf(After(run), gid);
  }

  /** A sender's generations in an epoch are 0, 1, .. in the order they were granted. */
  lemma GenerationsAreConsecutive(run: seq<Request>, gid: Gid, epoch: nat, sender: Sender)
    ensures var w := After(run);
      var messages := Applications(w.granted, gid, epoch, sender);
      && (forall i :: 0 <= i < |messages| ==> messages[i].route.mlsGeneration == Some(i))
      && (forall g: nat :: ApplicationKey(gid, epoch, sender, g) in w.tables.applications <==> 0 <= g < |messages|)
  {
    hide After, Invariant;
    InvariantOfRun(run);
    ApplicationsOf(After(run), gid, epoch, sender);
  }

  lemma {:induction false} WelcomeInLog(log: seq<Request>, key: WelcomeKey, sender: Sender)
    requires WelcomedFrom(log, key, sender)
    ensures exists i :: 0 <= i < |log| && IsWelcome(log[i], key) && SenderOf(log[i]) == sender
  {
    var front := log[..|log| - 1];
    if WelcomedFrom(front, key, sender) {
      WelcomeInLog(front, key, sender);
      var i :| 0 <= i < |front| && IsWelcome(front[i], key) && SenderOf(front[i]) == sender;
      assert log[i] == front[i];
    }
  }

  /**
   Every welcome on record names a commit on record and is from whoever was granted it, and no two
   welcomes of a group share an epoch.
   */
  lemma WelcomesNameCommits(run: seq<Request>)
    ensures var t, log := After(run).tables, After(run).granted;
      && (forall k :: k in t.welcomes ==>
            && CommitKey(k.gid, k.epoch) in t.commits && t.commits[CommitKey(k.gid, k.epoch)].id == k.id
            && exists i :: 0 <= i < |log| && IsWelcome(log[i], k) && SenderOf(log[i]) == t.welcomes[k])
      && (forall k, l :: k in t.welcomes && l in t.welcomes && k.gid == l.gid && k.epoch == l.epoch ==> k == l)
  {
    hide After, Invariant;
    InvariantOfRun(run);
    var t, log := After(run).tables, After(run).granted;
    forall k | k in t.welcomes
      ensures WelcomesAgree(t, log, k)
      ensures exists i :: 0 <= i < |log| && IsWelcome(log[i], k) && SenderOf(log[i]) == t.welcomes[k]
    {
      WelcomeOf(After(run), k);
      WelcomeInLog(log, k, t.welcomes[k]);
    }
  }

  /** An application message is granted under the number of commits granted before it. */
  lemma {:induction false} EpochCountsCommits(run: seq<Request>, i: nat)
    requires i < |After(run).granted| && After(run).granted[i].route.handshakeKind == None
    ensures var log := After(run).granted;
      log[i].route.mlsEpoch == Some(|Commits(log[..i], log[i].gid)|)
  {
    hide Invariant, Reserve;
    var front, q := After(run[..|run| - 1]), run[|run| - 1];
    if i < |front.granted| {
      EpochCountsCommits(run[..|run| - 1], i);
      assert After(run).granted[..i] == front.granted[..i];
    } else {
      assert After(run).granted[..i] == front.granted;
      InvariantOfRun(run[..|run| - 1]);
      ApplicationEpoch(front, q);
    }
  }

  lemma ApplicationEpoch(w: World, q: Request)
    requires Invariant(w) && Reserve(w.tables, q.gid, q.uid, q.route).Some? && q.route.handshakeKind == None
    ensures q.route.mlsEpoch == Some(|Commits(w.granted, q.gid)|)
  {
    hide Invariant, CurrentEpoch, NextGeneration, Commits;
    AgreeOf(w, q.gid);
    CurrentIsCount(w.tables, w.granted, q.gid);
  }

  lemma {:induction false} CommitsGrow(log: seq<Request>, i: nat, j: nat, gid: Gid)
    requires i <= j <= |log|
    ensures |Commits(log[..i], gid)| <= |Commits(log[..j], gid)|
    decreases j
  {
    if i < j {
      CommitsGrow(log, i, j - 1, gid);
      assert log[..j][..|log[..j]| - 1] == log[..j - 1];
    }
  }

  /** The epochs of a group's application messages never go down. */
  lemma EpochsNeverGoDown(run: seq<Request>, i: nat, j: nat)
    requires i < j < |After(run).granted|
    requires var log := After(run).granted;
      log[i].gid == log[j].gid && log[i].route.handshakeKind == None && log[j].route.handshakeKind == None
    ensures var log := After(run).granted;
      log[i].route.mlsEpoch.Some? && log[j].route.mlsEpoch.Some?
        && log[i].route.mlsEpoch.value <= log[j].route.mlsEpoch.value
  {
    hide After, Commits;
    EpochCountsCommits(run, i);
    EpochCountsCommits(run, j);
    CommitsGrow(After(run).granted, i, j, After(run).granted[i].gid);
  }

  // ---- the reservation as written ----

  class Store {
    var commits: map<CommitKey, CommitRow>
    var welcomes: map<WelcomeKey, Sender>
    var applications: set<ApplicationKey>

    function View(): Tables
      reads this
    {
      Tables(commits, welcomes, applications)
    }

    constructor ()
      ensures View() == After([]).tables
    {
      commits, welcomes, applications := map[], map[], {};
    }

    method SelectMax(s: set<nat>) returns (m: Option<nat>)
      ensures m == Max(s)
    {
      m := None;
      var rest := s;
      while rest != {}
        invariant rest <= s && (m.None? <==> rest == s)
        invariant m.Some? ==> m.value in s && forall x :: x in s ==> x in rest || x <= m.value
        decreases |rest|
      {
        var x :| x in rest;
        if m.None? || m.value < x { m := Some(x); }
        rest := rest - {x};
      }
      MaxIsUnique(s, m);
    }

    /** A conflict leaves the tables as they were, wherever it is found. */
    method ReserveMlsSequence(gid: Gid, uid: int, route: Route) returns (granted: bool)
      modifies this
      ensures granted == Reserve(old(View()), gid, uid, route).Some?
      ensures granted ==> View() == Reserve(old(View()), gid, uid, route).value
      ensures !granted ==> View() == old(View())
    {
      hide Max;
      if route.protocol != Mls || route.mlsEpoch.None? || route.mlsEpoch.value >= I64_LIMIT { return false; }
      if route.mlsGeneration.None? { return false; }
      var epoch, generation := route.mlsEpoch.value, route.mlsGeneration.value;
      var sender := Sender(uid, route.senderDeviceId);
      if route.wireClass == Handshake && route.handshakeKind == Some(CommitKind) {
        var last := SelectMax(EpochsOf(View(), gid));
        var current := if last.Some? then last.value else 0;
        if epoch != current + 1 || route.commitId.None? { return false; }
        var key := CommitKey(gid, epoch);
        if key in commits || CommitIdTaken(View(), gid, route.commitId.value) { return false; }
        commits := commits[key := CommitRow(route.commitId.value, sender)];
      } else if route.wireClass == Handshake && route.handshakeKind == Some(WelcomeKind) {
        if route.commitId.None? { return false; }
        var commit, key := CommitKey(gid, epoch), WelcomeKey(gid, epoch, route.commitId.value);
        if commit !in commits || commits[commit].id != route.commitId.value { return false; }
        if key in welcomes { return false; }
        welcomes := welcomes[key := sender];
      } else if route.wireClass == ApplicationData && route.handshakeKind == None {
        var last := SelectMax(EpochsOf(View(), gid));
        var current := if last.Some? then last.value else 0;
        if epoch != current { return false; }
        var lastGeneration := SelectMax(GenerationsOf(View(), gid, epoch, sender));
        var expected := if lastGeneration.Some? then lastGeneration.value + 1 else 0;
        if generation != expected { return false; }
        var key := ApplicationKey(gid, epoch, sender, generation);
        if key in applications { return false; }
        applications := applications + {key};
      } else {
        return false;
      }
      granted := true;
    }
  }
}
