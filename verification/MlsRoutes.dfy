/**
 The opaque route of a group, and which device may set up the group's MLS state on it.

 A device first claims the initialization, which gives it a lease of thirty seconds, and then marks
 the route initialized. Time is in whole seconds, as the database compares it, and never runs back.
 */
module MlsRoutes {
  import opened Wrappers
  import KeyPackages

  const LEASE_SECONDS: int := 30

  type Token = nat
  type Gid = int
  type CallId = nat
  type Device = KeyPackages.Device

  /** No initializer and no lease until the first claim; the lease is dropped again at the end. */
  datatype Route = Route(gid: Gid, initializer: Option<Device>, lease: Option<int>, initialized: bool)

  /** Routes by token; groups are unique too, and tokens are drawn once. */
  datatype Tables = Tables(routes: map<Token, Route>, nextToken: Token)

  datatype Refusal = BadRequest | NotFound | Forbidden | Conflict

  function TokensOf(t: Tables, gid: Gid): set<Token> {
    set k | k in t.routes && t.routes[k].gid == gid
  }

  /** `on conflict(gid) do nothing`; the token was drawn before. */
  function InsertRoute(t: Tables, gid: Gid): Tables {
    if TokensOf(t, gid) == {} then Tables(t.routes[t.nextToken := Route(gid, None, None, false)], t.nextToken + 1)
    else t.(nextToken := t.nextToken + 1)
  }

  /** A claim takes the lease if there is none, if it ran out, or to renew the caller's own. */
  predicate MayClaim(r: Route, d: Device, now: int) {
    !r.initialized && (r.initializer.None? || (r.lease.Some? && r.lease.value < now) || r.initializer == Some(d))
  }

  /** `allowed` is the caller's access to the group. The answer is 1 to the holder, 2 once initialized, else 0. */
  function AfterClaim(t: Tables, d: Device, token: Token, now: int, allowed: bool): (Tables, Result<nat, Refusal>) {
    if !KeyPackages.ValidDeviceId(d.id) then (t, Err(BadRequest))
    else if token !in t.routes then (t, Err(NotFound))
    else if !allowed then (t, Err(Forbidden))
    else
      var row := t.routes[token];
      var row' :=
        if MayClaim(row, d, now) then row.(initializer := Some(d), lease := Some(now + LEASE_SECONDS)) else row;
      (t.(routes := t.routes[token := row']),
       Ok(if row'.initialized then 2 else if row'.initializer == Some(d) then 1 else 0))
  }

  function AfterMark(t: Tables, d: Device, token: Token, allowed: bool): (Tables, Option<Refusal>) {
    if !KeyPackages.ValidDeviceId(d.id) then (t, Some(BadRequest))
    else if token !in t.routes then (t, Some(NotFound))
    else if !allowed then (t, Some(Forbidden))
    else
      var row := t.routes[token];
      if row.initializer == Some(d) && !row.initialized
      then (t.(routes := t.routes[token := row.(initialized := true, lease := None)]), None)
      else (t, Some(Conflict))
  }

  // ---- runs ----

  /** A call for a group's route that found none: about to insert one, or to read what is there. */
  datatype Phase = Inserting(gid: Gid) | Rereading(gid: Gid)

  /** What callers were told: a route's token, the answer to a claim, that marking succeeded. */
  datatype Event =
    | Routed(gid: Gid, token: Token)
    | Claimed(token: Token, device: Device, time: int, status: nat)
    | Marked(token: Token, device: Device)

  datatype World = World(tables: Tables, now: int, calls: map<CallId, Phase>, log: seq<Event>)

  datatype Step =
    | Tick(seconds: nat)
    | Lookup(call: CallId, gid: Gid, found: Option<Token>)
    | Insert(call: CallId)
    | Reread(call: CallId, token: Token)
    | Claim(token: Token, device: Device, allowed: bool)
    | Mark(token: Token, device: Device, allowed: bool)

  predicate Enabled(w: World, s: Step) {
    match s
    case Tick(_) => true
    case Lookup(c, gid, found) =>
      c !in w.calls && if found.Some? then found.value in TokensOf(w.tables, gid) else TokensOf(w.tables, gid) == {}
    case Insert(c) => c in w.calls && w.calls[c].Inserting?
    case Reread(c, token) => c in w.calls && w.calls[c].Rereading? && token in TokensOf(w.tables, w.calls[c].gid)
    case Claim(_, _, _) => true
    case Mark(_, _, _) => true
  }

  function Do(w: World, s: Step): World
    requires Enabled(w, s)
  {
    match s
    case Tick(seconds) => w.(now := w.now + seconds)
    case Lookup(c, gid, found) =>
      if found.Some? then w.(log := w.log + [Routed(gid, found.value)]) else w.(calls := w.calls[c := Inserting(gid)])
    case Insert(c) =>
      w.(tables := InsertRoute(w.tables, w.calls[c].gid), calls := w.calls[c := Rereading(w.calls[c].gid)])
    case Reread(c, token) => w.(calls := w.calls - {c}, log := w.log + [Routed(w.calls[c].gid, token)])
    case Claim(token, d, allowed) =>
      var r := AfterClaim(w.tables, d, token, w.now, allowed);
      w.(tables := r.0, log := if r.1.Ok? then w.log + [Claimed(token, d, w.now, r.1.value)] else w.log)
    case Mark(token, d, allowed) =>
      var r := AfterMark(w.tables, d, token, allowed);
      w.(tables := r.0, log := if r.1.None? then w.log + [Marked(token, d)] else w.log)
  }

  predicate Start(w: World) {
    w.tables.routes == map[] && w.calls == map[] && w.log == []
  }

  function After(start: World, run: seq<Step>): Option<World> {
    if run == [] then Some(start)
    else
      match After(start, run[..|run| - 1])
      case None => None
      case Some(w) => if Enabled(w, run[|run| - 1]) then Some(Do(w, run[|run| - 1])) else None
  }

  // ---- the log decides ----

  datatype Grant = Grant(device: Device, time: int)

  predicate IsGrant(e: Event, token: Token) {
    e.Claimed? && e.token == token && e.status == 1
  }

  /** The last claim that was answered 1. */
  function LastGrant(log: seq<Event>, token: Token): Option<Grant> {
    if log == [] then None
    else
      var last := log[|log| - 1];
      if IsGrant(last, token) then Some(Grant(last.device, last.time)) else LastGrant(log[..|log| - 1], token)
  }

  predicate IsMark(e: Event, token: Token) {
    e.Marked? && e.token == token
  }

  predicate WasMarked(log: seq<Event>, token: Token) {
    exists i :: 0 <= i < |log| && IsMark(log[i], token)
  }

  /** The answer a claim must get, from what was answered before. */
  function Expected(log: seq<Event>, token: Token, d: Device, now: int): nat {
    if WasMarked(log, token) then 2
    else
      match LastGrant(log, token)
      case None => 1
      case Some(g) => if g.device == d || g.time + 30 < now then 1 else 0
  }

  lemma GrantSnoc(log: seq<Event>, e: Event, token: Token)
    ensures LastGrant(log + [e], token) ==
      if IsGrant(e, token) then Some(Grant(e.device, e.time)) else LastGrant(log, token)
  {
    assert (log + [e])[..|log + [e]| - 1] == log;
  }

  lemma MarkSnoc(log: seq<Event>, e: Event, token: Token)
    ensures WasMarked(log + [e], token) <==> WasMarked(log, token) || IsMark(e, token)
  {
    if WasMarked(log, token) {
      var i :| 0 <= i < |log| && IsMark(log[i], token);
      assert IsMark((log + [e])[i], token);
    }
    if IsMark(e, token) { assert IsMark((log + [e])[|log|], token); }
  }

  // ---- the rows agree with the log ----

  predicate RouteAgrees(r: Route, log: seq<Event>, token: Token, now: int) {
    var g := LastGrant(log, token);
    && (r.initialized <==> WasMarked(log, token))
    && r.initializer == (if g.Some? then Some(g.value.device) else None)
    && (!r.initialized ==> r.lease == if g.Some? then Some(g.value.time + LEASE_SECONDS) else None)
    && (g.Some? ==> g.value.time <= now)
  }

  predicate TokenAgrees(w: World, token: Token) {
    if token in w.tables.routes then RouteAgrees(w.tables.routes[token], w.log, token, w.now)
    else LastGrant(w.log, token).None? && !WasMarked(w.log, token)
  }

  predicate GroupsAgree(w: World) {
    && (forall k :: k in w.tables.routes ==> k < w.tables.nextToken)
    && (forall k, l ::
      k in w.tables.routes && l in w.tables.routes && w.tables.routes[k].gid == w.tables.routes[l].gid ==> k == l)
    && (forall i :: 0 <= i < |w.log| && w.log[i].Routed? ==> w.log[i].token in TokensOf(w.tables, w.log[i].gid))
    && (forall c :: c in w.calls && w.calls[c].Rereading? ==> TokensOf(w.tables, w.calls[c].gid) != {})
  }

  /** Claims carry times in order, and grants to different devices are more than a lease apart. */
  predicate Spaced(log: seq<Event>, now: int) {
    && (forall i :: 0 <= i < |log| && log[i].Claimed? ==> log[i].time <= now)
    && (forall i, j :: 0 <= i < j < |log| && log[i].Claimed? && log[j].Claimed? ==> log[i].time <= log[j].time)
    && (forall i, j ::
      0 <= i < j < |log| && log[j].Claimed? && IsGrant(log[i], log[j].token) && log[j].status == 1
      && log[i].device != log[j].device ==>
          log[i].time + LEASE_SECONDS < log[j].time)
  }

  ghost predicate Invariant(w: World) {
    (forall token :: TokenAgrees(w, token)) && GroupsAgree(w) && Spaced(w.log, w.now)
  }

  /** A claim sees what the log says. */
  lemma ClaimAnswer(w: World, token: Token, d: Device, allowed: bool)
    requires TokenAgrees(w, token)
    ensures var r := AfterClaim(w.tables, d, token, w.now, allowed).1;
      r == if !KeyPackages.ValidDeviceId(d.id) then Err(BadRequest)
           else if token !in w.tables.routes then Err(NotFound)
           else if !allowed then Err(Forbidden)
           else Ok(Expected(w.log, token, d, w.now))
  {
    hide KeyPackages.ValidDeviceId, WasMarked, LastGrant;
  }

  lemma ClaimKeepsToken(w: World, s: Step, k: Token)
    requires s.Claim? && TokenAgrees(w, k)
    ensures TokenAgrees(Do(w, s), k)
  {
    hide KeyPackages.ValidDeviceId, WasMarked, LastGrant;
    var w' := Do(w, s);
    if w'.log != w.log {
      GrantSnoc(w.log, w'.log[|w.log|], k);
      MarkSnoc(w.log, w'.log[|w.log|], k);
    }
  }

  lemma MarkKeepsToken(w: World, s: Step, k: Token)
    requires s.Mark? && TokenAgrees(w, k)
    ensures TokenAgrees(Do(w, s), k)
  {
    hide KeyPackages.ValidDeviceId, WasMarked, LastGrant;
    var w' := Do(w, s);
    if w'.log != w.log {
      GrantSnoc(w.log, w'.log[|w.log|], k);
      MarkSnoc(w.log, w'.log[|w.log|], k);
    }
  }

  lemma RouteStepKeepsToken(w: World, s: Step, k: Token)
    requires Enabled(w, s) && !s.Claim? && !s.Mark? && TokenAgrees(w, k) && GroupsAgree(w)
    ensures TokenAgrees(Do(w, s), k)
  {
    hide KeyPackages.ValidDeviceId, WasMarked, LastGrant;
    var w' := Do(w, s);
    if w'.log != w.log {
      GrantSnoc(w.log, w'.log[|w.log|], k);
      MarkSnoc(w.log, w'.log[|w.log|], k);
    }
  }

  lemma InsertKeepsGroups(w: World, c: CallId)
    requires GroupsAgree(w) && Enabled(w, Insert(c))
    ensures GroupsAgree(Do(w, Insert(c)))
  {
    var w', gid := Do(w, Insert(c)), w.calls[c].gid;
    assert forall k :: k in w.tables.routes ==> (k in TokensOf(w.tables, gid) <==> w.tables.routes[k].gid == gid);
    assert TokensOf(w.tables, gid) == {} ==> w.tables.nextToken in TokensOf(w'.tables, gid);
    assert forall g :: TokensOf(w.tables, g) <= TokensOf(w'.tables, g);
  }

  lemma SameRoutesKeepGroups(w: World, w': World)
    requires GroupsAgree(w) && w'.calls == w.calls && w'.tables.nextToken == w.tables.nextToken
    requires w'.tables.routes.Keys == w.tables.routes.Keys
    requires forall k :: k in w.tables.routes ==> w'.tables.routes[k].gid == w.tables.routes[k].gid
    requires w'.log == w.log || (|w'.log| == |w.log| + 1 && w'.log[..|w.log|] == w.log && !w'.log[|w.log|].Routed?)
    ensures GroupsAgree(w')
  {
    assert forall g :: TokensOf(w.tables, g) == TokensOf(w'.tables, g);
    assert forall i :: 0 <= i < |w.log| ==> w'.log[i] == w.log[i];
  }

  lemma GroupsStep(w: World, s: Step)
    requires Enabled(w, s) && GroupsAgree(w)
    ensures GroupsAgree(Do(w, s))
  {
    hide KeyPackages.ValidDeviceId, MayClaim;
    match s
    case Insert(c) => InsertKeepsGroups(w, c);
    case Claim(_, _, _) => SameRoutesKeepGroups(w, Do(w, s));
    case Mark(_, _, _) => SameRoutesKeepGroups(w, Do(w, s));
    case Tick(_) =>
    case Lookup(_, _, _) =>
    case Reread(_, _) =>
  }

  lemma {:induction false} GrantIndex(log: seq<Event>, token: Token) returns (i: nat)
    requires LastGrant(log, token).Some?
    ensures i < |log| && IsGrant(log[i], token) && LastGrant(log, token) == Some(Grant(log[i].device, log[i].time))
    ensures forall j :: i < j < |log| ==> !IsGrant(log[j], token)
  {
    if IsGrant(log[|log| - 1], token) {
      i := |log| - 1;
    } else {
      i := GrantIndex(log[..|log| - 1], token);
      assert forall j :: 0 <= j < |log| - 1 ==> log[..|log| - 1][j] == log[j];
    }
  }

  lemma {:induction false} NoGrants(log: seq<Event>, token: Token)
    requires LastGrant(log, token).None?
    ensures forall j :: 0 <= j < |log| ==> !IsGrant(log[j], token)
  {
    if log != [] {
      NoGrants(log[..|log| - 1], token);
      assert forall j :: 0 <= j < |log| - 1 ==> log[..|log| - 1][j] == log[j];
    }
  }

  lemma SpacedStep(w: World, s: Step)
    requires Enabled(w, s) && Spaced(w.log, w.now)
    requires s.Claim? ==> TokenAgrees(w, s.token)
    ensures Spaced(Do(w, s).log, Do(w, s).now)
  {
    var w' := Do(w, s);
    if s.Claim? && w'.log != w.log {
      hide KeyPackages.ValidDeviceId, TokenAgrees, AfterClaim, WasMarked, LastGrant;
      ClaimAnswer(w, s.token, s.device, s.allowed);
      SpacedByClaim(w.log, w.now, w'.log[|w.log|]);
    } else {
      hide KeyPackages.ValidDeviceId, TokenAgrees, MayClaim, AfterClaim;
      OtherEventsKeepSpacing(w.log, w.now, w'.log, w'.now);
    }
  }

  lemma OtherEventsKeepSpacing(log: seq<Event>, now: int, log': seq<Event>, now': int)
    requires Spaced(log, now) && now <= now'
    requires log' == log || (|log'| == |log| + 1 && log'[..|log|] == log && !log'[|log|].Claimed?)
    ensures Spaced(log', now')
  {
    assert forall i :: 0 <= i < |log| ==> log'[i] == log[i];
  }

  lemma SpacedByClaim(log: seq<Event>, now: int, e: Event)
    requires Spaced(log, now) && e.Claimed? && e.time == now && e.status == Expected(log, e.token, e.device, now)
    ensures Spaced(log + [e], now)
  {
    hide WasMarked, LastGrant;
    if e.status == 1 {
      if LastGrant(log, e.token).None? {
        NoGrants(log, e.token);
      } else {
        var k := GrantIndex(log, e.token);
        forall i | 0 <= i < |log| && IsGrant(log[i], e.token) && log[i].device != e.device
          ensures log[i].time + LEASE_SECONDS < e.time
        {
          assert i <= k;
        }
      }
    }
  }

  lemma InvariantStep(w: World, s: Step)
    requires Invariant(w) && Enabled(w, s)
    ensures Invariant(Do(w, s))
  {
    hide TokenAgrees, GroupsAgree, Spaced, Do, Enabled;
    forall k ensures TokenAgrees(Do(w, s), k) {
      if s.Claim? {
        ClaimKeepsToken(w, s, k);
      } else if s.Mark? {
        MarkKeepsToken(w, s, k);
      } else {
        RouteStepKeepsToken(w, s, k);
      }
    }
    GroupsStep(w, s);
    SpacedStep(w, s);
  }

  lemma {:induction false} InvariantOfRun(start: World, run: seq<Step>)
    requires Start(start) && After(start, run).Some?
    ensures Invariant(After(start, run).value)
  {
    if run != [] {
      hide Invariant, Do, Enabled;
      InvariantOfRun(start, run[..|run| - 1]);
      InvariantStep(After(start, run[..|run| - 1]).value, run[|run| - 1]);
    }
  }

  // ---- the results ----

  /**
   After any run a permitted claim on a known route is answered from the log alone: 2 once someone
   marked it; 1 if nobody holds it, the caller does, or the last grant is more than thirty seconds
   old; 0 otherwise. It sets the caller's lease, to thirty seconds from now, exactly when it answers 1.
   */
  lemma ClaimsFollowTheLog(start: World, run: seq<Step>, token: Token, d: Device, allowed: bool)
    requires Start(start) && After(start, run).Some?
    ensures var w := After(start, run).value;
      var (t, r) := AfterClaim(w.tables, d, token, w.now, allowed);
      && r == (if !KeyPackages.ValidDeviceId(d.id) then Err(BadRequest)
               else if token !in w.tables.routes then Err(NotFound)
               else if !allowed then Err(Forbidden)
               else Ok(Expected(w.log, token, d, w.now)))
      && (r == Ok(1) ==>
            var held := w.tables.routes[token].(initializer := Some(d), lease := Some(w.now + 30));
            t == w.tables.(routes := w.tables.routes[token := held]))
      && (r != Ok(1) ==> t == w.tables)
  {
    hide After;
    InvariantOfRun(start, run);
    var w := After(start, run).value;
    ClaimAnswer(w, token, d, allowed);
    hide Expected, TokenAgrees, Spaced, GroupsAgree;
    assert token in w.tables.routes ==> w.tables.routes[token := w.tables.routes[token]] == w.tables.routes;
  }

  /**
   Marking succeeds once, and exactly for the last device granted the claim; how old that grant is plays
   no part. The route is then initialized and holds no lease.
   */
  lemma MarksFollowTheLog(start: World, run: seq<Step>, token: Token, d: Device, allowed: bool)
    requires Start(start) && After(start, run).Some?
    ensures var w := After(start, run).value;
      var (t, r) := AfterMark(w.tables, d, token, allowed);
      && r == (if !KeyPackages.ValidDeviceId(d.id) then Some(BadRequest)
               else if token !in w.tables.routes then Some(NotFound)
               else if !allowed then Some(Forbidden)
               else if !WasMarked(w.log, token) && LastGrant(w.log, token).Some?
                    && LastGrant(w.log, token).value.device == d then None
               else Some(Conflict))
      && (r.None? ==>
            t == w.tables.(routes := w.tables.routes[token := Route(w.tables.routes[token].gid, Some(d), None, true)]))
      && (r.Some? ==> t == w.tables)
  {
    hide After, WasMarked, LastGrant;
    InvariantOfRun(start, run);
    assert TokenAgrees(After(start, run).value, token);
  }

  lemma Extend(start: World, run: seq<Step>, s: Step)
    requires After(start, run).Some? && Enabled(After(start, run).value, s)
    ensures After(start, run + [s]) == Some(Do(After(start, run).value, s))
  {
    assert (run + [s])[..|run|] == run;
  }

  lemma FirstRoute(start: World, gid: Gid) returns (run: seq<Step>)
    requires Start(start)
    ensures After(start, run).Some?
    ensures var k, w := start.tables.nextToken, After(start, run).value;
      && w.log == [Routed(gid, k)] && w.now == start.now
      && k in w.tables.routes && w.tables.routes[k] == Route(gid, None, None, false)
  {
    var k := start.tables.nextToken;
    run := [];
    assert After(start, run) == Some(start);
    hide After;
    Extend(start, run, Lookup(0, gid, None));
    run := run + [Lookup(0, gid, None)];
    Extend(start, run, Insert(0));
    run := run + [Insert(0)];
    Extend(start, run, Reread(0, k));
    run := run + [Reread(0, k)];
  }

  /** A group's first caller gets a route, claims it, may renew the claim any time later, and marks the route. */
  lemma FirstCallerSetsUp(start: World, gid: Gid, d: Device, seconds: nat) returns (run: seq<Step>)
    requires Start(start) && KeyPackages.ValidDeviceId(d.id)
    ensures After(start, run).Some?
    ensures var k, w := start.tables.nextToken, After(start, run).value;
      w.log == [Routed(gid, k), Claimed(k, d, start.now, 1), Claimed(k, d, start.now + seconds, 1), Marked(k, d)]
  {
    hide After, KeyPackages.ValidDeviceId;
    var k := start.tables.nextToken;
    run := FirstRoute(start, gid);
    Extend(start, run, Claim(k, d, true));
    run := run + [Claim(k, d, true)];
    Extend(start, run, Tick(seconds));
    run := run + [Tick(seconds)];
    Extend(start, run, Claim(k, d, true));
    run := run + [Claim(k, d, true)];
    Extend(start, run, Mark(k, d, true));
    run := run + [Mark(k, d, true)];
  }

  /** A later caller finds the route, and one whose claim comes too early or too late is told so. */
  lemma LaterCallers(start: World, run: seq<Step>, call: CallId, gid: Gid, token: Token, d: Device)
    requires Start(start) && After(start, run).Some? && KeyPackages.ValidDeviceId(d.id)
    requires var w := After(start, run).value;
      call !in w.calls && token in TokensOf(w.tables, gid)
    ensures After(start, run + [Lookup(call, gid, Some(token))]).Some?
    ensures After(start, run + [Lookup(call, gid, Some(token))]).value.log ==
      After(start, run).value.log + [Routed(gid, token)]
    ensures After(start, run + [Claim(token, d, true)]).Some?
    ensures var w, w' := After(start, run).value, After(start, run + [Claim(token, d, true)]).value;
      w'.log == w.log + [Claimed(token, d, w.now, Expected(w.log, token, d, w.now))]
  {
    ClaimsFollowTheLog(start, run, token, d, true);
    Extend(start, run, Lookup(call, gid, Some(token)));
    Extend(start, run, Claim(token, d, true));
    hide After, Expected;
  }

  /** No two devices are granted a route's initialization within thirty seconds of each other. */
  lemma GrantsAreExclusive(start: World, run: seq<Step>, i: nat, j: nat)
    requires Start(start) && After(start, run).Some? && i < j < |After(start, run).value.log|
    requires var log := After(start, run).value.log;
      log[j].Claimed? && IsGrant(log[i], log[j].token) && log[j].status == 1 && log[i].device != log[j].device
    ensures After(start, run).value.log[i].time + 30 < After(start, run).value.log[j].time
  {
    hide After;
    InvariantOfRun(start, run);
  }

  /** After a route is marked, no later claim on it is granted and no later mark succeeds. */
  lemma {:induction false} MarkIsFinal(start: World, run: seq<Step>, i: nat, j: nat)
    requires Start(start) && After(start, run).Some? && i < j < |After(start, run).value.log|
    requires After(start, run).value.log[i].Marked?
    ensures var log := After(start, run).value.log;
      && !IsMark(log[j], log[i].token)
      && (log[j].Claimed? && log[j].token == log[i].token ==> log[j].status == 2)
  {
    hide Invariant, TokenAgrees, LastGrant;
    var front, s := After(start, run[..|run| - 1]).value, run[|run| - 1];
    var log := After(start, run).value.log;
    if j < |front.log| {
      MarkIsFinal(start, run[..|run| - 1], i, j);
    } else {
      assert IsMark(front.log[i], log[i].token);
      InvariantOfRun(start, run[..|run| - 1]);
      EventAfterMark(front, s, log[i].token);
    }
  }

  lemma EventAfterMark(w: World, s: Step, token: Token)
    requires Invariant(w) && Enabled(w, s) && WasMarked(w.log, token) && |Do(w, s).log| > |w.log|
    ensures var e := Do(w, s).log[|w.log|];
      !IsMark(e, token) && (e.Claimed? && e.token == token ==> e.status == 2)
  {
    hide KeyPackages.ValidDeviceId, LastGrant, WasMarked, GroupsAgree, Spaced;
    assert TokenAgrees(w, token);
  }

  /** Whoever marked a route had been granted it last. */
  lemma {:induction false} MarkerWasGranted(start: World, run: seq<Step>, i: nat)
    requires Start(start) && After(start, run).Some? && i < |After(start, run).value.log|
    requires After(start, run).value.log[i].Marked?
    ensures var log := After(start, run).value.log;
      var g := LastGrant(log[..i], log[i].token);
      g.Some? && g.value.device == log[i].device
  {
    hide Invariant, TokenAgrees, LastGrant, WasMarked;
    var front, s := After(start, run[..|run| - 1]).value, run[|run| - 1];
    var log := After(start, run).value.log;
    if i < |front.log| {
      MarkerWasGranted(start, run[..|run| - 1], i);
      assert log[..i] == front.log[..i];
    } else {
      assert log[..i] == front.log;
      InvariantOfRun(start, run[..|run| - 1]);
      MarkerHolds(front, s);
    }
  }

  lemma MarkerHolds(w: World, s: Step)
    requires Invariant(w) && s.Mark? && AfterMark(w.tables, s.device, s.token, s.allowed).1.None?
    ensures LastGrant(w.log, s.token).Some? && LastGrant(w.log, s.token).value.device == s.device
  {
    hide KeyPackages.ValidDeviceId, LastGrant, WasMarked, GroupsAgree, Spaced;
    assert TokenAgrees(w, s.token);
  }

  /**
   However calls for a group's route interleave, all are given the same token, different groups get
   different ones, and a call that comes to read the row again finds exactly one.
   */
  lemma OneRoutePerGroup(start: World, run: seq<Step>)
    requires Start(start) && After(start, run).Some?
    ensures var w := After(start, run).value;
      && (forall i, j :: 0 <= i < |w.log| && 0 <= j < |w.log| && w.log[i].Routed? && w.log[j].Routed? ==>
            (w.log[i].gid == w.log[j].gid <==> w.log[i].token == w.log[j].token))
      && (forall c :: c in w.calls && w.calls[c].Rereading? ==> exists k :: TokensOf(w.tables, w.calls[c].gid) == {k})
  {
    hide After, Spaced, TokenAgrees;
    InvariantOfRun(start, run);
    var w := After(start, run).value;
    forall c | c in w.calls && w.calls[c].Rereading? ensures exists k :: TokensOf(w.tables, w.calls[c].gid) == {k} {
      var k :| k in TokensOf(w.tables, w.calls[c].gid);
      assert TokensOf(w.tables, w.calls[c].gid) == {k};
    }
  }

  // ---- the operations as written ----

  class Store {
    var routes: map<Token, Route>
    var nextToken: Token

    function View(): Tables
      reads this
    {
      Tables(routes, nextToken)
    }

    constructor ()
      ensures View().routes == map[]
    {
      routes, nextToken := map[], 0;
    }

    method SelectToken(gid: Gid) returns (found: Option<Token>)
      ensures found.Some? ==> found.value in TokensOf(View(), gid)
      ensures found.None? <==> TokensOf(View(), gid) == {}
    {
      found := None;
      if k :| k in routes && routes[k].gid == gid {
        assert k in TokensOf(View(), gid);
        found := Some(k);
      }
    }

    /** One call that nobody disturbs. */
    method RouteForGroup(gid: Gid, allowed: bool) returns (r: Result<Token, Refusal>)
      modifies this
      ensures !allowed ==> r == Err(Forbidden)
      ensures allowed ==> r.Ok? && r.value in TokensOf(View(), gid)
      ensures View() ==
        if allowed && TokensOf(old(View()), gid) == {} then InsertRoute(old(View()), gid) else old(View())
    {
      if !allowed { return Err(Forbidden); }
      var found := SelectToken(gid);
      if found.Some? { return Ok(found.value); }
      routes, nextToken := routes[nextToken := Route(gid, None, None, false)], nextToken + 1;
      assert nextToken - 1 in TokensOf(View(), gid);
      found := SelectToken(gid);
      r := Ok(found.value);
    }

    method ClaimInitialization(d: Device, token: Token, now: int, allowed: bool) returns (r: Result<nat, Refusal>)
      modifies this`routes
      ensures (View(), r) == AfterClaim(old(View()), d, token, now, allowed)
    {
      hide KeyPackages.ValidDeviceId;
      if !KeyPackages.ValidDeviceId(d.id) { return Err(BadRequest); }
      if token !in routes { return Err(NotFound); }
      if !allowed { return Err(Forbidden); }
      if !routes[token].initialized &&
         (routes[token].initializer.None? || (routes[token].lease.Some? && routes[token].lease.value < now)
           || routes[token].initializer == Some(d))
      {
        routes := routes[token := routes[token].(initializer := Some(d), lease := Some(now + LEASE_SECONDS))];
      }
      assert routes[token := routes[token]] == routes;
      if routes[token].initialized { return Ok(2); }
      r := Ok(if routes[token].initializer == Some(d) then 1 else 0);
    }

    method MarkInitialized(d: Device, token: Token, allowed: bool) returns (refusal: Option<Refusal>)
      modifies this`routes
      ensures (View(), refusal) == AfterMark(old(View()), d, token, allowed)
    {
      hide KeyPackages.ValidDeviceId;
      if !KeyPackages.ValidDeviceId(d.id) { return Some(BadRequest); }
      if token !in routes { return Some(NotFound); }
      if !allowed { return Some(Forbidden); }
      var row := routes[token];
      if row.initializer != Some(d) || row.initialized { return Some(Conflict); }
      routes := routes[token := row.(initialized := true, lease := None)];
      refusal := None;
    }
  }
}
