/** Groups as their users see them: what each request does to a group, or why it is refused. */
module Groups {
  import opened Wrappers

  type Gid = nat
  type Uid = int

  datatype GroupType = Public | Private(owner: Uid)

  datatype Group = Group(ty: GroupType, name: string, description: string, members: set<Uid>, e2eEnabled: bool)
  {
    predicate ContainsUser(uid: Uid) {
      ty.Public? || uid in members
    }
  }

  /** Users are mapped to whether they are guests. Group ids are never reused. */
  datatype State = State(groups: map<Gid, Group>, nextGid: Gid, users: map<Uid, bool>)

  datatype Caller = Caller(uid: Uid, isAdmin: bool)

  datatype Changes = Changes(
    name: Option<string>, owner: Option<Uid>, description: Option<string>, e2eEnabled: Option<bool>)

  datatype Op =
    | Register(uid: Uid, isGuest: bool)
    | Create(caller: Caller, isPublic: bool, list: seq<Uid>, name: string, description: Option<string>,
      e2eEnabled: bool)
    | Delete(caller: Caller, gid: Gid)
    | Update(caller: Caller, gid: Gid, changes: Changes)
    | ChangeType(caller: Caller, gid: Gid, isPublic: bool, list: seq<Uid>)
    | Leave(caller: Caller, gid: Gid)
    | AddMembers(caller: Caller, gid: Gid, list: seq<Uid>)
    | RemoveMembers(caller: Caller, gid: Gid, list: seq<Uid>)

  /** `Internal` is a violated constraint of the database. */
  datatype Response = Done | Created(gid: Gid) | BadRequest | NotFound | Forbidden | Internal

  function Elements(list: seq<Uid>): set<Uid> {
    set i | 0 <= i < |list| :: list[i]
  }

  predicate Distinct(list: seq<Uid>) {
    forall i, j :: 0 <= i < j < |list| ==> list[i] != list[j]
  }

  /** Public groups are the administrators', private ones also their owner's. */
  predicate MayManage(g: Group, caller: Caller) {
    caller.isAdmin || g.ty == Private(caller.uid)
  }

  function NonGuests(users: map<Uid, bool>): set<Uid> {
    set u | u in users && !users[u]
  }

  function Changed(g: Group, c: Changes): Group {
    Group(if c.owner.Some? && g.ty.Private? then Private(c.owner.value) else g.ty,
          if c.name.Some? then c.name.value else g.name,
          if c.description.Some? then c.description.value else g.description,
          g.members,
          if c.e2eEnabled.Some? then c.e2eEnabled.value else g.e2eEnabled)
  }

  /** The members a private group starts with: those listed and its creator. */
  function FirstMembers(caller: Caller, isPublic: bool, list: seq<Uid>): set<Uid> {
    if isPublic then {} else Elements(list) + {caller.uid}
  }

  /** A group made private without a list gets every user who is not a guest. */
  function MadePrivateMembers(users: map<Uid, bool>, list: seq<Uid>): set<Uid> {
    if list != [] then Elements(list) else NonGuests(users)
  }

  /** Why a request is refused, if it is. */
  function Refused(s: State, op: Op): Option<Response> {
    match op
    case Register(_, _) => None
    case Create(caller, isPublic, list, _, _, _) =>
      if isPublic && !caller.isAdmin then Some(Forbidden)
      else if isPublic && list != [] then Some(BadRequest)
      else if !(FirstMembers(caller, isPublic, list) <= s.users.Keys) then Some(BadRequest)
      else None
    case Delete(caller, gid) =>
      if gid !in s.groups then Some(NotFound)
      else if !MayManage(s.groups[gid], caller) then Some(Forbidden)
      else None
    case Update(caller, gid, c) =>
      if c == Changes(None, None, None, None) then Some(BadRequest)
      else if gid !in s.groups then Some(NotFound)
      else if !MayManage(s.groups[gid], caller) then Some(Forbidden)
      else if c.owner.Some? && s.groups[gid].ty.Public? then Some(Forbidden)
      else if c.owner.Some? && !s.groups[gid].ContainsUser(c.owner.value) then Some(BadRequest)
      else None
    case ChangeType(caller, gid, isPublic, list) =>
      if gid !in s.groups then Some(NotFound)
      else if !MayManage(s.groups[gid], caller) then Some(Forbidden)
      // unique (gid, uid), foreign key to the user
      else if s.groups[gid].ty.Public? && !isPublic && !(Distinct(list) && Elements(list) <= s.users.Keys)
        then Some(Internal)
      else None
    case Leave(caller, gid) =>
      if gid !in s.groups then Some(NotFound)
      else if s.groups[gid].ty.Public? || !s.groups[gid].ContainsUser(caller.uid) then Some(Forbidden)
      else if s.groups[gid].ty.owner == caller.uid then Some(Forbidden)
      else None
    case AddMembers(caller, gid, list) =>
      if !(Elements(list) <= s.users.Keys) then Some(BadRequest)
      else if gid !in s.groups then Some(NotFound)
      else if s.groups[gid].ty.Public? || (caller.uid !in s.groups[gid].members && !caller.isAdmin) then Some(Forbidden)
      else if Elements(list) * s.groups[gid].members != {} then Some(BadRequest)
      else if !Distinct(list) then Some(Internal)
      else None
    case RemoveMembers(caller, gid, list) =>
      if gid !in s.groups then Some(NotFound)
      else if s.groups[gid].ty.Public? || !MayManage(s.groups[gid], caller) then Some(Forbidden)
      else RemovalRefused(s.groups[gid], list)
  }

  /** The first listed user who is the owner or no member decides. */
  function RemovalRefused(g: Group, list: seq<Uid>): Option<Response>
    requires g.ty.Private?
  {
    if list == [] then None
    else
      match RemovalRefused(g, list[..|list| - 1])
      case Some(r) => Some(r)
      case None =>
        var uid := list[|list| - 1];
        if uid == g.ty.owner then Some(Forbidden)
        else if !g.ContainsUser(uid) then Some(NotFound)
        else None
  }

  /** What a request that is not refused changes. */
  function Applied(s: State, op: Op): State
    requires Refused(s, op).None?
  {
    match op
    case Register(uid, isGuest) => if uid in s.users then s else s.(users := s.users[uid := isGuest])
    case Create(caller, isPublic, list, name, description, e2eEnabled) =>
      var ty := if isPublic then Public else Private(caller.uid);
      var text := if description.Some? then description.value else "";
      var g := Group(ty, name, text, FirstMembers(caller, isPublic, list), e2eEnabled);
      s.(groups := s.groups[s.nextGid := g], nextGid := s.nextGid + 1)
    case Delete(_, gid) => s.(groups := s.groups - {gid})
    case Update(_, gid, c) => s.(groups := s.groups[gid := Changed(s.groups[gid], c)])
    case ChangeType(caller, gid, isPublic, list) =>
      var g := s.groups[gid];
      if g.ty.Public? == isPublic then s
      else if isPublic then s.(groups := s.groups[gid := g.(ty := Public, members := {})])
      else s.(groups := s.groups[gid := g.(ty := Private(caller.uid), members := MadePrivateMembers(s.users, list))])
    case Leave(caller, gid) =>
      s.(groups := s.groups[gid := s.groups[gid].(members := s.groups[gid].members - {caller.uid})])
    case AddMembers(_, gid, list) =>
      s.(groups := s.groups[gid := s.groups[gid].(members := s.groups[gid].members + Elements(list))])
    case RemoveMembers(_, gid, list) =>
      s.(groups := s.groups[gid := s.groups[gid].(members := s.groups[gid].members - Elements(list))])
  }

  function Next(s: State, op: Op): (State, Response) {
    match Refused(s, op)
    case Some(r) => (s, r)
    case None => (Applied(s, op), if op.Create? then Created(s.nextGid) else Done)
  }

  function After(s: State, ops: seq<Op>): State {
    if ops == [] then s else Next(After(s, ops[..|ops| - 1]), ops[|ops| - 1]).0
  }

  // ---- what every request keeps ----

  /** Public groups list no members, members are registered, and new group ids are new. */
  predicate Sound(s: State) {
    forall gid :: gid in s.groups ==>
      && gid < s.nextGid
      && s.groups[gid].members <= s.users.Keys
      && (s.groups[gid].ty.Public? ==> s.groups[gid].members == {})
  }

  lemma SoundStep(s: State, op: Op)
    requires Sound(s)
    ensures Sound(Next(s, op).0)
  {
  }

  lemma {:induction false} SoundAfter(s: State, ops: seq<Op>)
    requires Sound(s)
    ensures Sound(After(s, ops))
  {
    if ops != [] {
      SoundAfter(s, ops[..|ops| - 1]);
      SoundStep(After(s, ops[..|ops| - 1]), ops[|ops| - 1]);
    }
  }

  /** Every private group's owner is one of its members. */
  predicate OwnersAreMembers(s: State) {
    forall gid :: gid in s.groups && s.groups[gid].ty.Private? ==> s.groups[gid].ty.owner in s.groups[gid].members
  }

  /** The one request that can lose this: making a group private without the caller, who will own it, as member. */
  predicate LeavesOutCaller(s: State, op: Op) {
    && op.ChangeType? && Refused(s, op).None?
    && s.groups[op.gid].ty.Public? && !op.isPublic
    && op.caller.uid !in MadePrivateMembers(s.users, op.list)
  }

  lemma OwnersAreMembersExactly(s: State, op: Op)
    requires OwnersAreMembers(s)
    ensures OwnersAreMembers(Next(s, op).0) <==> !LeavesOutCaller(s, op)
  {
    var s' := Next(s, op).0;
    if op.RemoveMembers? && Refused(s, op).None? {
      OwnerStays(s.groups[op.gid], op.list);
    }
    if LeavesOutCaller(s, op) {
      assert s'.groups[op.gid].ty == Private(op.caller.uid);
    }
  }

  /** The group is private and its owner is not one of its members. */
  predicate OwnerOut(s: State, gid: Gid) {
    gid in s.groups && s.groups[gid].ty.Private? && s.groups[gid].ty.owner !in s.groups[gid].members
  }

  /** A request that ends this for a group: it deletes or opens it, names a new owner, or adds the present one. */
  predicate Repairs(s: State, op: Op, gid: Gid) {
    && Refused(s, op).None? && gid in s.groups && s.groups[gid].ty.Private?
    && match op
       case Delete(_, g) => g == gid
       case Update(_, g, c) => g == gid && c.owner.Some?
       case ChangeType(_, g, isPublic, _) => g == gid && isPublic
       case AddMembers(_, g, list) => g == gid && s.groups[gid].ty.owner in Elements(list)
       case _ => false
  }

  /** From any state an owner is out after a request exactly if it leaves him out, or he was and it is no repair. */
  lemma OwnerOutStep(s: State, op: Op, gid: Gid)
    requires Sound(s)
    ensures OwnerOut(Next(s, op).0, gid) <==>
      (LeavesOutCaller(s, op) && op.gid == gid) || (OwnerOut(s, gid) && !Repairs(s, op, gid))
  {
    hide Elements, Distinct, NonGuests;
    if op.RemoveMembers? && Refused(s, op).None? {
      OwnerStays(s.groups[op.gid], op.list);
    }
  }

  /** Some request of the run left the group's owner out, and none since has repaired it. */
  predicate LeftOut(s: State, ops: seq<Op>, gid: Gid) {
    exists i :: 0 <= i < |ops| && LeftOutAt(s, ops, i, gid)
  }

  predicate LeftOutAt(s: State, ops: seq<Op>, i: nat, gid: Gid)
    requires i < |ops|
  {
    && LeavesOutCaller(After(s, ops[..i]), ops[i]) && ops[i].gid == gid
    && forall j :: i < j < |ops| ==> !RepairsAt(s, ops, j, gid)
  }

  predicate RepairsAt(s: State, ops: seq<Op>, j: nat, gid: Gid)
    requires j < |ops|
  {
    Repairs(After(s, ops[..j]), ops[j], gid)
  }

  lemma LeftOutSnoc(s: State, ops: seq<Op>, gid: Gid)
    requires ops != []
    ensures var front, last := ops[..|ops| - 1], ops[|ops| - 1];
      LeftOut(s, ops, gid) <==>
      || (LeavesOutCaller(After(s, front), last) && last.gid == gid)
      || (LeftOut(s, front, gid) && !Repairs(After(s, front), last, gid))
  {
    hide After, Repairs;
    var front, n := ops[..|ops| - 1], |ops| - 1;
    forall j | 0 <= j < n ensures ops[..j] == front[..j] && ops[j] == front[j] {}
    assert forall j :: 0 <= j < n ==> (RepairsAt(s, ops, j, gid) <==> RepairsAt(s, front, j, gid));
    assert ops[..n] == front;
    if i :| 0 <= i < |front| && LeftOutAt(s, front, i, gid) {
      assert !RepairsAt(s, ops, n, gid) ==> LeftOutAt(s, ops, i, gid);
    }
    if i :| 0 <= i < n && LeftOutAt(s, ops, i, gid) {
      assert !RepairsAt(s, ops, n, gid);
      assert LeftOutAt(s, front, i, gid);
    }
    if LeavesOutCaller(After(s, front), ops[n]) && ops[n].gid == gid {
      assert LeftOutAt(s, ops, n, gid);
    }
  }

  /**
   Over every run of requests: an owner is out of his private group at the end if and only if some
   switch to private left him out and nothing since has repaired it.
   */
  lemma {:induction false} OwnerOutExactly(s: State, ops: seq<Op>, gid: Gid)
    requires Sound(s) && OwnersAreMembers(s)
    ensures OwnerOut(After(s, ops), gid) <==> LeftOut(s, ops, gid)
  {
    hide LeftOut, LeavesOutCaller, Repairs, Next;
    if ops == [] {
      NobodyLeftOut(s, gid);
    } else {
      var front, last := ops[..|ops| - 1], ops[|ops| - 1];
      OwnerOutExactly(s, front, gid);
      LeftOutSnoc(s, ops, gid);
      SoundAfter(s, front);
      OwnerOutStep(After(s, front), last, gid);
    }
  }

  lemma NobodyLeftOut(s: State, gid: Gid)
    ensures !LeftOut(s, [], gid)
  {
  }

  lemma {:induction false} OwnerStays(g: Group, list: seq<Uid>)
    requires g.ty.Private? && RemovalRefused(g, list).None?
    ensures g.ty.owner !in Elements(list) && Elements(list) <= g.members
  {
    if list != [] {
      var front, last := list[..|list| - 1], list[|list| - 1];
      assert front + [last] == list;
      ElementsSnoc(front, last);
      OwnerStays(g, front);
    }
  }

  lemma ElementsSnoc(list: seq<Uid>, uid: Uid)
    ensures Elements(list + [uid]) == Elements(list) + {uid}
  {
    assert (list + [uid])[|list|] == uid;
    assert forall i :: 0 <= i < |list| ==> (list + [uid])[i] == list[i];
  }

  /** It does happen: an administrator makes group 0 private for user 2 and owns it without being in it. */
  lemma OwnerCanBeLeftOut()
    ensures var s := State(map[0 := Group(Public, "", "", {}, true)], 1, map[1 := false, 2 := false]);
      var op := ChangeType(Caller(1, true), 0, false, [2]);
      && OwnersAreMembers(s)
      && Next(s, op).1 == Done
      && !OwnersAreMembers(Next(s, op).0)
  {
    var s := State(map[0 := Group(Public, "", "", {}, true)], 1, map[1 := false, 2 := false]);
    assert [2][0] == 2;
    assert Elements([2]) == {2};
    assert Next(s, ChangeType(Caller(1, true), 0, false, [2])).0.groups[0].members == {2};
  }

  /** Adding users and then removing them restores the group. */
  lemma RemoveUndoesAdd(s: State, adder: Caller, remover: Caller, gid: Gid, list: seq<Uid>)
    requires Next(s, AddMembers(adder, gid, list)).1 == Done
    requires MayManage(s.groups[gid], remover) && s.groups[gid].ty.owner !in Elements(list)
    ensures var added := Next(s, AddMembers(adder, gid, list)).0;
      Next(added, RemoveMembers(remover, gid, list)) == (s, Done)
  {
    hide Elements, RemovalRefused, Distinct;
    var g := s.groups[gid];
    var grown := g.(members := g.members + Elements(list));
    var added := Next(s, AddMembers(adder, gid, list)).0;
    assert added == s.(groups := s.groups[gid := grown]);
    RemovalAccepted(grown, list);
    RestoresSet(g.members, Elements(list));
    assert grown.(members := grown.members - Elements(list)) == g;
    assert added.groups[gid := g] == s.groups;
  }

  lemma RestoresSet(a: set<Uid>, b: set<Uid>)
    requires b * a == {}
    ensures a + b - b == a
  {
    assert forall u :: u in a ==> u !in b * a;
    assert forall u :: u in a && u in b ==> u in b * a;
  }

  lemma {:induction false} RemovalAccepted(g: Group, list: seq<Uid>)
    requires g.ty.Private? && g.ty.owner !in Elements(list) && Elements(list) <= g.members
    ensures RemovalRefused(g, list).None?
  {
    if list != [] {
      var front, last := list[..|list| - 1], list[|list| - 1];
      assert front + [last] == list;
      ElementsSnoc(front, last);
      RemovalAccepted(g, front);
    }
  }
}
