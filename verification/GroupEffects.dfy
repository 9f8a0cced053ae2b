/**
 What each request does to a group, said of its members, owner and settings one by one, and who may
 make it. `list` is the list a request carries.
 */
module GroupEffects {
  import opened Wrappers
  import opened Groups

  predicate Accepted(s: State, op: Op) {
    Next(s, op).1 == Done || Next(s, op).1.Created?
  }

  /** Every listed user is registered. */
  predicate Known(s: State, list: seq<Uid>) {
    forall u :: u in list ==> u in s.users
  }

  lemma Listed(s: State, list: seq<Uid>)
    ensures forall u :: u in list <==> u in Elements(list)
    ensures Known(s, list) <==> Elements(list) <= s.users.Keys
  {
    forall u ensures u in list <==> u in Elements(list) {}
    if Elements(list) <= s.users.Keys {
      forall u | u in list ensures u in s.users { assert u in Elements(list); }
    }
    if Known(s, list) {
      forall u | u in Elements(list) ensures u in s.users.Keys { assert u in list; }
    }
  }

  lemma Apart(a: set<Uid>, b: set<Uid>)
    ensures a * b == {} <==> forall u :: u in a ==> u !in b
  {
    if forall u :: u in a ==> u !in b {
      assert forall u: Uid :: u !in a * b;
    } else {
      var u :| u in a && u in b;
      assert u in a * b;
    }
  }

  /** Every group but `gid`, and every user, is as before. */
  ghost predicate OnlyGroup(s: State, s': State, gid: Gid) {
    && s'.users == s.users
    && (forall g :: g in s'.groups && g != gid <==> g in s.groups && g != gid)
    && (forall g :: g in s.groups && g != gid ==> s'.groups[g] == s.groups[g])
  }

  /** The creator and whoever is listed are the members of a new private group; a public one lists nobody. */
  lemma Creating(s: State, caller: Caller, isPublic: bool, list: seq<Uid>, name: string, description: Option<string>,
                 e2eEnabled: bool)
    requires Sound(s) && Accepted(s, Create(caller, isPublic, list, name, description, e2eEnabled))
    ensures var (s', r) := Next(s, Create(caller, isPublic, list, name, description, e2eEnabled));
      && r == Created(s.nextGid) && s.nextGid !in s.groups && s'.nextGid == s.nextGid + 1
      && OnlyGroup(s, s', s.nextGid) && s.nextGid in s'.groups
      && var g := s'.groups[s.nextGid];
         && g.name == name && (description.Some? ==> g.description == description.value)
         && (description.None? ==> g.description == "") && g.e2eEnabled == e2eEnabled
         && g.ty == (if isPublic then Public else Private(caller.uid))
         && forall u :: u in g.members <==> !isPublic && (u in list || u == caller.uid)
  {
    Listed(s, list);
  }

  /**
   Making a public group private: the caller owns it; its members are those listed or, without a list,
   the registered users who are not guests. Its name, description and encryption flag stay.
   */
  lemma MakingPrivate(s: State, caller: Caller, gid: Gid, list: seq<Uid>)
    requires gid in s.groups && s.groups[gid].ty.Public?
    requires Next(s, ChangeType(caller, gid, false, list)).1 == Done
    ensures var s' := Next(s, ChangeType(caller, gid, false, list)).0;
      && OnlyGroup(s, s', gid) && s'.nextGid == s.nextGid && gid in s'.groups
      && var g, g' := s.groups[gid], s'.groups[gid];
         && g'.ty == Private(caller.uid)
         && (forall u :: u in g'.members <==> if list == [] then u in s.users && !s.users[u] else u in list)
         && g'.name == g.name && g'.description == g.description && g'.e2eEnabled == g.e2eEnabled
  {
    Listed(s, list);
  }

  /** Making a private group public empties its list; asking for the type it has changes nothing. */
  lemma MakingPublic(s: State, caller: Caller, gid: Gid, isPublic: bool, list: seq<Uid>)
    requires gid in s.groups && !(s.groups[gid].ty.Public? && !isPublic)
    requires Next(s, ChangeType(caller, gid, isPublic, list)).1 == Done
    ensures var s' := Next(s, ChangeType(caller, gid, isPublic, list)).0;
      && OnlyGroup(s, s', gid) && s'.nextGid == s.nextGid && gid in s'.groups
      && (s.groups[gid].ty.Public? == isPublic ==> s'.groups[gid] == s.groups[gid])
      && (s.groups[gid].ty.Public? != isPublic ==>
            var g, g' := s.groups[gid], s'.groups[gid];
            && g'.ty == Public && g'.members == {}
            && g'.name == g.name && g'.description == g.description && g'.e2eEnabled == g.e2eEnabled)
  {
  }

  /** An update sets exactly the named fields, each to its own value; the owner must be a member already. */
  lemma Updating(s: State, caller: Caller, gid: Gid, c: Changes)
    requires Next(s, Update(caller, gid, c)).1 == Done
    ensures var s' := Next(s, Update(caller, gid, c)).0;
      && OnlyGroup(s, s', gid) && s'.nextGid == s.nextGid && gid in s.groups && gid in s'.groups
      && var g, g' := s.groups[gid], s'.groups[gid];
         && (c.name.Some? ==> g'.name == c.name.value) && (c.name.None? ==> g'.name == g.name)
         && (c.description.Some? ==> g'.description == c.description.value)
         && (c.description.None? ==> g'.description == g.description)
         && (c.e2eEnabled.Some? ==> g'.e2eEnabled == c.e2eEnabled.value)
         && (c.e2eEnabled.None? ==> g'.e2eEnabled == g.e2eEnabled)
         && (c.owner.Some? ==> g'.ty == Private(c.owner.value) && g.ty.Private? && c.owner.value in g.members)
         && (c.owner.None? ==> g'.ty == g.ty)
         && g'.members == g.members
  {
  }

  /** Leaving, adding and removing change the members they name and nothing else; deleting forgets the group. */
  lemma Moving(s: State, op: Op, uid: Uid)
    requires Next(s, op).1 == Done && (op.Leave? || op.AddMembers? || op.RemoveMembers? || op.Delete?)
    ensures var s' := Next(s, op).0;
      && OnlyGroup(s, s', op.gid) && s'.nextGid == s.nextGid && op.gid in s.groups
      && (op.Delete? <==> op.gid !in s'.groups)
      && (op.gid in s'.groups ==>
            var g, g' := s.groups[op.gid], s'.groups[op.gid];
            && g'.ty == g.ty && g.ty.Private?
            && g'.name == g.name && g'.description == g.description && g'.e2eEnabled == g.e2eEnabled
            && (op.Leave? ==> (uid in g'.members <==> uid in g.members && uid != op.caller.uid))
            && (op.AddMembers? ==> (uid in g'.members <==> uid in g.members || uid in op.list))
            && (op.RemoveMembers? ==> (uid in g'.members <==> uid in g.members && uid !in op.list)))
  {
    if op.AddMembers? || op.RemoveMembers? { Listed(s, op.list); }
    hide Elements;
    if op.RemoveMembers? && op.gid in s.groups && s.groups[op.gid].ty.Private? {
      RemovalDecided(s.groups[op.gid], op.list);
    }
  }

  /** Registering adds one user and changes no other, nor any group. */
  lemma Registering(s: State, uid: Uid, isGuest: bool, other: Uid)
    ensures var s' := Next(s, Register(uid, isGuest)).0;
      && s'.groups == s.groups && s'.nextGid == s.nextGid
      && uid in s'.users && (uid !in s.users ==> s'.users[uid] == isGuest)
      && (other in s.users ==> other in s'.users && s'.users[other] == s.users[other])
      && (other !in s.users && other != uid ==> other !in s'.users)
  {
  }

  // ---- who may do what ----

  /** Who manages a group: administrators, and the owner of a private one. */
  predicate Manages(s: State, caller: Caller, gid: Gid) {
    gid in s.groups && (caller.isAdmin || (s.groups[gid].ty.Private? && s.groups[gid].ty.owner == caller.uid))
  }

  /**
   In any state a group only changes at the hand of someone entitled to it: its manager, a member or
   administrator who adds registered users, or a member who leaves. Nobody else can add or remove a
   member, and the owner is never removed, by himself or others.
   */
  lemma OnlyTheEntitledChange(s: State, op: Op, gid: Gid)
    requires gid in s.groups && !(gid in Next(s, op).0.groups && Next(s, op).0.groups[gid] == s.groups[gid])
    requires gid < s.nextGid
    ensures !op.Register? && !op.Create? && op.gid == gid && Next(s, op).1 == Done
    ensures op.Delete? || op.Update? || op.ChangeType? || op.RemoveMembers? ==> Manages(s, op.caller, gid)
    ensures op.AddMembers? ==>
      && s.groups[gid].ty.Private? && (op.caller.uid in s.groups[gid].members || op.caller.isAdmin)
      && forall u :: u in op.list ==> u in s.users && u !in s.groups[gid].members
    ensures op.Leave? ==> op.caller.uid in s.groups[gid].members && s.groups[gid].ty != Private(op.caller.uid)
    ensures op.RemoveMembers? ==>
      s.groups[gid].ty.Private? && s.groups[gid].ty.owner !in op.list && forall u :: u in op.list ==>
        u in s.groups[gid].members
  {
    if op.AddMembers? || op.RemoveMembers? { Listed(s, op.list); }
    hide Elements;
    if op.AddMembers? && op.gid == gid {
      assert forall u :: u in op.list && u in s.groups[gid].members ==> u in Elements(op.list) * s.groups[gid].members;
    }
    if op.RemoveMembers? && s.groups[gid].ty.Private? { RemovalDecided(s.groups[gid], op.list); }
  }

  /** Exactly which requests are refused, and with what; a refusal changes nothing. */
  lemma RefusalsExactly(s: State, op: Op)
    ensures var (s', r) := Next(s, op);
      && (!Accepted(s, op) ==> s' == s)
      && (op.Create? ==>
            && (r == Forbidden <==> op.isPublic && !op.caller.isAdmin)
            && (r == BadRequest <==>
                  if op.isPublic then op.caller.isAdmin && op.list != []
                  else !(Known(s, op.list) && op.caller.uid in s.users))
            && r != NotFound && r != Internal)
      && (op.Delete? ==>
            && (r == NotFound <==> op.gid !in s.groups)
            && (r == Forbidden <==> op.gid in s.groups && !Manages(s, op.caller, op.gid))
            && r != BadRequest && r != Internal)
      && (op.Update? ==>
            var empty :=
              op.changes.name.None? && op.changes.owner.None? && op.changes.description.None?
              && op.changes.e2eEnabled.None?;
            && (r == NotFound <==> !empty && op.gid !in s.groups)
            && (r == Forbidden <==>
                  && !empty && op.gid in s.groups
                  && (!Manages(s, op.caller, op.gid) || (op.changes.owner.Some? && s.groups[op.gid].ty.Public?)))
            && (r == BadRequest <==>
                  || empty
                  || (Manages(s, op.caller, op.gid) && op.changes.owner.Some? && s.groups[op.gid].ty.Private?
                      && op.changes.owner.value !in s.groups[op.gid].members))
            && r != Internal)
      && (op.ChangeType? ==>
            && (r == NotFound <==> op.gid !in s.groups)
            && (r == Forbidden <==> op.gid in s.groups && !Manages(s, op.caller, op.gid))
            && (r == Internal <==>
                  && Manages(s, op.caller, op.gid) && s.groups[op.gid].ty.Public? && !op.isPublic
                  && !(Known(s, op.list) && forall i, j :: 0 <= i < j < |op.list| ==> op.list[i] != op.list[j]))
            && r != BadRequest)
      && (op.Leave? ==>
            && (r == NotFound <==> op.gid !in s.groups)
            && (r == Forbidden <==>
                  && op.gid in s.groups
                  && (s.groups[op.gid].ty.Public? || op.caller.uid !in s.groups[op.gid].members
                      || s.groups[op.gid].ty.owner == op.caller.uid))
            && r != BadRequest && r != Internal)
  {
    if op.Create? || op.ChangeType? { Listed(s, op.list); }
    hide Elements, RemovalRefused;
  }

  /** When adding is refused. */
  lemma AddingRefusedExactly(s: State, caller: Caller, gid: Gid, list: seq<Uid>)
    ensures var (s', r) := Next(s, AddMembers(caller, gid, list));
      var may :=
        gid in s.groups && s.groups[gid].ty.Private? && (caller.uid in s.groups[gid].members || caller.isAdmin);
      var unlisted := gid in s.groups && forall u :: u in list ==> u !in s.groups[gid].members;
      && (r == NotFound <==> Known(s, list) && gid !in s.groups)
      && (r == Forbidden <==> Known(s, list) && gid in s.groups && !may)
      && (r == BadRequest <==> !Known(s, list) || (may && !unlisted))
      && (r == Internal <==>
            Known(s, list) && may && unlisted && !(forall i, j :: 0 <= i < j < |list| ==> list[i] != list[j]))
      && (r != Done ==> s' == s)
  {
    Listed(s, list);
    hide Elements;
    if gid in s.groups { Apart(Elements(list), s.groups[gid].members); }
  }

  /** The `i`-th listed user is neither owner nor member; all before are members and not the owner. */
  predicate FirstStranger(g: Group, list: seq<Uid>, i: nat)
    requires g.ty.Private? && i < |list|
  {
    && list[i] !in g.members && list[i] != g.ty.owner
    && forall j :: 0 <= j < i ==> list[j] in g.members && list[j] != g.ty.owner
  }

  /** The first listed user who is the owner or no member decides. */
  lemma {:induction false} RemovalDecided(g: Group, list: seq<Uid>)
    requires g.ty.Private?
    ensures var r := RemovalRefused(g, list);
      && (r == None <==> forall u :: u in list ==> u in g.members && u != g.ty.owner)
      && (r == None || r == Some(Forbidden) || r == Some(NotFound))
      && (r == Some(NotFound) <==>
            exists i :: 0 <= i < |list| && FirstStranger(g, list, i))
  {
    if list != [] {
      var front, last := list[..|list| - 1], list[|list| - 1];
      RemovalDecided(g, front);
      assert forall u :: u in list <==> u in front || u == last;
      assert forall i :: 0 <= i < |front| ==> list[i] == front[i];
      assert forall i :: 0 <= i < |front| ==> (FirstStranger(g, list, i) <==> FirstStranger(g, front, i));
      if RemovalRefused(g, front) == None {
        assert forall j :: 0 <= j < |front| ==> front[j] in front;
        assert FirstStranger(g, list, |front|) <==> last !in g.members && last != g.ty.owner;
      } else {
        assert !FirstStranger(g, list, |front|);
      }
    }
  }

  /** When removing is refused, and whether the owner or a stranger is the reason. */
  lemma RemovingRefusedExactly(s: State, caller: Caller, gid: Gid, list: seq<Uid>)
    ensures var (s', r) := Next(s, RemoveMembers(caller, gid, list));
      var may := Manages(s, caller, gid) && s.groups[gid].ty.Private?;
      && (r == Done <==>
            may && forall u :: u in list ==> u in s.groups[gid].members && u != s.groups[gid].ty.owner)
      && (r == NotFound <==>
            gid !in s.groups || (may && exists i :: 0 <= i < |list| && FirstStranger(s.groups[gid], list, i)))
      && (r == Forbidden <==> r != Done && r != NotFound)
      && (r != Done ==> s' == s)
  {
    if gid in s.groups && s.groups[gid].ty.Private? { RemovalDecided(s.groups[gid], list); }
  }
}
