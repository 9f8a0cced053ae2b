/**
 Groups as the server keeps them: rows in the database, and a cache of them in memory that every
 request updates after its transaction. The cache stays what loading the database would give.
 */
module GroupStore {
  import opened Wrappers
  import opened Groups

  datatype Row = Row(
    name: string, description: string, owner: Option<Uid>, isPublic: bool, e2eEnabled: bool, updatedAt: int)
  datatype Membership = Membership(gid: Gid, uid: Uid)

  function MembersOf(memberships: set<Membership>, gid: Gid): set<Uid> {
    set m | m in memberships && m.gid == gid :: m.uid
  }

  /** A private row without an owner cannot be loaded. */
  predicate Loadable(row: Row) {
    row.isPublic || row.owner.Some?
  }

  function GroupOf(row: Row, members: set<Uid>): Group
    requires Loadable(row)
  {
    Group(if row.isPublic then Public else Private(row.owner.value), row.name, row.description, members, row.e2eEnabled)
  }

  /** What loading gives; None is the load that panics on a missing owner. */
  function Load(rows: map<Gid, Row>, memberships: set<Membership>): Option<map<Gid, Group>> {
    if forall gid :: gid in rows ==> Loadable(rows[gid])
    then Some(map gid | gid in rows :: GroupOf(rows[gid], MembersOf(memberships, gid)))
    else None
  }

  lemma MembersSnoc(memberships: set<Membership>, m: Membership, gid: Gid)
    ensures MembersOf(memberships + {m}, gid) == MembersOf(memberships, gid) + if m.gid == gid then {m.uid} else {}
  {
    assert forall x :: x in memberships + {m} <==> x in memberships || x == m;
    assert m in memberships + {m};
  }

  function OfGroup(gid: Gid, uids: set<Uid>): (s: set<Membership>)
    ensures forall m :: m in s <==> m.gid == gid && m.uid in uids
  {
    set u | u in uids :: Membership(gid, u)
  }

  lemma MembersExactly(memberships: set<Membership>, gid: Gid)
    ensures forall uid :: uid in MembersOf(memberships, gid) <==> Membership(gid, uid) in memberships
  {
    forall uid ensures uid in MembersOf(memberships, gid) <==> Membership(gid, uid) in memberships {
      if uid in MembersOf(memberships, gid) {
        var m :| m in memberships && m.gid == gid && m.uid == uid;
        assert m == Membership(gid, uid);
      }
      if Membership(gid, uid) in memberships {
        var m := Membership(gid, uid);
        assert m in memberships && m.gid == gid && m.uid == uid;
      }
    }
  }

  lemma ExactMembers(memberships: set<Membership>, gid: Gid, members: set<Uid>)
    requires forall uid :: Membership(gid, uid) in memberships <==> uid in members
    ensures MembersOf(memberships, gid) == members
  {
    MembersExactly(memberships, gid);
    assert forall uid: Uid :: uid in MembersOf(memberships, gid) <==> uid in members;
  }

  lemma SameMembers(a: set<Membership>, b: set<Membership>, gid: Gid)
    requires forall m: Membership :: m.gid == gid ==> (m in a <==> m in b)
    ensures MembersOf(a, gid) == MembersOf(b, gid)
  {
    MembersExactly(a, gid);
    MembersExactly(b, gid);
  }

  /** Changing one row and that group's memberships changes that group in the loaded map and no other. */
  lemma LoadChanges(rows: map<Gid, Row>, before: set<Membership>, gid: Gid, row: Row, after: set<Membership>,
                    members: set<Uid>)
    requires Load(rows, before).Some? && Loadable(row)
    requires forall m: Membership :: m.gid != gid ==> (m in after <==> m in before)
    requires forall uid :: Membership(gid, uid) in after <==> uid in members
    ensures Load(rows[gid := row], after) == Some(Load(rows, before).value[gid := GroupOf(row, members)])
  {
    hide MembersOf;
    ExactMembers(after, gid, members);
    forall g | g != gid ensures MembersOf(after, g) == MembersOf(before, g) { SameMembers(after, before, g); }
    assert Load(rows[gid := row], after).value == Load(rows, before).value[gid := GroupOf(row, members)];
  }

  lemma SameLoadable(rows: map<Gid, Row>, a: set<Membership>, b: set<Membership>)
    ensures Load(rows, a).Some? <==> Load(rows, b).Some?
  {
  }

  /** One more membership adds one member to its group, if that exists. */
  lemma LoadOne(rows: map<Gid, Row>, memberships: set<Membership>, m: Membership)
    requires Load(rows, memberships).Some?
    ensures Load(rows, memberships + {m}) == Some(WithMember(Load(rows, memberships).value, m))
  {
    hide MembersOf;
    forall gid
      ensures MembersOf(memberships + {m}, gid) == MembersOf(memberships, gid) + if m.gid == gid then {m.uid} else {}
    {
      MembersSnoc(memberships, m, gid);
    }
    var loaded, grown := Load(rows, memberships + {m}).value, WithMember(Load(rows, memberships).value, m);
    assert forall gid :: gid in rows ==> loaded[gid] == grown[gid];
    assert loaded == grown;
  }

  function WithMember(groups: map<Gid, Group>, m: Membership): map<Gid, Group> {
    if m.gid in groups then groups[m.gid := groups[m.gid].(members := groups[m.gid].members + {m.uid})] else groups
  }

  lemma LoadForgets(rows: map<Gid, Row>, before: set<Membership>, gid: Gid, after: set<Membership>)
    requires Load(rows, before).Some?
    requires forall m :: m in after <==> m in before && m.gid != gid
    ensures Load(rows - {gid}, after) == Some(Load(rows, before).value - {gid})
  {
    hide MembersOf;
    forall g | g != gid ensures MembersOf(after, g) == MembersOf(before, g) { SameMembers(after, before, g); }
    assert Load(rows - {gid}, after).value == Load(rows, before).value - {gid};
  }

  /** With the memberships at hand, what the cache says of a loaded group. */
  lemma LoadedGroup(rows: map<Gid, Row>, memberships: set<Membership>, gid: Gid)
    requires Load(rows, memberships).Some? && gid in rows
    ensures var g := Load(rows, memberships).value[gid];
      && Loadable(rows[gid])
      && g == GroupOf(rows[gid], g.members)
      && forall uid :: uid in g.members <==> Membership(gid, uid) in memberships
  {
    MembersExactly(memberships, gid);
  }

  // ---- the update statement ----

  datatype Column = NameColumn | OwnerColumn | DescriptionColumn | E2eEnabledColumn | UpdatedAtColumn
  datatype Binding =
    | TextBinding(text: string)
    | NumberBinding(number: Uid)
    | FlagBinding(flag: bool)
    | TimeBinding(time: int)

  /** `set column = ?` with the value bound at that place. */
  function Assigned(row: Row, column: Column, binding: Binding): Row {
    match (column, binding)
    case (NameColumn, TextBinding(t)) => row.(name := t)
    case (OwnerColumn, NumberBinding(n)) => row.(owner := Some(n))
    case (DescriptionColumn, TextBinding(t)) => row.(description := t)
    case (E2eEnabledColumn, FlagBinding(f)) => row.(e2eEnabled := f)
    case (UpdatedAtColumn, TimeBinding(t)) => row.(updatedAt := t)
    case _ => row
  }

  function AssignAll(row: Row, columns: seq<Column>, bindings: seq<Binding>): Row
    requires |columns| == |bindings|
  {
    if columns == [] then row
    else Assigned(AssignAll(row, columns[..|columns| - 1], bindings[..|bindings| - 1]), columns[|columns| - 1],
      bindings[|bindings| - 1])
  }

  function Optionally<T>(present: bool, x: T): seq<T> {
    if present then [x] else []
  }

  /** One column and one bound value for each field the request sets, in one order. */
  function Columns(c: Changes): seq<Column> {
    Optionally(c.name.Some?, NameColumn) + Optionally(c.owner.Some?, OwnerColumn)
    + Optionally(c.description.Some?, DescriptionColumn) + Optionally(c.e2eEnabled.Some?, E2eEnabledColumn)
    + [UpdatedAtColumn]
  }

  function RowChanged(row: Row, c: Changes, now: int): Row {
    Row(if c.name.Some? then c.name.value else row.name,
        if c.description.Some? then c.description.value else row.description,
        if c.owner.Some? then c.owner else row.owner,
        row.isPublic,
        if c.e2eEnabled.Some? then c.e2eEnabled.value else row.e2eEnabled,
        now)
  }

  function Bindings(c: Changes, now: int): seq<Binding> {
    Optionally(c.name.Some?, TextBinding(if c.name.Some? then c.name.value else ""))
    + Optionally(c.owner.Some?, NumberBinding(if c.owner.Some? then c.owner.value else 0))
    + Optionally(c.description.Some?, TextBinding(if c.description.Some? then c.description.value else ""))
    + Optionally(c.e2eEnabled.Some?, FlagBinding(c.e2eEnabled.Some? && c.e2eEnabled.value))
    + [TimeBinding(now)]
  }

  lemma AssignMore(row: Row, columns: seq<Column>, bindings: seq<Binding>, present: bool, column: Column,
                   binding: Binding)
    requires |columns| == |bindings|
    ensures AssignAll(row, columns + Optionally(present, column), bindings + Optionally(present, binding)) ==
      if present then Assigned(AssignAll(row, columns, bindings), column, binding)
      else AssignAll(row, columns, bindings)
  {
    if present {
      assert (columns + [column])[..|columns|] == columns && (bindings + [binding])[..|bindings|] == bindings;
    } else {
      assert columns + [] == columns && bindings + [] == bindings;
    }
  }

  /** Each column of the statement gets the value meant for it, whichever are present. */
  lemma UpdateAssigns(row: Row, c: Changes, now: int)
    ensures |Columns(c)| == |Bindings(c, now)|
    ensures AssignAll(row, Columns(c), Bindings(c, now)) == RowChanged(row, c, now)
    ensures RowChanged(row, c, now).updatedAt == now && RowChanged(row, c, now).isPublic == row.isPublic
  {
    hide AssignAll;
    var name := TextBinding(if c.name.Some? then c.name.value else "");
    var owner := NumberBinding(if c.owner.Some? then c.owner.value else 0);
    var description := TextBinding(if c.description.Some? then c.description.value else "");
    var e2e := FlagBinding(c.e2eEnabled.Some? && c.e2eEnabled.value);
    AssignNone(row);
    AssignMore(row, [], [], c.name.Some?, NameColumn, name);
    var columns, bindings := Optionally(c.name.Some?, NameColumn), Optionally(c.name.Some?, name);
    assert [] + columns == columns && [] + bindings == bindings;
    AssignMore(row, columns, bindings, c.owner.Some?, OwnerColumn, owner);
    columns, bindings := columns + Optionally(c.owner.Some?, OwnerColumn), bindings + Optionally(c.owner.Some?, owner);
    AssignMore(row, columns, bindings, c.description.Some?, DescriptionColumn, description);
    columns, bindings :=
      columns + Optionally(c.description.Some?, DescriptionColumn),
      bindings + Optionally(c.description.Some?, description);
    AssignMore(row, columns, bindings, c.e2eEnabled.Some?, E2eEnabledColumn, e2e);
    columns, bindings :=
      columns + Optionally(c.e2eEnabled.Some?, E2eEnabledColumn), bindings + Optionally(c.e2eEnabled.Some?, e2e);
    AssignMore(row, columns, bindings, true, UpdatedAtColumn, TimeBinding(now));
  }

  lemma AssignNone(row: Row)
    ensures AssignAll(row, [], []) == row
  {
  }

  // ---- the store ----

  /** The set as a list, in some order. */
  method Listed(s: set<Uid>) returns (list: seq<Uid>)
    ensures Distinct(list) && Elements(list) == s
  {
    list := [];
    var rest := s;
    while exists u :: u in rest
      invariant rest <= s && Distinct(list) && Elements(list) == s - rest
      decreases |rest|
    {
      var u :| u in rest;
      assert u !in Elements(list);
      ElementsSnoc(list, u);
      list := list + [u];
      rest := rest - {u};
    }
  }

  class Store {
    var rows: map<Gid, Row>
    var memberships: set<Membership>
    var nextGid: Gid
    var users: map<Uid, bool>
    var cache: map<Gid, Group>

    /** What users see is the cache. */
    function View(): State
      reads this
    {
      State(cache, nextGid, users)
    }

    /** The cache is the database, which keeps its foreign keys and row ids. */
    predicate InSync()
      reads this
    {
      && Load(rows, memberships) == Some(cache)
      && (forall m :: m in memberships ==> m.gid in rows && m.uid in users)
      && (forall gid :: gid in rows ==> gid < nextGid)
    }

    constructor (users: map<Uid, bool>)
      ensures InSync() && View() == State(map[], 0, users)
    {
      rows, memberships, nextGid, this.users, cache := map[], {}, 0, users, map[];
    }

    /** The groups, still without members. */
    method LoadRows() returns (loaded: Option<map<Gid, Group>>)
      ensures loaded == Load(rows, {})
    {
      var groups: map<Gid, Group> := map[];
      var rest := rows.Keys;
      while rest != {}
        invariant rest <= rows.Keys
        invariant groups.Keys == rows.Keys - rest
        invariant forall gid :: gid in groups ==> Loadable(rows[gid]) && groups[gid] == GroupOf(rows[gid], {})
        decreases |rest|
      {
        var gid :| gid in rest;
        var row := rows[gid];
        if !row.isPublic && row.owner.None? { return None; }
        var ty := if row.isPublic then Public else Private(row.owner.value);
        groups := groups[gid := Group(ty, row.name, row.description, {}, row.e2eEnabled)];
        rest := rest - {gid};
      }
      assert groups == map gid | gid in rows :: GroupOf(rows[gid], {}) by {
        assert forall gid :: gid in rows ==> gid in groups;
      }
      NoMembers(rows);
      loaded := Some(groups);
    }

    lemma NoMembers(rows: map<Gid, Row>)
      requires forall gid :: gid in rows ==> Loadable(rows[gid])
      ensures Load(rows, {}) == Some(map gid | gid in rows :: GroupOf(rows[gid], {}))
    {
      forall gid ensures MembersOf({}, gid) == {} {}
      assert Load(rows, {}).value == map gid | gid in rows :: GroupOf(rows[gid], {});
    }

    /** Filling the cache at start: first the groups, then each membership. */
    method LoadGroupsCache() returns (loaded: Option<map<Gid, Group>>)
      ensures loaded == Load(rows, memberships)
    {
      hide Load;
      loaded := LoadRows();
      if loaded.None? {
        SameLoadable(rows, {}, memberships);
        return;
      }
      var groups, todo := loaded.value, memberships;
      assert memberships - todo == {};
      while todo != {}
        invariant todo <= memberships
        invariant Load(rows, memberships - todo) == Some(groups)
        decreases |todo|
      {
        var m :| m in todo;
        ghost var done := memberships - todo;
        assert memberships - (todo - {m}) == done + {m};
        LoadOne(rows, done, m);
        if m.gid in groups {
          groups := groups[m.gid := groups[m.gid].(members := groups[m.gid].members + {m.uid})];
        }
        assert groups == WithMember(Load(rows, done).value, m);
        todo := todo - {m};
      }
      assert memberships - todo == memberships;
      loaded := Some(groups);
    }

    /** A reload at any time succeeds and gives what the cache holds. */
    method Reload() returns (groups: map<Gid, Group>)
      requires InSync()
      ensures groups == cache
    {
      var loaded := LoadGroupsCache();
      groups := loaded.value;
    }

    method Register(uid: Uid, isGuest: bool)
      requires InSync()
      modifies this`users
      ensures InSync() && View() == Next(old(View()), Op.Register(uid, isGuest)).0
    {
      if uid !in users { users := users[uid := isGuest]; }
    }

    /** Inserts inside a transaction; None is a violated constraint, which rolls it back. */
    method InsertMembers(gid: Gid, list: seq<Uid>) returns (r: Option<set<Membership>>)
      requires forall m :: m in memberships ==> m.gid != gid || m.uid !in Elements(list)
      ensures r.Some? <==> Distinct(list) && Elements(list) <= users.Keys
      ensures r.Some? ==> r.value == memberships + OfGroup(gid, Elements(list))
    {
      var now := memberships;
      for i := 0 to |list|
        invariant Distinct(list[..i]) && forall j :: 0 <= j < i ==> list[j] in users
        invariant forall m :: m in now <==>
          m in memberships || (m.gid == gid && exists j :: 0 <= j < i && list[j] == m.uid)
      {
        assert list[i] in Elements(list);
        var m := Membership(gid, list[i]);
        if m in now { return None; }
        if list[i] !in users { return None; }
        now := now + {m};
      }
      assert list[..|list|] == list;
      assert now == memberships + OfGroup(gid, Elements(list));
      r := Some(now);
    }

    method Create(caller: Caller, isPublic: bool, list: seq<Uid>, name: string, description: Option<string>,
                  e2eEnabled: bool, now: int)
      returns (r: Response)
      requires InSync()
      modifies this
      ensures InSync()
      ensures (View(), r) == Next(old(View()), Op.Create(caller, isPublic, list, name, description, e2eEnabled))
    {
      hide Elements, Distinct, Load;
      if isPublic && !caller.isAdmin { return Forbidden; }
      if isPublic && list != [] { return BadRequest; }
      var members: set<Uid> := if isPublic then {} else Elements(list) + {caller.uid};
      if !(members <= users.Keys) { return BadRequest; }
      var gid := nextGid;
      assert gid !in rows;
      var text := if description.Some? then description.value else "";
      var row := Row(name, text, if isPublic then None else Some(caller.uid), isPublic, e2eEnabled, now);
      var ids := Listed(members);
      var inserted := InsertMembers(gid, ids);
      LoadChanges(rows, memberships, gid, row, inserted.value, members);
      var ty := if isPublic then Public else Private(caller.uid);
      assert GroupOf(row, members) == Group(ty, name, text, members, e2eEnabled);
      rows, memberships, nextGid := rows[gid := row], inserted.value, nextGid + 1;
      cache := cache[gid := Group(ty, name, text, members, e2eEnabled)];
      r := Created(gid);
    }

    method Delete(caller: Caller, gid: Gid) returns (r: Response)
      requires InSync()
      modifies this
      ensures InSync()
      ensures (View(), r) == Next(old(View()), Op.Delete(caller, gid))
    {
      if gid !in cache { return NotFound; }
      if cache[gid].ty.Public? && !caller.isAdmin { return Forbidden; }
      if cache[gid].ty.Private? && cache[gid].ty.owner != caller.uid && !caller.isAdmin { return Forbidden; }
      // cascades to the memberships
      var kept := set m | m in memberships && m.gid != gid;
      LoadForgets(rows, memberships, gid, kept);
      rows, memberships := rows - {gid}, kept;
      cache := cache - {gid};
      r := Done;
    }

    method UpdateRow(row: Row, c: Changes, now: int) returns (updated: Row)
      ensures updated == RowChanged(row, c, now)
    {
      hide AssignAll, RowChanged;
      UpdateAssigns(row, c, now);
      var columns := Columns(c);
      var bindings: seq<Binding> := [];
      if c.name.Some? { bindings := bindings + [TextBinding(c.name.value)]; }
      if c.owner.Some? { bindings := bindings + [NumberBinding(c.owner.value)]; }
      if c.description.Some? { bindings := bindings + [TextBinding(c.description.value)]; }
      if c.e2eEnabled.Some? { bindings := bindings + [FlagBinding(c.e2eEnabled.value)]; }
      bindings := bindings + [TimeBinding(now)];
      assert bindings == Bindings(c, now);
      updated := AssignAll(row, columns, bindings);
    }

    method Update(caller: Caller, gid: Gid, c: Changes, now: int) returns (r: Response)
      requires InSync()
      modifies this
      ensures InSync()
      ensures (View(), r) == Next(old(View()), Op.Update(caller, gid, c))
      ensures r == Done ==> rows == old(rows)[gid := RowChanged(old(rows)[gid], c, now)]
      ensures r != Done ==> rows == old(rows)
    {
      hide Load, RowChanged;
      if c.name.None? && c.owner.None? && c.description.None? && c.e2eEnabled.None? { return BadRequest; }
      if gid !in cache { return NotFound; }
      var g := cache[gid];
      if g.ty.Public? && !caller.isAdmin { return Forbidden; }
      if g.ty.Private? && g.ty.owner != caller.uid && !caller.isAdmin { return Forbidden; }
      if c.owner.Some? {
        if g.ty.Public? { return Forbidden; }
        if !g.ContainsUser(c.owner.value) { return BadRequest; }
      }
      assert gid in rows by { RowsAreCached(); }
      LoadedGroup(rows, memberships, gid);
      var row := UpdateRow(rows[gid], c, now);
      ChangedRowLoads(rows[gid], c, now, g);
      LoadChanges(rows, memberships, gid, row, memberships, g.members);
      rows := rows[gid := row];
      if c.name.Some? { g := g.(name := c.name.value); }
      if c.description.Some? { g := g.(description := c.description.value); }
      if c.owner.Some? && g.ty.Private? { g := g.(ty := Private(c.owner.value)); }
      if c.e2eEnabled.Some? { g := g.(e2eEnabled := c.e2eEnabled.value); }
      cache := cache[gid := g];
      r := Done;
    }

    /** The changed row loads as the changed group. */
    lemma ChangedRowLoads(row: Row, c: Changes, now: int, g: Group)
      requires Loadable(row) && g == GroupOf(row, g.members) && (c.owner.Some? ==> g.ty.Private?)
      ensures Loadable(RowChanged(row, c, now)) && GroupOf(RowChanged(row, c, now), g.members) == Changed(g, c)
    {
    }

    lemma RowsAreCached()
      requires InSync()
      ensures rows.Keys == cache.Keys
    {
    }

    method ChangeType(caller: Caller, gid: Gid, isPublic: bool, list: seq<Uid>) returns (r: Response)
      requires InSync()
      requires gid in cache && cache[gid].ty.Public? ==> cache[gid].members == {}
      modifies this
      ensures InSync()
      ensures (View(), r) == Next(old(View()), Op.ChangeType(caller, gid, isPublic, list))
    {
      hide Elements, Distinct, Load, NonGuests;
      if gid !in cache { return NotFound; }
      var g := cache[gid];
      if g.ty.Public? && !caller.isAdmin { return Forbidden; }
      if g.ty.Private? && g.ty.owner != caller.uid && !caller.isAdmin { return Forbidden; }
      assert gid in rows by { RowsAreCached(); }
      LoadedGroup(rows, memberships, gid);
      if g.ty.Public? && !isPublic {
        var row := rows[gid].(isPublic := false, owner := Some(caller.uid));
        var members := list;
        EmptyList();
        if list == [] { members := Listed(NonGuests(users)); }
        var inserted := InsertMembers(gid, members);
        assert NonGuests(users) <= users.Keys by { NonGuestsAreUsers(users); }
        if inserted.None? { return Internal; }
        LoadChanges(rows, memberships, gid, row, inserted.value, Elements(members));
        rows, memberships := rows[gid := row], inserted.value;
        g := g.(ty := Private(caller.uid), members := if list != [] then Elements(list) else NonGuests(users));
      } else if g.ty.Private? && isPublic {
        var row := rows[gid].(isPublic := true, owner := None);
        var kept := set m | m in memberships && m.gid != gid;
        LoadChanges(rows, memberships, gid, row, kept, {});
        rows, memberships := rows[gid := row], kept;
        g := g.(ty := Public, members := {});
      }
      assert cache[gid := cache[gid]] == cache;
      cache := cache[gid := g];
      r := Done;
    }

    lemma EmptyList()
      ensures Distinct([]) && Elements([]) == {}
    {
    }

    lemma NonGuestsAreUsers(users: map<Uid, bool>)
      ensures NonGuests(users) <= users.Keys
    {
    }

    method Leave(caller: Caller, gid: Gid) returns (r: Response)
      requires InSync()
      modifies this
      ensures InSync()
      ensures (View(), r) == Next(old(View()), Op.Leave(caller, gid))
    {
      hide Load;
      if gid !in cache { return NotFound; }
      var g := cache[gid];
      match g.ty {
        case Public => return Forbidden;
        case Private(owner) =>
          if !g.ContainsUser(caller.uid) { return Forbidden; }
          if owner == caller.uid { return Forbidden; }
      }
      assert gid in rows by { RowsAreCached(); }
      LoadedGroup(rows, memberships, gid);
      var kept := memberships - {Membership(gid, caller.uid)};
      LoadChanges(rows, memberships, gid, rows[gid], kept, g.members - {caller.uid});
      assert rows[gid := rows[gid]] == rows;
      memberships := kept;
      cache := cache[gid := g.(members := g.members - {caller.uid})];
      r := Done;
    }

    method AddMembers(caller: Caller, gid: Gid, list: seq<Uid>) returns (r: Response)
      requires InSync()
      modifies this
      ensures InSync()
      ensures (View(), r) == Next(old(View()), Op.AddMembers(caller, gid, list))
    {
      hide Elements, Distinct, Load;
      if !(Elements(list) <= users.Keys) { return BadRequest; }
      if gid !in cache { return NotFound; }
      var g := cache[gid];
      if g.ty.Public? { return Forbidden; }
      if caller.uid !in g.members && !caller.isAdmin { return Forbidden; }
      var known := AnyMember(g, list);
      if known { return BadRequest; }
      assert gid in rows by { RowsAreCached(); }
      LoadedGroup(rows, memberships, gid);
      forall m | m in memberships && m.gid == gid ensures m.uid !in Elements(list) {
        assert m == Membership(gid, m.uid) && m.uid in g.members;
        assert m.uid !in Elements(list) * g.members;
      }
      var inserted := InsertMembers(gid, list);
      if inserted.None? { return Internal; }
      LoadChanges(rows, memberships, gid, rows[gid], inserted.value, g.members + Elements(list));
      assert rows[gid := rows[gid]] == rows;
      memberships := inserted.value;
      cache := cache[gid := g.(members := g.members + Elements(list))];
      r := Done;
    }

    method AnyMember(g: Group, list: seq<Uid>) returns (any: bool)
      requires g.ty.Private?
      ensures any <==> Elements(list) * g.members != {}
    {
      for i := 0 to |list|
        invariant forall j :: 0 <= j < i ==> list[j] !in g.members
      {
        if g.ContainsUser(list[i]) {
          assert list[i] in Elements(list) * g.members;
          return true;
        }
      }
      any := false;
    }

    method CheckRemoval(g: Group, list: seq<Uid>) returns (refused: Option<Response>)
      requires g.ty.Private?
      ensures refused == RemovalRefused(g, list)
    {
      for i := 0 to |list|
        invariant RemovalRefused(g, list[..i]) == None
      {
        assert list[..i + 1][..i] == list[..i];
        if list[i] == g.ty.owner {
          RefusalStands(g, list, i + 1);
          return Some(Forbidden);
        }
        if !g.ContainsUser(list[i]) {
          RefusalStands(g, list, i + 1);
          return Some(NotFound);
        }
      }
      assert list[..|list|] == list;
      refused := None;
    }

    /** Later users do not change the answer. */
    lemma {:induction false} RefusalStands(g: Group, list: seq<Uid>, i: nat)
      requires g.ty.Private? && i <= |list| && RemovalRefused(g, list[..i]).Some?
      ensures RemovalRefused(g, list) == RemovalRefused(g, list[..i])
      decreases |list| - i
    {
      if i < |list| {
        assert list[..i + 1][..i] == list[..i];
        RefusalStands(g, list, i + 1);
      } else {
        assert list[..i] == list;
      }
    }

    method RemoveMembers(caller: Caller, gid: Gid, list: seq<Uid>) returns (r: Response)
      requires InSync()
      modifies this
      ensures InSync()
      ensures (View(), r) == Next(old(View()), Op.RemoveMembers(caller, gid, list))
    {
      hide Elements, RemovalRefused, Load;
      if gid !in cache { return NotFound; }
      var g := cache[gid];
      if g.ty.Public? { return Forbidden; }
      if g.ty.owner != caller.uid && !caller.isAdmin { return Forbidden; }
      var refused := CheckRemoval(g, list);
      if refused.Some? { return refused.value; }
      assert gid in rows by { RowsAreCached(); }
      LoadedGroup(rows, memberships, gid);
      var kept, members := memberships, g.members;
      NoneListed();
      for i := 0 to |list|
        invariant unchanged(this)
        invariant forall m :: m in kept <==> m in memberships && (m.gid == gid ==> m.uid !in Elements(list[..i]))
        invariant members == g.members - Elements(list[..i])
      {
        assert list[..i + 1] == list[..i] + [list[i]];
        ElementsSnoc(list[..i], list[i]);
        kept := kept - {Membership(gid, list[i])};
        members := members - {list[i]};
      }
      assert list[..|list|] == list;
      LoadChanges(rows, memberships, gid, rows[gid], kept, members);
      assert rows[gid := rows[gid]] == rows;
      memberships := kept;
      cache := cache[gid := g.(members := members)];
      r := Done;
    }

    lemma NoneListed()
      ensures Elements([]) == {}
    {
    }

    /** Any sequence of requests, at any times: the cache follows the groups' own story, and a reload agrees with it. */
    method Serve(ops: seq<Op>, times: seq<int>) returns (reloaded: map<Gid, Group>)
      requires InSync() && Sound(View()) && |times| == |ops|
      modifies this
      ensures InSync() && View() == After(old(View()), ops)
      ensures Sound(View())
      ensures reloaded == cache
    {
      hide Next, Load;
      for i := 0 to |ops|
        invariant InSync() && View() == After(old(View()), ops[..i])
        invariant Sound(View())
      {
        assert ops[..i + 1][..i] == ops[..i];
        SoundStep(View(), ops[i]);
        var r;
        match ops[i] {
          case Register(uid, isGuest) => Register(uid, isGuest);
          case Create(caller, isPublic, list, name, description, e2e) =>
            r := Create(caller, isPublic, list, name, description, e2e, times[i]);
          case Delete(caller, gid) => r := Delete(caller, gid);
          case Update(caller, gid, c) => r := Update(caller, gid, c, times[i]);
          case ChangeType(caller, gid, isPublic, list) => r := ChangeType(caller, gid, isPublic, list);
          case Leave(caller, gid) => r := Leave(caller, gid);
          case AddMembers(caller, gid, list) => r := AddMembers(caller, gid, list);
          case RemoveMembers(caller, gid, list) => r := RemoveMembers(caller, gid, list);
        }
      }
      assert ops[..|ops|] == ops;
      reloaded := Reload();
    }
  }
}
