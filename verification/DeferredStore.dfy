/**
 The transactions of deferred messages as the server runs them, on tables it updates in place.

 Each method is the sequence of statements of one transaction; a method that fails leaves the
 tables as they were. Its contract equates the new tables with the transaction function of
 `DeferredDm`, about which the properties are proved.
 */
module DeferredStore {
  import opened Wrappers
  import opened Bytes
  import opened Keys
  import opened DeferredDm

  predicate InIdOrder(todo: seq<(I64, Marker)>) {
    forall i, j :: 0 <= i < j < |todo| ==> todo[i].0 < todo[j].0
  }

  predicate IsLeast(mid: I64, ids: set<I64>) {
    mid in ids && forall n :: n in ids ==> mid <= n
  }

  lemma {:induction false} LeastExists(ids: set<I64>)
    requires ids != {}
    ensures exists mid :: mid in ids && IsLeast(mid, ids)
    decreases |ids|
  {
    var mid :| mid in ids;
    if ids == {mid} {
      assert IsLeast(mid, ids);
    } else {
      LeastExists(ids - {mid});
      var n :| n in ids - {mid} && IsLeast(n, ids - {mid});
      var least := if n < mid then n else mid;
      assert forall x :: x in ids ==> x == mid || x in ids - {mid};
      assert IsLeast(least, ids);
    }
  }

  /** What has been read of some markers, in id order, when those in `rest` are left. */
  predicate ReadSoFar(todo: seq<(I64, Marker)>, markers: map<I64, Marker>, rest: set<I64>) {
    && rest <= markers.Keys && |todo| + |rest| == |markers.Keys| && InIdOrder(todo)
    && (forall i :: 0 <= i < |todo| ==> todo[i].0 in markers && markers[todo[i].0] == todo[i].1)
    && (forall i, n :: 0 <= i < |todo| && n in rest ==> todo[i].0 < n)
    && (forall mid :: mid in markers && mid !in rest ==> Listed(todo, mid))
  }

  lemma ReadOne(todo: seq<(I64, Marker)>, markers: map<I64, Marker>, rest: set<I64>, mid: I64)
    requires ReadSoFar(todo, markers, rest) && IsLeast(mid, rest) && mid in markers
    ensures ReadSoFar(todo + [(mid, markers[mid])], markers, rest - {mid})
  {
    var more := todo + [(mid, markers[mid])];
    forall n | n in markers && n !in rest - {mid} ensures Listed(more, n) {
      if n == mid {
        assert more[|todo|].0 == mid;
      } else {
        var i :| 0 <= i < |todo| && todo[i].0 == n;
        assert more[i].0 == n;
      }
    }
  }

  lemma ReadAll(todo: seq<(I64, Marker)>, markers: map<I64, Marker>)
    ensures ReadSoFar([], markers, markers.Keys)
    ensures ReadSoFar(todo, markers, {}) ==> Reads(todo, markers) && |todo| == |markers| && InIdOrder(todo)
  {
  }

  class Store {
    var markers: map<I64, Marker>
    var pending: map<I64, PendingRow>
    var envelopes: map<EnvelopeKey, string>
    var identities: map<Device, Identity>
    var devices: set<Device>

    function View(): Tables
      reads this
    {
      Tables(markers, pending, envelopes, identities, devices)
    }

    method ProjectPendingDmMarker(mid: I64, m: Marker) returns (r: Result<(), ProjectionError>)
      modifies this`pending
      ensures var p := Project(old(View()), mid, m);
        && r == (if p.Ok? then Ok(()) else Err(p.error))
        && View() == (if p.Ok? then p.value else old(View()))
    {
      if !Representable(m.createdAt) { return Err(InvalidMarker); }
      // insert ... on conflict do nothing
      var inserted := pending;
      if mid !in inserted {
        inserted := inserted[mid := PendingRow(m.sender, m.target, m.createdAt, None)];
      }
      var stored := (inserted[mid].sender, inserted[mid].target);
      if stored != (m.sender, m.target) { return Err(MetadataConflict); }
      assert mid in pending ==> inserted == pending[mid := pending[mid]];
      pending := inserted;
      r := Ok(());
    }

    /** All markers in id order, as the message store lists them. */
    method ReadMarkers() returns (todo: seq<(I64, Marker)>)
      ensures Reads(todo, markers) && |todo| == |markers| && InIdOrder(todo)
    {
      hide ReadSoFar, IsLeast;
      todo := [];
      var rest := markers.Keys;
      ReadAll(todo, markers);
      while rest != {}
        invariant rest <= markers.Keys && ReadSoFar(todo, markers, rest)
        decreases rest
      {
        LeastExists(rest);
        var mid :| mid in rest && IsLeast(mid, rest);
        ReadOne(todo, markers, rest, mid);
        todo := todo + [(mid, markers[mid])];
        rest := rest - {mid};
      }
      ReadAll(todo, markers);
    }

    /** Project every marker read at the start, removing each once its projection is in. */
    method ReconcilePendingDmMarkers() returns (r: Result<nat, ProjectionError>, ghost todo: seq<(I64, Marker)>)
      modifies this`pending, this`markers
      ensures Reads(todo, old(markers)) && InIdOrder(todo)
      ensures (View(), if r.Ok? then None else Some(r.error)) == Reconcile(old(View()), todo)
      ensures Reconciled(old(View()), View(), r.Ok?)
      ensures r.Ok? ==> r.value == |old(markers)|
    {
      hide Reconcile, Project, Reconciled, Reads;
      var read := ReadMarkers();
      todo := read;
      ghost var t0 := View();
      ReconcileOutcome(t0, read);
      var i := 0;
      assert read[0..] == read;
      while i < |read|
        invariant 0 <= i <= |read|
        invariant Reconcile(t0, read) == Reconcile(View(), read[i..])
        invariant envelopes == t0.envelopes && identities == t0.identities && devices == t0.devices
      {
        ReconcileCons(View(), read[i..]);
        var (mid, m) := read[i];
        var projected := ProjectPendingDmMarker(mid, m);
        if projected.Err? { return Err(projected.error), read; }
        markers := markers - {mid};
        assert read[i..][1..] == read[i + 1..];
        i := i + 1;
      }
      ReconcileNil(View());
      assert read[|read|..] == [];
      r := Ok(|read|);
    }

    method PutIdentity(token: Device, name: string, material: Material, protocol: int)
      returns (r: Result<Published, PublishError>)
      modifies this`identities
      ensures var p := Publish(old(View()), token, name, material, protocol);
        && r == (if p.Ok? then Ok(p.value.1) else Err(p.error))
        && View() == (if p.Ok? then p.value.0 else old(View()))
    {
      if name != token.name { return Err(DeviceMismatch); }
      if name == "" || material.identity == "" { return Err(Malformed); }
      if protocol >= 2 {
        if Blank(material.signedPrekey) || Blank(material.signature) { return Err(SignedPrekeyRequired); }
      }
      if token !in devices { return Err(DeviceRevoked); }
      var version := 1;
      if token in identities {
        version := identities[token].version;
        if identities[token].material != material { version := version + 1; }
      }
      identities := identities[token := Identity(material, version, false)];
      var waiting := WaitingSenders(View(), token, version);
      r := Ok(Published(version, waiting));
    }

    method AppendPendingEnvelopeInternal(key: EnvelopeKey, envelope: string, now: int) returns (added: bool)
      requires key.mid in pending
      modifies this`envelopes, this`pending
      ensures (View(), added) == Append(old(View()), key, envelope, now)
    {
      added := key !in envelopes;
      if added {
        envelopes := envelopes[key := envelope];
        var row := pending[key.mid];
        if row.completedAt.None? {
          pending := pending[key.mid := row.(completedAt := Some(now))];
        } else {
          assert pending == pending[key.mid := row];
        }
      }
    }

    method PostPendingEnvelope(token: Device, mid: I64, recipient: Device, envelope: string, now: int)
      returns (r: Result<int, PostError>)
      modifies this`envelopes, this`pending
      ensures var p := Post(old(View()), token, mid, recipient, envelope, now);
        && r == (if p.Ok? then Ok(p.value.1) else Err(p.error))
        && View() == (if p.Ok? then p.value.0 else old(View()))
    {
      if recipient.name == "" || envelope == "" { return Err(BadRequest); }
      if token !in devices { return Err(SenderRevoked); }
      if mid !in pending { return Err(NotFound); }
      if pending[mid].sender != token.uid { return Err(Forbidden); }
      if recipient.uid != pending[mid].target { return Err(WrongRecipient); }
      if !(recipient in identities && recipient in devices && !identities[recipient].retired) {
        return Err(UnknownDevice);
      }
      var version := identities[recipient].version;
      var _ := AppendPendingEnvelopeInternal(EnvelopeKey(mid, recipient, version), envelope, now);
      r := Ok(version);
    }
  }

  lemma ReconcileCons(t: Tables, todo: seq<(I64, Marker)>)
    requires todo != []
    ensures var p := Project(t, todo[0].0, todo[0].1);
      Reconcile(t, todo) ==
        if p.Err? then (t, Some(p.error)) else Reconcile(Unmark(p.value, todo[0].0), todo[1..])
  {
  }

  lemma ReconcileNil(t: Tables)
    ensures Reconcile(t, []) == (t, None)
  {
  }

  /** The position of the first marker that cannot be projected. */
  ghost function FirstFailure(t: Tables, todo: seq<(I64, Marker)>): (k: nat)
    ensures k <= |todo|
    ensures forall i :: 0 <= i < k ==> Projects(t, todo[i].0, todo[i].1)
    ensures k < |todo| ==> !Projects(t, todo[k].0, todo[k].1)
  {
    if todo == [] || !Projects(t, todo[0].0, todo[0].1) then 0
    else 1 + FirstFailure(t, todo[1..])
  }

  /**
   What one undisturbed reconcile leaves behind. It succeeds exactly when every marker can be
   projected, and then none is left. Otherwise a marker that cannot be projected is still there.
   Either way no message is lost: what is no longer marked has been projected as itself.
   */
  predicate Reconciled(t: Tables, t': Tables, ok: bool) {
    && (ok <==> forall mid :: mid in t.markers ==> Projects(t, mid, t.markers[mid]))
    && (ok ==> t'.markers == map[])
    && (!ok ==> exists mid :: mid in t'.markers && mid in t.markers && !Projects(t, mid, t.markers[mid]))
    && (forall mid :: mid in t.markers ==>
          || (mid in t'.markers && t'.markers[mid] == t.markers[mid])
          || (mid in t'.pending && t'.pending[mid].sender == t.markers[mid].sender
            && t'.pending[mid].target == t.markers[mid].target))
    && (forall mid :: mid in t.pending ==> mid in t'.pending && t'.pending[mid] == t.pending[mid])
  }

  /** Each marker read is in the list of what was projected, or in the rest. */
  lemma EveryMarkerListed(t: Tables, todo: seq<(I64, Marker)>, k: nat)
    requires Reads(todo, t.markers) && k <= |todo|
    ensures Distinct(todo)
    ensures forall mid :: mid in t.markers <==> mid in Ids(todo)
    ensures forall mid :: mid in Ids(todo[..k]) ==> exists i :: 0 <= i < k && todo[i].0 == mid
    ensures k < |todo| ==> todo[k].0 in t.markers && todo[k].0 !in Ids(todo[..k])
  {
    forall mid | mid in t.markers ensures mid in Ids(todo) {
      assert Listed(todo, mid);
    }
  }

  lemma ReconcileOutcome(t: Tables, todo: seq<(I64, Marker)>)
    requires Reads(todo, t.markers)
    ensures Reconciled(t, Reconcile(t, todo).0, Reconcile(t, todo).1.None?)
  {
    hide Reconcile, Projects, Ids;
    var k := FirstFailure(t, todo);
    EveryMarkerListed(t, todo, k);
    assert forall i :: 0 <= i < |todo| ==> todo[i].0 in t.markers && t.markers[todo[i].0] == todo[i].1;
    hide Reads;
    ReconcileStopsAtFirstFailure(t, todo, k);
    var (t', e) := Reconcile(t, todo);
    assert todo[..|todo|] == todo;
    if k < |todo| {
      assert todo[k].0 in t'.markers && !Projects(t, todo[k].0, t.markers[todo[k].0]);
    } else {
      forall mid | mid in t.markers ensures Projects(t, mid, t.markers[mid]) {
        var i :| 0 <= i < |todo| && todo[i].0 == mid;
      }
    }
    forall mid | mid in t.markers && mid !in t'.markers
      ensures mid in t'.pending && t'.pending[mid].sender == t.markers[mid].sender
        && t'.pending[mid].target == t.markers[mid].target
    {
      var i :| 0 <= i < k && todo[i].0 == mid;
    }
  }
}
