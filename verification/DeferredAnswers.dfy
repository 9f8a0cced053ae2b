/**
 What the requests around deferred messages answer and store, said of the columns and rows they
 touch: publishing an identity, listing pending messages, posting an envelope, retiring a device.
 */
module DeferredAnswers {
  import opened Wrappers
  import opened Bytes
  import opened Keys
  import opened DeferredDm

  // ---- projecting ----

  /**
   Projecting a marker adds its row, incomplete, unless there is one for its id already; it fails for a
   time that cannot be represented and for a row of another sender or target, each with its own error.
   */
  lemma ProjectingAnswers(t: Tables, mid: I64, m: Marker)
    ensures var r := Project(t, mid, m);
      var other := mid in t.pending && (t.pending[mid].sender != m.sender || t.pending[mid].target != m.target);
      && (r == Err(InvalidMarker) <==> !Representable(m.createdAt))
      && (r == Err(MetadataConflict) <==> Representable(m.createdAt) && other)
      && (r.Ok? ==>
            && r.value == t.(pending := r.value.pending)
            && (mid in t.pending ==> r.value == t)
            && (mid !in t.pending ==>
                  && (forall n :: n in r.value.pending <==> n == mid || n in t.pending)
                  && (forall n :: n in t.pending ==> r.value.pending[n] == t.pending[n])
                  && r.value.pending[mid].sender == m.sender && r.value.pending[mid].target == m.target
                  && r.value.pending[mid].createdAt == m.createdAt && r.value.pending[mid].completedAt == None))
  {
    if mid in t.pending { assert t.pending[mid := t.pending[mid]] == t.pending; }
  }

  // ---- publishing ----

  /** An accepted publish stores the submitted keys in the token's row, which is live, and touches nothing else. */
  lemma PublishStoresTheKeys(t: Tables, token: Device, name: string, material: Material, protocol: int)
    requires Publish(t, token, name, material, protocol).Ok?
    ensures var (t', p) := Publish(t, token, name, material, protocol).value;
      && token in t'.identities && !t'.identities[token].retired
      && t'.identities[token].material.identity == material.identity
      && t'.identities[token].material.signedPrekey == material.signedPrekey
      && t'.identities[token].material.signature == material.signature
      && t'.identities[token].version == p.version
      && (token !in t.identities ==> p.version == 1)
      && (token in t.identities ==>
            var stored := t.identities[token].material;
            p.version - t.identities[token].version ==
              if stored.identity == material.identity && stored.signedPrekey == material.signedPrekey
                && stored.signature == material.signature then 0 else 1)
      && (forall d :: d in t'.identities <==> d == token || d in t.identities)
      && (forall d :: d in t.identities && d != token ==> t'.identities[d] == t.identities[d])
      && t' == t.(identities := t'.identities)
  {
  }

  /** The device's keys and version are the same in both. */
  predicate SameKeys(t: Tables, t': Tables, d: Device) {
    d in t.identities ==>
      && d in t'.identities
      && t'.identities[d].material == t.identities[d].material && t'.identities[d].version == t.identities[d].version
  }

  lemma StepKeepsKeys(w: World, s: Step, d: Device)
    requires Enabled(w, s) && (s.PublishStep? ==> s.token != d)
    ensures SameKeys(w.tables, Do(w, s).tables, d)
  {
  }

  /** As long as a device does not publish, its keys and its version stay; it may be retired. */
  lemma {:induction false} KeysStay(run: seq<Step>, more: seq<Step>, token: Device)
    requires After(run + more).Some?
    requires forall i :: 0 <= i < |more| && more[i].PublishStep? ==> more[i].token != token
    ensures After(run).Some?
    ensures SameKeys(After(run).value.tables, After(run + more).value.tables, token)
  {
    hide Do, Enabled;
    if more == [] {
      assert run + more == run;
    } else {
      var front := more[..|more| - 1];
      assert (run + more)[..|run + more| - 1] == run + front;
      KeysStay(run, front, token);
      StepKeepsKeys(After(run + front).value, more[|more| - 1], token);
    }
  }

  /**
   In every run: publishing the same keys again, at once or after any steps in which the device did
   not publish, returns the version the first publish returned, and publishing others one more.
   */
  lemma RepublishingKeepsTheVersion(run: seq<Step>, more: seq<Step>, token: Device, name: string, material: Material,
                                    protocol: int, again: Material, protocol': int)
    requires After(run).Some? && Publish(After(run).value.tables, token, name, material, protocol).Ok?
    requires var run' := run + [PublishStep(token, name, material, protocol)];
      && After(run' + more).Some?
      && Publish(After(run' + more).value.tables, token, name, again, protocol').Ok?
    requires forall i :: 0 <= i < |more| && more[i].PublishStep? ==> more[i].token != token
    ensures var run' := run + [PublishStep(token, name, material, protocol)];
      var first := Publish(After(run).value.tables, token, name, material, protocol).value.1.version;
      Publish(After(run' + more).value.tables, token, name, again, protocol').value.1.version ==
        if again == material then first else first + 1
  {
    var step := PublishStep(token, name, material, protocol);
    KeysStay(run + [step], more, token);
    AfterLast(run, step);
    hide After, SameKeys, Do;
    Published(After(run).value, step, After(run + [step] + more).value.tables, again, protocol');
  }

  lemma AfterLast(run: seq<Step>, s: Step)
    requires After(run + [s]).Some?
    ensures After(run).Some? && Enabled(After(run).value, s) && After(run + [s]) == Some(Do(After(run).value, s))
  {
    assert (run + [s])[..|run|] == run;
  }

  lemma Published(w: World, s: Step, t: Tables, again: Material, protocol: int)
    requires s.PublishStep? && Publish(w.tables, s.token, s.name, s.material, s.protocol).Ok?
    requires SameKeys(Do(w, s).tables, t, s.token) && Publish(t, s.token, s.name, again, protocol).Ok?
    ensures var first := Publish(w.tables, s.token, s.name, s.material, s.protocol).value.1.version;
      Publish(t, s.token, s.name, again, protocol).value.1.version ==
        if again == s.material then first else first + 1
  {
  }

  /** Why a publish is refused: the first of these that applies. */
  lemma PublishRefusals(t: Tables, token: Device, name: string, material: Material, protocol: int)
    ensures var r := Publish(t, token, name, material, protocol);
      var named := name == token.name;
      var filled := name != "" && material.identity != "";
      var signed := protocol < 2 || (Visible(material.signedPrekey) && Visible(material.signature));
      && (r == Err(DeviceMismatch) <==> !named)
      && (r == Err(Malformed) <==> named && !filled)
      && (r == Err(SignedPrekeyRequired) <==> named && filled && !signed)
      && (r == Err(DeviceRevoked) <==> named && filled && signed && token !in t.devices)
      && (r.Ok? <==> named && filled && signed && token in t.devices)
  {
  }

  /** Something is left of the text when it is trimmed. */
  predicate Visible(s: Option<string>) {
    s.Some? && exists i :: 0 <= i < |s.value| && s.value[i] !in " \t\n\r"
  }

  // ---- pending messages ----

  /**
   In every run, what a sender is shown as pending for a user: its messages to that user that nobody
   has an envelope for, and those that some device of the user, published, logged in and not retired,
   has none for at its present version.
   */
  lemma PendingExactly(run: seq<Step>, sender: I64, target: I64, mid: I64)
    requires After(run).Some?
    ensures var t := After(run).value.tables;
      mid in GetPending(t, sender, target) <==>
        && mid in t.pending && t.pending[mid].sender == sender && t.pending[mid].target == target
        && ((forall e :: e in t.envelopes ==> e.mid != mid)
            || exists d :: d in t.identities && d in t.devices && d.uid == target && !t.identities[d].retired
                 && EnvelopeKey(mid, d, t.identities[d].version) !in t.envelopes)
  {
    hide After;
    InvariantOfRun(run);
    var t := After(run).value.tables;
    if mid in t.pending {
      assert t.pending[mid].completedAt.Some? <==> HasEnvelope(t, mid);
      assert forall d :: d in t.identities ==> (Lacks(t, mid, d) <==>
            d in t.devices && d.uid == t.pending[mid].target && !t.identities[d].retired
              && EnvelopeKey(mid, d, t.identities[d].version) !in t.envelopes);
    }
  }

  // ---- posting ----

  /** Why a post is refused: the first of these that applies. */
  lemma PostRefusals(t: Tables, token: Device, mid: I64, recipient: Device, envelope: string, now: int)
    ensures var r := Post(t, token, mid, recipient, envelope, now);
      var filled := recipient.name != "" && envelope != "";
      var known := filled && token in t.devices && mid in t.pending;
      && (r == Err(BadRequest) <==> !filled)
      && (r == Err(SenderRevoked) <==> filled && token !in t.devices)
      && (r == Err(NotFound) <==> filled && token in t.devices && mid !in t.pending)
      && (r == Err(Forbidden) <==> known && token.uid != t.pending[mid].sender)
      && (r == Err(WrongRecipient) <==>
            known && token.uid == t.pending[mid].sender && recipient.uid != t.pending[mid].target)
      && (r == Err(UnknownDevice) <==>
            && known && token.uid == t.pending[mid].sender && recipient.uid == t.pending[mid].target
            && !(recipient in t.identities && recipient in t.devices && !t.identities[recipient].retired))
  {
  }

  /**
   An accepted post stores the envelope under the recipient's present version unless there is one,
   and then the message is complete as of now unless it was before. Nothing else changes.
   */
  lemma PostStoresTheEnvelope(t: Tables, token: Device, mid: I64, recipient: Device, envelope: string, now: int)
    requires Post(t, token, mid, recipient, envelope, now).Ok?
    ensures var (t', version) := Post(t, token, mid, recipient, envelope, now).value;
      var key := EnvelopeKey(mid, recipient, version);
      && recipient in t.identities && version == t.identities[recipient].version
      && (key in t.envelopes ==> t' == t)
      && (key !in t.envelopes ==>
            && (forall e :: e in t'.envelopes <==> e == key || e in t.envelopes)
            && t'.envelopes[key] == envelope
            && (forall e :: e in t.envelopes ==> t'.envelopes[e] == t.envelopes[e])
            && (forall m :: m in t'.pending <==> m in t.pending)
            && (forall m :: m in t.pending && m != mid ==> t'.pending[m] == t.pending[m])
            && mid in t.pending && t'.pending[mid].completedAt ==
              (if t.pending[mid].completedAt.Some? then t.pending[mid].completedAt else Some(now))
            && t'.pending[mid] == t.pending[mid].(completedAt := t'.pending[mid].completedAt)
            && t' == t.(envelopes := t'.envelopes, pending := t'.pending))
  {
  }

  // ---- devices ----

  /**
   A device that is logged out or deleted is shut out until it logs in: it can neither publish nor
   post, nobody can post for it, and no message is pending on its account. Its keys, its version and
   everybody else's rows stay.
   */
  lemma RetiringShutsOut(t: Tables, d: Device)
    ensures var t' := Retire(t, d);
      && (forall name, material, protocol :: Publish(t', d, name, material, protocol).Err?)
      && (forall mid, e, envelope, now :: Post(t', d, mid, e, envelope, now).Err?)
      && (forall c, mid, envelope, now :: Post(t', c, mid, d, envelope, now).Err?)
      && (forall mid :: mid in t'.pending ==> !Lacks(t', mid, d))
      && (d in t.identities ==> d in t'.identities && t'.identities[d] == t.identities[d].(retired := true))
      && t'.identities.Keys == t.identities.Keys && t'.devices == t.devices - {d}
      && (forall e :: e in t.identities && e != d ==> t'.identities[e] == t.identities[e])
      && t' == t.(identities := t'.identities, devices := t'.devices)
  {
  }

  /** Logging in is not enough to be written to again: the device has to publish, and then it is current. */
  lemma ReturningDevice(t: Tables, d: Device, material: Material, protocol: int)
    requires var t' := Login(Retire(t, d), d); Publish(t', d, d.name, material, protocol).Ok?
    ensures var t' := Login(Retire(t, d), d);
      && !Current(t', d)
      && Current(Publish(t', d, d.name, material, protocol).value.0, d)
      && t'.devices == t.devices + {d}
  {
  }

  // ---- the steps of a run are these requests ----

  lemma Extend(run: seq<Step>, s: Step)
    requires After(run).Some? && Enabled(After(run).value, s)
    ensures After(run + [s]) == Some(Do(After(run).value, s))
  {
    assert (run + [s])[..|run|] == run;
  }

  /** A reconciler that is left alone: it projects and unmarks one marker after the other. */
  function Alone(worker: nat, count: nat): seq<Step> {
    if count == 0 then [] else [ProjectFirst(worker), UnmarkFirst(worker)] + Alone(worker, count - 1)
  }

  /** In every run the steps of a reconciler, taken one after the other, come to the same as one reconcile. */
  lemma {:induction false} AloneIsReconcile(run: seq<Step>, worker: nat)
    requires After(run).Some? && worker in After(run).value.workers && !After(run).value.workers[worker].projected
    ensures var w := After(run).value;
      var todo := w.workers[worker].todo;
      && After(run + Alone(worker, |todo|)).Some?
      && After(run + Alone(worker, |todo|)).value.tables == Reconcile(w.tables, todo).0
      && Reconcile(w.tables, todo).1 == None
    decreases |After(run).value.workers[worker].todo|
  {
    var w := After(run).value;
    var todo := w.workers[worker].todo;
    if todo == [] {
      assert run + Alone(worker, 0) == run;
    } else {
      OneMarker(run, worker);
      var longer := run + [ProjectFirst(worker)] + [UnmarkFirst(worker)];
      assert run + Alone(worker, |todo|) == longer + Alone(worker, |todo| - 1);
      hide Project, Do, After;
      AloneIsReconcile(longer, worker);
    }
  }

  lemma OneMarker(run: seq<Step>, worker: nat)
    requires After(run).Some? && worker in After(run).value.workers && !After(run).value.workers[worker].projected
    requires After(run).value.workers[worker].todo != []
    ensures var w := After(run).value;
      var todo := w.workers[worker].todo;
      var p := Project(w.tables, todo[0].0, todo[0].1);
      && p.Ok?
      && After(run + [ProjectFirst(worker)] + [UnmarkFirst(worker)]).Some?
      && var w' := After(run + [ProjectFirst(worker)] + [UnmarkFirst(worker)]).value;
         w'.tables == Unmark(p.value, todo[0].0)
         && worker in w'.workers && w'.workers[worker] == Worker(todo[1..], false)
  {
    InvariantOfRun(run);
    var w := After(run).value;
    var first := w.workers[worker].todo[0];
    SentMarkersProject(w.tables, w.sent, first.0);
    hide After, Project, Unmark, Invariant;
    Extend(run, ProjectFirst(worker));
    Extend(run + [ProjectFirst(worker)], UnmarkFirst(worker));
  }

  /** A reconciler that meets a marker it cannot project is gone, and that is on record; nothing else changed. */
  lemma FailedWorkerStops(w: World, worker: nat)
    requires Enabled(w, ProjectFirst(worker))
    ensures var first, w' := w.workers[worker].todo[0], Do(w, ProjectFirst(worker));
      && (w'.failed <==> w.failed || Project(w.tables, first.0, first.1).Err?)
      && (worker in w'.workers <==> Project(w.tables, first.0, first.1).Ok?)
      && (Project(w.tables, first.0, first.1).Err? ==> w'.tables == w.tables)
  {
  }

  /** What is stored after a step because of it. */
  predicate TookEffect(w: World, s: Step, w': World) {
    match s
    case Send(mid, marker) => mid in w'.tables.markers && w'.tables.markers[mid] == marker
    case Start(worker, todo) => worker in w'.workers && w'.workers[worker] == Worker(todo, false)
    case AppendStep(key, envelope, _) =>
      && key in w'.tables.envelopes
      && w'.tables.envelopes[key] == if key in w.tables.envelopes then w.tables.envelopes[key] else envelope
    case PostStep(token, mid, d, envelope, now) =>
      if Post(w.tables, token, mid, d, envelope, now).Err? then w' == w
      else d in w'.tables.identities && EnvelopeKey(mid, d, w'.tables.identities[d].version) in w'.tables.envelopes
    case PublishStep(token, name, material, protocol) =>
      if Publish(w.tables, token, name, material, protocol).Err? then w' == w
      else Current(w'.tables, token) && w'.tables.identities[token].material == material
    case LoginStep(d) => d in w'.tables.devices
    case RetireStep(d) => d !in w'.tables.devices && !Current(w'.tables, d)
    case Crash => w'.workers == map[] && w'.tables == w.tables && w'.sent == w.sent
    case _ => true
  }

  /**
   Every step of a run has taken effect when it is done: what was sent is marked, what was posted or
   appended is an envelope, what was published is current, a retired device is not; a refused request
   and a crash change no table.
   */
  lemma StepsTakeEffect(run: seq<Step>, s: Step)
    requires After(run).Some? && Enabled(After(run).value, s)
    ensures After(run + [s]).Some? && TookEffect(After(run).value, s, After(run + [s]).value)
  {
    Extend(run, s);
    hide After;
  }

  /** An append says whether it added the envelope. */
  lemma AppendReports(t: Tables, key: EnvelopeKey, envelope: string, now: int)
    requires key.mid in t.pending
    ensures Append(t, key, envelope, now).1 <==> key !in t.envelopes
  {
  }
}
