/**
 Deferred direct messages: from the marker written with the message to the envelopes of every
 device of its recipient.

 A deferred message is marked in the message store and later projected into the relational
 store. Each operation here is one transaction, a function of the tables; `Step` interleaves
 them with any number of concurrent reconcilers and with crashes.
 */
module DeferredDm {
  import opened Wrappers
  import opened Bytes
  import opened Keys

  datatype Device = Device(uid: I64, name: string)

  /** What a device publishes. */
  datatype Material = Material(identity: string, signedPrekey: Option<string>, signature: Option<string>)

  datatype Identity = Identity(material: Material, version: int, retired: bool)

  /** A projected deferred message; `completedAt` is set once an envelope exists. */
  datatype PendingRow = PendingRow(sender: I64, target: I64, createdAt: int, completedAt: Option<int>)

  /** The unique key of an envelope. */
  datatype EnvelopeKey = EnvelopeKey(mid: I64, device: Device, version: int)

  datatype Tables = Tables(
    markers: map<I64, Marker>,
    pending: map<I64, PendingRow>,
    envelopes: map<EnvelopeKey, string>,
    identities: map<Device, Identity>,
    devices: set<Device>)

  // ---- projecting markers ----

  datatype ProjectionError = MetadataConflict | InvalidMarker

  const MAX_MILLIS: int := 8_000_000_000_000_000

  /** A number of milliseconds that is a point in time. */
  predicate Representable(millis: int) {
    -MAX_MILLIS <= millis <= MAX_MILLIS
  }

  /** `project_pending_dm_marker`: insert unless present, then compare with what is stored. */
  function Project(t: Tables, mid: I64, m: Marker): Result<Tables, ProjectionError> {
    if !Representable(m.createdAt) then Err(InvalidMarker)
    else
      var row := if mid in t.pending then t.pending[mid] else PendingRow(m.sender, m.target, m.createdAt, None);
      if (row.sender, row.target) != (m.sender, m.target) then Err(MetadataConflict)
      else Ok(t.(pending := t.pending[mid := row]))
  }

  function Unmark(t: Tables, mid: I64): Tables {
    t.(markers := t.markers - {mid})
  }

  /** `reconcile_pending_dm_markers` over the markers it has read: project one, remove it, go on. */
  function Reconcile(t: Tables, todo: seq<(I64, Marker)>): (Tables, Option<ProjectionError>)
    decreases |todo|
  {
    if todo == [] then (t, None)
    else
      match Project(t, todo[0].0, todo[0].1)
      case Err(e) => (t, Some(e))
      case Ok(t') => Reconcile(Unmark(t', todo[0].0), todo[1..])
  }

  // ---- publishing an identity ----

  datatype Published = Published(version: int, waiting: set<I64>)

  datatype PublishError = DeviceMismatch | Malformed | SignedPrekeyRequired | DeviceRevoked

  predicate Blank(s: Option<string>) {
    s.None? || forall i :: 0 <= i < |s.value| ==> s.value[i] in {' ', '\t', '\n', '\r'}
  }

  /** The senders of deferred messages to `d`'s user that have no envelope for `d` at `version`. */
  function WaitingSenders(t: Tables, d: Device, version: int): set<I64> {
    set mid | mid in t.pending && t.pending[mid].target == d.uid && EnvelopeKey(mid, d, version) !in t.envelopes ::
      t.pending[mid].sender
  }

  /** All senders of deferred messages to a user. */
  function SendersTo(t: Tables, uid: I64): set<I64> {
    set mid | mid in t.pending && t.pending[mid].target == uid :: t.pending[mid].sender
  }

  function NextVersion(t: Tables, d: Device, material: Material): int {
    if d !in t.identities then 1
    else if t.identities[d].material != material then t.identities[d].version + 1
    else t.identities[d].version
  }

  /** `put_identity` by the user and device of a token. */
  function Publish(t: Tables, token: Device, name: string, material: Material, protocol: int)
    : Result<(Tables, Published), PublishError>
  {
    if name != token.name then Err(DeviceMismatch)
    else if name == "" || material.identity == "" then Err(Malformed)
    else if protocol >= 2 && (Blank(material.signedPrekey) || Blank(material.signature)) then Err(SignedPrekeyRequired)
    else if token !in t.devices then Err(DeviceRevoked)
    else
      var version := NextVersion(t, token, material);
      var t' := t.(identities := t.identities[token := Identity(material, version, false)]);
      Ok((t', Published(version, WaitingSenders(t', token, version))))
  }

  // ---- envelopes ----

  predicate Current(t: Tables, d: Device) {
    d in t.identities && d in t.devices && !t.identities[d].retired
  }

  /** Whether `get_pending` still lists a message: some current device of its target lacks an envelope, or all do. */
  predicate Outstanding(t: Tables, mid: I64)
    requires mid in t.pending
  {
    t.pending[mid].completedAt.None? ||
    exists d :: d in t.identities && Lacks(t, mid, d)
  }

  predicate Lacks(t: Tables, mid: I64, d: Device)
    requires mid in t.pending
  {
    Current(t, d) && d.uid == t.pending[mid].target && EnvelopeKey(mid, d, t.identities[d].version) !in t.envelopes
  }

  /** `get_pending`: the messages from a sender to a target that still await an envelope. */
  function GetPending(t: Tables, sender: I64, target: I64): set<I64> {
    set mid | mid in t.pending && t.pending[mid].sender == sender && t.pending[mid].target == target
      && Outstanding(t, mid)
  }

  /** `append_pending_envelope_internal`: the first envelope under a key wins, and completes the message. */
  function Append(t: Tables, key: EnvelopeKey, envelope: string, now: int): (Tables, bool)
    requires key.mid in t.pending
  {
    if key in t.envelopes then (t, false)
    else
      var row := t.pending[key.mid];
      (t.(envelopes := t.envelopes[key := envelope],
          pending :=
            t.pending[key.mid := row.(completedAt := if row.completedAt.None? then Some(now) else row.completedAt)]),
       true)
  }

  datatype PostError = BadRequest | SenderRevoked | NotFound | Forbidden | WrongRecipient | UnknownDevice

  /** `post_pending_envelope` by the user and device of a token; the result is the version posted for. */
  function Post(t: Tables, token: Device, mid: I64, recipient: Device, envelope: string, now: int)
    : Result<(Tables, int), PostError>
  {
    if recipient.name == "" || envelope == "" then Err(BadRequest)
    else if token !in t.devices then Err(SenderRevoked)
    else if mid !in t.pending then Err(NotFound)
    else if t.pending[mid].sender != token.uid then Err(Forbidden)
    else if t.pending[mid].target != recipient.uid then Err(WrongRecipient)
    else if !Current(t, recipient) then Err(UnknownDevice)
    else
      var version := t.identities[recipient].version;
      Ok((Append(t, EnvelopeKey(mid, recipient, version), envelope, now).0, version))
  }

  // ---- devices ----

  function Login(t: Tables, d: Device): Tables {
    t.(devices := t.devices + {d})
  }

  /** Logging a device out, or deleting it, retires its identity in the same transaction. */
  function Retire(t: Tables, d: Device): Tables {
    t.(devices := t.devices - {d},
       identities := if d in t.identities then t.identities[d := t.identities[d].(retired := true)] else t.identities)
  }

  // ---- the whole system ----

  /** A reconciler: the markers it has read and not yet dealt with, and whether the first is projected. */
  datatype Worker = Worker(todo: seq<(I64, Marker)>, projected: bool)

  /** `sent` records every deferred message ever written; `failed` that some reconciler met an error. */
  datatype World = World(tables: Tables, sent: map<I64, Marker>, workers: map<nat, Worker>, failed: bool)

  const Empty: World := World(Tables(map[], map[], map[], map[], {}), map[], map[], false)

  datatype Step =
    | Send(mid: I64, marker: Marker)
    | Start(worker: nat, todo: seq<(I64, Marker)>)
    | ProjectFirst(worker: nat)
    | UnmarkFirst(worker: nat)
    | PublishStep(token: Device, name: string, material: Material, protocol: int)
    | PostStep(token: Device, mid: I64, recipient: Device, envelope: string, now: int)
    | AppendStep(key: EnvelopeKey, envelope: string, now: int)
    | LoginStep(device: Device)
    | RetireStep(device: Device)
    | Crash

  /** `todo` reads every marker once. */
  predicate Reads(todo: seq<(I64, Marker)>, markers: map<I64, Marker>) {
    && (forall i :: 0 <= i < |todo| ==> todo[i].0 in markers && markers[todo[i].0] == todo[i].1)
    && (forall i, j :: 0 <= i < j < |todo| ==> todo[i].0 != todo[j].0)
    && (forall mid :: mid in markers ==> Listed(todo, mid))
  }

  predicate Listed(todo: seq<(I64, Marker)>, mid: I64) {
    exists i :: 0 <= i < |todo| && todo[i].0 == mid
  }

  predicate Enabled(w: World, s: Step) {
    match s
    // ids are never used twice, and a message carries the time it was sent
    case Send(mid, marker) => mid !in w.sent && Representable(marker.createdAt)
    case Start(worker, todo) => worker !in w.workers && Reads(todo, w.tables.markers)
    case ProjectFirst(worker) => worker in w.workers && w.workers[worker].todo != [] && !w.workers[worker].projected
    case UnmarkFirst(worker) => worker in w.workers && w.workers[worker].projected && w.workers[worker].todo != []
    // the server itself posts for a device and version that it has read from the tables
    case AppendStep(key, _, _) =>
      && key.mid in w.tables.pending && w.tables.pending[key.mid].target == key.device.uid
      && key.device in w.tables.identities && key.version <= w.tables.identities[key.device].version
    case _ => true
  }

  function Do(w: World, s: Step): World
    requires Enabled(w, s)
  {
    var t := w.tables;
    match s
    case Send(mid, marker) => w.(tables := t.(markers := t.markers[mid := marker]), sent := w.sent[mid := marker])
    case Start(worker, todo) => w.(workers := w.workers[worker := Worker(todo, false)])
    case ProjectFirst(worker) =>
      var first := w.workers[worker].todo[0];
      (match Project(t, first.0, first.1)
       case Err(_) => w.(workers := w.workers - {worker}, failed := true)
       case Ok(t') => w.(tables := t', workers := w.workers[worker := w.workers[worker].(projected := true)]))
    case UnmarkFirst(worker) =>
      var todo := w.workers[worker].todo;
      w.(tables := Unmark(t, todo[0].0), workers := w.workers[worker := Worker(todo[1..], false)])
    case PublishStep(token, name, material, protocol) =>
      (match Publish(t, token, name, material, protocol)
       case Err(_) => w
       case Ok(r) => w.(tables := r.0))
    case PostStep(token, mid, recipient, envelope, now) =>
      (match Post(t, token, mid, recipient, envelope, now)
       case Err(_) => w
       case Ok(r) => w.(tables := r.0))
    case AppendStep(key, envelope, now) => w.(tables := Append(t, key, envelope, now).0)
    case LoginStep(d) => w.(tables := Login(t, d))
    case RetireStep(d) => w.(tables := Retire(t, d))
    case Crash => w.(workers := map[])
  }

  function After(run: seq<Step>): Option<World> {
    if run == [] then Some(Empty)
    else
      match After(run[..|run| - 1])
      case None => None
      case Some(w) => if Enabled(w, run[|run| - 1]) then Some(Do(w, run[|run| - 1])) else None
  }

  // ---- what holds in every reachable state ----

  predicate Same(row: PendingRow, m: Marker) {
    row.sender == m.sender && row.target == m.target && row.createdAt == m.createdAt
  }

  /** Every deferred message ever written is still marked or has been projected, as itself. */
  predicate NoneLost(t: Tables, sent: map<I64, Marker>) {
    && (forall mid :: mid in sent ==> mid in t.markers || mid in t.pending)
    && (forall mid :: mid in t.markers ==> mid in sent && t.markers[mid] == sent[mid])
    && (forall mid :: mid in t.pending ==> mid in sent && Same(t.pending[mid], sent[mid]))
  }

  predicate WorkersFaithful(w: World) {
    forall k :: k in w.workers ==>
      && (forall i :: 0 <= i < |w.workers[k].todo| ==>
            w.workers[k].todo[i].0 in w.sent && w.sent[w.workers[k].todo[i].0] == w.workers[k].todo[i].1)
      && (w.workers[k].projected ==> w.workers[k].todo != [] && w.workers[k].todo[0].0 in w.tables.pending)
  }

  /** Envelopes are for a device of the message's target, at a version that device has reached. */
  predicate EnvelopesCurrent(t: Tables) {
    forall e :: e in t.envelopes ==>
      && e.mid in t.pending && t.pending[e.mid].target == e.device.uid
      && e.device in t.identities && e.version <= t.identities[e.device].version
  }

  predicate HasEnvelope(t: Tables, mid: I64) {
    exists e :: e in t.envelopes && e.mid == mid
  }

  /** A message is completed exactly when it has an envelope. */
  predicate CompletedIffEnvelope(t: Tables) {
    forall mid :: mid in t.pending ==> (t.pending[mid].completedAt.Some? <==> HasEnvelope(t, mid))
  }

  /** Identities are published by named devices, and one that is not retired belongs to a device that is logged in. */
  predicate LiveDevices(t: Tables) {
    forall d :: d in t.identities ==> d.name != "" && (t.identities[d].retired || d in t.devices)
  }

  predicate Invariant(w: World) {
    && NoneLost(w.tables, w.sent)
    && (forall mid :: mid in w.sent ==> Representable(w.sent[mid].createdAt))
    && WorkersFaithful(w)
    && EnvelopesCurrent(w.tables)
    && CompletedIffEnvelope(w.tables)
    && LiveDevices(w.tables)
    && !w.failed
  }

  // ---- every step keeps it ----

  /** A marker that records a message ever written always projects. */
  lemma SentMarkersProject(t: Tables, sent: map<I64, Marker>, mid: I64)
    requires NoneLost(t, sent) && mid in sent && Representable(sent[mid].createdAt)
    ensures var r := Project(t, mid, sent[mid]);
      r.Ok? && mid in r.value.pending && NoneLost(r.value, sent) &&
      r.value == t.(pending := r.value.pending) && r.value.pending.Keys == t.pending.Keys + {mid} &&
      (forall m :: m in t.pending ==> r.value.pending[m] == t.pending[m]) &&
      (mid !in t.pending ==> r.value.pending[mid].completedAt.None?)
  {
  }

  lemma ProjectKeepsInvariant(w: World, k: nat)
    requires Invariant(w) && Enabled(w, ProjectFirst(k))
    ensures Invariant(Do(w, ProjectFirst(k)))
  {
    var (mid, m) := w.workers[k].todo[0];
    SentMarkersProject(w.tables, w.sent, mid);
    var t' := Do(w, ProjectFirst(k)).tables;
    forall n | n in t'.pending ensures t'.pending[n].completedAt.Some? <==> HasEnvelope(t', n) {
      assert HasEnvelope(t', n) <==> HasEnvelope(w.tables, n);
    }
  }

  lemma UnmarkKeepsInvariant(w: World, k: nat)
    requires Invariant(w) && Enabled(w, UnmarkFirst(k))
    ensures Invariant(Do(w, UnmarkFirst(k)))
  {
    var t' := Do(w, UnmarkFirst(k)).tables;
    forall n | n in t'.pending ensures t'.pending[n].completedAt.Some? <==> HasEnvelope(t', n) {
      assert HasEnvelope(t', n) <==> HasEnvelope(w.tables, n);
    }
  }

  lemma SendKeepsInvariant(w: World, mid: I64, m: Marker)
    requires Invariant(w) && Enabled(w, Send(mid, m))
    ensures Invariant(Do(w, Send(mid, m)))
  {
    var t' := Do(w, Send(mid, m)).tables;
    forall n | n in t'.pending ensures t'.pending[n].completedAt.Some? <==> HasEnvelope(t', n) {
      assert HasEnvelope(t', n) <==> HasEnvelope(w.tables, n);
    }
  }

  lemma AppendKeepsTables(t: Tables, sent: map<I64, Marker>, key: EnvelopeKey, envelope: string, now: int)
    requires NoneLost(t, sent) && EnvelopesCurrent(t) && CompletedIffEnvelope(t) && LiveDevices(t)
    requires key.mid in t.pending && t.pending[key.mid].target == key.device.uid
    requires key.device in t.identities && key.version <= t.identities[key.device].version
    ensures var t' := Append(t, key, envelope, now).0;
      && NoneLost(t', sent) && EnvelopesCurrent(t') && CompletedIffEnvelope(t') && LiveDevices(t')
      && t'.pending.Keys == t.pending.Keys
  {
    var t' := Append(t, key, envelope, now).0;
    if key !in t.envelopes {
      assert key in t'.envelopes;
      assert HasEnvelope(t', key.mid);
      forall n | n in t'.pending && n != key.mid ensures HasEnvelope(t', n) <==> HasEnvelope(t, n) {
        if HasEnvelope(t, n) {
          var e :| e in t.envelopes && e.mid == n;
          assert e in t'.envelopes;
        }
      }
    }
  }

  lemma AppendKeepsInvariant(w: World, key: EnvelopeKey, envelope: string, now: int)
    requires Invariant(w) && Enabled(w, AppendStep(key, envelope, now))
    ensures Invariant(Do(w, AppendStep(key, envelope, now)))
  {
    hide Append, NoneLost, EnvelopesCurrent, CompletedIffEnvelope, LiveDevices;
    AppendKeepsTables(w.tables, w.sent, key, envelope, now);
  }

  lemma PostKeepsInvariant(w: World, token: Device, mid: I64, recipient: Device, envelope: string, now: int)
    requires Invariant(w)
    ensures Invariant(Do(w, PostStep(token, mid, recipient, envelope, now)))
  {
    hide Append, NoneLost, EnvelopesCurrent, CompletedIffEnvelope, LiveDevices;
    if Post(w.tables, token, mid, recipient, envelope, now).Ok? {
      var key := EnvelopeKey(mid, recipient, w.tables.identities[recipient].version);
      AppendKeepsTables(w.tables, w.sent, key, envelope, now);
    }
  }

  /** Changing only identities and devices, with versions that do not fall, keeps the message tables' invariants. */
  lemma IdentityChange(t: Tables, t': Tables)
    requires t' == t.(identities := t'.identities, devices := t'.devices)
    requires forall d :: d in t.identities ==> d in t'.identities && t.identities[d].version <= t'.identities[d].version
    requires EnvelopesCurrent(t) && CompletedIffEnvelope(t)
    ensures EnvelopesCurrent(t') && CompletedIffEnvelope(t')
  {
    forall n | n in t'.pending ensures t'.pending[n].completedAt.Some? <==> HasEnvelope(t', n) {
      assert HasEnvelope(t', n) <==> HasEnvelope(t, n);
    }
  }

  lemma PublishKeepsInvariant(w: World, s: Step)
    requires Invariant(w) && s.PublishStep?
    ensures Invariant(Do(w, s))
  {
    hide EnvelopesCurrent, CompletedIffEnvelope, WaitingSenders, Blank;
    IdentityChange(w.tables, Do(w, s).tables);
  }

  lemma DeviceStepKeepsInvariant(w: World, s: Step)
    requires Invariant(w) && (s.LoginStep? || s.RetireStep?)
    ensures Invariant(Do(w, s))
  {
    hide EnvelopesCurrent, CompletedIffEnvelope;
    IdentityChange(w.tables, Do(w, s).tables);
  }

  lemma InvariantStep(w: World, s: Step)
    requires Invariant(w) && Enabled(w, s)
    ensures Invariant(Do(w, s))
  {
    hide EnvelopesCurrent, CompletedIffEnvelope, LiveDevices;
    match s
    case Send(mid, m) => SendKeepsInvariant(w, mid, m);
    case Start(k, todo) =>
    case ProjectFirst(k) => ProjectKeepsInvariant(w, k);
    case UnmarkFirst(k) => UnmarkKeepsInvariant(w, k);
    case PublishStep(_, _, _, _) => PublishKeepsInvariant(w, s);
    case PostStep(token, mid, recipient, envelope, now) => PostKeepsInvariant(w, token, mid, recipient, envelope, now);
    case AppendStep(key, envelope, now) => AppendKeepsInvariant(w, key, envelope, now);
    case LoginStep(_) => DeviceStepKeepsInvariant(w, s);
    case RetireStep(_) => DeviceStepKeepsInvariant(w, s);
    case Crash =>
  }

  lemma {:induction false} InvariantOfRun(run: seq<Step>)
    requires After(run).Some?
    ensures Invariant(After(run).value)
  {
    if run != [] {
      InvariantOfRun(run[..|run| - 1]);
      InvariantStep(After(run[..|run| - 1]).value, run[|run| - 1]);
    }
  }

  // ---- nothing is lost ----

  /**
   Whatever crashes, concurrent reconcilers and other transactions came before, every deferred
   message ever written is marked or projected with its own sender, target and time, and no
   reconciler has ever met a conflict or an unreadable marker.
   */
  lemma EveryDeferredMessageIsKept(run: seq<Step>)
    requires After(run).Some?
    ensures var w := After(run).value;
      && !w.failed
      && forall mid :: mid in w.sent ==>
           || (mid in w.tables.markers && w.tables.markers[mid] == w.sent[mid])
           || (mid in w.tables.pending && Same(w.tables.pending[mid], w.sent[mid]))
  {
    InvariantOfRun(run);
  }

  /** What a state says of messages, envelopes and devices, a later one repeats. */
  predicate Continues(w: World, v: World) {
    && (forall mid :: mid in w.sent ==> mid in v.sent && v.sent[mid] == w.sent[mid])
    && TablesContinue(w.tables, v.tables)
  }

  predicate TablesContinue(t: Tables, u: Tables) {
    && (forall e :: e in t.envelopes ==> e in u.envelopes && u.envelopes[e] == t.envelopes[e])
    && (forall d :: d in t.identities ==> d in u.identities && t.identities[d].version <= u.identities[d].version)
    && (forall mid :: mid in t.pending ==> mid in u.pending && SettledAlike(t.pending[mid], u.pending[mid]))
  }

  /** The same message, and once complete, complete since the same time. */
  predicate SettledAlike(row: PendingRow, later: PendingRow) {
    && (row.sender, row.target, row.createdAt) == (later.sender, later.target, later.createdAt)
    && (row.completedAt.Some? ==> later.completedAt == row.completedAt)
  }

  lemma ProjectContinues(t: Tables, mid: I64, m: Marker)
    ensures Project(t, mid, m).Ok? ==> TablesContinue(t, Project(t, mid, m).value)
  {
  }

  lemma PublishContinues(t: Tables, token: Device, name: string, material: Material, protocol: int)
    ensures var p := Publish(t, token, name, material, protocol); p.Ok? ==> TablesContinue(t, p.value.0)
  {
    hide WaitingSenders, Blank;
  }

  lemma AppendContinues(t: Tables, key: EnvelopeKey, envelope: string, now: int)
    requires key.mid in t.pending
    ensures TablesContinue(t, Append(t, key, envelope, now).0)
  {
  }

  lemma StepContinues(w: World, s: Step)
    requires Enabled(w, s)
    ensures Continues(w, Do(w, s))
  {
    hide Project, Publish, Append, Reads;
    match s
    case ProjectFirst(k) => ProjectContinues(w.tables, w.workers[k].todo[0].0, w.workers[k].todo[0].1);
    case PublishStep(token, name, material, protocol) => PublishContinues(w.tables, token, name, material, protocol);
    case PostStep(_, mid, recipient, envelope, now) =>
      if mid in w.tables.pending && recipient in w.tables.identities {
        AppendContinues(w.tables, EnvelopeKey(mid, recipient, w.tables.identities[recipient].version), envelope, now);
      }
    case AppendStep(key, envelope, now) => AppendContinues(w.tables, key, envelope, now);
    case _ =>
  }

  /**
   However a run goes on, no message, envelope or completion time that is stored is ever changed
   or removed, and no device's version falls.
   */
  lemma {:induction false} NothingIsRewritten(run: seq<Step>, more: seq<Step>)
    requires After(run + more).Some?
    ensures After(run).Some? && Continues(After(run).value, After(run + more).value)
  {
    hide Enabled, Do;
    if more == [] {
      assert run + more == run;
    } else {
      var shorter, last := run + more[..|more| - 1], more[|more| - 1];
      assert (run + more)[..|run + more| - 1] == shorter && (run + more)[|run + more| - 1] == last;
      NothingIsRewritten(run, more[..|more| - 1]);
      StepContinues(After(shorter).value, last);
    }
  }

  // ---- one undisturbed reconcile ----

  predicate Projects(t: Tables, mid: I64, m: Marker) {
    Representable(m.createdAt)
      && (mid in t.pending ==> t.pending[mid].sender == m.sender && t.pending[mid].target == m.target)
  }

  predicate Distinct(todo: seq<(I64, Marker)>) {
    forall i, j :: 0 <= i < j < |todo| ==> todo[i].0 != todo[j].0
  }

  function Ids(todo: seq<(I64, Marker)>): set<I64> {
    set i | 0 <= i < |todo| :: todo[i].0
  }

  lemma ProjectOutcome(t: Tables, mid: I64, m: Marker)
    ensures Project(t, mid, m).Ok? <==> Projects(t, mid, m)
    ensures Projects(t, mid, m) ==>
      var t' := Project(t, mid, m).value;
      && t' == t.(pending := t'.pending) && t'.pending.Keys == t.pending.Keys + {mid}
      && (forall n :: n in t.pending ==> t'.pending[n] == t.pending[n])
      && t'.pending[mid].sender == m.sender && t'.pending[mid].target == m.target
  {
  }

  /**
   Reconciling works down the list to the first marker that cannot be projected. Every marker
   before it is projected and removed; that one and every later one is left in place.
   */
  lemma {:induction false} ReconcileStopsAtFirstFailure(t: Tables, todo: seq<(I64, Marker)>, k: nat)
    requires Distinct(todo) && k <= |todo|
    requires forall i :: 0 <= i < k ==> Projects(t, todo[i].0, todo[i].1)
    requires k < |todo| ==> !Projects(t, todo[k].0, todo[k].1)
    ensures var (t', e) := Reconcile(t, todo);
      && (e.None? <==> k == |todo|)
      && t'.markers == t.markers - Ids(todo[..k])
      && t'.pending.Keys == t.pending.Keys + Ids(todo[..k])
      && (forall n :: n in t.pending ==> t'.pending[n] == t.pending[n])
      && (forall i :: 0 <= i < k ==>
        t'.pending[todo[i].0].sender == todo[i].1.sender && t'.pending[todo[i].0].target == todo[i].1.target)
    decreases |todo|
  {
    hide Project, Ids;
    NoIds();
    if todo != [] {
      var (mid, m) := todo[0];
      ProjectOutcome(t, mid, m);
      if k > 0 {
        var next := Unmark(Project(t, mid, m).value, mid);
        var rest := todo[1..];
        assert forall i :: 0 <= i < |rest| ==> rest[i] == todo[i + 1] && rest[i].0 != mid;
        ReconcileStopsAtFirstFailure(next, rest, k - 1);
        IdsCons(todo, k);
      } else {
        assert todo[..0] == [];
      }
    } else {
      assert todo[..k] == [];
    }
  }

  lemma NoIds()
    ensures Ids([]) == {}
  {
  }

  lemma IdsCons(todo: seq<(I64, Marker)>, k: nat)
    requires 0 < k <= |todo|
    ensures Ids(todo[..k]) == {todo[0].0} + Ids(todo[1..][..k - 1])
  {
    var x, y := todo[..k], todo[1..][..k - 1];
    assert forall i :: 0 <= i < |y| ==> y[i] == x[i + 1];
    forall n | n in Ids(x) ensures n in {todo[0].0} + Ids(y) {
      var i :| 0 <= i < |x| && x[i].0 == n;
      if i > 0 { assert y[i - 1].0 == n; }
    }
    forall n | n in Ids(y) ensures n in Ids(x) {
      var i :| 0 <= i < |y| && y[i].0 == n;
      assert x[i + 1].0 == n;
    }
    assert x[0].0 in Ids(x);
  }

  /** In a reachable state one undisturbed reconcile succeeds and leaves no marker. */
  lemma ReconcileDrains(run: seq<Step>, todo: seq<(I64, Marker)>)
    requires After(run).Some? && Reads(todo, After(run).value.tables.markers)
    ensures var t := After(run).value.tables;
      var (t', e) := Reconcile(t, todo);
      && e.None? && t'.markers == map[]
      && (forall mid :: mid in t.markers ==>
            mid in t'.pending && t'.pending[mid].sender == t.markers[mid].sender
              && t'.pending[mid].target == t.markers[mid].target)
  {
    var t := After(run).value.tables;
    InvariantOfRun(run);
    forall i | 0 <= i < |todo| ensures Projects(t, todo[i].0, todo[i].1) {
      assert todo[i].0 in t.markers;
    }
    ReconcileStopsAtFirstFailure(t, todo, |todo|);
    assert todo[..|todo|] == todo;
    forall mid | mid in t.markers ensures exists i :: 0 <= i < |todo| && todo[i].0 == mid {
      assert Listed(todo, mid);
    }
  }

  // ---- publishing wakes exactly the senders who have something to do ----

  /**
   A first publish, or one with new key material, takes a version no envelope was made for, so
   every sender of a deferred message to that user is waiting. Republishing the same material
   keeps the version, and then exactly the senders with a missing envelope are waiting.
   */
  lemma NewMaterialWakesEverySender(t: Tables, token: Device, name: string, material: Material, protocol: int)
    requires EnvelopesCurrent(t) && Publish(t, token, name, material, protocol).Ok?
    ensures var (t', p) := Publish(t, token, name, material, protocol).value;
      if token in t.identities && t.identities[token].material == material then
        && p.version == t.identities[token].version
        && (forall s :: s in p.waiting <==> exists mid :: mid in t.pending && Awaits(t, mid, s, token, p.version))
      else
        && (token in t.identities ==> p.version == t.identities[token].version + 1)
        && p.waiting == SendersTo(t, token.uid)
  {
    hide Blank;
    var (t', p) := Publish(t, token, name, material, protocol).value;
    if !(token in t.identities && t.identities[token].material == material) {
      forall mid | mid in t.pending ensures EnvelopeKey(mid, token, p.version) !in t.envelopes {}
      assert WaitingSenders(t', token, p.version) == SendersTo(t, token.uid);
    } else {
      forall s | s in p.waiting ensures exists mid :: mid in t.pending && Awaits(t, mid, s, token, p.version) {
        var mid :| mid in t'.pending && t'.pending[mid].target == token.uid
          && EnvelopeKey(mid, token, p.version) !in t'.envelopes && t'.pending[mid].sender == s;
        assert Awaits(t, mid, s, token, p.version);
      }
    }
  }

  /** The senders of all deferred messages ever written to a user. */
  function WritersTo(sent: map<I64, Marker>, uid: I64): set<I64> {
    set mid | mid in sent && sent[mid].target == uid :: sent[mid].sender
  }

  /** Each message to a user that is marked but not projected has a sender with another one that is. */
  predicate UnprojectedAreKnown(t: Tables, uid: I64) {
    forall mid :: mid in t.markers && mid !in t.pending && t.markers[mid].target == uid ==>
      t.markers[mid].sender in SendersTo(t, uid)
  }

  lemma ProjectedWroteThem(w: World, uid: I64)
    requires NoneLost(w.tables, w.sent)
    ensures SendersTo(w.tables, uid) <= WritersTo(w.sent, uid)
    ensures SendersTo(w.tables, uid) == WritersTo(w.sent, uid) <==> UnprojectedAreKnown(w.tables, uid)
  {
    var t := w.tables;
    forall s | s in SendersTo(t, uid) ensures s in WritersTo(w.sent, uid) {
      var mid :| mid in t.pending && t.pending[mid].target == uid && t.pending[mid].sender == s;
      assert w.sent[mid].sender == s && w.sent[mid].target == uid;
    }
    if UnprojectedAreKnown(t, uid) {
      forall s | s in WritersTo(w.sent, uid) ensures s in SendersTo(t, uid) {
        var mid :| mid in w.sent && w.sent[mid].target == uid && w.sent[mid].sender == s;
        assert mid in t.pending ==> t.pending[mid].sender == s && t.pending[mid].target == uid;
      }
    } else {
      var mid :| mid in t.markers && mid !in t.pending && t.markers[mid].target == uid
        && t.markers[mid].sender !in SendersTo(t, uid);
      assert w.sent[mid].sender in WritersTo(w.sent, uid);
    }
  }

  /**
   In every run a first publish, or one with new keys, reports only senders of deferred messages
   to that user, and reports all of them if and only if each such message that is not projected
   yet has a sender with another one that is. Publishing does not project first.
   */
  lemma PublishWakesEverySenderExactly(run: seq<Step>, token: Device, name: string, material: Material, protocol: int)
    requires After(run).Some? && Publish(After(run).value.tables, token, name, material, protocol).Ok?
    requires var t := After(run).value.tables;
      !(token in t.identities && t.identities[token].material == material)
    ensures var w := After(run).value;
      var waiting := Publish(w.tables, token, name, material, protocol).value.1.waiting;
      && waiting <= WritersTo(w.sent, token.uid)
      && (waiting == WritersTo(w.sent, token.uid) <==> UnprojectedAreKnown(w.tables, token.uid))
  {
    hide After, Publish, UnprojectedAreKnown, SendersTo, WritersTo, CompletedIffEnvelope;
    InvariantOfRun(run);
    NewMaterialWakesEverySender(After(run).value.tables, token, name, material, protocol);
    ProjectedWroteThem(After(run).value, token.uid);
  }

  /** The condition fails in a run: user 1's message is written but not projected when user 2 publishes. */
  lemma PublishMissesAnUnprojectedSender(material: Material)
    requires material.identity != ""
    ensures var d := Device(2, "phone");
      var run := [LoginStep(d), Send(7, Marker(1, 2, 0))];
      && After(run).Some?
      && WritersTo(After(run).value.sent, 2) == {1}
      && Publish(After(run).value.tables, d, "phone", material, 1).Ok?
      && Publish(After(run).value.tables, d, "phone", material, 1).value.1.waiting == {}
  {
    var d := Device(2, "phone");
    var run := [LoginStep(d), Send(7, Marker(1, 2, 0))];
    assert run[..1] == [LoginStep(d)] && run[..1][..0] == [];
    assert After(run[..1]) == Some(Do(Empty, LoginStep(d)));
    var w := Do(Do(Empty, LoginStep(d)), Send(7, Marker(1, 2, 0)));
    assert After(run) == Some(w);
    assert 7 in w.sent && WritersTo(w.sent, 2) == {1};
  }

  /** After an undisturbed reconcile nothing is unprojected, so a publish that follows one reports everybody. */
  lemma ReconciledPublishWakesEverySender(run: seq<Step>, todo: seq<(I64, Marker)>, uid: I64)
    requires After(run).Some? && Reads(todo, After(run).value.tables.markers)
    ensures UnprojectedAreKnown(Reconcile(After(run).value.tables, todo).0, uid)
  {
    hide After, Reconcile, Reads;
    ReconcileDrains(run, todo);
  }

  predicate Awaits(t: Tables, mid: I64, sender: I64, d: Device, version: int)
    requires mid in t.pending
  {
    t.pending[mid].sender == sender && t.pending[mid].target == d.uid && EnvelopeKey(mid, d, version) !in t.envelopes
  }

  /** Whoever is told to wait for a device finds a message to act on, and that message lacks that device's envelope. */
  lemma WaitingSendersHaveWork(t: Tables, token: Device, name: string, material: Material, protocol: int, sender: I64)
    returns (mid: I64)
    requires LiveDevices(t) && Publish(t, token, name, material, protocol).Ok?
    requires sender in Publish(t, token, name, material, protocol).value.1.waiting
    ensures var t' := Publish(t, token, name, material, protocol).value.0;
      mid in GetPending(t', sender, token.uid) && Lacks(t', mid, token)
  {
    hide Blank;
    var (t', p) := Publish(t, token, name, material, protocol).value;
    mid :| mid in t'.pending && t'.pending[mid].target == token.uid
      && EnvelopeKey(mid, token, p.version) !in t'.envelopes && t'.pending[mid].sender == sender;
    assert token in t'.identities && Lacks(t', mid, token);
  }

  /** Posting an envelope settles that message for that device; no other device and no other message is affected. */
  lemma PostSettlesOneDevice(t: Tables, token: Device, mid: I64, recipient: Device, envelope: string, now: int)
    requires EnvelopesCurrent(t) && CompletedIffEnvelope(t) && Post(t, token, mid, recipient, envelope, now).Ok?
    ensures var t' := Post(t, token, mid, recipient, envelope, now).value.0;
      && t'.pending.Keys == t.pending.Keys
      && t'.pending[mid].completedAt.Some? && !Lacks(t', mid, recipient)
      && (forall n, d :: n in t.pending && (n, d) != (mid, recipient) ==> (Lacks(t', n, d) <==> Lacks(t, n, d)))
  {
    var key := EnvelopeKey(mid, recipient, t.identities[recipient].version);
    if key in t.envelopes {
      assert HasEnvelope(t, mid);
    }
  }

  /** Posting succeeds exactly for the sender of the message, on a live device, to a current device of its target. */
  lemma PostSucceedsExactly(t: Tables, token: Device, mid: I64, recipient: Device, envelope: string, now: int)
    ensures Post(t, token, mid, recipient, envelope, now).Ok? <==>
      && recipient.name != "" && envelope != "" && token in t.devices
      && mid in t.pending && t.pending[mid].sender == token.uid && t.pending[mid].target == recipient.uid
      && recipient in t.identities && recipient in t.devices && !t.identities[recipient].retired
    ensures Post(t, token, mid, recipient, envelope, now).Ok? ==>
      var (t', version) := Post(t, token, mid, recipient, envelope, now).value;
      var key := EnvelopeKey(mid, recipient, t.identities[recipient].version);
      && version == key.version && key in t'.envelopes
      && t'.envelopes[key] == (if key in t.envelopes then t.envelopes[key] else envelope)
  {
  }

  /**
   In every run a sender can work its pending list off: for a listed message and a device that
   lacks it, its post succeeds and settles that device, and the message stays listed exactly as
   long as another current device of the target lacks it.
   */
  lemma PendingListCanBeWorkedOff(run: seq<Step>, token: Device, mid: I64, d: Device, envelope: string, now: int)
    requires After(run).Some? && envelope != "" && token in After(run).value.tables.devices
    requires var t := After(run).value.tables;
      mid in GetPending(t, token.uid, d.uid) && Lacks(t, mid, d)
    ensures var t := After(run).value.tables;
      && Post(t, token, mid, d, envelope, now).Ok?
      && var t' := Post(t, token, mid, d, envelope, now).value.0;
         && !Lacks(t', mid, d)
         && (mid in GetPending(t', token.uid, d.uid) <==> exists e :: e in t.identities && e != d && Lacks(t, mid, e))
  {
    hide After, NoneLost, WorkersFaithful;
    InvariantOfRun(run);
    var t := After(run).value.tables;
    PostSucceedsExactly(t, token, mid, d, envelope, now);
    PostSettlesOneDevice(t, token, mid, d, envelope, now);
    var t' := Post(t, token, mid, d, envelope, now).value.0;
    assert t'.identities == t.identities && t'.pending[mid].sender == token.uid && t'.pending[mid].target == d.uid;
    hide Post, Lacks;
    if e :| e in t.identities && e != d && Lacks(t, mid, e) {
      assert Lacks(t', mid, e);
    }
  }

  /** In every reachable state: versions bound envelopes, and completion means an envelope exists. */
  lemma EnvelopesInEveryRun(run: seq<Step>)
    requires After(run).Some?
    ensures var t := After(run).value.tables;
      && (forall e :: e in t.envelopes ==>
            && e.mid in t.pending && t.pending[e.mid].target == e.device.uid
            && e.device in t.identities && e.version <= t.identities[e.device].version)
      && (forall mid :: mid in t.pending ==> (t.pending[mid].completedAt.Some? <==> HasEnvelope(t, mid)))
  {
    InvariantOfRun(run);
  }
}
