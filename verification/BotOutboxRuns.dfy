/**
 A Bot's sends as runs. The key of a message is only in memory from the moment the message is sent
 until it has an envelope or is retained, and a crash or an error may come at any point between.
 */
module BotOutboxRuns {
  import opened Wrappers
  import opened Bytes
  import opened DeferredDm
  import opened BotOutbox

  /** A call in progress: the devices it has read and not yet wrapped for, and whether it made an envelope. */
  datatype Sending = Sending(key: string, todo: Option<map<Device, int>>, appended: bool)

  /** The tables, the retained keys, the calls in memory by message, and every message a Bot has sent. */
  datatype World = World(tables: Tables, secrets: map<I64, Secret>, sending: map<I64, Sending>, sent: set<I64>)

  datatype Step =
    | SendDm(mid: I64, row: PendingRow, key: string)
    | ReadDevices(mid: I64, found: map<Device, int>)
    | WrapFor(mid: I64, device: Device, envelope: Option<string>, now: int)
    | Finish(mid: I64)
    | Fail(mid: I64)
    | Stop
    | CatchUp(mid: I64, device: Device, version: int, late: string, now: int)
    | Devices(identities: map<Device, Identity>, devices: set<Device>)

  predicate Enabled(w: World, s: Step) {
    match s
    // ids are new, and the message is projected before the first device is read
    case SendDm(mid, row, _) => mid !in w.sent && mid !in w.tables.pending && row.completedAt.None?
    case ReadDevices(mid, devices) =>
      && mid in w.sending && w.sending[mid].todo.None?
      && forall d :: d in devices ==> d in w.tables.identities && devices[d] == w.tables.identities[d].version
    case WrapFor(mid, d, _, _) => mid in w.sending && w.sending[mid].todo.Some? && d in w.sending[mid].todo.value
    case Finish(mid) => mid in w.sending && w.sending[mid].todo == Some(map[])
    case Fail(mid) => mid in w.sending
    case CatchUp(mid, d, version, _, _) => mid in w.secrets && mid in w.tables.pending
    case _ => true
  }

  function Do(w: World, s: Step): World
    requires Enabled(w, s)
  {
    match s
    case SendDm(mid, row, key) =>
      World.World(w.tables.(pending := w.tables.pending[mid := row]), w.secrets,
            w.sending[mid := Sending(key, None, false)], w.sent + {mid})
    case ReadDevices(mid, devices) => w.(sending := w.sending[mid := w.sending[mid].(todo := Some(devices))])
    case WrapFor(mid, d, envelope, now) =>
      var call := w.sending[mid];
      var rest := Some(call.todo.value - {d});
      if envelope.None? || mid !in w.tables.pending then w.(sending := w.sending[mid := call.(todo := rest)])
      else
        var r := Append(w.tables, EnvelopeKey(mid, d, call.todo.value[d]), envelope.value, now);
        w.(tables := r.0, sending := w.sending[mid := call.(todo := rest, appended := call.appended || r.1)])
    case Finish(mid) =>
      w.(sending := w.sending - {mid},
         secrets := if w.sending[mid].appended then w.secrets else w.secrets[mid := Key(w.sending[mid].key)])
    case Fail(mid) => w.(sending := w.sending - {mid})
    case Stop => w.(sending := map[])
    case CatchUp(mid, d, version, envelope, now) =>
      w.(tables := Append(w.tables, EnvelopeKey(mid, d, version), envelope, now).0)
    case Devices(identities, devices) => w.(tables := w.tables.(identities := identities, devices := devices))
  }

  /** No Bot has sent anything yet; other senders may have, and every envelope belongs to a projected message. */
  predicate Start(w: World) {
    && (forall e :: e in w.tables.envelopes ==> e.mid in w.tables.pending)
    && w.secrets == map[] && w.sending == map[] && w.sent == {}
  }

  function After(start: World, run: seq<Step>): Option<World> {
    if run == [] then Some(start)
    else
      match After(start, run[..|run| - 1])
      case None => None
      case Some(w) => if Enabled(w, run[|run| - 1]) then Some(Do(w, run[|run| - 1])) else None
  }

  // ---- the gap ----

  /** The key of the message is in the memory of a call that has made no envelope yet. */
  predicate InGap(w: World, mid: I64) {
    mid in w.sending && !w.sending[mid].appended
  }

  /** A crash ends every call, a failure one. */
  predicate Ends(s: Step, mid: I64) {
    s.Stop? || s == Fail(mid)
  }

  /** Some crash or failure of the run met the message's call in the gap. */
  predicate CutShort(start: World, run: seq<Step>, mid: I64) {
    run != [] &&
    var front, last := run[..|run| - 1], run[|run| - 1];
    || CutShort(start, front, mid)
    || (Ends(last, mid) && After(start, front).Some? && InGap(After(start, front).value, mid))
  }

  /** The message can still reach a device: a call is at work on it, its key is retained, or it has an envelope. */
  predicate Deliverable(w: World, mid: I64) {
    mid in w.sending || mid in w.secrets || HasEnvelope(w.tables, mid)
  }

  predicate MessageFacts(w: World, mid: I64) {
    && (mid in w.secrets || mid in w.sending ==> mid in w.sent)
    && (mid in w.sent || HasEnvelope(w.tables, mid) ==> mid in w.tables.pending)
    && (mid in w.sending ==> mid !in w.secrets && (w.sending[mid].appended <==> HasEnvelope(w.tables, mid)))
  }

  lemma EnvelopeAdded(t: Tables, key: EnvelopeKey, envelope: string, now: int, mid: I64)
    requires key.mid in t.pending
    ensures var (t', added) := Append(t, key, envelope, now);
      && t'.pending.Keys == t.pending.Keys
      && (HasEnvelope(t', mid) <==> HasEnvelope(t, mid) || mid == key.mid)
      && (!HasEnvelope(t, key.mid) ==> added)
  {
    var t' := Append(t, key, envelope, now).0;
    assert key in t'.envelopes;
    if HasEnvelope(t, mid) {
      var e :| e in t.envelopes && e.mid == mid;
      assert e in t'.envelopes;
    }
  }

  /** One step: the facts stay, and a message stops being deliverable exactly if its call ends in the gap. */
  lemma MessageStep(w: World, s: Step, mid: I64)
    requires Enabled(w, s) && MessageFacts(w, mid)
    ensures MessageFacts(Do(w, s), mid)
    ensures mid in w.sent ==>
      mid in Do(w, s).sent && (Deliverable(Do(w, s), mid) <==> Deliverable(w, mid) && !(Ends(s, mid) && InGap(w, mid)))
    ensures mid !in w.sent && mid in Do(w, s).sent ==> Deliverable(Do(w, s), mid)
    ensures mid !in w.sent ==> !InGap(w, mid)
  {
    hide Append;
    match s
    case WrapFor(m, d, envelope, now) =>
      if envelope.Some? && m in w.tables.pending {
        EnvelopeAdded(w.tables, EnvelopeKey(m, d, w.sending[m].todo.value[d]), envelope.value, now, mid);
      }
    case CatchUp(m, d, version, envelope, now) =>
      EnvelopeAdded(w.tables, EnvelopeKey(m, d, version), envelope, now, mid);
    case SendDm(_, _, _) => assert HasEnvelope(Do(w, s).tables, mid) <==> HasEnvelope(w.tables, mid);
    case Devices(_, _) => assert HasEnvelope(Do(w, s).tables, mid) <==> HasEnvelope(w.tables, mid);
    case _ =>
  }

  lemma {:induction false} DeliverableInRun(start: World, run: seq<Step>, mid: I64)
    requires Start(start) && After(start, run).Some?
    ensures var w := After(start, run).value;
      && MessageFacts(w, mid)
      && (if mid in w.sent then Deliverable(w, mid) <==> !CutShort(start, run, mid) else !CutShort(start, run, mid))
  {
    hide Deliverable, InGap, Do, Enabled;
    if run == [] {
      NothingSent(start, mid);
    } else {
      hide MessageFacts;
      var front, s := run[..|run| - 1], run[|run| - 1];
      DeliverableInRun(start, front, mid);
      MessageStep(After(start, front).value, s, mid);
      SentBefore(After(start, front).value, s, mid);
    }
  }

  lemma NothingSent(start: World, mid: I64)
    requires Start(start)
    ensures MessageFacts(start, mid)
  {
  }

  lemma SentBefore(w: World, s: Step, mid: I64)
    requires Enabled(w, s)
    ensures mid in w.sent ==> mid in Do(w, s).sent
  {
  }

  /**
   Over every run: once no call is at work on a message a Bot sent, the message has an envelope or a
   retained key if and only if no crash and no failure ended its call before the first envelope.
   */
  lemma EnvelopeOrKeyExactly(start: World, run: seq<Step>, mid: I64)
    requires Start(start) && After(start, run).Some?
    requires mid in After(start, run).value.sent && mid !in After(start, run).value.sending
    ensures var w := After(start, run).value;
      HasEnvelope(w.tables, mid) || mid in w.secrets <==> !CutShort(start, run, mid)
  {
    hide After, MessageFacts, CutShort;
    DeliverableInRun(start, run, mid);
  }

  /** A call that ended in the gap is never made up for, however the run goes on. */
  lemma {:induction false} CutShortIsForGood(start: World, run: seq<Step>, more: seq<Step>, mid: I64)
    requires Start(start) && After(start, run + more).Some? && CutShort(start, run, mid)
    ensures var w := After(start, run + more).value;
      mid in w.sent && mid in w.tables.pending && !HasEnvelope(w.tables, mid) && mid !in w.secrets
  {
    StaysCutShort(start, run, more, mid);
    DeliverableInRun(start, run + more, mid);
  }

  lemma {:induction false} StaysCutShort(start: World, run: seq<Step>, more: seq<Step>, mid: I64)
    requires CutShort(start, run, mid)
    ensures CutShort(start, run + more, mid)
  {
    if more == [] {
      assert run + more == run;
    } else {
      assert (run + more)[..|run + more| - 1] == run + more[..|more| - 1];
      StaysCutShort(start, run, more[..|more| - 1], mid);
    }
  }

  /** It happens: the server stops after sending and before the first envelope. */
  lemma CrashInTheGapLosesTheKey(start: World, mid: I64, row: PendingRow, key: string)
    requires Start(start) && mid !in start.tables.pending && row.completedAt.None?
    ensures var run := [SendDm(mid, row, key), Stop];
      && After(start, run).Some?
      && CutShort(start, run, mid)
      && mid in After(start, run).value.sent && mid !in After(start, run).value.sending
  {
    var run := [SendDm(mid, row, key), Stop];
    assert run[..1] == [SendDm(mid, row, key)] && run[..1][..0] == [];
    assert After(start, run[..1]) == Some(Do(start, SendDm(mid, row, key)));
    assert InGap(After(start, run[..1]).value, mid);
  }

  lemma Extend(start: World, run: seq<Step>, s: Step)
    requires After(start, run).Some? && Enabled(After(start, run).value, s)
    ensures After(start, run + [s]) == Some(Do(After(start, run).value, s))
  {
    assert (run + [s])[..|run|] == run;
  }

  /** A device that does not wrap is passed over, and devices change at any time; neither touches a message. */
  lemma PassedOver(w: World, mid: I64, d: Device, now: int, identities: map<Device, Identity>, devices: set<Device>)
    requires Enabled(w, WrapFor(mid, d, None, now))
    ensures var w' := Do(w, WrapFor(mid, d, None, now));
      && w' == w.(sending := w'.sending) && w'.sending.Keys == w.sending.Keys
      && w'.sending[mid].todo == Some(w.sending[mid].todo.value - {d})
      && w'.sending[mid].key == w.sending[mid].key && w'.sending[mid].appended == w.sending[mid].appended
      && forall m :: m in w.sending && m != mid ==> w'.sending[m] == w.sending[m]
    ensures Enabled(w, Devices(identities, devices))
    ensures var w' := Do(w, Devices(identities, devices));
      && w'.tables.identities == identities && w'.tables.devices == devices
      && w'.tables.pending == w.tables.pending && w'.tables.envelopes == w.tables.envelopes
      && w'.secrets == w.secrets && w'.sending == w.sending && w'.sent == w.sent
  {
  }

  /** Undisturbed, a send to a recipient without devices retains the key, and a catch-up makes the envelope. */
  lemma RetainedAndCaughtUp(start: World, mid: I64, row: PendingRow, key: string, e: EnvelopeKey, envelope: string,
                            now: int)
    returns (run: seq<Step>)
    requires Start(start) && mid !in start.tables.pending && row.completedAt.None? && e.mid == mid
    ensures After(start, run).Some?
    ensures var w := After(start, run).value;
      && mid in w.sent && mid !in w.sending && mid in w.secrets && w.secrets[mid] == Key(key)
      && !HasEnvelope(w.tables, mid)
    ensures var more := run + [CatchUp(mid, e.device, e.version, envelope, now)];
      && After(start, more).Some?
      && var t := After(start, more).value.tables;
         e in t.envelopes && t.envelopes[e] == envelope && t.pending[mid].completedAt == Some(now)
  {
    NothingSent(start, mid);
    run := [];
    Extend(start, run, SendDm(mid, row, key));
    run := run + [SendDm(mid, row, key)];
    Extend(start, run, ReadDevices(mid, map[]));
    run := run + [ReadDevices(mid, map[])];
    Extend(start, run, Finish(mid));
    run := run + [Finish(mid)];
    Extend(start, run, CatchUp(mid, e.device, e.version, envelope, now));
  }

  /** Undisturbed, a send to one device that wraps makes the envelope, for the version read, and retains nothing. */
  lemma EnvelopedAtOnce(start: World, mid: I64, row: PendingRow, key: string, d: Device, envelope: string, now: int)
    returns (run: seq<Step>)
    requires Start(start) && mid !in start.tables.pending && row.completedAt.None? && d in start.tables.identities
    ensures After(start, run).Some?
    ensures var w, e := After(start, run).value, EnvelopeKey(mid, d, start.tables.identities[d].version);
      && mid in w.sent && mid !in w.sending && mid !in w.secrets
      && e in w.tables.envelopes && w.tables.envelopes[e] == envelope
      && mid in w.tables.pending && w.tables.pending[mid] == row.(completedAt := Some(now))
  {
    NothingSent(start, mid);
    var version := start.tables.identities[d].version;
    run := [];
    Extend(start, run, SendDm(mid, row, key));
    run := run + [SendDm(mid, row, key)];
    Extend(start, run, ReadDevices(mid, map[d := version]));
    run := run + [ReadDevices(mid, map[d := version])];
    Extend(start, run, WrapFor(mid, d, Some(envelope), now));
    run := run + [WrapFor(mid, d, Some(envelope), now)];
    Extend(start, run, Finish(mid));
    run := run + [Finish(mid)];
  }
}
