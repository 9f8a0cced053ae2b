/**
 The direct messages a Bot sends. The server wraps each message's key for the recipient's devices
 at once; if that makes no envelope it retains the key, and makes the envelope when one of the
 recipient's devices later publishes an identity. Each wrap takes a one-time prekey of its device.
 */
module BotOutbox {
  import opened Wrappers
  import opened Bytes
  import opened DeferredDm
  import PrekeyClaims

  /** A retained key, as opening it with the master key finds it. */
  datatype Secret = Unreadable | WrongLength | Key(key: string)

  datatype OutboxError = MissingMasterKey | NoUsableRecipientDevice | VaultDecryptFailed

  /** The one-time prekeys of a device, true if consumed. */
  type Pool = map<PrekeyClaims.Row, bool>

  /** The envelope, if any, that wrapping a key for a device gives, with a one-time prekey or without. */
  type Wrapping = (string, Device, Option<PrekeyClaims.Row>) -> Option<string>

  /** `usable` is the check of the published keys: both present and the signature valid. */
  predicate Reachable(t: Tables, d: Device, usable: Material -> bool) {
    d in t.identities && !t.identities[d].retired && usable(t.identities[d].material)
  }

  function UsableDevices(t: Tables, target: I64, usable: Material -> bool): set<Device> {
    set d | d in t.identities && d.uid == target && Reachable(t, d, usable)
  }

  // ---- one wrap on a pool nobody else is using ----

  ghost function NextRow(pool: Pool): Option<PrekeyClaims.Row> {
    var rows := PrekeyClaims.Available(pool);
    if rows == {} then None else Some(PrekeyClaims.Lowest(rows))
  }

  /** The envelope, and the pool with the row it used consumed. */
  ghost function WrapOnce(pool: Pool, key: string, d: Device, wrap: Wrapping): (Option<string>, Pool) {
    var otp := NextRow(pool);
    var envelope := wrap(key, d, otp);
    (envelope, if envelope.Some? && otp.Some? then pool[otp.value := true] else pool)
  }

  function PoolOf(pools: map<Device, Pool>, d: Device): Pool {
    if d in pools then pools[d] else map[]
  }

  /** Only the pool of `d` may differ. */
  ghost predicate OnlyAt(d: Device, pools: map<Device, Pool>, pools': map<Device, Pool>) {
    forall e :: e != d ==> PoolOf(pools', e) == PoolOf(pools, e)
  }

  lemma PoolReplaced(pools: map<Device, Pool>, d: Device, left: Pool)
    ensures OnlyAt(d, pools, pools[d := left]) && PoolOf(pools[d := left], d) == left
  {
  }

  lemma NoRivals(pool: Pool, rivals: seq<set<PrekeyClaims.Row>>)
    requires |rivals| == PrekeyClaims.MAX_CLAIM_RETRIES && rivals[0] == {}
    ensures !PrekeyClaims.LostRound(pool, rivals, 0)
    ensures PrekeyClaims.Rivalled(pool, rivals, 0) == PrekeyClaims.Rivalled(pool, rivals, 1) == pool
  {
    PrekeyClaims.NextRound(pool, rivals, 0);
    assert PrekeyClaims.Take(pool, {}) == pool;
  }

  /** The claims loop of `PrekeyClaims`, undisturbed, is one wrap. */
  method WrapUndisturbed(rows: Pool, key: string, d: Device, wrap: Wrapping)
    returns (envelope: Option<string>, left: Pool)
    ensures (envelope, left) == WrapOnce(rows, key, d, wrap)
  {
    var rivals: seq<set<PrekeyClaims.Row>> := [{}, {}, {}, {}, {}, {}, {}, {}];
    NoRivals(rows, rivals);
    hide PrekeyClaims.Rivalled, PrekeyClaims.LostRound, PrekeyClaims.Lowest, PrekeyClaims.Available;
    var pool := new PrekeyClaims.Pool(rows);
    var outcome, lost := pool.WrapContentKeyForDevice(rivals, otp => wrap(key, d, otp).Some?);
    assert lost == 0;
    left := pool.rows;
    envelope := if outcome.Wrapped? then wrap(key, d, outcome.otp) else None;
  }

  // ---- sets of new envelopes ----

  /** The tables after `added` joined the envelopes; a message it has an envelope for is complete. */
  ghost predicate Enveloped(t: Tables, t': Tables, added: map<EnvelopeKey, string>, now: int) {
    && t' == t.(envelopes := t.envelopes + added, pending := t'.pending)
    && t'.pending.Keys == t.pending.Keys
    && forall mid :: mid in t.pending ==>
         t'.pending[mid] == if HasKey(added, mid) then Completed(t.pending[mid], now) else t.pending[mid]
  }

  predicate HasKey(added: map<EnvelopeKey, string>, mid: I64) {
    exists e :: e in added && e.mid == mid
  }

  function Completed(row: PendingRow, now: int): PendingRow {
    if row.completedAt.None? then row.(completedAt := Some(now)) else row
  }

  lemma NothingEnveloped(t: Tables, now: int)
    ensures Enveloped(t, t, map[], now)
  {
    assert t.envelopes + map[] == t.envelopes;
  }

  /** Appending one more envelope under a new key. */
  lemma EnvelopedAppend(t: Tables, t': Tables, added: map<EnvelopeKey, string>, now: int,
                        key: EnvelopeKey, envelope: string)
    requires Enveloped(t, t', added, now) && key.mid in t.pending && key !in t'.envelopes
    ensures Append(t', key, envelope, now).1
    ensures Enveloped(t, Append(t', key, envelope, now).0, added[key := envelope], now)
  {
    var t'' := Append(t', key, envelope, now).0;
    var more := added[key := envelope];
    assert t''.envelopes == t.envelopes + more;
    forall mid | mid in t.pending ensures HasKey(more, mid) <==> HasKey(added, mid) || mid == key.mid {
      if HasKey(added, mid) {
        var e :| e in added && e.mid == mid;
        assert e in more;
      }
      if mid == key.mid { assert key in more; }
    }
  }

  lemma SameRows(t: Tables, t': Tables, added: map<EnvelopeKey, string>, now: int)
    requires Enveloped(t, t', added, now)
    ensures t'.pending.Keys == t.pending.Keys && t'.identities == t.identities
    ensures forall k :: k in t'.envelopes <==> k in t.envelopes || k in added
  {
  }

  // ---- sending ----

  /** The envelopes made at once: one for each usable device whose wrap works, at its present version. */
  ghost function FirstEnvelopes(t: Tables, mid: I64, key: string, devices: set<Device>,
                                pools: map<Device, Pool>, wrap: Wrapping): map<EnvelopeKey, string>
    requires devices <= t.identities.Keys
  {
    map d | d in devices && WrapOnce(PoolOf(pools, d), key, d, wrap).0.Some? ::
      EnvelopeKey(mid, d, t.identities[d].version) := WrapOnce(PoolOf(pools, d), key, d, wrap).0.value
  }

  /** The pools afterwards: each of these devices was wrapped for once. */
  ghost function FirstPools(key: string, devices: set<Device>, pools: map<Device, Pool>, wrap: Wrapping)
    : map<Device, Pool>
  {
    map d | d in pools.Keys + devices ::
      if d in devices then WrapOnce(PoolOf(pools, d), key, d, wrap).1 else pools[d]
  }

  lemma FirstOfOneMore(t: Tables, mid: I64, key: string, devices: set<Device>, d: Device,
                       pools: map<Device, Pool>, wrap: Wrapping)
    requires devices <= t.identities.Keys && d in t.identities && d !in devices
    ensures var before := FirstEnvelopes(t, mid, key, devices, pools, wrap);
      var k, made := EnvelopeKey(mid, d, t.identities[d].version), WrapOnce(PoolOf(pools, d), key, d, wrap);
      && k !in before
      && FirstEnvelopes(t, mid, key, devices + {d}, pools, wrap) ==
        (if made.0.Some? then before[k := made.0.value] else before)
      && FirstPools(key, devices + {d}, pools, wrap) == FirstPools(key, devices, pools, wrap)[d := made.1]
      && PoolOf(FirstPools(key, devices, pools, wrap), d) == PoolOf(pools, d)
  {
    hide WrapOnce;
    var before, k := FirstEnvelopes(t, mid, key, devices, pools, wrap), EnvelopeKey(mid, d, t.identities[d].version);
    var after := FirstEnvelopes(t, mid, key, devices + {d}, pools, wrap);
    var made := WrapOnce(PoolOf(pools, d), key, d, wrap).0;
    if made.Some? {
      assert k in after;
      assert after == before[k := made.value];
    } else {
      assert after == before;
    }
  }

  lemma FirstOfNone(t: Tables, mid: I64, key: string, pools: map<Device, Pool>, wrap: Wrapping)
    ensures FirstEnvelopes(t, mid, key, {}, pools, wrap) == map[]
    ensures FirstPools(key, {}, pools, wrap) == pools
  {
  }

  /** What a Bot's tables, retained keys and recipients' pools are after a message was sent undisturbed. */
  ghost predicate Sends(t: Tables, t': Tables, secrets: map<I64, Secret>, secrets': map<I64, Secret>,
                        pools: map<Device, Pool>, pools': map<Device, Pool>,
                        mid: I64, key: string, masterKey: bool, usable: Material -> bool, wrap: Wrapping, now: int)
    requires mid in t.pending
  {
    var devices := UsableDevices(t, t.pending[mid].target, usable);
    var made := FirstEnvelopes(t, mid, key, devices, pools, wrap);
    && Enveloped(t, t', made, now)
    && pools' == FirstPools(key, devices, pools, wrap)
    && secrets' == if made == map[] && masterKey then secrets[mid := Key(key)] else secrets
  }

  // ---- catching up ----

  /** The Bot's messages to the device's user with a retained key but no envelope for the device at this version. */
  function Due(t: Tables, secrets: map<I64, Secret>, bot: I64, d: Device, version: int): set<I64> {
    set mid | mid in t.pending && t.pending[mid].sender == bot && t.pending[mid].target == d.uid
              && mid in secrets && EnvelopeKey(mid, d, version) !in t.envelopes
  }

  function Elements(s: seq<I64>): set<I64> {
    set i | 0 <= i < |s| :: s[i]
  }

  predicate OnceEach(s: seq<I64>) {
    forall i, j :: 0 <= i < j < |s| ==> s[i] != s[j]
  }

  /** The envelopes made, and the pool left, after the messages in `done` were dealt with in this order. */
  ghost function LateRun(secrets: map<I64, Secret>, done: seq<I64>, d: Device, version: int, pool: Pool, wrap: Wrapping)
    : (map<EnvelopeKey, string>, Pool)
  {
    if done == [] then (map[], pool)
    else
      var before := LateRun(secrets, done[..|done| - 1], d, version, pool, wrap);
      var mid := done[|done| - 1];
      if mid in secrets && secrets[mid].Key? then
        var made := WrapOnce(before.1, secrets[mid].key, d, wrap);
        (if made.0.Some? then before.0[EnvelopeKey(mid, d, version) := made.0.value] else before.0, made.1)
      else before
  }

  /** Message `done[i]` had a readable key that could be wrapped when its turn came. */
  ghost predicate WrapsAtTurn(secrets: map<I64, Secret>, done: seq<I64>, i: nat, d: Device, version: int,
                              pool: Pool, wrap: Wrapping)
    requires i < |done|
  {
    && done[i] in secrets && secrets[done[i]].Key?
    && WrapOnce(LateRun(secrets, done[..i], d, version, pool, wrap).1, secrets[done[i]].key, d, wrap).0.Some?
  }

  /** One more message adds its envelope if it can be wrapped at its turn, and nothing else. */
  lemma LateSnoc(secrets: map<I64, Secret>, done: seq<I64>, mid: I64, d: Device, version: int, pool: Pool,
                 wrap: Wrapping)
    ensures var before := LateRun(secrets, done, d, version, pool, wrap);
      LateRun(secrets, done + [mid], d, version, pool, wrap) ==
      if mid in secrets && secrets[mid].Key? then
        var made := WrapOnce(before.1, secrets[mid].key, d, wrap);
        (if made.0.Some? then before.0[EnvelopeKey(mid, d, version) := made.0.value] else before.0, made.1)
      else before
  {
    assert (done + [mid])[..|done + [mid]| - 1] == done;
  }

  lemma LateLast(secrets: map<I64, Secret>, done: seq<I64>, d: Device, version: int, pool: Pool, wrap: Wrapping,
                 k: EnvelopeKey)
    requires done != []
    ensures var last := |done| - 1;
      k in LateRun(secrets, done, d, version, pool, wrap).0 <==>
      || k in LateRun(secrets, done[..last], d, version, pool, wrap).0
      || (k == EnvelopeKey(done[last], d, version) && WrapsAtTurn(secrets, done, last, d, version, pool, wrap))
  {
    hide WrapOnce;
  }

  lemma SameTurn(secrets: map<I64, Secret>, done: seq<I64>, i: nat, d: Device, version: int, pool: Pool, wrap: Wrapping)
    requires i < |done| - 1
    ensures WrapsAtTurn(secrets, done, i, d, version, pool, wrap) <==>
      WrapsAtTurn(secrets, done[..|done| - 1], i, d, version, pool, wrap)
  {
    hide WrapOnce, LateRun;
    assert done[..i] == done[..|done| - 1][..i];
  }

  /** Exactly the messages that could be wrapped at their turn have an envelope. */
  lemma {:induction false} LateKeys(secrets: map<I64, Secret>, done: seq<I64>, d: Device, version: int, pool: Pool,
                                    wrap: Wrapping, k: EnvelopeKey)
    ensures k in LateRun(secrets, done, d, version, pool, wrap).0 <==>
      && k.device == d && k.version == version
      && exists i :: 0 <= i < |done| && done[i] == k.mid && WrapsAtTurn(secrets, done, i, d, version, pool, wrap)
  {
    hide WrapOnce, LateRun, WrapsAtTurn;
    if done == [] {
      LateOfNone(secrets, d, version, pool, wrap);
    } else {
      var front, last := done[..|done| - 1], |done| - 1;
      LateKeys(secrets, front, d, version, pool, wrap, k);
      LateLast(secrets, done, d, version, pool, wrap, k);
      if i :| 0 <= i < |front| && front[i] == k.mid && WrapsAtTurn(secrets, front, i, d, version, pool, wrap) {
        SameTurn(secrets, done, i, d, version, pool, wrap);
        assert done[i] == k.mid;
      }
      if i :| 0 <= i < last && done[i] == k.mid && WrapsAtTurn(secrets, done, i, d, version, pool, wrap) {
        SameTurn(secrets, done, i, d, version, pool, wrap);
        assert front[i] == k.mid;
      }
    }
  }

  // ---- what the wraps cost ----

  lemma WrapCosts(pool: Pool, key: string, d: Device, wrap: Wrapping)
    ensures var (e, left) := WrapOnce(pool, key, d, wrap);
      var had := |PrekeyClaims.Available(pool)|;
      |PrekeyClaims.Available(left)| == if e.Some? && had > 0 then had - 1 else had
  {
    hide PrekeyClaims.Lowest;
    var otp := NextRow(pool);
    if otp.Some? {
      assert PrekeyClaims.Available(pool[otp.value := true]) == PrekeyClaims.Available(pool) - {otp.value};
    }
  }

  /** Each envelope costs one prekey while there is one, and a wrap that fails costs none. */
  lemma {:induction false} EnvelopesCostPrekeys(secrets: map<I64, Secret>, done: seq<I64>, d: Device, version: int,
                                                pool: Pool, wrap: Wrapping)
    requires OnceEach(done)
    ensures var (made, left) := LateRun(secrets, done, d, version, pool, wrap);
      var had := |PrekeyClaims.Available(pool)|;
      |PrekeyClaims.Available(left)| == if |made| <= had then had - |made| else 0
  {
    hide WrapOnce, PrekeyClaims.Available;
    if done != [] {
      var front, mid := done[..|done| - 1], done[|done| - 1];
      EnvelopesCostPrekeys(secrets, front, d, version, pool, wrap);
      LateKeys(secrets, front, d, version, pool, wrap, EnvelopeKey(mid, d, version));
      if mid in secrets && secrets[mid].Key? {
        WrapCosts(LateRun(secrets, front, d, version, pool, wrap).1, secrets[mid].key, d, wrap);
      }
    }
  }

  // ---- the operations as written ----

  class Outbox {
    var tables: Tables
    var secrets: map<I64, Secret>
    var pools: map<Device, Pool>

    constructor (tables: Tables, secrets: map<I64, Secret>, pools: map<Device, Pool>)
      ensures this.tables == tables && this.secrets == secrets && this.pools == pools
    {
      this.tables, this.secrets, this.pools := tables, secrets, pools;
    }

    method AppendPendingEnvelopeInternal(key: EnvelopeKey, envelope: string, now: int) returns (added: bool)
      requires key.mid in tables.pending
      modifies this`tables
      ensures (tables, added) == Append(old(tables), key, envelope, now)
    {
      var r := Append(tables, key, envelope, now);
      tables := r.0;
      added := r.1;
    }

    /**
     `send_bot_dm` from the point where the message is sent and projected under `mid`: the envelopes
     for all usable devices, or else the retained key, for which the master key is needed once more.
     */
    method SendBotDm(mid: I64, key: string, masterKey: bool, usable: Material -> bool, wrap: Wrapping, now: int)
      returns (r: Result<bool, OutboxError>)
      requires mid in tables.pending && mid !in secrets && !HasEnvelope(tables, mid)
      modifies this
      ensures Sends(old(tables), tables, old(secrets), secrets, old(pools), pools, mid, key, masterKey, usable,
        wrap, now)
      ensures r == Ok(true) <==> HasEnvelope(tables, mid)
      ensures r == Ok(false) <==> mid in secrets
      ensures r.Err? <==> !HasEnvelope(tables, mid) && mid !in secrets
    {
      hide Append, Enveloped, FirstEnvelopes, FirstPools, WrapOnce;
      ghost var t0, pools0 := tables, pools;
      var target := tables.pending[mid].target;
      var devices := UsableDevices(tables, target, usable);
      var rest := devices;
      ghost var done: set<Device> := {};
      NothingEnveloped(t0, now);
      FirstOfNone(t0, mid, key, pools0, wrap);
      var appendedAny := false;
      while rest != {}
        invariant rest <= devices && done == devices - rest
        invariant Enveloped(t0, tables, FirstEnvelopes(t0, mid, key, done, pools0, wrap), now)
        invariant pools == FirstPools(key, done, pools0, wrap)
        invariant appendedAny == (FirstEnvelopes(t0, mid, key, done, pools0, wrap) != map[])
        invariant secrets == old(secrets)
        decreases |rest|
      {
        var d :| d in rest;
        FirstOfOneMore(t0, mid, key, done, d, pools0, wrap);
        SameRows(t0, tables, FirstEnvelopes(t0, mid, key, done, pools0, wrap), now);
        var envelope, left := WrapUndisturbed(PoolOf(pools, d), key, d, wrap);
        pools := pools[d := left];
        if envelope.Some? {
          var k := EnvelopeKey(mid, d, tables.identities[d].version);
          NoEnvelopeYet(t0, k);
          EnvelopedAppend(t0, tables, FirstEnvelopes(t0, mid, key, done, pools0, wrap), now, k, envelope.value);
          var added := AppendPendingEnvelopeInternal(k, envelope.value, now);
          if added { appendedAny := true; }
        }
        assert done + {d} == devices - (rest - {d});
        rest, done := rest - {d}, done + {d};
      }
      assert done == devices;
      MadeExactly(t0, tables, mid, key, devices, pools0, wrap, now);
      if !appendedAny {
        if !masterKey { return Err(MissingMasterKey); }
        secrets := secrets[mid := Key(key)];
      }
      r := Ok(appendedAny);
    }

    /** One message of a catch-up: at most one envelope, from the prekeys as the earlier ones left them. */
    method CatchUpOne(mid: I64, d: Device, version: int, wrap: Wrapping, now: int,
                      ghost t0: Tables, ghost pool0: Pool, ghost done: seq<I64>)
      returns (added: bool)
      requires mid in secrets && mid in t0.pending && EnvelopeKey(mid, d, version) !in t0.envelopes
      requires mid !in Elements(done)
      requires CaughtUp(t0, tables, secrets, done, d, version, pool0, PoolOf(pools, d), wrap, now)
      modifies this`tables, this`pools
      ensures CaughtUp(t0, tables, secrets, done + [mid], d, version, pool0, PoolOf(pools, d), wrap, now)
      ensures OnlyAt(d, old(pools), pools)
      ensures |LateRun(secrets, done + [mid], d, version, pool0, wrap).0| ==
        |LateRun(secrets, done, d, version, pool0, wrap).0| + if added then 1 else 0
    {
      hide Append, Enveloped, LateRun, WrapOnce, PoolOf, OnlyAt, Elements;
      ghost var made := LateRun(secrets, done, d, version, pool0, wrap).0;
      LateSnoc(secrets, done, mid, d, version, pool0, wrap);
      NotMadeYet(secrets, done, mid, d, version, pool0, wrap);
      SameRows(t0, tables, made, now);
      var left := PoolOf(pools, d);
      added := false;
      if secrets[mid].Key? {
        var envelope;
        envelope, left := WrapUndisturbed(PoolOf(pools, d), secrets[mid].key, d, wrap);
        if envelope.Some? {
          var k := EnvelopeKey(mid, d, version);
          EnvelopedAppend(t0, tables, made, now, k, envelope.value);
          OneMore(made, k, envelope.value);
          added := AppendPendingEnvelopeInternal(k, envelope.value, now);
        }
      }
      PoolReplaced(pools, d, left);
      pools := pools[d := left];
    }

    /** The messages one after the other, in some order, up to the first whose key cannot be opened. */
    method CatchUpEach(mids: set<I64>, d: Device, version: int, wrap: Wrapping, now: int)
      returns (count: Option<nat>, ghost done: seq<I64>)
      requires mids <= secrets.Keys && mids <= tables.pending.Keys
      requires forall mid :: mid in mids ==> EnvelopeKey(mid, d, version) !in tables.envelopes
      modifies this`tables, this`pools
      ensures OnceEach(done) && Elements(done) <= mids
      ensures CaughtUp(old(tables), tables, secrets, done, d, version, PoolOf(old(pools), d), PoolOf(pools, d),
        wrap, now)
      ensures OnlyAt(d, old(pools), pools)
      ensures count.Some? ==> Elements(done) == mids
      ensures count.Some? ==> count.value == |LateRun(secrets, done, d, version, PoolOf(old(pools), d), wrap).0|
      ensures count.None? ==> exists mid :: mid in mids - Elements(done) && secrets[mid].Unreadable?
    {
      hide CaughtUp, LateRun, Elements, OnceEach;
      ghost var t0, pool0 := tables, PoolOf(pools, d);
      done := [];
      NothingCaughtUp(t0, secrets, d, version, pool0, wrap, now);
      NoElements();
      var rest, added := mids, 0;
      while rest != {}
        invariant rest <= mids && OnceEach(done) && Elements(done) == mids - rest
        invariant CaughtUp(t0, tables, secrets, done, d, version, pool0, PoolOf(pools, d), wrap, now)
        invariant OnlyAt(d, old(pools), pools)
        invariant added == |LateRun(secrets, done, d, version, pool0, wrap).0|
        decreases |rest|
      {
        var mid :| mid in rest;
        if secrets[mid].Unreadable? { return None, done; }
        ElementsSnoc(done, mid);
        var one := CatchUpOne(mid, d, version, wrap, now, t0, pool0, done);
        if one { added := added + 1; }
        assert Elements(done) + {mid} == mids - (rest - {mid});
        rest, done := rest - {mid}, done + [mid];
      }
      count := Some(added);
    }

    /**
     The messages dealt with are all those due, unless a retained key cannot be opened, which ends
     the catch-up where it is. The result counts the new envelopes.
     */
    method CatchUpPendingSends(bot: I64, d: Device, version: int, masterKey: bool, usable: Material -> bool,
                               wrap: Wrapping, now: int)
      returns (r: Result<nat, OutboxError>, ghost done: seq<I64>)
      modifies this`tables, this`pools
      ensures OnceEach(done) && Elements(done) <= Due(old(tables), secrets, bot, d, version)
      ensures CaughtUp(old(tables), tables, secrets, done, d, version, PoolOf(old(pools), d), PoolOf(pools, d),
        wrap, now)
      ensures OnlyAt(d, old(pools), pools)
      ensures var due := Due(old(tables), secrets, bot, d, version);
        && (r.Ok? ==> Elements(done) == due)
        && (r.Ok? ==> r.value == |LateRun(secrets, done, d, version, PoolOf(old(pools), d), wrap).0|)
        && (r == Err(MissingMasterKey) <==> due != {} && !masterKey)
        && (r == Err(NoUsableRecipientDevice) <==> due != {} && masterKey && !Reachable(old(tables), d, usable))
        && (r == Err(VaultDecryptFailed) ==> exists mid :: mid in due - Elements(done) && secrets[mid].Unreadable?)
    {
      hide CaughtUp, LateRun, Elements, OnceEach;
      done := [];
      NothingCaughtUp(tables, secrets, d, version, PoolOf(pools, d), wrap, now);
      NoElements();
      var mids := Due(tables, secrets, bot, d, version);
      if mids == {} { return Ok(0), done; }
      if !masterKey { return Err(MissingMasterKey), done; }
      if !Reachable(tables, d, usable) { return Err(NoUsableRecipientDevice), done; }
      var count;
      count, done := CatchUpEach(mids, d, version, wrap, now);
      r := if count.Some? then Ok(count.value) else Err(VaultDecryptFailed);
    }
  }

  lemma OneMore(made: map<EnvelopeKey, string>, k: EnvelopeKey, envelope: string)
    requires k !in made
    ensures |made[k := envelope]| == |made| + 1
  {
    assert made[k := envelope].Keys == made.Keys + {k};
  }

  lemma NoElements()
    ensures Elements([]) == {} && OnceEach([])
  {
  }

  /** The tables and the device's pool once the messages in `done` are dealt with. */
  ghost predicate CaughtUp(t: Tables, t': Tables, secrets: map<I64, Secret>, done: seq<I64>, d: Device, version: int,
                           pool: Pool, left: Pool, wrap: Wrapping, now: int)
  {
    var run := LateRun(secrets, done, d, version, pool, wrap);
    Enveloped(t, t', run.0, now) && left == run.1
  }

  lemma NothingCaughtUp(t: Tables, secrets: map<I64, Secret>, d: Device, version: int, pool: Pool, wrap: Wrapping,
                        now: int)
    ensures CaughtUp(t, t, secrets, [], d, version, pool, pool, wrap, now)
    ensures LateRun(secrets, [], d, version, pool, wrap).0 == map[]
  {
    LateOfNone(secrets, d, version, pool, wrap);
    NothingEnveloped(t, now);
  }

  lemma LateOfNone(secrets: map<I64, Secret>, d: Device, version: int, pool: Pool, wrap: Wrapping)
    ensures LateRun(secrets, [], d, version, pool, wrap) == (map[], pool)
  {
  }

  lemma NotMadeYet(secrets: map<I64, Secret>, done: seq<I64>, mid: I64, d: Device, version: int, pool: Pool,
                   wrap: Wrapping)
    requires mid !in Elements(done)
    ensures EnvelopeKey(mid, d, version) !in LateRun(secrets, done, d, version, pool, wrap).0
  {
    LateKeys(secrets, done, d, version, pool, wrap, EnvelopeKey(mid, d, version));
  }

  lemma ElementsSnoc(s: seq<I64>, x: I64)
    ensures Elements(s + [x]) == Elements(s) + {x}
    ensures OnceEach(s) && x !in Elements(s) ==> OnceEach(s + [x])
  {
    assert (s + [x])[|s|] == x;
    assert forall i :: 0 <= i < |s| ==> (s + [x])[i] == s[i];
  }

  lemma MadeExactly(t: Tables, t': Tables, mid: I64, key: string, devices: set<Device>, pools: map<Device, Pool>,
                    wrap: Wrapping, now: int)
    requires devices <= t.identities.Keys && !HasEnvelope(t, mid)
    requires Enveloped(t, t', FirstEnvelopes(t, mid, key, devices, pools, wrap), now)
    ensures FirstEnvelopes(t, mid, key, devices, pools, wrap) != map[] <==> HasEnvelope(t', mid)
  {
    hide WrapOnce;
    var made := FirstEnvelopes(t, mid, key, devices, pools, wrap);
    if HasEnvelope(t', mid) { NewEnvelopeWasMade(t, t', made, now, mid); }
    if made != map[] {
      var e :| e in made;
      assert e in t'.envelopes && e.mid == mid;
    }
  }

  lemma NoEnvelopeYet(t: Tables, k: EnvelopeKey)
    requires !HasEnvelope(t, k.mid)
    ensures k !in t.envelopes
  {
  }

  // ---- what a Bot's recipient gets ----

  /** A message is complete exactly when it has an envelope; sending and catching up keep that. */
  lemma EnvelopingCompletes(t: Tables, t': Tables, added: map<EnvelopeKey, string>, now: int)
    requires CompletedIffEnvelope(t) && Enveloped(t, t', added, now)
    ensures CompletedIffEnvelope(t')
  {
    forall mid | mid in t'.pending ensures t'.pending[mid].completedAt.Some? <==> HasEnvelope(t', mid) {
      if HasEnvelope(t, mid) {
        var e :| e in t.envelopes && e.mid == mid;
        assert e in t'.envelopes;
      }
      if HasKey(added, mid) {
        var e :| e in added && e.mid == mid;
        assert e in t'.envelopes;
      }
    }
  }

  /**
   Which of a Bot's messages a device still lacks after a complete catch-up for its current
   version: those it lacked before whose key was not retained, or could not be wrapped at its turn.
   If wrapping for the device never fails, only the first kind and keys of a wrong length are left.
   */
  lemma CatchUpLeavesExactly(t: Tables, t': Tables, secrets: map<I64, Secret>, bot: I64, d: Device, done: seq<I64>,
                             pool: Pool, left: Pool, wrap: Wrapping, now: int, mid: I64)
    requires d in t.identities && mid in t.pending && t.pending[mid].sender == bot && t.pending[mid].target == d.uid
    requires var version := t.identities[d].version;
      && Elements(done) == Due(t, secrets, bot, d, version)
      && CaughtUp(t, t', secrets, done, d, version, pool, left, wrap, now)
    ensures var version := t.identities[d].version;
      && (Lacks(t', mid, d) <==>
            && Lacks(t, mid, d)
            && !exists i :: 0 <= i < |done| && done[i] == mid && WrapsAtTurn(secrets, done, i, d, version, pool, wrap))
      && ((forall key, otp :: wrap(key, d, otp).Some?) ==>
            (Lacks(t', mid, d) <==> Lacks(t, mid, d) && !(mid in secrets && secrets[mid].Key?)))
  {
    var version := t.identities[d].version;
    LateKeys(secrets, done, d, version, pool, wrap, EnvelopeKey(mid, d, version));
    SameRows(t, t', LateRun(secrets, done, d, version, pool, wrap).0, now);
    hide Enveloped, LateRun;
    if (forall key, otp :: wrap(key, d, otp).Some?) && Lacks(t, mid, d) && mid in secrets && secrets[mid].Key? {
      assert mid in Elements(done);
      var i :| 0 <= i < |done| && done[i] == mid;
      assert WrapsAtTurn(secrets, done, i, d, version, pool, wrap);
    }
  }

  lemma NewEnvelopeWasMade(t: Tables, t': Tables, added: map<EnvelopeKey, string>, now: int, mid: I64)
    requires Enveloped(t, t', added, now) && !HasEnvelope(t, mid) && HasEnvelope(t', mid)
    ensures added != map[]
  {
    var e :| e in t'.envelopes && e.mid == mid;
    assert e in added;
  }

  lemma SendKeepsCurrent(t: Tables, t': Tables, mid: I64, key: string, devices: set<Device>,
                         pools: map<Device, Pool>, wrap: Wrapping, now: int)
    requires EnvelopesCurrent(t) && mid in t.pending && devices <= t.identities.Keys
    requires forall d :: d in devices ==> d.uid == t.pending[mid].target
    requires Enveloped(t, t', FirstEnvelopes(t, mid, key, devices, pools, wrap), now)
    ensures EnvelopesCurrent(t')
  {
    hide WrapOnce;
  }

  /**
   A message that gets an envelope when it is sent has no retained key. When the recipient then
   adds a device, the Bot is reported as waiting and the message is listed as pending for that
   device, and yet it is not among those the catch-up is due to handle.
   */
  lemma LaterDeviceIsMissed(t0: Tables, t: Tables, secrets0: map<I64, Secret>, secrets: map<I64, Secret>,
                            pools0: map<Device, Pool>, pools: map<Device, Pool>, mid: I64, key: string,
                            masterKey: bool, usable: Material -> bool, wrap: Wrapping, now: int,
                            token: Device, name: string, material: Material, protocol: int)
    requires EnvelopesCurrent(t0) && mid in t0.pending && mid !in secrets0 && !HasEnvelope(t0, mid)
    requires Sends(t0, t, secrets0, secrets, pools0, pools, mid, key, masterKey, usable, wrap, now)
    requires HasEnvelope(t, mid)
    requires token.uid == t0.pending[mid].target && token !in t.identities
    requires Publish(t, token, name, material, protocol).Ok?
    ensures var (t', p) := Publish(t, token, name, material, protocol).value;
      var bot := t0.pending[mid].sender;
      && bot in p.waiting && Lacks(t', mid, token) && mid in GetPending(t', bot, token.uid)
      && mid !in Due(t', secrets, bot, token, p.version)
  {
    hide WrapOnce, FirstPools;
    var devices := UsableDevices(t0, t0.pending[mid].target, usable);
    SendKeepsCurrent(t0, t, mid, key, devices, pools0, wrap, now);
    NewEnvelopeWasMade(t0, t, FirstEnvelopes(t0, mid, key, devices, pools0, wrap), now, mid);
    assert t.pending[mid].sender == t0.pending[mid].sender && t.pending[mid].target == token.uid;
    hide Sends, FirstEnvelopes, Enveloped;
    NewMaterialWakesEverySender(t, token, name, material, protocol);
    hide Blank, WaitingSenders;
    var (t', p) := Publish(t, token, name, material, protocol).value;
    assert EnvelopeKey(mid, token, p.version) !in t.envelopes;
    assert token in t'.identities && Lacks(t', mid, token);
  }
}
