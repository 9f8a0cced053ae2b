/**
 Who gets what from a Bot: for each device the envelopes that a send or a complete catch-up makes for
 it, the prekey that pays for each, and the key that is retained when there is none.
 */
module BotDeliveries {
  import opened Wrappers
  import opened Bytes
  import opened DeferredDm
  import opened BotOutbox
  import PrekeyClaims

  /** The prekey a wrap uses is the unconsumed row with the lowest id, if there is one. */
  lemma NextRowIsLowest(pool: Pool)
    ensures match NextRow(pool)
      case None => forall r :: r in pool ==> pool[r]
      case Some(r) => r in pool && !pool[r] && forall q :: q in pool && !pool[q] ==> r <= q
  {
    var rows := PrekeyClaims.Available(pool);
    assert forall r :: r in rows <==> r in pool && !pool[r];
  }

  /** The device can be wrapped for: published and not retired, its keys usable, the wrap succeeds. */
  predicate Wrappable(t: Tables, target: I64, d: Device, key: string, otp: Option<PrekeyClaims.Row>,
                      usable: Material -> bool, wrap: Wrapping)
  {
    && d in t.identities && d.uid == target && !t.identities[d].retired && usable(t.identities[d].material)
    && wrap(key, d, otp).Some?
  }

  /**
   A send makes an envelope for a device exactly if it is a device of the recipient that can be wrapped
   for, at its present version and out of its own pool. It takes that prekey from the pool and nothing
   else. No other message gets anything.
   */
  lemma SendReachesExactly(t: Tables, t': Tables, secrets: map<I64, Secret>, secrets': map<I64, Secret>,
                           pools: map<Device, Pool>, pools': map<Device, Pool>, mid: I64, key: string,
                           masterKey: bool, usable: Material -> bool, wrap: Wrapping, now: int, e: EnvelopeKey)
    requires mid in t.pending && mid !in secrets && !HasEnvelope(t, mid)
    requires Sends(t, t', secrets, secrets', pools, pools', mid, key, masterKey, usable, wrap, now)
    ensures var otp := NextRow(PoolOf(pools, e.device));
      var made := Wrappable(t, t.pending[mid].target, e.device, key, otp, usable, wrap);
      && (e.mid == mid ==>
            && (e in t'.envelopes <==> made && e.version == t.identities[e.device].version)
            && (e in t'.envelopes ==> t'.envelopes[e] == wrap(key, e.device, otp).value))
      && (e.mid != mid ==>
            (e in t'.envelopes <==> e in t.envelopes) && (e in t.envelopes ==> t'.envelopes[e] == t.envelopes[e]))
      && PoolOf(pools', e.device) ==
        if made && otp.Some? then PoolOf(pools, e.device)[otp.value := true] else PoolOf(pools, e.device)
  {
    var d := e.device;
    var devices := UsableDevices(t, t.pending[mid].target, usable);
    var added := FirstEnvelopes(t, mid, key, devices, pools, wrap);
    assert d in devices <==>
        && d in t.identities && d.uid == t.pending[mid].target
        && !t.identities[d].retired && usable(t.identities[d].material);
    hide UsableDevices, HasKey, NextRow;
    assert e.mid == mid ==> e !in t.envelopes;
    assert e in added ==> e.mid == mid;
  }

  /** The key of the message is retained exactly if it has no envelope and the master key is there. */
  lemma SendRetainsExactly(t: Tables, t': Tables, secrets: map<I64, Secret>, secrets': map<I64, Secret>,
                           pools: map<Device, Pool>, pools': map<Device, Pool>, mid: I64, key: string,
                           masterKey: bool, usable: Material -> bool, wrap: Wrapping, now: int, m: I64)
    requires mid in t.pending && mid !in secrets && !HasEnvelope(t, mid)
    requires Sends(t, t', secrets, secrets', pools, pools', mid, key, masterKey, usable, wrap, now)
    ensures mid in secrets' <==> masterKey && !HasEnvelope(t', mid)
    ensures mid in secrets' ==> secrets'[mid] == Key(key)
    ensures m != mid ==> (m in secrets' <==> m in secrets) && (m in secrets ==> secrets'[m] == secrets[m])
    ensures m in t.pending <==> m in t'.pending
    ensures m in t.pending ==>
      t'.pending[m] ==
        if m == mid && HasEnvelope(t', mid) && t.pending[m].completedAt.None?
        then t.pending[m].(completedAt := Some(now)) else t.pending[m]
  {
    var devices := UsableDevices(t, t.pending[mid].target, usable);
    var added := FirstEnvelopes(t, mid, key, devices, pools, wrap);
    MadeExactly(t, t', mid, key, devices, pools, wrap, now);
    assert forall k :: k in added ==> k.mid == mid;
    if added != map[] {
      var k :| k in added;
      assert HasKey(added, mid);
    }
    hide FirstEnvelopes, UsableDevices, FirstPools;
  }

  /** A new envelope of a catch-up wraps the retained key of its message. */
  lemma {:induction false} LateValues(secrets: map<I64, Secret>, done: seq<I64>, d: Device, version: int, pool: Pool,
                                      wrap: Wrapping, k: EnvelopeKey)
    requires k in LateRun(secrets, done, d, version, pool, wrap).0
    ensures k.mid in secrets && secrets[k.mid].Key?
    ensures var envelope := LateRun(secrets, done, d, version, pool, wrap).0[k];
      exists otp :: wrap(secrets[k.mid].key, d, otp) == Some(envelope)
  {
    if done != [] {
      var front, last := done[..|done| - 1], done[|done| - 1];
      assert front + [last] == done;
      LateSnoc(secrets, front, last, d, version, pool, wrap);
      var before := LateRun(secrets, front, d, version, pool, wrap);
      if last in secrets && secrets[last].Key? && k == EnvelopeKey(last, d, version)
        && WrapOnce(before.1, secrets[last].key, d, wrap).0.Some?
      {
        assert wrap(secrets[k.mid].key, d, NextRow(before.1)) == WrapOnce(before.1, secrets[last].key, d, wrap).0;
      } else {
        hide WrapOnce, LateRun;
        LateValues(secrets, front, d, version, pool, wrap, k);
      }
    }
  }

  /**
   A complete catch-up adds exactly the envelopes for this device and version of messages the Bot sent
   to the device's user, had none for it, and whose key was retained and wrapped at its turn.
   */
  lemma CatchUpReachesExactly(t: Tables, t': Tables, secrets: map<I64, Secret>, bot: I64, d: Device, version: int,
                              done: seq<I64>, pool: Pool, left: Pool, wrap: Wrapping, now: int, e: EnvelopeKey)
    requires Elements(done) == Due(t, secrets, bot, d, version)
    requires CaughtUp(t, t', secrets, done, d, version, pool, left, wrap, now)
    ensures e in t'.envelopes <==>
      || e in t.envelopes
      || (&& e.device == d && e.version == version && e.mid in t.pending && t.pending[e.mid].sender == bot
          && t.pending[e.mid].target == d.uid && e.mid in secrets
          && exists i :: 0 <= i < |done| && done[i] == e.mid && WrapsAtTurn(secrets, done, i, d, version, pool, wrap))
    ensures e in t.envelopes ==> t'.envelopes[e] == t.envelopes[e]
    ensures e in t'.envelopes && e !in t.envelopes ==>
      exists otp :: wrap(secrets[e.mid].key, d, otp) == Some(t'.envelopes[e])
  {
    var made := LateRun(secrets, done, d, version, pool, wrap).0;
    LateKeys(secrets, done, d, version, pool, wrap, e);
    if e in made {
      LateValues(secrets, done, d, version, pool, wrap, e);
      assert e.mid in Elements(done);
    }
    forall i | 0 <= i < |done| ensures done[i] in Due(t, secrets, bot, d, version) { assert done[i] in Elements(done); }
    hide LateRun, WrapsAtTurn, HasKey;
  }

  /** What a catch-up costs: one prekey of the device for each new envelope while there is one. */
  lemma CatchUpCosts(t: Tables, t': Tables, secrets: map<I64, Secret>, done: seq<I64>, d: Device, version: int,
                     pool: Pool, left: Pool, wrap: Wrapping, now: int)
    requires OnceEach(done) && CaughtUp(t, t', secrets, done, d, version, pool, left, wrap, now)
    requires forall k :: k in t.envelopes && k.device == d && k.version == version ==> k.mid !in Elements(done)
    ensures var made, had := |t'.envelopes.Keys - t.envelopes.Keys|, |PrekeyClaims.Available(pool)|;
      |PrekeyClaims.Available(left)| == if made <= had then had - made else 0
  {
    EnvelopesCostPrekeys(secrets, done, d, version, pool, wrap);
    var made := LateRun(secrets, done, d, version, pool, wrap).0;
    forall k | k in made ensures k !in t.envelopes {
      LateKeys(secrets, done, d, version, pool, wrap, k);
    }
    assert t'.envelopes.Keys - t.envelopes.Keys == made.Keys;
    assert |made| == |made.Keys|;
  }
}
