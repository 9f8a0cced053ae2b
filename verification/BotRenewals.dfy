/**
 What initializing, rotating and rebuilding a Bot's keys leave behind, in any run: which keys are
 new, which stay, and which prekeys are on offer.
 */
module BotRenewals {
  import opened Wrappers
  import opened BotVault

  /** Prekey rows are numbered below the next number, each differently; an initialized Bot has key ids 1 to 20. */
  ghost predicate Numbered(t: Tables) {
    && (forall k :: k in t.prekeys ==> t.prekeys[k].id < t.nextRow)
    && (forall k, l :: k in t.prekeys && l in t.prekeys && k != l ==> t.prekeys[k].id != t.prekeys[l].id)
    && (forall k :: k in t.prekeys <==> t.vault.Some? && 1 <= k <= 20)
  }

  lemma RenewedIsNumbered(t: Tables, version: nat, identity: Secret, first: Secret, rows: map<KeyId, PrekeyRow>)
    requires Numbered(t) && rows.Keys <= t.prekeys.Keys && forall k :: k in rows ==> rows[k] == t.prekeys[k]
    ensures Numbered(Renewed(t, version, identity, first, rows))
  {
  }

  lemma NumberedStep(w: World, s: Step)
    requires Synced(w.tables) && Numbered(w.tables) && Enabled(w, s)
    ensures Numbered(Do(w, s).tables) && Do(w, s).tables.nextSecret >= w.tables.nextSecret
  {
    var t := w.tables;
    match s
    case Initialize(isBot) => if Initialized(t, isBot).1.None? { InitializedIsNumbered(t); }
    case Rotate(isBot) => if Rotated(t, isBot).1.None? { RotatedIsNumbered(t); }
    case Rebuild(isBot, confirm) => if Rebuilt(t, isBot, confirm).1.None? { RebuiltIsNumbered(t); }
    case Inbound(e, opens, utf8) => hide Position, Unwraps, Opens, Renewed, Synced;
    case _ => hide Renewed, Synced;
  }

  lemma InitializedIsNumbered(t: Tables)
    requires Numbered(t) && Initialized(t, true).1.None?
    ensures Numbered(Initialized(t, true).0) && Initialized(t, true).0.nextSecret >= t.nextSecret
  {
    hide Renewed, Numbered;
    RenewedIsNumbered(t, 1, t.nextSecret, t.nextSecret + 1, t.prekeys);
    NextSecret(t, 1, t.nextSecret, t.nextSecret + 1, t.prekeys);
  }

  lemma RotatedIsNumbered(t: Tables)
    requires Synced(t) && Numbered(t) && t.vault.Some?
    ensures Numbered(Rotated(t, true).0) && Rotated(t, true).0.nextSecret >= t.nextSecret
  {
    RotatedIsRenewed(t);
    hide Renewed, Numbered, Rotated;
    var version, identity := t.vault.value.version + 1, t.vault.value.material.identity;
    RenewedIsNumbered(t, version, identity, t.nextSecret, OnlyConsumed(t.prekeys));
    NextSecret(t, version, identity, t.nextSecret, OnlyConsumed(t.prekeys));
  }

  lemma RebuiltIsNumbered(t: Tables)
    requires Synced(t) && Numbered(t) && t.vault.Some?
    ensures Numbered(Rebuilt(t, true, true).0) && Rebuilt(t, true, true).0.nextSecret >= t.nextSecret
  {
    var version := t.vault.value.version + 1;
    assert t.published.Some?;
    hide Renewed, Numbered;
    RenewedIsNumbered(t, version, t.nextSecret, t.nextSecret + 1, map[]);
    NextSecret(t, version, t.nextSecret, t.nextSecret + 1, map[]);
  }

  lemma NextSecret(t: Tables, version: nat, identity: Secret, first: Secret, rows: map<KeyId, PrekeyRow>)
    ensures Renewed(t, version, identity, first, rows).nextSecret == first + 21
  {
  }

  lemma {:induction false} NumberedInRun(start: World, run: seq<Step>)
    requires Start(start) && After(start, run).Some?
    ensures Synced(After(start, run).value.tables) && Numbered(After(start, run).value.tables)
  {
    if run == [] {
      InvariantOfRun(start, run);
    } else {
      hide Numbered, Synced, Do, Invariant;
      NumberedInRun(start, run[..|run| - 1]);
      InvariantOfRun(start, run);
      SyncedOf(After(start, run).value);
      NumberedStep(After(start, run[..|run| - 1]).value, run[|run| - 1]);
    }
  }

  lemma {:induction false} EarlierSecrets(start: World, run: seq<Step>, i: nat)
    requires Start(start) && After(start, run).Some? && i <= |run|
    ensures After(start, run[..i]).Some?
    ensures After(start, run[..i]).value.tables.nextSecret <= After(start, run).value.tables.nextSecret
  {
    if i == |run| {
      assert run[..i] == run;
    } else {
      hide Numbered, Synced, Do;
      var front := run[..|run| - 1];
      assert front[..i] == run[..i];
      EarlierSecrets(start, front, i);
      NumberedInRun(start, front);
      NumberedStep(After(start, front).value, run[|run| - 1]);
    }
  }

  /** A key that has not been drawn yet is published at no earlier point of the run. */
  lemma NeverPublishedBefore(start: World, run: seq<Step>, i: nat)
    requires Start(start) && After(start, run).Some? && i <= |run|
    ensures After(start, run[..i]).Some?
    ensures var t, next := After(start, run[..i]).value.tables, After(start, run).value.tables.nextSecret;
      t.published.Some? ==> t.published.value.identity.secret < next && t.published.value.signedPrekey.secret < next
  {
    hide After;
    EarlierSecrets(start, run, i);
    InvariantOfRun(start, run[..i]);
  }

  /** Both tables hold one identity, and a new signed prekey, under `version`. */
  predicate Holding(t: Tables, t': Tables, identity: Secret, version: nat) {
    && t'.vault.Some? && t'.published.Some?
    && var v, p := t'.vault.value, t'.published.value;
       && v.version == version && p.version == version
       && v.material.identity == identity && v.identity == Pub(identity) && p.identity == Pub(identity)
       && p.signedPrekey == v.signedPrekey == Pub(v.material.signedPrekey)
       && t.nextSecret <= v.material.signedPrekey < t'.nextSecret && v.material.signedPrekey != identity
       && |v.material.otps| == 20
  }

  /** The rows are the twenty key ids, none consumed, each with a new private key of its own that is in the vault. */
  ghost predicate Offering(t: Tables, t': Tables)
    requires t'.vault.Some?
  {
    var m := t'.vault.value.material;
    && (forall k :: k in t'.prekeys <==> 1 <= k <= 20)
    && (forall k :: k in t'.prekeys ==>
          var secret := t'.prekeys[k].key.secret;
          && !t'.prekeys[k].consumed && OtpSecret(k, secret) in m.otps
          && t.nextSecret <= secret < t'.nextSecret && secret != m.identity && secret != m.signedPrekey)
    && (forall k, l :: k in t'.prekeys && l in t'.prekeys && k != l ==> t'.prekeys[k].key != t'.prekeys[l].key)
  }

  ghost predicate NewKeys(t: Tables, t': Tables, identity: Secret, version: nat) {
    Holding(t, t', identity, version) && Offering(t, t')
  }

  lemma RenewedHasNewKeys(t: Tables, version: nat, identity: Secret, first: Secret, rows: map<KeyId, PrekeyRow>)
    requires t.nextSecret <= first && identity < first && forall k :: k in rows ==> 1 <= k <= 20
    ensures var t' := Renewed(t, version, identity, first, rows);
      && NewKeys(t, t', identity, version)
      && forall k :: k in t'.prekeys ==>
           if k in rows then t'.prekeys[k].id == rows[k].id else t'.prekeys[k].id >= t.nextRow
  {
    hide Refilled, Batch, Offering;
    var t' := Renewed(t, version, identity, first, rows);
    RowIds(t, first, rows);
    forall k | 1 <= k <= 20 ensures RowRenewed(t', first, k) { RenewedRow(t, version, identity, first, rows, k); }
    assert Holding(t, t', identity, version);
    RowsAreOffered(t, t', first);
  }

  lemma RowsAreOffered(t: Tables, t': Tables, first: Secret)
    requires t.nextSecret <= first && t'.nextSecret == first + 21
    requires t'.vault.Some? && t'.vault.value.material.identity < first == t'.vault.value.material.signedPrekey
    requires forall k :: k in t'.prekeys <==> 1 <= k <= 20
    requires forall k :: 1 <= k <= 20 ==> RowRenewed(t', first, k)
    ensures Offering(t, t')
  {
    assert forall k :: k in t'.prekeys ==> RowRenewed(t', first, k);
  }

  /** Prekey `k` is on offer under the `k`-th private key after `first`, and the vault has it. */
  predicate RowRenewed(t: Tables, first: Secret, k: KeyId) {
    && t.vault.Some? && k in t.prekeys && !t.prekeys[k].consumed && t.prekeys[k].key == Pub(first + k)
    && OtpSecret(k, first + k) in t.vault.value.material.otps
  }

  lemma RenewedRow(t: Tables, version: nat, identity: Secret, first: Secret, rows: map<KeyId, PrekeyRow>, k: KeyId)
    requires 1 <= k <= 20
    ensures RowRenewed(Renewed(t, version, identity, first, rows), first, k)
  {
    assert Batch(first + 1, OTP_BATCH_SIZE)[k - 1] == OtpSecret(k, first + k);
  }

  lemma RowIds(t: Tables, first: Secret, rows: map<KeyId, PrekeyRow>)
    requires forall k :: k in rows ==> 1 <= k <= 20
    ensures var all := Refilled(rows, t.nextRow, first + 1, 20);
      && (forall k :: k in all <==> 1 <= k <= 20)
      && forall k :: k in all ==> if k in rows then all[k].id == rows[k].id else all[k].id >= t.nextRow
  {
  }

  lemma FirstInitialize(t: Tables)
    requires t.vault.None? && t.published.None? && t.prekeys == map[]
    ensures Initialized(t, true) == (Renewed(t, 1, t.nextSecret, t.nextSecret + 1, map[]), None)
  {
    hide Renewed;
    assert t.prekeys.Keys * KeyIds(OTP_BATCH_SIZE) == {};
  }

  /** Initializing a Bot that has no keys: version 1, and everything is new. */
  lemma InitializingDrawsEverything(start: World, run: seq<Step>)
    requires Start(start) && After(start, run).Some? && After(start, run).value.tables.vault.None?
    ensures var t := After(start, run).value.tables;
      var (t', e) := Initialized(t, true);
      && e == None && t'.vault.Some? && t'.vault.value.material.identity >= t.nextSecret
      && NewKeys(t, t', t'.vault.value.material.identity, 1)
      && forall k :: k in t'.prekeys ==> t'.prekeys[k].id >= t.nextRow
  {
    hide After;
    NumberedInRun(start, run);
    var t := After(start, run).value.tables;
    assert t.published.None? && t.prekeys == map[];
    FirstInitialize(t);
    hide Renewed, Offering, Synced, Numbered, Initialized;
    RenewedHasNewKeys(t, 1, t.nextSecret, t.nextSecret + 1, map[]);
  }

  lemma NextRebuild(t: Tables)
    requires t.vault.Some? && t.published.Some?
    ensures Rebuilt(t, true, true) ==
      (Renewed(t, t.vault.value.version + 1, t.nextSecret, t.nextSecret + 1, map[]), None)
  {
    hide Refilled, Batch;
  }

  /** Rotating keeps the identity and nothing else; a consumed row is offered again with a new key. */
  lemma RotatingKeepsOnlyTheIdentity(start: World, run: seq<Step>)
    requires Start(start) && After(start, run).Some? && After(start, run).value.tables.vault.Some?
    ensures var t := After(start, run).value.tables;
      var (t', e) := Rotated(t, true);
      && e == None
      && NewKeys(t, t', t.vault.value.material.identity, t.vault.value.version + 1)
      && t'.published.Some? && t'.published.value.identity == t.published.value.identity
      && (forall k :: k in t'.prekeys <==> k in t.prekeys)
      && forall k :: k in t.prekeys ==>
           if t.prekeys[k].consumed then t'.prekeys[k].id == t.prekeys[k].id else t'.prekeys[k].id >= t.nextRow
  {
    hide After;
    NumberedInRun(start, run);
    var t := After(start, run).value.tables;
    RotatedIsRenewed(t);
    assert t.published.Some? && t.published.value.identity == Pub(t.vault.value.material.identity);
    assert t.vault.value.material.identity < t.nextSecret;
    assert forall k :: k in t.prekeys <==> 1 <= k <= 20;
    hide Renewed, Offering, Synced, Numbered, Rotated;
    RenewedHasNewKeys(t, t.vault.value.version + 1, t.vault.value.material.identity, t.nextSecret,
      OnlyConsumed(t.prekeys));
  }

  /**
   A confirmed rebuild replaces everything: the identity is new in both tables and differs from every
   identity published at any earlier point of the run, and no prekey row survives.
   */
  lemma RebuildingReplacesEverything(start: World, run: seq<Step>, i: nat)
    requires Start(start) && After(start, run).Some? && After(start, run).value.tables.vault.Some? && i <= |run|
    ensures var t := After(start, run).value.tables;
      var (t', e) := Rebuilt(t, true, true);
      && e == None && t'.vault.Some? && t'.vault.value.material.identity >= t.nextSecret
      && NewKeys(t, t', t'.vault.value.material.identity, t.vault.value.version + 1)
      && (forall k :: k in t'.prekeys ==> t'.prekeys[k].id >= t.nextRow)
      && After(start, run[..i]).Some?
      && var earlier := After(start, run[..i]).value.tables.published;
         earlier.Some? && t'.published.Some? ==> earlier.value.identity != t'.published.value.identity
  {
    hide After, Rebuilt, NewKeys, Synced, Numbered;
    NumberedInRun(start, run);
    NeverPublishedBefore(start, run, i);
    RebuiltIsNew(After(start, run).value.tables);
  }

  lemma RebuiltIsNew(t: Tables)
    requires Synced(t) && t.vault.Some?
    ensures var (t', e) := Rebuilt(t, true, true);
      && e == None && t'.vault.Some? && t'.vault.value.material.identity >= t.nextSecret
      && NewKeys(t, t', t'.vault.value.material.identity, t.vault.value.version + 1)
      && (forall k :: k in t'.prekeys ==> t'.prekeys[k].id >= t.nextRow)
      && t'.published.Some? && t'.published.value.identity == Pub(t'.vault.value.material.identity)
  {
    NextRebuild(t);
    hide Renewed, NewKeys, Synced, Rebuilt;
    RenewedHasNewKeys(t, t.vault.value.version + 1, t.nextSecret, t.nextSecret + 1, map[]);
  }

  /**
   On any tables, also ones out of step with each other: initializing beside a published identity or a
   used key id is refused; a rotation leaves both identity columns alone; and neither a rotation nor a
   rebuild publishes an identity where there is no row.
   */
  lemma OutOfStep(t: Tables)
    ensures var (t', e) := Initialized(t, true);
      && (e == Some(Database) <==>
            t.vault.None? && (t.published.Some? || exists k :: k in t.prekeys && 1 <= k <= 20))
      && (e.Some? ==> t' == t)
    ensures t.vault.Some? ==>
      var (t', e) := Rotated(t, true);
      && e == None && t'.vault.Some? && t'.vault.value.identity == t.vault.value.identity
      && (t'.published.Some? <==> t.published.Some?)
      && (t'.published.Some? ==> t'.published.value.identity == t.published.value.identity)
    ensures t.vault.Some? ==>
      var (t', e) := Rebuilt(t, true, true);
      e == None && (t'.published.Some? <==> t.published.Some?)
  {
    hide Refilled, Batch;
    var used := t.prekeys.Keys * KeyIds(OTP_BATCH_SIZE);
    assert forall k :: k in used <==> k in t.prekeys && 1 <= k <= 20;
    if k :| k in t.prekeys && 1 <= k <= 20 { assert k in used; } else { assert used == {}; }
  }

  /** When each is refused, in any run; a refusal changes nothing. */
  lemma RenewalRefusals(start: World, run: seq<Step>, isBot: bool, confirm: bool)
    requires Start(start) && After(start, run).Some?
    ensures var t := After(start, run).value.tables;
      && (Initialized(t, isBot).1.None? <==> isBot && t.vault.None?)
      && (Initialized(t, isBot).1 == Some(NotBot) <==> !isBot)
      && (Initialized(t, isBot).1 == Some(AlreadyInitialized) <==> isBot && t.vault.Some?)
      && (Initialized(t, isBot).1.Some? ==> Initialized(t, isBot).0 == t)
      && (Rotated(t, isBot).1.None? <==> isBot && t.vault.Some?)
      && (Rotated(t, isBot).1 == Some(NotBot) <==> !isBot)
      && (Rotated(t, isBot).1 == Some(NotInitialized) <==> isBot && t.vault.None?)
      && (Rotated(t, isBot).1.Some? ==> Rotated(t, isBot).0 == t)
      && (Rebuilt(t, isBot, confirm).1.None? <==> confirm && isBot && t.vault.Some?)
      && (Rebuilt(t, isBot, confirm).1 == Some(ConfirmationRequired) <==> !confirm)
      && (Rebuilt(t, isBot, confirm).1 == Some(NotBot) <==> confirm && !isBot)
      && (Rebuilt(t, isBot, confirm).1 == Some(NotInitialized) <==> confirm && isBot && t.vault.None?)
      && (Rebuilt(t, isBot, confirm).1.Some? ==> Rebuilt(t, isBot, confirm).0 == t)
  {
    hide After, Renewed;
    NumberedInRun(start, run);
    assert After(start, run).value.tables.vault.None? ==> After(start, run).value.tables.prekeys == map[];
  }

  /**
   In any run an envelope opens exactly if the vault holds the private key of the identity, of the
   signed prekey and, under its key id, of the one-time prekey it names.
   */
  lemma OpensExactly(start: World, run: seq<Step>, b: Bundle)
    requires Start(start) && After(start, run).Some?
    ensures var t := After(start, run).value.tables;
      Opens(t, b, true) <==>
        && t.vault.Some?
        && b.identity.secret == t.vault.value.material.identity
        && b.signedPrekey.secret == t.vault.value.material.signedPrekey
        && (b.claim.Some? ==>
              OtpSecret(b.claim.value.otp.keyId, b.claim.value.otp.key.secret) in t.vault.value.material.otps)
  {
    hide After;
    NumberedInRun(start, run);
    var t := After(start, run).value.tables;
    if t.vault.Some? && b.claim.Some? { PositionIsHeld(t.vault.value.material.otps, b.claim.value.otp); }
  }

  /** What handling answers, whatever is stored: the first of these that applies, and delivery otherwise. */
  lemma InboundAnswers(t: Tables, stored: Stored, masterKey: bool, opens: bool, utf8: bool)
    ensures var r := HandledStored(t, stored, masterKey, opens, utf8).1;
      && (r == Some(MessageNotFound) <==> stored.NoMessage? || stored.OtherContent?)
      && (r == Some(EnvelopeNotFound) <==> stored.NoEnvelope?)
      && (r == Some(MissingMasterKey) <==> stored.Arrived? && !masterKey)
      && (r == Some(NotInitialized) <==> stored.Arrived? && masterKey && t.vault.None?)
      && (r == Some(OneTimePrekeyUnavailable) <==>
            && stored.Arrived? && masterKey && t.vault.Some? && stored.bundle.claim.Some?
            && forall i :: 0 <= i < |t.vault.value.material.otps| ==>
                 t.vault.value.material.otps[i].keyId != stored.bundle.claim.value.otp.keyId)
      && (r == None <==> stored.Arrived? && masterKey && Opens(t, stored.bundle, opens) && utf8)
      && (r == Some(Crypto) <==>
            || stored.UnreadableContent? || stored.UnreadableEnvelope?
            || (stored.Arrived? && masterKey && t.vault.Some? && !(Opens(t, stored.bundle, opens) && utf8)
                && (stored.bundle.claim.Some? ==>
                      exists i :: 0 <= i < |t.vault.value.material.otps|
                        && t.vault.value.material.otps[i].keyId == stored.bundle.claim.value.otp.keyId)))
  {
  }

  /** There is always a prekey to read next, or none is left: the unconsumed rows have a lowest one. */
  lemma {:induction false} NextExists(rows: map<KeyId, PrekeyRow>, ids: set<KeyId>) returns (k: Option<KeyId>)
    requires ids <= rows.Keys
    ensures match k
      case None => forall j :: j in ids ==> rows[j].consumed
      case Some(k) =>
        k in ids && !rows[k].consumed && forall j :: j in ids && !rows[j].consumed ==> rows[k].id <= rows[j].id
    decreases |ids|
  {
    if j :| j in ids {
      k := NextExists(rows, ids - {j});
      if !rows[j].consumed && (k.None? || rows[j].id < rows[k.value].id) { k := Some(j); }
    } else {
      k := None;
    }
  }

  /**
   In every run a new fetch can go through: it reads the identity, reads the lowest prekey on offer, if
   any, and consumes that row and no other. All three renewals can be asked for at any time.
   */
  lemma FetchGoesThrough(start: World, run: seq<Step>, f: FetchId) returns (k: Option<KeyId>, longer: seq<Step>)
    requires Start(start) && After(start, run).Some?
    requires After(start, run).value.tables.vault.Some? && f !in After(start, run).value.fetches
    ensures var rows := After(start, run).value.tables.prekeys;
      match k
      case None => forall j :: j in rows ==> rows[j].consumed
      case Some(k) =>
        k in rows && !rows[k].consumed && forall j :: j in rows && !rows[j].consumed ==> rows[k].id <= rows[j].id
    ensures longer == run + [ReadIdentity(f)] + [ReadPrekey(f, k)] + [MarkConsumed(f)] && After(start, longer).Some?
    ensures var w, w' := After(start, run).value, After(start, longer).value;
      && f !in w'.fetches && w'.tables == w.tables.(prekeys := w'.tables.prekeys)
      && w'.tables.prekeys.Keys == w.tables.prekeys.Keys
      && forall j :: j in w.tables.prekeys ==>
           w'.tables.prekeys[j] == if k == Some(j) then w.tables.prekeys[j].(consumed := true) else w.tables.prekeys[j]
  {
    var w := After(start, run).value;
    NumberedInRun(start, run);
    k := NextExists(w.tables.prekeys, w.tables.prekeys.Keys);
    assert IsNext(w.tables.prekeys, k);
    hide After, Synced, IsNext;
    longer := run + [ReadIdentity(f)] + [ReadPrekey(f, k)] + [MarkConsumed(f)];
    assert w.tables.published.Some? by { PublishedOnce(w.tables); }
    Extend(start, run, ReadIdentity(f));
    Extend(start, run + [ReadIdentity(f)], ReadPrekey(f, k));
    Extend(start, run + [ReadIdentity(f)] + [ReadPrekey(f, k)], MarkConsumed(f));
  }

  lemma PublishedOnce(t: Tables)
    requires Synced(t) && t.vault.Some?
    ensures t.published.Some?
  {
  }

  /** The steps of a run are these operations, as a caller sees them. */
  lemma StepsTakeEffect(start: World, run: seq<Step>, s: Step)
    requires Start(start) && After(start, run).Some?
    requires s.Initialize? || s.Rotate? || s.Rebuild? || s.Inbound?
    requires s.Inbound? ==> s.envelope.bundle in After(start, run).value.handed
    ensures After(start, run + [s]).Some?
    ensures var t, t' := After(start, run).value.tables, After(start, run + [s]).value.tables;
      && (s.Initialize? ==> t' == Initialized(t, s.isBot).0)
      && (s.Rotate? ==> t' == Rotated(t, s.isBot).0)
      && (s.Rebuild? ==> t' == Rebuilt(t, s.isBot, s.confirm).0)
      && (s.Inbound? ==> t' == Handled(t, s.envelope.bundle, s.opens, s.utf8).0)
    ensures s.Inbound? ==>
      var w, w' := After(start, run).value, After(start, run + [s]).value;
      w'.openings == if Opens(w.tables, s.envelope.bundle, s.opens) then w.openings + [s.envelope] else w.openings
  {
    Extend(start, run, s);
    hide After, Initialized, Rotated, Rebuilt, Handled;
  }
}
