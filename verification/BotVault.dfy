/**
 The key vault of a Bot and the public keys the server publishes for it.

 The vault row holds the Bot's private keys; the identity row and the one-time prekey rows are
 what senders fetch. Each vault operation is one atomic step, while a sender's fetch of a bundle
 is three: it reads the identity, reads the lowest unconsumed prekey and marks that row consumed.
 Private keys are numbers drawn once; a public key determines its private key, and an envelope
 unwraps exactly with the private keys its sender's bundle names.
 */
module BotVault {
  import opened Wrappers

  const OTP_BATCH_SIZE: nat := 20

  type Secret = nat
  type KeyId = nat
  type FetchId = nat

  datatype PublicKey = Pub(secret: Secret)

  datatype OtpSecret = OtpSecret(keyId: KeyId, secret: Secret)
  datatype Material = Material(identity: Secret, signedPrekey: Secret, otps: seq<OtpSecret>)

  datatype VaultRow = VaultRow(version: nat, material: Material, identity: PublicKey, signedPrekey: PublicKey)
  datatype IdentityRow = IdentityRow(version: nat, identity: PublicKey, signedPrekey: PublicKey)
  datatype PrekeyRow = PrekeyRow(id: nat, key: PublicKey, consumed: bool)

  /** One Bot's rows; its prekeys are unique by key id. Row ids and private keys are never reused. */
  datatype Tables = Tables(
    vault: Option<VaultRow>,
    published: Option<IdentityRow>,
    prekeys: map<KeyId, PrekeyRow>,
    nextRow: nat,
    nextSecret: Secret)

  datatype BotError =
    | NotBot
    | NotInitialized
    | AlreadyInitialized
    | ConfirmationRequired
    | MessageNotFound
    | EnvelopeNotFound
    | MissingMasterKey
    | OneTimePrekeyUnavailable
    | Crypto
    | Database

  // ---- the vault operations ----

  /** Key ids 1 to `count`, with private keys from `first` on. */
  function Batch(first: Secret, count: nat): (otps: seq<OtpSecret>)
    ensures |otps| == count && forall i :: 0 <= i < count ==> otps[i] == OtpSecret(i + 1, first + i)
  {
    if count == 0 then [] else Batch(first, count - 1) + [OtpSecret(count, first + count - 1)]
  }

  function KeyIds(count: nat): (ids: set<KeyId>)
    ensures forall k :: k in ids <==> 1 <= k <= count
  {
    if count == 0 then {} else KeyIds(count - 1) + {count}
  }

  /** Insert, or update the row of the same key id in place, the public halves of a batch. */
  function Refilled(rows: map<KeyId, PrekeyRow>, nextRow: nat, first: Secret, count: nat): map<KeyId, PrekeyRow> {
    map k | k in rows.Keys + KeyIds(count) ::
      if 1 <= k <= count
      then PrekeyRow(if k in rows then rows[k].id else nextRow + k - 1, Pub(first + k - 1), false)
      else rows[k]
  }

  function OnlyConsumed(rows: map<KeyId, PrekeyRow>): map<KeyId, PrekeyRow> {
    map k | k in rows && rows[k].consumed :: rows[k]
  }

  /** New signed prekey and one-time prekeys for an identity key; `rows` are the prekey rows kept. */
  function Renewed(t: Tables, version: nat, identity: Secret, first: Secret, rows: map<KeyId, PrekeyRow>): Tables {
    Tables(
      Some(VaultRow(version, Material(identity, first, Batch(first + 1, OTP_BATCH_SIZE)), Pub(identity), Pub(first))),
      Some(IdentityRow(version, Pub(identity), Pub(first))),
      Refilled(rows, t.nextRow, first + 1, OTP_BATCH_SIZE),
      t.nextRow + OTP_BATCH_SIZE,
      first + 1 + OTP_BATCH_SIZE)
  }

  function Initialized(t: Tables, isBot: bool): (Tables, Option<BotError>) {
    if !isBot then (t, Some(NotBot))
    else if t.vault.Some? then (t, Some(AlreadyInitialized))
    // primary key of the identity, unique key ids
    else if t.published.Some? || t.prekeys.Keys * KeyIds(OTP_BATCH_SIZE) != {} then (t, Some(Database))
    else (Renewed(t, 1, t.nextSecret, t.nextSecret + 1, t.prekeys), None)
  }

  /** Keeps the identity key and the consumed rows; both public updates need their row to exist. */
  function Rotated(t: Tables, isBot: bool): (Tables, Option<BotError>) {
    if !isBot then (t, Some(NotBot))
    else if t.vault.None? then (t, Some(NotInitialized))
    else
      var next :=
        Renewed(t, t.vault.value.version + 1, t.vault.value.material.identity, t.nextSecret, OnlyConsumed(t.prekeys));
      // the identity and its public half are not part of this update
      (next.(vault := Some(next.vault.value.(identity := t.vault.value.identity)),
             published :=
               if t.published.None? then None else Some(next.published.value.(identity := t.published.value.identity))),
       None)
  }

  function Rebuilt(t: Tables, isBot: bool, confirm: bool): (Tables, Option<BotError>) {
    if !confirm then (t, Some(ConfirmationRequired))
    else if !isBot then (t, Some(NotBot))
    else if t.vault.None? then (t, Some(NotInitialized))
    else
      var next := Renewed(t, t.vault.value.version + 1, t.nextSecret, t.nextSecret + 1, map[]);
      (next.(published := if t.published.None? then None else next.published), None)
  }

  // ---- bundles and envelopes ----

  /** A one-time prekey as a sender sees it. */
  datatype Otp = Otp(keyId: KeyId, key: PublicKey)

  /** A prekey read from row `row` while the vault had version `version`. */
  datatype Claim = Claim(otp: Otp, row: nat, version: nat)

  /** What a fetch returned; `version` is the vault's version when the identity was read. */
  datatype Bundle = Bundle(identity: PublicKey, signedPrekey: PublicKey, version: nat, claim: Option<Claim>)

  datatype Envelope = Envelope(mid: nat, bundle: Bundle)

  predicate Holds(otps: seq<OtpSecret>, otp: Otp) {
    OtpSecret(otp.keyId, otp.key.secret) in otps
  }

  /** `position` by key id. */
  function Position(otps: seq<OtpSecret>, keyId: KeyId): (r: Option<nat>)
    ensures r.Some? ==> r.value < |otps| && otps[r.value].keyId == keyId
    ensures r.Some? ==> forall i :: 0 <= i < r.value ==> otps[i].keyId != keyId
    ensures r.None? ==> forall i :: 0 <= i < |otps| ==> otps[i].keyId != keyId
  {
    if otps == [] then None
    else
      match Position(otps[..|otps| - 1], keyId)
      case Some(i) => Some(i)
      case None => if otps[|otps| - 1].keyId == keyId then Some(|otps| - 1) else None
  }

  /** Unwrapping with the private keys `identity`, `signedPrekey` and `otk`. */
  predicate Unwraps(b: Bundle, m: Material, otk: Option<Secret>) {
    && b.identity == Pub(m.identity)
    && b.signedPrekey == Pub(m.signedPrekey)
    && match (b.claim, otk)
       case (None, None) => true
       case (Some(c), Some(s)) => c.otp.key == Pub(s)
       case _ => false
  }

  /**
   Handling an envelope made with `b`. `opens` says whether the ciphertext opens under the content
   key and the message's metadata, `utf8` whether the plaintext is text. The vault is written after
   the ciphertext opened and before the plaintext is looked at.
   */
  function Handled(t: Tables, b: Bundle, opens: bool, utf8: bool): (Tables, Option<BotError>) {
    if t.vault.None? then (t, Some(NotInitialized))
    else
      var m := t.vault.value.material;
      match b.claim
      case None =>
        if !Unwraps(b, m, None) || !opens then (t, Some(Crypto))
        else (t, if utf8 then None else Some(Crypto))
      case Some(c) =>
        match Position(m.otps, c.otp.keyId)
        case None => (t, Some(OneTimePrekeyUnavailable))
        case Some(i) =>
          if !Unwraps(b, m, Some(m.otps[i].secret)) || !opens then (t, Some(Crypto))
          else
            (t.(vault := Some(t.vault.value.(material := m.(otps := m.otps[..i] + m.otps[i + 1..])))),
             if utf8 then None else Some(Crypto))
  }

  /** What the stores hold for the message an envelope was posted to; the content may be none of ours, or unreadable. */
  datatype Stored =
    | NoMessage | OtherContent | UnreadableContent
    | NoEnvelope | UnreadableEnvelope
    | Arrived(bundle: Bundle)

  /** Handling whatever is stored; all refusals before the vault is opened come first. */
  function HandledStored(t: Tables, stored: Stored, masterKey: bool, opens: bool, utf8: bool)
    : (Tables, Option<BotError>)
  {
    match stored
    case NoMessage => (t, Some(MessageNotFound))
    case OtherContent => (t, Some(MessageNotFound))
    case UnreadableContent => (t, Some(Crypto))
    case NoEnvelope => (t, Some(EnvelopeNotFound))
    case UnreadableEnvelope => (t, Some(Crypto))
    case Arrived(b) => if masterKey then Handled(t, b, opens, utf8) else (t, Some(MissingMasterKey))
  }

  /** The envelope's key can be unwrapped and its ciphertext opened. */
  predicate Opens(t: Tables, b: Bundle, opens: bool) {
    && opens
    && t.vault.Some?
    && var m := t.vault.value.material;
       match b.claim
       case None => Unwraps(b, m, None)
       case Some(c) =>
         var i := Position(m.otps, c.otp.keyId);
         i.Some? && Unwraps(b, m, Some(m.otps[i.value].secret))
  }

  // ---- the run machine ----

  datatype Fetch =
    | HasIdentity(identity: PublicKey, signedPrekey: PublicKey, version: nat)
    | HasPrekey(bundle: Bundle)

  /** Bundles handed to senders, and the envelopes that were opened, oldest first. */
  datatype World = World(tables: Tables, fetches: map<FetchId, Fetch>, handed: set<Bundle>, openings: seq<Envelope>)

  datatype Step =
    | Initialize(isBot: bool)
    | Rotate(isBot: bool)
    | Rebuild(isBot: bool, confirm: bool)
    | ReadIdentity(fetch: FetchId)
    | ReadPrekey(fetch: FetchId, keyId: Option<KeyId>)
    | MarkConsumed(fetch: FetchId)
    | Inbound(envelope: Envelope, opens: bool, utf8: bool)

  /** The unconsumed row with the lowest id, if any. */
  ghost predicate IsNext(rows: map<KeyId, PrekeyRow>, keyId: Option<KeyId>) {
    match keyId
    case None => forall k :: k in rows ==> rows[k].consumed
    case Some(k) =>
      k in rows && !rows[k].consumed && forall j :: j in rows && !rows[j].consumed ==> rows[k].id <= rows[j].id
  }

  function Version(t: Tables): nat {
    if t.vault.Some? then t.vault.value.version else 0
  }

  ghost predicate Enabled(w: World, s: Step) {
    match s
    case Initialize(_) => true
    case Rotate(_) => true
    case Rebuild(_, _) => true
    case ReadIdentity(f) => f !in w.fetches && w.tables.published.Some?
    case ReadPrekey(f, k) => f in w.fetches && w.fetches[f].HasIdentity? && IsNext(w.tables.prekeys, k)
    case MarkConsumed(f) => f in w.fetches && w.fetches[f].HasPrekey?
    case Inbound(e, _, _) => e.bundle in w.handed
  }

  function ClaimOf(t: Tables, keyId: Option<KeyId>): Option<Claim>
    requires keyId.Some? ==> keyId.value in t.prekeys
  {
    match keyId
    case None => None
    case Some(k) => Some(Claim(Otp(k, t.prekeys[k].key), t.prekeys[k].id, Version(t)))
  }

  /** `update ... set consumed = true where id = ?`, whatever the row holds by now. */
  function Marked(rows: map<KeyId, PrekeyRow>, row: nat): map<KeyId, PrekeyRow> {
    map k | k in rows :: if rows[k].id == row then rows[k].(consumed := true) else rows[k]
  }

  ghost function Do(w: World, s: Step): World
    requires Enabled(w, s)
  {
    match s
    case Initialize(isBot) => w.(tables := Initialized(w.tables, isBot).0)
    case Rotate(isBot) => w.(tables := Rotated(w.tables, isBot).0)
    case Rebuild(isBot, confirm) => w.(tables := Rebuilt(w.tables, isBot, confirm).0)
    case ReadIdentity(f) =>
      var p := w.tables.published.value;
      w.(fetches := w.fetches[f := HasIdentity(p.identity, p.signedPrekey, Version(w.tables))])
    case ReadPrekey(f, k) =>
      var i := w.fetches[f];
      w.(fetches := w.fetches[f := HasPrekey(Bundle(i.identity, i.signedPrekey, i.version, ClaimOf(w.tables, k)))])
    case MarkConsumed(f) =>
      var b := w.fetches[f].bundle;
      var rows := if b.claim.Some? then Marked(w.tables.prekeys, b.claim.value.row) else w.tables.prekeys;
      w.(tables := w.tables.(prekeys := rows), fetches := w.fetches - {f}, handed := w.handed + {b})
    case Inbound(e, opens, utf8) =>
      w.(tables := Handled(w.tables, e.bundle, opens, utf8).0,
         openings := if Opens(w.tables, e.bundle, opens) then w.openings + [e] else w.openings)
  }

  /** Before the Bot is initialized nothing of it exists. */
  predicate Start(w: World) {
    && w.tables.vault == None && w.tables.published == None && w.tables.prekeys == map[]
    && w.fetches == map[] && w.handed == {} && w.openings == []
  }

  ghost function After(start: World, run: seq<Step>): Option<World> {
    if run == [] then Some(start)
    else
      match After(start, run[..|run| - 1])
      case None => None
      case Some(w) => if Enabled(w, run[|run| - 1]) then Some(Do(w, run[|run| - 1])) else None
  }

  // ---- the invariant ----

  /** The rows agree with each other: versions, public halves, and a private key for every offered prekey. */
  predicate Synced(t: Tables) {
    match t.vault
    case None => t.published.None? && t.prekeys == map[]
    case Some(v) =>
      && t.published == Some(IdentityRow(v.version, v.identity, v.signedPrekey))
      && v.version > 0
      && v.identity == Pub(v.material.identity) && v.signedPrekey == Pub(v.material.signedPrekey)
      && (forall k :: k in t.prekeys && !t.prekeys[k].consumed ==> Holds(v.material.otps, Otp(k, t.prekeys[k].key)))
      && KeysAreSound(v.material, t.nextSecret)
  }

  /** Key ids are unique and every private key has been drawn. */
  predicate KeysAreSound(m: Material, nextSecret: Secret) {
    && (forall i, j :: 0 <= i < j < |m.otps| ==> m.otps[i].keyId != m.otps[j].keyId)
    && (forall i :: 0 <= i < |m.otps| ==> m.otps[i].secret < nextSecret)
    && m.identity < nextSecret && m.signedPrekey < nextSecret
  }

  predicate WasOpened(openings: seq<Envelope>, otp: Otp) {
    exists i :: 0 <= i < |openings| && Names(openings[i], otp)
  }

  predicate Names(e: Envelope, otp: Otp) {
    e.bundle.claim.Some? && e.bundle.claim.value.otp == otp
  }

  /** Public keys read at a version are those of that version and no other. */
  predicate IdentityFacts(t: Tables, identity: PublicKey, signedPrekey: PublicKey, version: nat) {
    && t.vault.Some?
    && version <= t.vault.value.version
    && signedPrekey.secret < t.nextSecret
    && var m := t.vault.value.material;
       if version == t.vault.value.version
       then identity == Pub(m.identity) && signedPrekey == Pub(m.signedPrekey)
       else signedPrekey != Pub(m.signedPrekey)
  }

  /** A prekey read at the current version has its private key in the vault until it is used. */
  predicate ClaimFacts(w: World, c: Claim, handed: bool) {
    && w.tables.vault.Some?
    && c.version <= w.tables.vault.value.version
    && c.otp.key.secret < w.tables.nextSecret
    && var otps := w.tables.vault.value.material.otps;
       if c.version == w.tables.vault.value.version then
         && (Holds(otps, c.otp) <==> !WasOpened(w.openings, c.otp))
         && c.otp.keyId in w.tables.prekeys
         && w.tables.prekeys[c.otp.keyId].id == c.row
         && (handed ==> w.tables.prekeys[c.otp.keyId].consumed)
       else !Holds(otps, c.otp)
  }

  predicate BundleFacts(w: World, b: Bundle, handed: bool) {
    && IdentityFacts(w.tables, b.identity, b.signedPrekey, b.version)
    && (b.claim.Some? ==> ClaimFacts(w, b.claim.value, handed))
  }

  predicate FetchFacts(w: World, f: Fetch) {
    match f
    case HasIdentity(identity, signedPrekey, version) => IdentityFacts(w.tables, identity, signedPrekey, version)
    case HasPrekey(b) => BundleFacts(w, b, false)
  }

  /** No two opened envelopes name the same prekey, and a used one has left the vault. */
  predicate OpenedOnce(w: World) {
    && (forall i, j :: 0 <= i < j < |w.openings| && w.openings[i].bundle.claim.Some? ==>
          !Names(w.openings[j], w.openings[i].bundle.claim.value.otp))
    && (forall i :: 0 <= i < |w.openings| ==> w.openings[i].bundle in w.handed)
    && (forall i :: 0 <= i < |w.openings| && w.openings[i].bundle.claim.Some? ==>
          w.tables.vault.Some? && !Holds(w.tables.vault.value.material.otps, w.openings[i].bundle.claim.value.otp))
  }

  predicate Invariant(w: World) {
    && Synced(w.tables)
    && OpenedOnce(w)
    && (forall f :: f in w.fetches ==> FetchFacts(w, w.fetches[f]))
    && (forall b :: b in w.handed ==> BundleFacts(w, b, true))
  }

  // ---- new keys ----

  /** What a new version looks like: every key in it but perhaps the identity is new. */
  predicate Fresher(t: Tables, t': Tables) {
    && t'.vault.Some? && Synced(t')
    && t'.vault.value.version > Version(t)
    && t'.vault.value.material.signedPrekey >= t.nextSecret
    && t'.nextSecret >= t.nextSecret
    && forall i :: 0 <= i < |t'.vault.value.material.otps| ==> t'.vault.value.material.otps[i].secret >= t.nextSecret
  }

  lemma RenewedIsFresher(t: Tables, version: nat, identity: Secret, first: Secret, rows: map<KeyId, PrekeyRow>)
    requires version > Version(t) && t.nextSecret <= first && identity < first
    requires forall k :: k in rows ==> rows[k].consumed
    ensures Fresher(t, Renewed(t, version, identity, first, rows))
  {
    var t' := Renewed(t, version, identity, first, rows);
    var otps := t'.vault.value.material.otps;
    forall k | k in t'.prekeys && !t'.prekeys[k].consumed ensures Holds(otps, Otp(k, t'.prekeys[k].key)) {
      assert otps[k - 1] == OtpSecret(k, first + 1 + k - 1);
    }
  }

  lemma RenewalsAreFresher(t: Tables, isBot: bool, confirm: bool)
    requires Synced(t)
    ensures Initialized(t, isBot).1.None? ==> Fresher(t, Initialized(t, isBot).0)
    ensures Rotated(t, isBot).1.None? ==> Fresher(t, Rotated(t, isBot).0)
    ensures Rebuilt(t, isBot, confirm).1.None? ==> Fresher(t, Rebuilt(t, isBot, confirm).0)
  {
    hide Renewed, Fresher;
    if Initialized(t, isBot).1.None? {
      RenewedIsFresher(t, 1, t.nextSecret, t.nextSecret + 1, t.prekeys);
    }
    if Rotated(t, isBot).1.None? {
      RenewedIsFresher(t, t.vault.value.version + 1, t.vault.value.material.identity, t.nextSecret,
        OnlyConsumed(t.prekeys));
      RotatedIsRenewed(t);
    }
    if Rebuilt(t, isBot, confirm).1.None? {
      RenewedIsFresher(t, t.vault.value.version + 1, t.nextSecret, t.nextSecret + 1, map[]);
      assert t.published.Some?;
    }
  }

  lemma RotatedIsRenewed(t: Tables)
    requires Synced(t) && t.vault.Some?
    ensures Rotated(t, true).0 ==
      Renewed(t, t.vault.value.version + 1, t.vault.value.material.identity, t.nextSecret, OnlyConsumed(t.prekeys))
  {
  }

  lemma OldFactsSurvive(w: World, t: Tables, b: Bundle, handed: bool)
    requires Fresher(w.tables, t) && BundleFacts(w, b, handed)
    ensures BundleFacts(w.(tables := t), b, handed)
  {
    hide Synced;
  }

  lemma RenewalKeepsInvariant(w: World, t: Tables)
    requires Invariant(w) && Fresher(w.tables, t)
    ensures Invariant(w.(tables := t))
  {
    var w' := w.(tables := t);
    hide BundleFacts, Synced;
    forall b | b in w'.handed ensures BundleFacts(w', b, true) { OldFactsSurvive(w, t, b, true); }
    forall f | f in w'.fetches ensures FetchFacts(w', w'.fetches[f]) {
      assert FetchFacts(w, w.fetches[f]);
      if w.fetches[f].HasPrekey? { OldFactsSurvive(w, t, w.fetches[f].bundle, false); }
    }
    assert Synced(t);
    OpenedStayOut(w, t);
  }

  lemma OpenedStayOut(w: World, t: Tables)
    requires Invariant(w) && Fresher(w.tables, t)
    ensures OpenedOnce(w.(tables := t))
  {
    hide Synced, FetchFacts;
    forall i | 0 <= i < |w.openings| && w.openings[i].bundle.claim.Some?
      ensures !Holds(t.vault.value.material.otps, w.openings[i].bundle.claim.value.otp)
    {
      assert BundleFacts(w, w.openings[i].bundle, true);
    }
  }

  // ---- fetching ----

  lemma ReadIdentityKeepsInvariant(w: World, f: FetchId)
    requires Invariant(w) && Enabled(w, ReadIdentity(f))
    ensures Invariant(Do(w, ReadIdentity(f)))
  {
    var w' := Do(w, ReadIdentity(f));
    hide BundleFacts, ClaimFacts, WasOpened;
    forall b | b in w'.handed ensures BundleFacts(w', b, true) { SameTables(w, w', b, true); }
    forall g | g in w'.fetches ensures FetchFacts(w', w'.fetches[g]) {
      if g != f {
        assert FetchFacts(w, w.fetches[g]);
        if w.fetches[g].HasPrekey? { SameTables(w, w', w.fetches[g].bundle, false); }
      }
    }
  }

  lemma SameTables(w: World, w': World, b: Bundle, handed: bool)
    requires BundleFacts(w, b, handed) && w'.tables == w.tables && w'.openings == w.openings
    ensures BundleFacts(w', b, handed)
  {
  }

  lemma ReadPrekeyKeepsInvariant(w: World, f: FetchId, k: Option<KeyId>)
    requires Invariant(w) && Enabled(w, ReadPrekey(f, k))
    ensures Invariant(Do(w, ReadPrekey(f, k)))
  {
    var w' := Do(w, ReadPrekey(f, k));
    assert FetchFacts(w, w.fetches[f]);
    if k.Some? { OfferedPrekeyIsHeld(w, k.value); }
    hide ClaimFacts, WasOpened, Holds, IdentityFacts;
    forall b | b in w'.handed ensures BundleFacts(w', b, true) { SameTables(w, w', b, true); }
    forall g | g in w'.fetches ensures FetchFacts(w', w'.fetches[g]) {
      if g != f {
        assert FetchFacts(w, w.fetches[g]);
        if w.fetches[g].HasPrekey? { SameTables(w, w', w.fetches[g].bundle, false); }
      } else {
        SameTables(w, w', w'.fetches[f].bundle, false);
      }
    }
  }

  lemma OfferedPrekeyIsHeld(w: World, k: KeyId)
    requires Invariant(w) && k in w.tables.prekeys && !w.tables.prekeys[k].consumed
    ensures ClaimFacts(w, ClaimOf(w.tables, Some(k)).value, false)
  {
    hide FetchFacts, BundleFacts;
    var otp := Otp(k, w.tables.prekeys[k].key);
    assert Holds(w.tables.vault.value.material.otps, otp);
    assert !WasOpened(w.openings, otp);
  }

  lemma MarkKeepsFacts(w: World, row: nat, b: Bundle, handed: bool)
    requires BundleFacts(w, b, handed)
    ensures BundleFacts(w.(tables := w.tables.(prekeys := Marked(w.tables.prekeys, row))), b, handed)
  {
  }

  lemma MarkHandsOut(w: World, b: Bundle)
    requires BundleFacts(w, b, false)
    ensures b.claim.Some? ==>
      BundleFacts(w.(tables := w.tables.(prekeys := Marked(w.tables.prekeys, b.claim.value.row))), b, true)
    ensures b.claim.None? ==> BundleFacts(w, b, true)
  {
  }

  lemma MarkConsumedKeepsInvariant(w: World, f: FetchId)
    requires Invariant(w) && Enabled(w, MarkConsumed(f))
    ensures Invariant(Do(w, MarkConsumed(f)))
  {
    hide ClaimFacts, WasOpened, Holds;
    var w' := Do(w, MarkConsumed(f));
    var b := w.fetches[f].bundle;
    assert FetchFacts(w, w.fetches[f]);
    var t := w'.tables;
    assert FactsCarryOver(w, w.(tables := t)) by {
      if b.claim.Some? {
        forall c, h | BundleFacts(w, c, h) ensures BundleFacts(w.(tables := t), c, h) {
          MarkKeepsFacts(w, b.claim.value.row, c, h);
        }
      }
    }
    MarkHandsOut(w, b);
    forall c | c in w'.handed ensures BundleFacts(w', c, true) {
      if c != b { assert BundleFacts(w, c, true); }
      SameTables(w.(tables := t), w', c, true);
    }
    forall g | g in w'.fetches ensures FetchFacts(w', w'.fetches[g]) {
      assert FetchFacts(w, w.fetches[g]);
      if w.fetches[g].HasPrekey? {
        SameTables(w.(tables := t), w', w.fetches[g].bundle, false);
      }
    }
  }

  ghost predicate FactsCarryOver(w: World, w': World) {
    forall b, h :: BundleFacts(w, b, h) ==> BundleFacts(w', b, h)
  }

  // ---- using a prekey ----

  /** With unique key ids the first secret under a key id is the only one. */
  lemma PositionIsHeld(otps: seq<OtpSecret>, otp: Otp)
    requires forall i, j :: 0 <= i < j < |otps| ==> otps[i].keyId != otps[j].keyId
    ensures Holds(otps, otp) <==>
      Position(otps, otp.keyId).Some? && otp.key == Pub(otps[Position(otps, otp.keyId).value].secret)
  {
    var p := Position(otps, otp.keyId);
    if Holds(otps, otp) {
      var i :| 0 <= i < |otps| && otps[i] == OtpSecret(otp.keyId, otp.key.secret);
      assert p.Some? && p.value == i;
    }
    if p.Some? && otp.key == Pub(otps[p.value].secret) {
      assert otps[p.value] == OtpSecret(otp.keyId, otp.key.secret);
    }
  }

  /** Removing the secret of `otp` removes that one and no other. */
  lemma RemovalIsExact(otps: seq<OtpSecret>, i: nat, otp: Otp)
    requires forall i, j :: 0 <= i < j < |otps| ==> otps[i].keyId != otps[j].keyId
    requires i < |otps|
    ensures var rest := otps[..i] + otps[i + 1..];
      Holds(rest, otp) <==> Holds(otps, otp) && otp.keyId != otps[i].keyId
  {
    var rest := otps[..i] + otps[i + 1..];
    if Holds(otps, otp) && otp.keyId != otps[i].keyId {
      var j :| 0 <= j < |otps| && otps[j] == OtpSecret(otp.keyId, otp.key.secret);
      assert rest[if j < i then j else j - 1] == otps[j];
    }
    if Holds(rest, otp) {
      var j :| 0 <= j < |rest| && rest[j] == OtpSecret(otp.keyId, otp.key.secret);
      assert rest[j] == otps[if j < i then j else j + 1];
    }
  }

  /** An opened envelope that names a prekey takes exactly that prekey out of the vault. */
  lemma OpeningUses(w: World, e: Envelope, opens: bool, utf8: bool)
    requires Invariant(w) && Opens(w.tables, e.bundle, opens) && e.bundle.claim.Some?
    ensures var t, t', used := w.tables, Handled(w.tables, e.bundle, opens, utf8).0, e.bundle.claim.value.otp;
      && t.vault.Some? && t'.vault.Some? && t' == t.(vault := t'.vault)
      && t'.vault.value == t.vault.value.(material := t.vault.value.material.(otps := t'.vault.value.material.otps))
      && Holds(t.vault.value.material.otps, used)
      && KeysAreSound(t'.vault.value.material, t'.nextSecret)
      && OnlyUses(t.vault.value.material.otps, t'.vault.value.material.otps, used)
  {
    hide OpenedOnce, FetchFacts, BundleFacts;
    var otps, used := w.tables.vault.value.material.otps, e.bundle.claim.value.otp;
    PositionIsHeld(otps, used);
    var i := Position(otps, used.keyId).value;
    var otps' := Handled(w.tables, e.bundle, opens, utf8).0.vault.value.material.otps;
    assert otps' == otps[..i] + otps[i + 1..];
    forall otp ensures Holds(otps', otp) <==> Holds(otps, otp) && otp.keyId != used.keyId {
      RemovalIsExact(otps, i, otp);
    }
  }

  ghost predicate OnlyUses(otps: seq<OtpSecret>, otps': seq<OtpSecret>, used: Otp) {
    forall otp :: Holds(otps', otp) <==> Holds(otps, otp) && otp.keyId != used.keyId
  }

  /** Two prekeys of one key id that are both in the vault are the same prekey. */
  lemma OneSecretPerKeyId(otps: seq<OtpSecret>, a: Otp, b: Otp)
    requires forall i, j :: 0 <= i < j < |otps| ==> otps[i].keyId != otps[j].keyId
    requires Holds(otps, a) && Holds(otps, b) && a.keyId == b.keyId
    ensures a == b
  {
    PositionIsHeld(otps, a);
    PositionIsHeld(otps, b);
  }

  lemma UseKeepsFacts(w: World, w': World, e: Envelope, b: Bundle, handed: bool)
    requires w.tables.vault.Some? && w'.tables.vault.Some? && w'.tables == w.tables.(vault := w'.tables.vault)
    requires w'.tables.vault.value ==
      w.tables.vault.value.(material := w.tables.vault.value.material.(otps := w'.tables.vault.value.material.otps))
    requires w'.openings == w.openings + [e] && e.bundle.claim.Some?
    requires KeysAreSound(w.tables.vault.value.material, w.tables.nextSecret)
    requires Holds(w.tables.vault.value.material.otps, e.bundle.claim.value.otp)
    requires OnlyUses(w.tables.vault.value.material.otps, w'.tables.vault.value.material.otps, e.bundle.claim.value.otp)
    requires BundleFacts(w, b, handed)
    ensures BundleFacts(w', b, handed)
  {
    hide Holds, IdentityFacts;
    assert IdentityFacts(w'.tables, b.identity, b.signedPrekey, b.version) by { KeepsIdentity(w.tables, w'.tables, b); }
    if b.claim.Some? {
      var otp, used := b.claim.value.otp, e.bundle.claim.value.otp;
      OpenedSnoc(w.openings, e, otp);
      var otps := w.tables.vault.value.material.otps;
      if Holds(otps, otp) && otp.keyId == used.keyId { OneSecretPerKeyId(otps, otp, used); }
    }
  }

  lemma KeepsIdentity(t: Tables, t': Tables, b: Bundle)
    requires IdentityFacts(t, b.identity, b.signedPrekey, b.version)
    requires t'.vault.Some? && t'.nextSecret == t.nextSecret
    requires t'.vault.value == t.vault.value.(material := t.vault.value.material.(otps := t'.vault.value.material.otps))
    ensures IdentityFacts(t', b.identity, b.signedPrekey, b.version)
  {
  }

  lemma OpenedSnoc(openings: seq<Envelope>, e: Envelope, otp: Otp)
    ensures WasOpened(openings + [e], otp) <==> WasOpened(openings, otp) || Names(e, otp)
  {
    var longer := openings + [e];
    if WasOpened(openings, otp) {
      var i :| 0 <= i < |openings| && Names(openings[i], otp);
      assert Names(longer[i], otp);
    }
    if Names(e, otp) { assert Names(longer[|openings|], otp); }
  }

  lemma UseKeepsInvariant(w: World, e: Envelope, opens: bool, utf8: bool)
    requires Invariant(w) && Enabled(w, Inbound(e, opens, utf8))
    requires Opens(w.tables, e.bundle, opens) && e.bundle.claim.Some?
    ensures Invariant(Do(w, Inbound(e, opens, utf8)))
  {
    hide Handled, Opens, BundleFacts, OpenedOnce, Holds, KeysAreSound, OnlyUses, WasOpened;
    var w' := Do(w, Inbound(e, opens, utf8));
    OpeningUses(w, e, opens, utf8);
    forall b | b in w'.handed ensures BundleFacts(w', b, true) { UseKeepsFacts(w, w', e, b, true); }
    forall f | f in w'.fetches ensures FetchFacts(w', w'.fetches[f]) {
      assert FetchFacts(w, w.fetches[f]);
      match w.fetches[f] {
        case HasPrekey(b) => UseKeepsFacts(w, w', e, b, false);
        case HasIdentity(i, s, v) => KeepsIdentity(w.tables, w'.tables, Bundle(i, s, v, None));
      }
    }
    UseKeepsSynced(w, w', e);
    UseKeepsOpenedOnce(w, w', e);
  }

  lemma UseKeepsSynced(w: World, w': World, e: Envelope)
    requires Synced(w.tables) && w.tables.vault.Some? && e.bundle.claim.Some?
    requires w'.tables.vault.Some? && w'.tables == w.tables.(vault := w'.tables.vault)
    requires w'.tables.vault.value ==
      w.tables.vault.value.(material := w.tables.vault.value.material.(otps := w'.tables.vault.value.material.otps))
    requires KeysAreSound(w'.tables.vault.value.material, w'.tables.nextSecret)
    requires BundleFacts(w, e.bundle, true) && Holds(w.tables.vault.value.material.otps, e.bundle.claim.value.otp)
    requires OnlyUses(w.tables.vault.value.material.otps, w'.tables.vault.value.material.otps, e.bundle.claim.value.otp)
    ensures Synced(w'.tables)
  {
    hide Holds, KeysAreSound, WasOpened;
  }

  lemma UseKeepsOpenedOnce(w: World, w': World, e: Envelope)
    requires OpenedOnce(w) && w.tables.vault.Some? && w'.tables.vault.Some? && e.bundle.claim.Some?
    requires w'.openings == w.openings + [e] && w'.handed == w.handed && e.bundle in w.handed
    requires Holds(w.tables.vault.value.material.otps, e.bundle.claim.value.otp)
    requires OnlyUses(w.tables.vault.value.material.otps, w'.tables.vault.value.material.otps, e.bundle.claim.value.otp)
    ensures OpenedOnce(w')
  {
    hide Holds;
  }

  lemma InboundKeepsInvariant(w: World, e: Envelope, opens: bool, utf8: bool)
    requires Invariant(w) && Enabled(w, Inbound(e, opens, utf8))
    ensures Invariant(Do(w, Inbound(e, opens, utf8)))
  {
    if !Opens(w.tables, e.bundle, opens) {
      hide Invariant;
      assert Do(w, Inbound(e, opens, utf8)) == w;
    } else if e.bundle.claim.Some? {
      UseKeepsInvariant(w, e, opens, utf8);
    } else {
      PlainKeepsInvariant(w, e, opens, utf8);
    }
  }

  /** An envelope without a one-time prekey leaves the tables alone. */
  lemma PlainKeepsInvariant(w: World, e: Envelope, opens: bool, utf8: bool)
    requires Invariant(w) && Enabled(w, Inbound(e, opens, utf8))
    requires Opens(w.tables, e.bundle, opens) && e.bundle.claim.None?
    ensures Invariant(Do(w, Inbound(e, opens, utf8)))
  {
    var w' := Do(w, Inbound(e, opens, utf8));
    assert w'.tables == w.tables;
    hide Handled, Opens, Holds, IdentityFacts, WasOpened, Synced;
    forall b, h | BundleFacts(w, b, h) ensures BundleFacts(w', b, h) {
      if b.claim.Some? { OpenedSnoc(w.openings, e, b.claim.value.otp); }
    }
    forall f | f in w'.fetches ensures FetchFacts(w', w'.fetches[f]) { assert FetchFacts(w, w.fetches[f]); }
  }

  lemma InvariantStep(w: World, s: Step)
    requires Invariant(w) && Enabled(w, s)
    ensures Invariant(Do(w, s))
  {
    hide Invariant, Fresher, Handled;
    assert Synced(w.tables) by { SyncedOf(w); }
    match s
    case Initialize(isBot) =>
      RenewalsAreFresher(w.tables, isBot, true);
      if Initialized(w.tables, isBot).1.None? { RenewalKeepsInvariant(w, Initialized(w.tables, isBot).0); }
    case Rotate(isBot) =>
      RenewalsAreFresher(w.tables, isBot, true);
      if Rotated(w.tables, isBot).1.None? { RenewalKeepsInvariant(w, Rotated(w.tables, isBot).0); }
    case Rebuild(isBot, confirm) =>
      RenewalsAreFresher(w.tables, isBot, confirm);
      if Rebuilt(w.tables, isBot, confirm).1.None? { RenewalKeepsInvariant(w, Rebuilt(w.tables, isBot, confirm).0); }
    case ReadIdentity(f) => ReadIdentityKeepsInvariant(w, f);
    case ReadPrekey(f, k) => ReadPrekeyKeepsInvariant(w, f, k);
    case MarkConsumed(f) => MarkConsumedKeepsInvariant(w, f);
    case Inbound(e, opens, utf8) => InboundKeepsInvariant(w, e, opens, utf8);
  }

  lemma SyncedOf(w: World)
    requires Invariant(w)
    ensures Synced(w.tables)
  {
  }

  lemma {:induction false} InvariantOfRun(start: World, run: seq<Step>)
    requires Start(start) && After(start, run).Some?
    ensures Invariant(After(start, run).value)
  {
    hide Enabled, Do;
    if run != [] {
      hide Invariant;
      InvariantOfRun(start, run[..|run| - 1]);
      InvariantStep(After(start, run[..|run| - 1]).value, run[|run| - 1]);
    }
  }

  // ---- the results ----

  /**
   In every run: both identity tables carry the same version, the published keys are the public
   halves of the vault's, and every prekey still on offer has its private key in the vault.
   */
  lemma VaultMatchesPublished(start: World, run: seq<Step>)
    requires Start(start) && After(start, run).Some?
    ensures var t := After(start, run).value.tables;
      && (t.vault.None? <==> t.published.None?)
      && (t.vault.Some? ==>
            var v := t.vault.value;
            t.published == Some(IdentityRow(v.version, Pub(v.material.identity), Pub(v.material.signedPrekey))))
      && (forall k :: k in t.prekeys && !t.prekeys[k].consumed ==>
            t.vault.Some? && OtpSecret(k, t.prekeys[k].key.secret) in t.vault.value.material.otps)
  {
    hide After;
    InvariantOfRun(start, run);
    SyncedOf(After(start, run).value);
  }

  /** No one-time prekey ever opens two envelopes. */
  lemma PrekeyOpensOnce(start: World, run: seq<Step>)
    requires Start(start) && After(start, run).Some?
    ensures var openings := After(start, run).value.openings;
      forall i, j :: 0 <= i < j < |openings| && openings[i].bundle.claim.Some? && openings[j].bundle.claim.Some? ==>
        openings[i].bundle.claim.value.otp != openings[j].bundle.claim.value.otp
  {
    hide After;
    InvariantOfRun(start, run);
  }

  /**
   Which handed-out bundles still open: exactly those whose identity and prekey were both read at
   the vault's present version and whose prekey has not been used. A fetch that straddles a
   rotation therefore yields a bundle that never opens.
   */
  lemma BundleOpensExactlyWhenCurrent(start: World, run: seq<Step>, b: Bundle)
    requires Start(start) && After(start, run).Some? && b in After(start, run).value.handed
    ensures var w := After(start, run).value;
      Opens(w.tables, b, true) <==>
        && b.version == Version(w.tables)
        && (b.claim.Some? ==> b.claim.value.version == Version(w.tables) && !WasOpened(w.openings, b.claim.value.otp))
  {
    hide After;
    InvariantOfRun(start, run);
    var w := After(start, run).value;
    assert BundleFacts(w, b, true) && Synced(w.tables);
    if b.claim.Some? { PositionIsHeld(w.tables.vault.value.material.otps, b.claim.value.otp); }
  }

  lemma Extend(start: World, run: seq<Step>, s: Step)
    requires After(start, run).Some? && Enabled(After(start, run).value, s)
    ensures After(start, run + [s]) == Some(Do(After(start, run).value, s))
  {
    assert (run + [s])[..|run + [s]| - 1] == run;
  }

  /** A fetch nobody disturbs yields a bundle whose first envelope is delivered. */
  lemma FreshBundleIsHonoured(start: World, run: seq<Step>, f: FetchId, k: Option<KeyId>)
    returns (longer: seq<Step>, b: Bundle)
    requires Start(start) && After(start, run).Some?
    requires var w := After(start, run).value;
      w.tables.vault.Some? && f !in w.fetches && IsNext(w.tables.prekeys, k)
    ensures After(start, longer).Some? && b in After(start, longer).value.handed
    ensures longer == run + [ReadIdentity(f)] + [ReadPrekey(f, k)] + [MarkConsumed(f)]
    ensures k.Some? <==> b.claim.Some?
    ensures Handled(After(start, longer).value.tables, b, true, true).1 == None
    ensures var again := Handled(Handled(After(start, longer).value.tables, b, true, true).0, b, true, true).1;
      again == if k.Some? then Some(OneTimePrekeyUnavailable) else None
  {
    hide After, Handled, Invariant, Opens;
    var w := After(start, run).value;
    InvariantOfRun(start, run);
    SyncedOf(w);
    Extend(start, run, ReadIdentity(f));
    Extend(start, run + [ReadIdentity(f)], ReadPrekey(f, k));
    Extend(start, run + [ReadIdentity(f)] + [ReadPrekey(f, k)], MarkConsumed(f));
    longer := run + [ReadIdentity(f)] + [ReadPrekey(f, k)] + [MarkConsumed(f)];
    b := Bundle(w.tables.published.value.identity, w.tables.published.value.signedPrekey, Version(w.tables),
      ClaimOf(w.tables, k));
    var t := After(start, longer).value.tables;
    assert t.vault == w.tables.vault;
    DeliveredOnce(w.tables, t, b, k);
  }

  lemma DeliveredOnce(t0: Tables, t: Tables, b: Bundle, k: Option<KeyId>)
    requires Synced(t0) && t0.vault.Some? && t.vault == t0.vault
    requires k.Some? ==> k.value in t0.prekeys && !t0.prekeys[k.value].consumed
    requires b == Bundle(t0.published.value.identity, t0.published.value.signedPrekey, Version(t0), ClaimOf(t0, k))
    ensures Handled(t, b, true, true).1 == None
    ensures Handled(Handled(t, b, true, true).0, b, true, true).1 ==
      if k.Some? then Some(OneTimePrekeyUnavailable) else None
  {
    if k.Some? {
      var otps := t.vault.value.material.otps;
      PositionIsHeld(otps, b.claim.value.otp);
      var i := Position(otps, k.value).value;
      var rest := otps[..i] + otps[i + 1..];
      assert forall j :: 0 <= j < |rest| ==> rest[j] == otps[if j < i then j else j + 1];
      assert Position(rest, k.value).None?;
    }
  }

  /**
   When a failed attempt leaves every row as it was: always, unless the envelope names a prekey and
   opens but its plaintext is not text; that one loses the prekey although nothing is delivered.
   */
  lemma FailureKeepsTablesExactly(t: Tables, stored: Stored, masterKey: bool, opens: bool, utf8: bool)
    requires HandledStored(t, stored, masterKey, opens, utf8).1.Some?
    ensures HandledStored(t, stored, masterKey, opens, utf8).0 == t <==>
      !(stored.Arrived? && masterKey && Opens(t, stored.bundle, opens) && stored.bundle.claim.Some? && !utf8)
  {
    if stored.Arrived? && masterKey && Opens(t, stored.bundle, opens) && stored.bundle.claim.Some? {
      var m := t.vault.value.material;
      var i := Position(m.otps, stored.bundle.claim.value.otp.keyId).value;
      assert |m.otps[..i] + m.otps[i + 1..]| == |m.otps| - 1;
    }
  }

  /**
   The exception can happen whenever a prekey is on offer: a sender fetches it undisturbed and sends
   binary content under it. That fails, the prekey is gone, and a text under it then fails too.
   */
  lemma BinaryContentLosesAPrekey(start: World, run: seq<Step>, f: FetchId, k: KeyId)
    returns (longer: seq<Step>, b: Bundle)
    requires Start(start) && After(start, run).Some?
    requires var w := After(start, run).value;
      w.tables.vault.Some? && f !in w.fetches && IsNext(w.tables.prekeys, Some(k))
    ensures longer == run + [ReadIdentity(f)] + [ReadPrekey(f, Some(k))] + [MarkConsumed(f)]
    ensures After(start, longer).Some? && b in After(start, longer).value.handed
    ensures var t := After(start, longer).value.tables;
      var (t', e) := HandledStored(t, Arrived(b), true, true, false);
      e == Some(Crypto) && t' != t
        && HandledStored(t', Arrived(b), true, true, true).1 == Some(OneTimePrekeyUnavailable)
  {
    hide After, IsNext, Invariant;
    longer, b := FreshBundleIsHonoured(start, run, f, Some(k));
    var t := After(start, longer).value.tables;
    assert Handled(t, b, true, false).0 == Handled(t, b, true, true).0;
    FailureKeepsTablesExactly(t, Arrived(b), true, true, false);
  }

  /** Prekeys are on offer as soon as a Bot is initialized. */
  lemma InitializedOffersPrekeys(start: World)
    requires Start(start)
    ensures After(start, [Initialize(true)]).Some?
    ensures var w := After(start, [Initialize(true)]).value;
      w.tables.vault.Some? && IsNext(w.tables.prekeys, Some(1))
  {
    var run := [Initialize(true)];
    assert run[..0] == [];
    assert start.tables.prekeys.Keys * KeyIds(OTP_BATCH_SIZE) == {};
    assert 1 in KeyIds(OTP_BATCH_SIZE);
  }
}
