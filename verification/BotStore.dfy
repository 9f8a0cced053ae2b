/** The Bot's rows as the server updates them, each operation proved to be the one the run machine takes. */
module BotStore {
  import opened Wrappers
  import opened BotVault

  /** Twenty one-time prekeys, the first private key drawn being `first`. */
  method GenerateOneTimePrekeys(first: Secret) returns (otps: seq<OtpSecret>)
    ensures otps == Batch(first, OTP_BATCH_SIZE)
  {
    otps := [];
    for keyId := 1 to OTP_BATCH_SIZE + 1
      invariant otps == Batch(first, keyId - 1)
    {
      otps := otps + [OtpSecret(keyId, first + keyId - 1)];
    }
  }

  /** Publishing a batch one row at a time leaves the rows with the whole batch. */
  lemma RefilledSnoc(rows: map<KeyId, PrekeyRow>, nextRow: nat, first: Secret, n: nat)
    ensures Refilled(rows, nextRow, first, 0) == rows
    ensures var before := Refilled(rows, nextRow, first, n);
      Refilled(rows, nextRow, first, n + 1) ==
      before[n + 1 := PrekeyRow(if n + 1 in before then before[n + 1].id else nextRow + n, Pub(first + n), false)]
  {
  }

  method InsertPrekeys(rows: map<KeyId, PrekeyRow>, nextRow: nat, otps: seq<OtpSecret>, ghost first: Secret,
                       upsert: bool)
    returns (r: Option<map<KeyId, PrekeyRow>>)
    requires otps == Batch(first, OTP_BATCH_SIZE)
    ensures r ==
      if !upsert && rows.Keys * KeyIds(OTP_BATCH_SIZE) != {} then None
      else Some(Refilled(rows, nextRow, first, OTP_BATCH_SIZE))
  {
    hide Refilled, Batch;
    RefilledSnoc(rows, nextRow, first, 0);
    var now := rows;
    for i := 0 to OTP_BATCH_SIZE
      invariant now == Refilled(rows, nextRow, first, i)
      invariant !upsert ==> forall k :: 1 <= k <= i ==> k !in rows
    {
      RefilledSnoc(rows, nextRow, first, i);
      var keyId := otps[i].keyId;
      assert keyId in now <==> keyId in rows by { BeyondUntouched(rows, nextRow, first, i); }
      if keyId in now && !upsert {
        assert keyId in rows.Keys * KeyIds(OTP_BATCH_SIZE);
        return None;
      }
      now := now[keyId := PrekeyRow(if keyId in now then now[keyId].id else nextRow + i, Pub(otps[i].secret), false)];
    }
    r := Some(now);
  }

  lemma BeyondUntouched(rows: map<KeyId, PrekeyRow>, nextRow: nat, first: Secret, i: nat)
    ensures i + 1 in Refilled(rows, nextRow, first, i) <==> i + 1 in rows
  {
  }

  class Store {
    var vault: Option<VaultRow>
    var published: Option<IdentityRow>
    var prekeys: map<KeyId, PrekeyRow>
    var nextRow: nat
    var nextSecret: Secret

    function View(): Tables
      reads this
    {
      Tables(vault, published, prekeys, nextRow, nextSecret)
    }

    constructor (t: Tables)
      ensures View() == t
    {
      vault, published, prekeys, nextRow, nextSecret := t.vault, t.published, t.prekeys, t.nextRow, t.nextSecret;
    }

    method Initialize(isBot: bool) returns (error: Option<BotError>)
      modifies this
      ensures (View(), error) == Initialized(old(View()), isBot)
    {
      hide Refilled, Batch;
      if !isBot { return Some(NotBot); }
      if vault.Some? { return Some(AlreadyInitialized); }
      var identity, signedPrekey := nextSecret, nextSecret + 1;
      var otps := GenerateOneTimePrekeys(nextSecret + 2);
      if published.Some? { return Some(Database); }
      var rows := InsertPrekeys(prekeys, nextRow, otps, nextSecret + 2, false);
      if rows.None? { return Some(Database); }
      published := Some(IdentityRow(1, Pub(identity), Pub(signedPrekey)));
      prekeys := rows.value;
      vault := Some(VaultRow(1, Material(identity, signedPrekey, otps), Pub(identity), Pub(signedPrekey)));
      nextRow, nextSecret := nextRow + OTP_BATCH_SIZE, nextSecret + 2 + OTP_BATCH_SIZE;
      error := None;
    }

    method Rotate(isBot: bool) returns (error: Option<BotError>)
      modifies this
      ensures (View(), error) == Rotated(old(View()), isBot)
    {
      hide Refilled, Batch, OnlyConsumed;
      if !isBot { return Some(NotBot); }
      if vault.None? { return Some(NotInitialized); }
      var existing := vault.value;
      var signedPrekey := nextSecret;
      var otps := GenerateOneTimePrekeys(nextSecret + 1);
      var version := existing.version + 1;
      var rows := InsertPrekeys(OnlyConsumed(prekeys), nextRow, otps, nextSecret + 1, true);
      prekeys := rows.value;
      if published.Some? {
        published := Some(published.value.(signedPrekey := Pub(signedPrekey), version := version));
      }
      var material := existing.material.(signedPrekey := signedPrekey, otps := otps);
      vault := Some(existing.(signedPrekey := Pub(signedPrekey), version := version, material := material));
      nextRow, nextSecret := nextRow + OTP_BATCH_SIZE, nextSecret + 1 + OTP_BATCH_SIZE;
      error := None;
    }

    method Rebuild(isBot: bool, confirm: bool) returns (error: Option<BotError>)
      modifies this
      ensures (View(), error) == Rebuilt(old(View()), isBot, confirm)
    {
      hide Refilled, Batch;
      if !confirm { return Some(ConfirmationRequired); }
      if !isBot { return Some(NotBot); }
      if vault.None? { return Some(NotInitialized); }
      var identity, signedPrekey := nextSecret, nextSecret + 1;
      var otps := GenerateOneTimePrekeys(nextSecret + 2);
      var version := vault.value.version + 1;
      var rows := InsertPrekeys(map[], nextRow, otps, nextSecret + 2, false);
      prekeys := rows.value;
      if published.Some? {
        published := Some(IdentityRow(version, Pub(identity), Pub(signedPrekey)));
      }
      vault := Some(VaultRow(version, Material(identity, signedPrekey, otps), Pub(identity), Pub(signedPrekey)));
      nextRow, nextSecret := nextRow + OTP_BATCH_SIZE, nextSecret + 2 + OTP_BATCH_SIZE;
      error := None;
    }

    method FindKeyId(otps: seq<OtpSecret>, keyId: KeyId) returns (index: Option<nat>)
      ensures index == Position(otps, keyId)
    {
      for i := 0 to |otps|
        invariant forall j :: 0 <= j < i ==> otps[j].keyId != keyId
      {
        if otps[i].keyId == keyId { return Some(i); }
      }
      index := None;
    }

    /** The prekey leaves the working copy before unwrapping; the copy is stored once the ciphertext opened. */
    method HandleInboundBotEnvelope(stored: Stored, masterKey: bool, opens: bool, utf8: bool)
      returns (error: Option<BotError>)
      modifies this`vault
      ensures (View(), error) == HandledStored(old(View()), stored, masterKey, opens, utf8)
    {
      if stored.NoMessage? || stored.OtherContent? { return Some(MessageNotFound); }
      if stored.UnreadableContent? { return Some(Crypto); }
      if stored.NoEnvelope? { return Some(EnvelopeNotFound); }
      if stored.UnreadableEnvelope? { return Some(Crypto); }
      var b := stored.bundle;
      if !masterKey { return Some(MissingMasterKey); }
      if vault.None? { return Some(NotInitialized); }
      var material := vault.value.material;
      var otk: Option<Secret> := None;
      if b.claim.Some? {
        var index := FindKeyId(material.otps, b.claim.value.otp.keyId);
        if index.None? { return Some(OneTimePrekeyUnavailable); }
        otk := Some(material.otps[index.value].secret);
        material := material.(otps := material.otps[..index.value] + material.otps[index.value + 1..]);
      }
      if !Unwraps(b, material, otk) { return Some(Crypto); }
      if !opens { return Some(Crypto); }
      if b.claim.Some? { vault := Some(vault.value.(material := material)); }
      error := if utf8 then None else Some(Crypto);
    }
  }
}
