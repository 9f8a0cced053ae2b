/** Single-use MLS key packages: each device has a queue of them. */
module KeyPackages {
  import opened Wrappers

  const MAX_CREDENTIAL: nat := 64 * 1024
  const MAX_KEY_PACKAGE: nat := 64 * 1024

  type Blob = seq<bv8>
  datatype Device = Device(uid: int, id: string)

  /** Rows in id order; ids only grow. */
  datatype Row = Row(device: Device, package: Blob, consumed: bool)
  datatype Tables = Tables(users: set<int>, credentials: map<Device, Blob>, rows: seq<Row>)

  datatype Request =
    | PutCredential(device: Device, credential: Blob)
    | Publish(device: Device, package: Blob)
    | Consume(device: Device)

  datatype Response = Done | Package(package: Blob) | BadRequest | PayloadTooLarge | Conflict | NotFound | Internal

  predicate AllowedByte(c: char) {
    'a' <= c <= 'z' || 'A' <= c <= 'Z' || '0' <= c <= '9' || c == '-' || c == '_' || c == ':'
  }

  predicate ValidDeviceId(id: string) {
    1 <= |id| <= 128 && forall i :: 0 <= i < |id| ==> AllowedByte(id[i])
  }

  predicate ValidBlob(blob: Blob, maximum: nat) {
    1 <= |blob| <= maximum
  }

  // ---- the queue of one device ----

  function Blobs(rows: seq<Row>, d: Device, consumed: bool): seq<Blob> {
    if rows == [] then []
    else
      var last := rows[|rows| - 1];
      Blobs(rows[..|rows| - 1], d, consumed) +
      if last.device == d && last.consumed == consumed then [last.package] else []
  }

  /** The packages handed out, and those still waiting, oldest first. */
  function Used(rows: seq<Row>, d: Device): seq<Blob> {
    Blobs(rows, d, true)
  }

  function Waiting(rows: seq<Row>, d: Device): seq<Blob> {
    Blobs(rows, d, false)
  }

  predicate IsFirstFree(rows: seq<Row>, d: Device, i: nat) {
    && i < |rows| && rows[i].device == d && !rows[i].consumed
    && forall j :: 0 <= j < i && rows[j].device == d ==> rows[j].consumed
  }

  /** Nothing is consumed before an older package of the same device. */
  predicate InOrder(rows: seq<Row>) {
    forall i, j :: 0 <= i < j < |rows| && rows[i].device == rows[j].device && rows[j].consumed ==> rows[i].consumed
  }

  function Mark(rows: seq<Row>, i: nat): seq<Row>
    requires i < |rows|
  {
    rows[i := rows[i].(consumed := true)]
  }

  lemma BlobsSnoc(rows: seq<Row>, r: Row, d: Device, consumed: bool)
    ensures Blobs(rows + [r], d, consumed) ==
      Blobs(rows, d, consumed) + if r.device == d && r.consumed == consumed then [r.package] else []
  {
    assert (rows + [r])[..|rows + [r]| - 1] == rows;
  }

  lemma {:induction false} NoneWaiting(rows: seq<Row>, d: Device)
    ensures Waiting(rows, d) == [] <==> forall i :: 0 <= i < |rows| && rows[i].device == d ==> rows[i].consumed
  {
    if rows != [] {
      var front := rows[..|rows| - 1];
      NoneWaiting(front, d);
      assert forall i :: 0 <= i < |front| ==> front[i] == rows[i];
    }
  }

  /** Marking the first free row moves the head of the waiting queue to the end of the used one. */
  lemma {:induction false} TakeFirst(rows: seq<Row>, d: Device, i: nat)
    requires InOrder(rows) && IsFirstFree(rows, d, i)
    ensures Waiting(rows, d) == [rows[i].package] + Waiting(Mark(rows, i), d)
    ensures Used(Mark(rows, i), d) == Used(rows, d) + [rows[i].package]
  {
    hide Blobs;
    var front, last := rows[..|rows| - 1], rows[|rows| - 1];
    assert rows == front + [last];
    BlobsSnoc(front, last, d, false);
    BlobsSnoc(front, last, d, true);
    if i == |front| {
      var used := last.(consumed := true);
      assert Mark(rows, i) == front + [used];
      BlobsSnoc(front, used, d, false);
      BlobsSnoc(front, used, d, true);
      NoneWaiting(front, d);
    } else {
      assert Mark(rows, i) == Mark(front, i) + [last];
      TakeFirst(front, d, i);
      BlobsSnoc(Mark(front, i), last, d, false);
      BlobsSnoc(Mark(front, i), last, d, true);
      assert last.device == d ==> !last.consumed;
    }
  }

  /** .. and no other device's queue changes. */
  lemma {:induction false} OthersKeep(rows: seq<Row>, d: Device, i: nat, consumed: bool)
    requires i < |rows| && rows[i].device != d
    ensures Blobs(Mark(rows, i), d, consumed) == Blobs(rows, d, consumed)
  {
    var front, rows' := rows[..|rows| - 1], Mark(rows, i);
    if i == |front| {
      assert rows'[..|rows'| - 1] == front;
    } else {
      OthersKeep(front, d, i, consumed);
      assert rows'[..|rows'| - 1] == Mark(front, i);
    }
  }

  // ---- the operations, as changes to the queues ----

  /** What a request answers, and how it changes the credentials, `d`'s used packages and its waiting ones. */
  ghost predicate Serves(t: Tables, q: Request, r: Response, t': Tables) {
    match q
    case PutCredential(d, credential) =>
      if !ValidDeviceId(d.id) then r == BadRequest && t' == t
      else if !ValidBlob(credential, MAX_CREDENTIAL) then r == PayloadTooLarge && t' == t
      // foreign key to the user
      else if d.uid !in t.users then r == Internal && t' == t
      else r == Done && t' == t.(credentials := t.credentials[d := credential])
    case Publish(d, package) =>
      if !ValidDeviceId(d.id) then r == BadRequest && t' == t
      else if !ValidBlob(package, MAX_KEY_PACKAGE) then r == PayloadTooLarge && t' == t
      // foreign key to the device's credential
      else if d !in t.credentials then r == Conflict && t' == t
      else r == Done && t' == t.(rows := t.rows + [Row(d, package, false)])
    case Consume(d) =>
      if !ValidDeviceId(d.id) then r == BadRequest && t' == t
      else if forall i :: 0 <= i < |t.rows| && t.rows[i].device == d ==> t.rows[i].consumed
        then r == NotFound && t' == t
      else exists i: nat :: HandsOut(t, d, i, r, t')
  }

  ghost predicate HandsOut(t: Tables, d: Device, i: nat, r: Response, t': Tables) {
    IsFirstFree(t.rows, d, i) && r == Package(t.rows[i].package) && t' == t.(rows := Mark(t.rows, i))
  }

  datatype Served = Served(request: Request, response: Response)

  /** A run: what was answered, oldest first, and the tables it left. */
  ghost predicate Reaches(log: seq<Served>, t: Tables) {
    if log == [] then t == Tables(t.users, map[], [])
    else
      var last := log[|log| - 1];
      exists t0 :: Reaches(log[..|log| - 1], t0) && Serves(t0, last.request, last.response, t)
  }

  // ---- the log ----

  function Published(log: seq<Served>, d: Device): seq<Blob> {
    if log == [] then []
    else
      var last := log[|log| - 1];
      Published(log[..|log| - 1], d) +
      if last.request.Publish? && last.request.device == d && last.response == Done then [last.request.package] else []
  }

  function Consumed(log: seq<Served>, d: Device): seq<Blob> {
    if log == [] then []
    else
      var last := log[|log| - 1];
      Consumed(log[..|log| - 1], d) +
      if !(last.request.Consume? && last.request.device == d && last.response.Package?) then []
      else [last.response.package]
  }

  predicate QueueAgrees(log: seq<Served>, t: Tables, d: Device) {
    Used(t.rows, d) == Consumed(log, d) && Used(t.rows, d) + Waiting(t.rows, d) == Published(log, d)
  }

  function PublishedBy(s: Served, d: Device): seq<Blob> {
    if s.request.Publish? && s.request.device == d && s.response == Done then [s.request.package] else []
  }

  function ConsumedBy(s: Served, d: Device): seq<Blob> {
    if s.request.Consume? && s.request.device == d && s.response.Package? then [s.response.package] else []
  }

  lemma LogSnoc(log: seq<Served>, s: Served, d: Device)
    ensures Published(log + [s], d) == Published(log, d) + PublishedBy(s, d)
    ensures Consumed(log + [s], d) == Consumed(log, d) + ConsumedBy(s, d)
  {
    assert (log + [s])[..|log + [s]| - 1] == log;
  }

  /** A publish puts a package at the end of the device's queue, a consume takes the one at its head. */
  lemma QueueChange(t: Tables, s: Served, t': Tables, d: Device)
    requires InOrder(t.rows) && Serves(t, s.request, s.response, t')
    ensures Used(t'.rows, d) == Used(t.rows, d) + ConsumedBy(s, d)
    ensures ConsumedBy(s, d) + Waiting(t'.rows, d) == Waiting(t.rows, d) + PublishedBy(s, d)
  {
    hide Blobs, ValidDeviceId, ValidBlob, Mark, InOrder;
    if s.request.Publish? && s.response == Done {
      var r := Row(s.request.device, s.request.package, false);
      BlobsSnoc(t.rows, r, d, true);
      BlobsSnoc(t.rows, r, d, false);
    } else if s.request.Consume? && s.response.Package? {
      var i: nat :| HandsOut(t, s.request.device, i, s.response, t');
      if s.request.device == d {
        TakeFirst(t.rows, d, i);
      } else {
        OthersKeep(t.rows, d, i, true);
        OthersKeep(t.rows, d, i, false);
      }
    } else {
      assert t'.rows == t.rows;
    }
  }

  lemma QueueStep(log: seq<Served>, t: Tables, s: Served, t': Tables, d: Device)
    requires InOrder(t.rows) && QueueAgrees(log, t, d) && Serves(t, s.request, s.response, t')
    ensures QueueAgrees(log + [s], t', d)
  {
    hide Used, Waiting, Serves, Published, Consumed, PublishedBy, ConsumedBy, InOrder;
    QueueChange(t, s, t', d);
    LogSnoc(log, s, d);
    calc {
      Used(t'.rows, d) + Waiting(t'.rows, d);
      Used(t.rows, d) + (ConsumedBy(s, d) + Waiting(t'.rows, d));
      (Used(t.rows, d) + Waiting(t.rows, d)) + PublishedBy(s, d);
    }
  }

  lemma OrderStep(t: Tables, s: Served, t': Tables)
    requires InOrder(t.rows) && Serves(t, s.request, s.response, t')
    ensures InOrder(t'.rows)
  {
    hide ValidDeviceId, ValidBlob;
    if s.request.Consume? && s.response.Package? {
      var i: nat :| HandsOut(t, s.request.device, i, s.response, t');
    }
  }

  lemma {:induction false} QueuesAgree(log: seq<Served>, t: Tables)
    requires Reaches(log, t)
    ensures InOrder(t.rows) && forall d :: QueueAgrees(log, t, d)
  {
    hide QueueAgrees, Serves;
    if log == [] {
      forall d ensures QueueAgrees(log, t, d) { EmptyAgrees(t, d); }
    } else {
      var front, last := log[..|log| - 1], log[|log| - 1];
      var t0 :| Reaches(front, t0) && Serves(t0, last.request, last.response, t);
      QueuesAgree(front, t0);
      OrderStep(t0, last, t);
      assert front + [last] == log;
      forall d ensures QueueAgrees(log, t, d) { QueueStep(front, t0, last, t, d); }
    }
  }

  lemma EmptyAgrees(t: Tables, d: Device)
    requires t.rows == []
    ensures QueueAgrees([], t, d)
  {
  }

  // ---- the results ----

  /**
   Over every run each device's packages leave in the order they were published, each of them once:
   what was consumed is the beginning of what was published, and what waits is the rest.
   */
  lemma PackagesLeaveInOrder(log: seq<Served>, t: Tables, d: Device)
    requires Reaches(log, t)
    ensures Consumed(log, d) <= Published(log, d)
    ensures Waiting(t.rows, d) == Published(log, d)[|Consumed(log, d)|..]
  {
    hide Reaches, Consumed, Published, Waiting;
    QueuesAgree(log, t);
    assert QueueAgrees(log, t, d);
  }

  /** What the next request to consume gets. */
  lemma NextPackage(log: seq<Served>, t: Tables, d: Device, r: Response, t': Tables)
    requires Reaches(log, t) && Serves(t, Consume(d), r, t')
    ensures var published, n := Published(log, d), |Consumed(log, d)|;
      r == if !ValidDeviceId(d.id) then BadRequest else if n < |published| then Package(published[n]) else NotFound
  {
    hide Reaches, Consumed, Published, ValidDeviceId, Blobs, Mark;
    QueuesAgree(log, t);
    assert QueueAgrees(log, t, d);
    NoneWaiting(t.rows, d);
    if r.Package? {
      var i: nat :| HandsOut(t, d, i, r, t');
      TakeFirst(t.rows, d, i);
    }
  }

  /** Which device ids are valid, in ASCII codes: digits, letters, hyphen, colon and underscore. */
  lemma ValidDeviceIdExactly(id: string)
    ensures ValidDeviceId(id) <==>
      && id != "" && |id| <= 128
      && forall i :: 0 <= i < |id| ==>
           var b := id[i] as int;
           48 <= b <= 57 || 65 <= b <= 90 || 97 <= b <= 122 || b in {45, 58, 95}
  {
    hide AllowedByte;
    forall i | 0 <= i < |id|
      ensures AllowedByte(id[i]) <==>
        (var b := id[i] as int; 48 <= b <= 57 || 65 <= b <= 90 || 97 <= b <= 122 || b in {45, 58, 95})
    {
      AllowedCode(id[i]);
    }
  }

  lemma AllowedCode(c: char)
    ensures AllowedByte(c) <==>
      (var b := c as int; 48 <= b <= 57 || 65 <= b <= 90 || 97 <= b <= 122 || b in {45, 58, 95})
  {
    assert c == '-' <==> c as int == 45;
    assert c == ':' <==> c as int == 58;
    assert c == '_' <==> c as int == 95;
  }

  /** The credential last accepted for a device. */
  function LastCredential(log: seq<Served>, d: Device): Option<Blob> {
    if log == [] then None
    else
      var last := log[|log| - 1];
      if last.request.PutCredential? && last.request.device == d && last.response == Done
      then Some(last.request.credential) else LastCredential(log[..|log| - 1], d)
  }

  /** Over every run the stored credential of a device is the one last accepted, and nobody is registered or lost. */
  lemma {:induction false} CredentialsFollowTheLog(users: set<int>, log: seq<Served>, t: Tables)
    requires Reaches(log, t) && t.users == users
    ensures forall d ::
      LastCredential(log, d) == if d in t.credentials then Some(t.credentials[d]) else None
  {
    if log != [] {
      var last, front := log[|log| - 1], log[..|log| - 1];
      var t0 :| Reaches(front, t0) && Serves(t0, last.request, last.response, t);
      CredentialsFollowTheLog(users, front, t0);
    }
  }

  /**
   Over every run: what the next publish or credential is answered. A package needs a credential that was
   accepted before for the same device, a credential a registered user; 64 KiB is the most either may have.
   */
  lemma NextAnswers(log: seq<Served>, t: Tables, d: Device, blob: Blob, r: Response, t': Tables)
    requires Reaches(log, t)
    ensures Serves(t, Publish(d, blob), r, t') ==>
      r == if !ValidDeviceId(d.id) then BadRequest else if |blob| == 0 || |blob| > 65536 then PayloadTooLarge
           else if LastCredential(log, d).None? then Conflict else Done
    ensures Serves(t, PutCredential(d, blob), r, t') ==>
      r == if !ValidDeviceId(d.id) then BadRequest else if |blob| == 0 || |blob| > 65536 then PayloadTooLarge
           else if d.uid !in t.users then Internal else Done
    ensures Serves(t, Publish(d, blob), r, t') || Serves(t, PutCredential(d, blob), r, t') ==>
      t'.users == t.users && (r != Done ==> t' == t)
  {
    CredentialsFollowTheLog(t.users, log, t);
  }

  // ---- the operations as written ----

  class Store {
    var users: set<int>
    var credentials: map<Device, Blob>
    var rows: seq<Row>

    function View(): Tables
      reads this
    {
      Tables(users, credentials, rows)
    }

    constructor (users: set<int>)
      ensures Reaches([], View()) && this.users == users
    {
      this.users, credentials, rows := users, map[], [];
    }

    method ValidateDeviceId(id: string) returns (ok: bool)
      ensures ok == ValidDeviceId(id)
    {
      if |id| == 0 || |id| > 128 { return false; }
      for i := 0 to |id|
        invariant forall j :: 0 <= j < i ==> AllowedByte(id[j])
      {
        if !AllowedByte(id[i]) { return false; }
      }
      ok := true;
    }

    method PutCredential(d: Device, credential: Blob) returns (r: Response)
      modifies this`credentials
      ensures Serves(old(View()), Request.PutCredential(d, credential), r, View())
    {
      var ok := ValidateDeviceId(d.id);
      if !ok { return BadRequest; }
      if |credential| == 0 || |credential| > MAX_CREDENTIAL { return PayloadTooLarge; }
      if d.uid !in users { return Internal; }
      credentials := credentials[d := credential];
      r := Done;
    }

    method PublishKeyPackage(d: Device, package: Blob) returns (r: Response)
      modifies this`rows
      ensures Serves(old(View()), Publish(d, package), r, View())
    {
      var ok := ValidateDeviceId(d.id);
      if !ok { return BadRequest; }
      if |package| == 0 || |package| > MAX_KEY_PACKAGE { return PayloadTooLarge; }
      if d !in credentials { return Conflict; }
      rows := rows + [Row(d, package, false)];
      r := Done;
    }

    method ConsumeKeyPackage(d: Device) returns (r: Response)
      modifies this`rows
      ensures Serves(old(View()), Consume(d), r, View())
    {
      var ok := ValidateDeviceId(d.id);
      if !ok { return BadRequest; }
      for i := 0 to |rows|
        invariant rows == old(rows)
        invariant forall j :: 0 <= j < i && rows[j].device == d ==> rows[j].consumed
      {
        if rows[i].device == d && !rows[i].consumed {
          assert IsFirstFree(rows, d, i);
          r := Package(rows[i].package);
          rows := Mark(rows, i);
          assert HandsOut(old(View()), d, i, r, View());
          return;
        }
      }
      r := NotFound;
    }
  }
}
