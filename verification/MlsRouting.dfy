/** The routing properties an end-to-end encrypted message carries beside its ciphertext. */
module MlsRouting {
  import opened Wrappers

  const U64_LIMIT: int := 0x1_0000_0000_0000_0000
  const U32_LIMIT: int := 0x1_0000_0000

  /** A JSON value, as far as the checks can tell them apart: `Unsigned` is what fits in 64 bits. */
  datatype Value = Text(text: string) | Unsigned(number: nat) | OtherValue

  datatype Name =
    | E2eVersion | ProtocolName | Algorithm | WireClassName
    | SenderDeviceId | LocalId | RecipientDeviceId
    | MlsEpoch | MlsGeneration | MlsHandshakeKind | MlsCommitId
    | OtherName(name: string)

  type Properties = map<Name, Value>

  datatype Protocol = Dr | DrPending | Mls
  datatype WireClass = DrEnvelope | Handshake | ApplicationData
  datatype HandshakeKind = CommitKind | WelcomeKind

  datatype Route = Route(
    protocol: Protocol,
    wireClass: WireClass,
    senderDeviceId: string,
    recipientDeviceId: Option<string>,
    localId: string,
    mlsEpoch: Option<nat>,
    mlsGeneration: Option<nat>,
    handshakeKind: Option<HandshakeKind>,
    commitId: Option<string>)

  datatype E2eV2Error = InvalidProperty(name: Name) | ProtocolMismatch | DeviceMismatch

  // ---- reading one property ----

  function AsText(p: Properties, name: Name): Option<string> {
    if name in p && p[name].Text? then Some(p[name].text) else None
  }

  function AsU64(p: Properties, name: Name): Option<nat> {
    if name in p && p[name].Unsigned? && p[name].number < U64_LIMIT then Some(p[name].number) else None
  }

  function RequiredText(p: Properties, name: Name): Result<string, E2eV2Error> {
    match AsText(p, name)
    case Some(t) => if t != "" then Ok(t) else Err(InvalidProperty(name))
    case None => Err(InvalidProperty(name))
  }

  /** Absent is fine, present must be non-empty text. */
  function OptionalText(p: Properties, name: Name): Result<Option<string>, E2eV2Error> {
    if name !in p then Ok(None)
    else
      match RequiredText(p, name)
      case Ok(t) => Ok(Some(t))
      case Err(e) => Err(e)
  }

  function ReadProtocol(p: Properties): Result<Protocol, E2eV2Error> {
    var t := AsText(p, ProtocolName);
    if t == Some("dr") then Ok(Dr)
    else if t == Some("dr-pending") then Ok(DrPending)
    else if t == Some("mls") then Ok(Mls)
    else Err(InvalidProperty(ProtocolName))
  }

  function ReadWireClass(p: Properties): Result<WireClass, E2eV2Error> {
    var t := AsText(p, WireClassName);
    if t == Some("dr_envelope") then Ok(DrEnvelope)
    else if t == Some("mls_handshake") then Ok(Handshake)
    else if t == Some("mls_application") then Ok(ApplicationData)
    else Err(InvalidProperty(WireClassName))
  }

  /** A generation that does not fit in 32 bits counts as absent. */
  function ReadGeneration(p: Properties): Option<nat> {
    match AsU64(p, MlsGeneration)
    case Some(n) => if n < U32_LIMIT then Some(n) else None
    case None => None
  }

  function ReadHandshakeKind(p: Properties): Result<Option<HandshakeKind>, E2eV2Error> {
    if MlsHandshakeKind !in p then Ok(None)
    else if p[MlsHandshakeKind] == Text("commit") then Ok(Some(CommitKind))
    else if p[MlsHandshakeKind] == Text("welcome") then Ok(Some(WelcomeKind))
    else Err(InvalidProperty(MlsHandshakeKind))
  }

  // ---- the check ----

  /** The last check: which fields may stand together. */
  function CheckFields(r: Route): Option<E2eV2Error> {
    var anyMls := r.mlsEpoch.Some? || r.mlsGeneration.Some? || r.handshakeKind.Some? || r.commitId.Some?;
    match r.protocol
    case Dr =>
      if r.recipientDeviceId.None? then Some(InvalidProperty(RecipientDeviceId))
      else if anyMls then Some(ProtocolMismatch)
      else None
    case DrPending => if r.recipientDeviceId.Some? || anyMls then Some(ProtocolMismatch) else None
    case Mls =>
      if r.recipientDeviceId.Some? then Some(ProtocolMismatch)
      else if r.mlsEpoch.None? then Some(InvalidProperty(MlsEpoch))
      else if r.mlsGeneration.None? then Some(InvalidProperty(MlsGeneration))
      else if r.wireClass == Handshake && (r.handshakeKind.None? || r.commitId.None?)
        then Some(InvalidProperty(MlsHandshakeKind))
      else if r.wireClass == Handshake && r.mlsGeneration != Some(0) then Some(InvalidProperty(MlsGeneration))
      else if r.wireClass == ApplicationData && (r.handshakeKind.Some? || r.commitId.Some?) then Some(ProtocolMismatch)
      else None
  }

  predicate ClassFits(protocol: Protocol, wireClass: WireClass) {
    protocol.Mls? <==> wireClass != DrEnvelope
  }

  function ValidateProperties(p: Properties): Result<Route, E2eV2Error> {
    if AsU64(p, E2eVersion) != Some(2) then Err(InvalidProperty(E2eVersion))
    else
      match ReadProtocol(p)
      case Err(e) => Err(e)
      case Ok(protocol) =>
        if protocol == DrPending && AsText(p, Algorithm) != Some("DEFERRED+AES-GCM")
          then Err(InvalidProperty(Algorithm))
        else
          match ReadWireClass(p)
          case Err(e) => Err(e)
          case Ok(wireClass) =>
            if !ClassFits(protocol, wireClass) then Err(ProtocolMismatch)
            else ReadFields(p, protocol, wireClass)
  }

  function ReadFields(p: Properties, protocol: Protocol, wireClass: WireClass): Result<Route, E2eV2Error> {
    match RequiredText(p, SenderDeviceId)
    case Err(e) => Err(e)
    case Ok(sender) =>
      match RequiredText(p, LocalId)
      case Err(e) => Err(e)
      case Ok(local) =>
        match OptionalText(p, RecipientDeviceId)
        case Err(e) => Err(e)
        case Ok(recipient) =>
          match ReadHandshakeKind(p)
          case Err(e) => Err(e)
          case Ok(kind) =>
            match OptionalText(p, MlsCommitId)
            case Err(e) => Err(e)
            case Ok(commitId) =>
              var r :=
                Route(protocol, wireClass, sender, recipient, local, AsU64(p, MlsEpoch), ReadGeneration(p), kind,
                commitId);
              match CheckFields(r)
              case Some(e) => Err(e)
              case None => Ok(r)
  }

  function ValidateAuthenticatedSender(p: Properties, device: string): Result<Route, E2eV2Error> {
    match ValidateProperties(p)
    case Err(e) => Err(e)
    case Ok(r) => if r.senderDeviceId != device then Err(DeviceMismatch) else Ok(r)
  }

  // ---- what is accepted ----

  /** The five kinds of message, each with exactly the fields it needs. */
  datatype Shape =
    | Direct(sender: string, local: string, recipient: string)
    | Deferred(sender: string, local: string)
    | Commit(sender: string, local: string, epoch: nat, id: string)
    | Welcome(sender: string, local: string, epoch: nat, id: string)
    | Application(sender: string, local: string, epoch: nat, generation: nat)

  predicate WellFormed(s: Shape) {
    && s.sender != "" && s.local != ""
    && (s.Direct? ==> s.recipient != "")
    && (s.Commit? || s.Welcome? ==> s.epoch < U64_LIMIT && s.id != "")
    && (s.Application? ==> s.epoch < U64_LIMIT && s.generation < U32_LIMIT)
  }

  function RouteOf(s: Shape): Route {
    match s
    case Direct(sender, local, recipient) =>
      Route(Dr, DrEnvelope, sender, Some(recipient), local, None, None, None, None)
    case Deferred(sender, local) => Route(DrPending, DrEnvelope, sender, None, local, None, None, None, None)
    case Commit(sender, local, epoch, id) =>
      Route(Mls, Handshake, sender, None, local, Some(epoch), Some(0), Some(CommitKind), Some(id))
    case Welcome(sender, local, epoch, id) =>
      Route(Mls, Handshake, sender, None, local, Some(epoch), Some(0), Some(WelcomeKind), Some(id))
    case Application(sender, local, epoch, generation) =>
      Route(Mls, ApplicationData, sender, None, local, Some(epoch), Some(generation), None, None)
  }

  /** The properties announce a message of this shape and nothing that contradicts it. */
  predicate Says(p: Properties, s: Shape) {
    && WellFormed(s)
    && AsU64(p, E2eVersion) == Some(2)
    && AsText(p, SenderDeviceId) == Some(s.sender) && AsText(p, LocalId) == Some(s.local)
    && (s.Direct? ==>
      Announces(p, "dr", "dr_envelope") && AsText(p, RecipientDeviceId) == Some(s.recipient) && NoMlsFields(p))
    && (s.Deferred? ==>
          && Announces(p, "dr-pending", "dr_envelope") && AsText(p, Algorithm) == Some("DEFERRED+AES-GCM")
          && RecipientDeviceId !in p && NoMlsFields(p))
    && (s.Commit? ==> Announces(p, "mls", "mls_handshake") && HandshakeFields(p, "commit", s.epoch, s.id))
    && (s.Welcome? ==> Announces(p, "mls", "mls_handshake") && HandshakeFields(p, "welcome", s.epoch, s.id))
    && (s.Application? ==>
          && Announces(p, "mls", "mls_application") && RecipientDeviceId !in p
          && AsU64(p, MlsEpoch) == Some(s.epoch) && AsU64(p, MlsGeneration) == Some(s.generation)
          && MlsHandshakeKind !in p && MlsCommitId !in p)
  }

  predicate Announces(p: Properties, protocol: string, wireClass: string) {
    AsText(p, ProtocolName) == Some(protocol) && AsText(p, WireClassName) == Some(wireClass)
  }

  predicate HandshakeFields(p: Properties, kind: string, epoch: nat, id: string) {
    && RecipientDeviceId !in p
    && AsU64(p, MlsEpoch) == Some(epoch) && AsU64(p, MlsGeneration) == Some(0)
    && AsText(p, MlsHandshakeKind) == Some(kind) && AsText(p, MlsCommitId) == Some(id)
  }

  /** Epoch and generation values that are not numbers of their width pass unnoticed. */
  predicate NoMlsFields(p: Properties) {
    && AsU64(p, MlsEpoch) == None && ReadGeneration(p) == None
    && MlsHandshakeKind !in p && MlsCommitId !in p
  }

  /** The shape an accepted route has. */
  function ShapeOf(r: Route): Option<Shape> {
    match r
    case Route(Dr, DrEnvelope, sender, Some(recipient), local, None, None, None, None) =>
      Some(Direct(sender, local, recipient))
    case Route(DrPending, DrEnvelope, sender, None, local, None, None, None, None) => Some(Deferred(sender, local))
    case Route(Mls, Handshake, sender, None, local, Some(epoch), Some(0), Some(CommitKind), Some(id)) =>
      Some(Commit(sender, local, epoch, id))
    case Route(Mls, Handshake, sender, None, local, Some(epoch), Some(0), Some(WelcomeKind), Some(id)) =>
      Some(Welcome(sender, local, epoch, id))
    case Route(Mls, ApplicationData, sender, None, local, Some(epoch), Some(generation), None, None) =>
      Some(Application(sender, local, epoch, generation))
    case _ => None
  }

  /** Every accepted message has one of the five shapes, and its route carries all of that shape's fields. */
  lemma AcceptedHasAShape(p: Properties)
    requires ValidateProperties(p).Ok?
    ensures var s := ShapeOf(ValidateProperties(p).value);
      s.Some? && Says(p, s.value) && RouteOf(s.value) == ValidateProperties(p).value
  {
  }

  lemma SaidIsAccepted(p: Properties, s: Shape)
    requires Says(p, s)
    ensures ValidateProperties(p) == Ok(RouteOf(s))
  {
    match s
    case Direct(_, _, _) => assert ReadProtocol(p) == Ok(Dr);
    case Deferred(_, _) => assert ReadProtocol(p) == Ok(DrPending);
    case Commit(_, _, _, _) => assert ReadProtocol(p) == Ok(Mls) && ReadWireClass(p) == Ok(Handshake);
    case Welcome(_, _, _, _) => assert ReadHandshakeKind(p) == Ok(Some(WelcomeKind));
    case Application(_, _, _, _) => assert ReadWireClass(p) == Ok(ApplicationData);
  }

  /** Exactly which properties are accepted, and as what. */
  lemma AcceptedExactly(p: Properties, s: Shape)
    ensures ValidateProperties(p) == Ok(RouteOf(s)) <==> Says(p, s)
  {
    if ValidateProperties(p) == Ok(RouteOf(s)) {
      AcceptedHasAShape(p);
      assert ShapeOf(RouteOf(s)) == Some(s);
    }
    if Says(p, s) { SaidIsAccepted(p, s); }
  }

  /** From a logged-in device exactly the messages that name it as their sender are accepted. */
  lemma AuthenticatedExactly(p: Properties, device: string, s: Shape)
    ensures ValidateAuthenticatedSender(p, device) == Ok(RouteOf(s)) <==> Says(p, s) && s.sender == device
    ensures ValidateAuthenticatedSender(p, device) == Err(DeviceMismatch) <==>
      ValidateProperties(p).Ok? && ShapeOf(ValidateProperties(p).value).value.sender != device
  {
    AcceptedExactly(p, s);
    if ValidateProperties(p).Ok? { AcceptedHasAShape(p); }
  }

  function NamesOf(s: Shape): set<Name> {
    {E2eVersion, SenderDeviceId, LocalId, ProtocolName, WireClassName} +
    match s
    case Direct(_, _, _) => {RecipientDeviceId}
    case Deferred(_, _) => {Algorithm}
    case Application(_, _, _, _) => {MlsEpoch, MlsGeneration}
    case _ => {MlsEpoch, MlsGeneration, MlsHandshakeKind, MlsCommitId}
  }

  function ValueOf(s: Shape, name: Name): Value {
    match name
    case E2eVersion => Unsigned(2)
    case SenderDeviceId => Text(s.sender)
    case LocalId => Text(s.local)
    case RecipientDeviceId => if s.Direct? then Text(s.recipient) else OtherValue
    case ProtocolName => Text(if s.Direct? then "dr" else if s.Deferred? then "dr-pending" else "mls")
    case WireClassName =>
      Text(if IsMls(s) then if s.Application? then "mls_application" else "mls_handshake" else "dr_envelope")
    case Algorithm => Text("DEFERRED+AES-GCM")
    case MlsEpoch => if IsMls(s) then Unsigned(s.epoch) else OtherValue
    case MlsGeneration => Unsigned(if s.Application? then s.generation else 0)
    case MlsHandshakeKind => Text(if s.Commit? then "commit" else "welcome")
    case MlsCommitId => if s.Commit? || s.Welcome? then Text(s.id) else OtherValue
    case OtherName(_) => OtherValue
  }

  predicate IsMls(s: Shape) {
    s.Commit? || s.Welcome? || s.Application?
  }

  /** The properties a client sends for a shape. */
  function PropertiesOf(s: Shape): Properties {
    map name | name in NamesOf(s) :: ValueOf(s, name)
  }

  lemma Lookup(s: Shape, name: Name)
    ensures name in PropertiesOf(s) <==> name in NamesOf(s)
    ensures name in NamesOf(s) && ValueOf(s, name).Text? ==>
      AsText(PropertiesOf(s), name) == Some(ValueOf(s, name).text)
    ensures name in NamesOf(s) && ValueOf(s, name).Unsigned? && ValueOf(s, name).number < U64_LIMIT ==>
      AsU64(PropertiesOf(s), name) == Some(ValueOf(s, name).number)
  {
  }

  lemma PropertiesSay(s: Shape)
    requires WellFormed(s)
    ensures Says(PropertiesOf(s), s)
  {
    hide PropertiesOf, AsText;
    Lookup(s, E2eVersion);
    Lookup(s, SenderDeviceId);
    Lookup(s, LocalId);
    Lookup(s, RecipientDeviceId);
    Lookup(s, ProtocolName);
    Lookup(s, WireClassName);
    Lookup(s, Algorithm);
    Lookup(s, MlsEpoch);
    Lookup(s, MlsGeneration);
    Lookup(s, MlsHandshakeKind);
    Lookup(s, MlsCommitId);
  }

  /** A well-formed message goes through, and comes out as the route it was written from. */
  lemma RouteRoundTrip(s: Shape)
    ensures ValidateProperties(PropertiesOf(s)) == Ok(RouteOf(s)) <==> WellFormed(s)
  {
    hide ValidateProperties, PropertiesOf;
    AcceptedExactly(PropertiesOf(s), s);
    if WellFormed(s) { PropertiesSay(s); }
  }

  // ---- where it may be sent ----

  datatype Target = ToUser(uid: int) | ToGroup(gid: int)

  /** Content other than the encrypted type is not looked at. */
  datatype Content = Content(encrypted: bool, properties: Option<Properties>)

  datatype TargetError = BadRequest | Invalid(error: E2eV2Error) | TargetMismatch

  /** `content` is absent for reactions other than edits. The result is the target of a deferred direct message. */
  function EnforceTargetProtocol(target: Target, content: Option<Content>): Result<Option<int>, TargetError> {
    if content.None? || !content.value.encrypted then Ok(None)
    else if content.value.properties.None? then Err(BadRequest)
    else
      match ValidateProperties(content.value.properties.value)
      case Err(e) => Err(Invalid(e))
      case Ok(r) =>
        if target.ToUser? && r.protocol == DrPending then Ok(Some(target.uid))
        else if (target.ToUser? && r.protocol == Dr) || (target.ToGroup? && r.protocol == Mls) then Ok(None)
        else Err(TargetMismatch)
  }

  /**
   Content that is not of the encrypted type goes anywhere. Of the rest groups get the three MLS shapes
   and users the other two, exactly the deferred ones leave the user as a pending target, and each
   refusal has its own error.
   */
  lemma TargetsByShape(target: Target, content: Option<Content>)
    ensures var r := EnforceTargetProtocol(target, content);
      if content.None? || !content.value.encrypted then r == Ok(None)
      else if content.value.properties.None? then r == Err(BadRequest)
      else
        var p := content.value.properties.value;
        && (r == Ok(None) <==> exists s :: Says(p, s) && !s.Deferred? && (IsMls(s) <==> target.ToGroup?))
        && (r.Ok? && r.value.Some? <==> target.ToUser? && exists s :: Says(p, s) && s.Deferred?)
        && (r.Ok? && r.value.Some? ==> r.value.value == target.uid)
        && (r == Err(TargetMismatch) <==> exists s :: Says(p, s) && (IsMls(s) <==> target.ToUser?))
        && (ValidateProperties(p).Err? ==> r == Err(Invalid(ValidateProperties(p).error)))
  {
    if content.Some? && content.value.encrypted && content.value.properties.Some? {
      var p := content.value.properties.value;
      var v := ValidateProperties(p);
      if v.Ok? {
        AcceptedHasAShape(p);
        var s := ShapeOf(v.value).value;
        assert Says(p, s);
        forall s' | Says(p, s') ensures s' == s {
          AcceptedExactly(p, s');
          assert ShapeOf(RouteOf(s')) == Some(s');
        }
        hide Says, ValidateProperties;
      } else {
        forall s | Says(p, s) ensures false { AcceptedExactly(p, s); }
        hide Says, ValidateProperties;
      }
    }
  }

  // ---- why properties are refused ----

  /** One check, and the error of properties that fail it. */
  datatype Check = Check(holds: bool, error: E2eV2Error)

  predicate IsOneOf(p: Properties, name: Name, texts: set<string>) {
    name in p && p[name].Text? && p[name].text in texts
  }

  predicate NonEmptyText(p: Properties, name: Name) {
    name in p && p[name].Text? && p[name].text != ""
  }

  /** A number below `limit`. */
  predicate Number(p: Properties, name: Name, limit: int) {
    name in p && p[name].Unsigned? && p[name].number < limit
  }

  predicate NoMlsNumbers(p: Properties) {
    !Number(p, MlsEpoch, 0x1_0000_0000_0000_0000) && !Number(p, MlsGeneration, 0x1_0000_0000)
  }

  /** The checks in order: first those on the kind of message, then one on each field, then on the fields together. */
  function Checks(p: Properties): seq<Check> {
    var mls := IsOneOf(p, ProtocolName, {"mls"});
    var handshake := IsOneOf(p, WireClassName, {"mls_handshake"});
    var noHandshakeFields := MlsHandshakeKind !in p && MlsCommitId !in p;
    [Check(E2eVersion in p && p[E2eVersion] == Unsigned(2), InvalidProperty(E2eVersion)),
     Check(IsOneOf(p, ProtocolName, {"dr", "dr-pending", "mls"}), InvalidProperty(ProtocolName)),
     Check(IsOneOf(p, ProtocolName, {"dr-pending"}) ==> IsOneOf(p, Algorithm, {"DEFERRED+AES-GCM"}),
       InvalidProperty(Algorithm)),
     Check(IsOneOf(p, WireClassName, {"dr_envelope", "mls_handshake", "mls_application"}),
       InvalidProperty(WireClassName)),
     Check(mls <==> !IsOneOf(p, WireClassName, {"dr_envelope"}), ProtocolMismatch),
     Check(NonEmptyText(p, SenderDeviceId), InvalidProperty(SenderDeviceId)),
     Check(NonEmptyText(p, LocalId), InvalidProperty(LocalId)),
     Check(RecipientDeviceId in p ==> NonEmptyText(p, RecipientDeviceId), InvalidProperty(RecipientDeviceId)),
     Check(MlsHandshakeKind in p ==> IsOneOf(p, MlsHandshakeKind, {"commit", "welcome"}),
       InvalidProperty(MlsHandshakeKind)),
     Check(MlsCommitId in p ==> NonEmptyText(p, MlsCommitId), InvalidProperty(MlsCommitId)),
     Check(IsOneOf(p, ProtocolName, {"dr"}) ==> RecipientDeviceId in p, InvalidProperty(RecipientDeviceId)),
     Check(!mls ==> NoMlsNumbers(p) && noHandshakeFields, ProtocolMismatch),
     Check(!IsOneOf(p, ProtocolName, {"dr"}) ==> RecipientDeviceId !in p, ProtocolMismatch),
     Check(mls ==> Number(p, MlsEpoch, 0x1_0000_0000_0000_0000), InvalidProperty(MlsEpoch)),
     Check(mls ==> Number(p, MlsGeneration, 0x1_0000_0000), InvalidProperty(MlsGeneration)),
     Check(mls && handshake ==> MlsHandshakeKind in p && MlsCommitId in p, InvalidProperty(MlsHandshakeKind)),
     Check(mls && handshake ==> MlsGeneration in p && p[MlsGeneration] == Unsigned(0), InvalidProperty(MlsGeneration)),
     Check(mls && !handshake ==> noHandshakeFields, ProtocolMismatch)]
  }

  predicate PassesBefore(p: Properties, i: nat)
    requires i <= |Checks(p)|
  {
    forall j :: 0 <= j < i ==> Checks(p)[j].holds
  }

  /** Properties are refused with the error of the first check they fail, and accepted if they fail none. */
  lemma RefusedForTheFirstFailure(p: Properties, i: nat)
    requires i <= |Checks(p)| == 18 && PassesBefore(p, i)
    ensures i == 18 ==> ValidateProperties(p).Ok?
    ensures i < 18 && !Checks(p)[i].holds ==> ValidateProperties(p) == Err(Checks(p)[i].error)
  {
    var c := Checks(p);
    assert (i > 0 ==> c[0].holds) && (i > 1 ==> c[1].holds) && (i > 2 ==> c[2].holds);
    assert (i > 3 ==> c[3].holds) && (i > 4 ==> c[4].holds) && (i > 5 ==> c[5].holds);
    assert (i > 6 ==> c[6].holds) && (i > 7 ==> c[7].holds) && (i > 8 ==> c[8].holds);
    assert (i > 9 ==> c[9].holds) && (i > 10 ==> c[10].holds) && (i > 11 ==> c[11].holds);
    assert (i > 12 ==> c[12].holds) && (i > 13 ==> c[13].holds) && (i > 14 ==> c[14].holds);
    assert (i > 15 ==> c[15].holds) && (i > 16 ==> c[16].holds) && (i > 17 ==> c[17].holds);
  }
}
