/** The registration message a client sends to the relay: encoding, decoding, and what survives. */
module RelayCodec {
  import opened Prelude
  import Csv
  import Decimal

  const MAX_RELAY_CONNECTIONS: nat := 32
  const MAX_PORT: nat := 65535

  /** The sixteen names the protocol reserves, and any other name. */
  datatype Name =
    | Room | RoleName | ConnIndex | ListenHost | ListenPort | PunchHost | PunchPort | FileCount
    | TotalSize | ConnCount | Aux | NoDirect | LocalCandidates | App | StunNat | RelayPass
    | Other(text: string)

  type Fields = map<Name, string>

  datatype Role = Sender | Receiver

  datatype Endpoint = Endpoint(host: string, port: nat)

  datatype Hello = Hello(room: string, role: Role, connIndex: nat, listen: Endpoint, punch: Endpoint,
                         fileCount: nat, totalSize: nat, connCount: nat, auxiliary: bool, noDirect: bool,
                         candidates: seq<string>, app: string, stunNat: string, relayPass: Option<string>,
                         extension: Fields)

  /** The widths of the source's integers. */
  predicate Representable(h: Hello) {
    && h.connIndex <= U64_MAX && h.fileCount <= U64_MAX && h.totalSize <= U64_MAX && h.connCount <= U64_MAX
    && h.listen.port <= MAX_PORT && h.punch.port <= MAX_PORT
  }

  function RoleText(role: Role): string {
    match role
    case Sender => "sender"
    case Receiver => "receiver"
  }

  function Text(text: string): Option<string> {
    if text == "" then None else Some(text)
  }

  function Number(n: nat, absent: nat): Option<string> {
    if n == absent then None else Some(Decimal.ToDecimal(n))
  }

  function Flag(on: bool): Option<string> {
    if on then Some("1") else None
  }

  /** What the encoder writes under each reserved name, if anything. */
  function FieldOf(h: Hello, name: Name): Option<string> {
    match name
    case Room => Some(h.room)
    case RoleName => Some(RoleText(h.role))
    case ConnIndex => Number(h.connIndex, 0)
    case ListenHost => Text(h.listen.host)
    case ListenPort => Number(h.listen.port, 0)
    case PunchHost => Text(h.punch.host)
    case PunchPort => Number(h.punch.port, 0)
    case FileCount => Number(h.fileCount, 0)
    case TotalSize => Number(h.totalSize, 0)
    case ConnCount => Number(h.connCount, 1)
    case Aux => Flag(h.auxiliary)
    case NoDirect => Flag(h.noDirect)
    case LocalCandidates => if h.candidates == [] then None else Some(Csv.Join(h.candidates))
    case App => Text(h.app)
    case StunNat => Text(h.stunNat)
    case RelayPass => if h.relayPass.Some? then Text(h.relayPass.value) else None
    case Other(_) => None
  }

  const RESERVED: set<Name> :=
    {Room, RoleName, ConnIndex, ListenHost, ListenPort, PunchHost, PunchPort, FileCount,
     TotalSize, ConnCount, Aux, NoDirect, LocalCandidates, App, StunNat, RelayPass}

  lemma ReservedNames(name: Name)
    ensures name in RESERVED <==> !name.Other?
  {
  }

  /** extension_fields: reserved names are dropped. */
  function Extension(fields: Fields): Fields {
    map name | name in fields && name !in RESERVED :: fields[name]
  }

  /** encode_relay_hello */
  function Encode(h: Hello): Result<Fields> {
    if h.room == "" then Err("relay hello room is required")
    else if h.connCount == 0 || h.connCount > MAX_RELAY_CONNECTIONS then Err("invalid conn_count")
    else Ok(Extension(h.extension) + map name | name in RESERVED && FieldOf(h, name).Some? :: FieldOf(h, name).value)
  }

  function Get(fields: Fields, name: Name): string {
    if name in fields then fields[name] else ""
  }

  /** Message::get_u64 */
  function GetNumber(fields: Fields, name: Name, fallback: nat): Option<nat> {
    if Get(fields, name) == "" then Some(fallback) else Decimal.ParseU64(Get(fields, name))
  }

  /** message_port_or, zero allowed */
  function GetPort(fields: Fields, name: Name): Option<nat> {
    var port := GetNumber(fields, name, 0);
    if port.Some? && port.value > MAX_PORT then None else port
  }

  function DecodeRole(text: string): Option<Role> {
    if text == "sender" then Some(Sender) else if text == "receiver" then Some(Receiver) else None
  }

  /** decode_relay_hello */
  function Decode(fields: Fields): Result<Hello> {
    var role := DecodeRole(Get(fields, RoleName));
    var index, files := GetNumber(fields, ConnIndex, 0), GetNumber(fields, FileCount, 0);
    var size, count := GetNumber(fields, TotalSize, 0), GetNumber(fields, ConnCount, 1);
    var listenPort, punchPort := GetPort(fields, ListenPort), GetPort(fields, PunchPort);
    if Get(fields, Room) == "" then Err("relay hello room is required")
    else if role.None? then Err("unknown role")
    else if index.None? || files.None? || size.None? || count.None? then Err("field is not an unsigned integer")
    else if listenPort.None? || punchPort.None? then Err("invalid port field")
    else if count.value == 0 || count.value > MAX_RELAY_CONNECTIONS then Err("invalid conn_count")
    else
      Ok(Hello(Get(fields, Room), role.value, index.value,
               Endpoint(Get(fields, ListenHost), listenPort.value), Endpoint(Get(fields, PunchHost), punchPort.value),
               files.value, size.value, count.value,
               Get(fields, Aux) == "1" || index.value > 0, Get(fields, NoDirect) == "1",
               Csv.Split(Get(fields, LocalCandidates)), Get(fields, App), Get(fields, StunNat),
               Text(Get(fields, RelayPass)), Extension(fields)))
  }

  /** A numeric field: absent or empty, or a digit string that fits; `fallback` stands in when it is not there. */
  predicate IsNumeric(text: string) {
    text == "" || (Decimal.AllDigits(text) && Decimal.Value(text) <= U64_MAX)
  }

  function NumberIn(text: string, fallback: nat): nat
    requires IsNumeric(text)
  {
    if text == "" then fallback else Decimal.Value(text)
  }

  /** Exactly which messages are registrations. */
  lemma DecodeAcceptsExactly(fields: Fields)
    ensures Decode(fields).Ok? <==>
      && Get(fields, Room) != "" && Get(fields, RoleName) in {"sender", "receiver"}
      && (forall name :: name in {ConnIndex, FileCount, TotalSize, ConnCount, ListenPort, PunchPort} ==>
            IsNumeric(Get(fields, name)))
      && NumberIn(Get(fields, ListenPort), 0) <= MAX_PORT && NumberIn(Get(fields, PunchPort), 0) <= MAX_PORT
      && 1 <= NumberIn(Get(fields, ConnCount), 1) <= 32
  {
  }

  /** Every extra channel is auxiliary, and so is a first one that says so. */
  lemma DecodedAuxiliary(fields: Fields)
    requires Decode(fields).Ok?
    ensures var h := Decode(fields).value;
      && h.room != ""
      && (h.auxiliary <==> h.connIndex > 0 || Get(fields, Aux) == "1")
      && (h.noDirect <==> Get(fields, NoDirect) == "1")
  {
  }

  /** Exactly which registrations can be sent. */
  lemma EncodeAcceptsExactly(h: Hello)
    ensures Encode(h).Ok? <==> h.room != "" && 1 <= h.connCount <= 32
  {
  }

  /** What a registration means: extra channels are auxiliary, an empty password is none. */
  function Normal(h: Hello): Hello {
    h.(auxiliary := h.auxiliary || h.connIndex > 0,
       relayPass := if h.relayPass == Some("") then None else h.relayPass,
       extension := Extension(h.extension))
  }

  /** Every reserved name reads back as what the encoder had for it. */
  ghost predicate Carries(fields: Fields, h: Hello) {
    forall name: Name :: !name.Other? ==>
      Get(fields, name) == if FieldOf(h, name).Some? then FieldOf(h, name).value else ""
  }

  lemma EncodedFields(h: Hello)
    requires Encode(h).Ok?
    ensures Carries(Encode(h).value, h)
  {
    forall name: Name | !name.Other?
      ensures Get(Encode(h).value, name) == if FieldOf(h, name).Some? then FieldOf(h, name).value else ""
    {
      ReservedNames(name);
    }
  }

  lemma NumberRoundTrip(fields: Fields, name: Name, n: nat, absent: nat)
    requires n <= U64_MAX
    requires Get(fields, name) == if Number(n, absent).Some? then Number(n, absent).value else ""
    ensures GetNumber(fields, name, absent) == Some(n)
  {
    Decimal.DecimalRoundTrip(n);
  }

  lemma ExtensionSurvives(h: Hello)
    requires Encode(h).Ok?
    ensures Extension(Encode(h).value) == Extension(h.extension)
  {
  }

  lemma NumbersSurvive(fields: Fields, h: Hello)
    requires Carries(fields, h) && Representable(h)
    ensures GetNumber(fields, ConnIndex, 0) == Some(h.connIndex) && GetNumber(fields, FileCount, 0) == Some(h.fileCount)
    ensures GetNumber(fields, TotalSize, 0) == Some(h.totalSize) && GetNumber(fields, ConnCount, 1) == Some(h.connCount)
    ensures GetPort(fields, ListenPort) == Some(h.listen.port) && GetPort(fields, PunchPort) == Some(h.punch.port)
  {
    NumberRoundTrip(fields, ConnIndex, h.connIndex, 0);
    NumberRoundTrip(fields, FileCount, h.fileCount, 0);
    NumberRoundTrip(fields, TotalSize, h.totalSize, 0);
    NumberRoundTrip(fields, ConnCount, h.connCount, 1);
    NumberRoundTrip(fields, ListenPort, h.listen.port, 0);
    NumberRoundTrip(fields, PunchPort, h.punch.port, 0);
  }

  lemma TextsSurvive(fields: Fields, h: Hello)
    requires Carries(fields, h)
    ensures Get(fields, Room) == h.room && DecodeRole(Get(fields, RoleName)) == Some(h.role)
    ensures Get(fields, ListenHost) == h.listen.host && Get(fields, PunchHost) == h.punch.host
    ensures Get(fields, App) == h.app && Get(fields, StunNat) == h.stunNat
    ensures Get(fields, LocalCandidates) == Csv.Join(h.candidates)
  {
  }

  lemma FlagsSurvive(fields: Fields, h: Hello)
    requires Carries(fields, h)
    ensures (Get(fields, Aux) == "1" <==> h.auxiliary) && (Get(fields, NoDirect) == "1" <==> h.noDirect)
    ensures Text(Get(fields, RelayPass)) == Normal(h).relayPass
  {
  }

  lemma CarriedDecodes(fields: Fields, h: Hello)
    requires Carries(fields, h) && Representable(h) && h.room != "" && 0 < h.connCount <= MAX_RELAY_CONNECTIONS
    ensures Decode(fields)
            == Ok(Normal(h).(candidates := Csv.Split(Csv.Join(h.candidates)), extension := Extension(fields)))
  {
    NumbersSurvive(fields, h);
    TextsSurvive(fields, h);
    FlagsSurvive(fields, h);
  }

  /**
   Round trip: whatever can be encoded decodes to its normal form, exactly when its local
   candidates are non-empty and free of commas.
   */
  lemma HelloRoundTrip(h: Hello)
    requires Encode(h).Ok? && Representable(h)
    ensures Decode(Encode(h).value) == Ok(Normal(h)) <==> Csv.AllTokens(h.candidates)
  {
    EncodedFields(h);
    CarriedDecodes(Encode(h).value, h);
    ExtensionSurvives(h);
    Csv.RoundTripExactly(h.candidates);
  }

  lemma DecodedIsNormal(fields: Fields)
    requires Decode(fields).Ok?
    ensures var h := Decode(fields).value;
      Encode(h).Ok? && Representable(h) && Csv.AllTokens(h.candidates) && Normal(h) == h
  {
    assert Extension(Extension(fields)) == Extension(fields);
  }

  /** What the relay decodes, any message it accepts, is kept exactly by encoding it again. */
  lemma DecodedSurvives(fields: Fields)
    requires Decode(fields).Ok?
    ensures var h := Decode(fields).value; Encode(h).Ok? && Decode(Encode(h).value) == Ok(h)
  {
    DecodedIsNormal(fields);
    HelloRoundTrip(Decode(fields).value);
  }
}
