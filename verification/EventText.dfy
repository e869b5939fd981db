/** The text form of replica events (src/server/replica.c) and of election events
 *  (src/server/election.c). */
module EventText {
  import opened Bytes
  import opened Seqs
  import opened ServerCommon
  import opened Text

  const EVENT_CLIENT_CONNECTED := 0
  const EVENT_CLIENT_DISCONNECTED := 1
  const EVENT_FILE_UPLOADED := 2
  const EVENT_REPLICA_ADDED := 3
  const EVENT_HEARTBEAT := 4
  const EVENT_FILE_DELETED := 5

  /** A replica event; the strings are None where the source has NULL. */
  datatype ReplicaEvent =
    ReplicaEvent(kind: int, address: Address, username: Option<CString>, filepath: Option<CString>)

  // ------------------------------------------------------------------ constructors

  function ClientConnected(user: CString, address: Address): ReplicaEvent {
    ReplicaEvent(EVENT_CLIENT_CONNECTED, address, Some(user), None)
  }

  function ClientDisconnected(user: CString, address: Address): ReplicaEvent {
    ReplicaEvent(EVENT_CLIENT_DISCONNECTED, address, Some(user), None)
  }

  function IdAndPort(id: Int32, listenerPort: Int32): CString {
    Decimal(id) + [COLON] + Decimal(listenerPort)
  }

  function ReplicaAdded(id: Int32, listenerPort: Int32, address: Address): ReplicaEvent {
    ReplicaEvent(EVENT_REPLICA_ADDED, address, Some(IdAndPort(id, listenerPort)), None)
  }

  function FileUploaded(user: CString, address: Address, file: CString): ReplicaEvent {
    ReplicaEvent(EVENT_FILE_UPLOADED, address, Some(user), Some(file))
  }

  function FileDeleted(user: CString, address: Address, file: CString): ReplicaEvent {
    ReplicaEvent(EVENT_FILE_DELETED, address, Some(user), Some(file))
  }

  function Heartbeat(): ReplicaEvent {
    ReplicaEvent(EVENT_HEARTBEAT, NO_ADDRESS, None, None)
  }

  /** What the constructors have in common: no file without a user. */
  predicate Constructed(e: ReplicaEvent) {
    e.filepath.Some? ==> e.username.Some?
  }

  // ------------------------------------------------------------------ replica events

  function OrEmpty(s: Option<CString>): CString {
    if s.None? then [] else s.value
  }

  /** `serialize_replica_event`. */
  function Serialize(e: ReplicaEvent): Chars {
    Decimal(e.kind) + [BAR] + (AddressText(e.address) + [BAR] + (OrEmpty(e.username) + [BAR] + OrEmpty(e.filepath)))
  }

  lemma Fields(e: ReplicaEvent, code: Chars, user: CString, file: CString)
    requires Decimal(e.kind) == code && OrEmpty(e.username) == user && OrEmpty(e.filepath) == file
    ensures Serialize(e) == code + [124] + AddressText(e.address) + [124] + user + [124] + file
  {
  }

  /** The text of the events: the code in the enumeration of src/server/serverCommon.h, the
   *  address, the user and the file, with bars between them. */
  lemma SessionEventText(user: CString, address: Address)
    ensures Serialize(ClientConnected(user, address)) == [48] + [124] + AddressText(address) + [124] + user + [124] + []
    ensures Serialize(ClientDisconnected(user, address))
            == [49] + [124] + AddressText(address) + [124] + user + [124] + []
  {
    OneDigit(0);
    OneDigit(1);
    Fields(ClientConnected(user, address), [48], user, []);
    Fields(ClientDisconnected(user, address), [49], user, []);
  }

  lemma FileEventText(user: CString, address: Address, file: CString)
    ensures Serialize(FileUploaded(user, address, file))
            == [50] + [124] + AddressText(address) + [124] + user + [124] + file
    ensures Serialize(FileDeleted(user, address, file))
            == [53] + [124] + AddressText(address) + [124] + user + [124] + file
  {
    OneDigit(2);
    OneDigit(5);
    Fields(FileUploaded(user, address, file), [50], user, file);
    Fields(FileDeleted(user, address, file), [53], user, file);
  }

  lemma ReplicaEventText(id: Int32, port: Int32, address: Address)
    ensures Serialize(ReplicaAdded(id, port, address))
            == [51] + [124] + AddressText(address) + [124] + (Decimal(id) + [58] + Decimal(port)) + [124] + []
    ensures Serialize(Heartbeat()) == [52] + [124] + [48, 46, 48, 46, 48, 46, 48, 58, 48] + [124] + [] + [124] + []
  {
    OneDigit(3);
    OneDigit(4);
    NoAddressText();
    Fields(ReplicaAdded(id, port, address), [51], IdAndPort(id, port), []);
    Fields(Heartbeat(), [52], [], []);
  }

  /** 0.0.0.0:0 */
  lemma NoAddressText()
    ensures AddressText(NO_ADDRESS) == [48, 46, 48, 46, 48, 46, 48, 58, 48]
  {
    OneDigit(0);
    AddressLayout(NO_ADDRESS);
  }

  /** A token is a C string when the text it is cut from is one. */
  lemma {:induction false} TokenIsCString(s: Chars, d: byte)
    requires 0 !in s
    ensures NextToken(s, d).Some? ==> 0 !in NextToken(s, d).value.0 && 0 !in NextToken(s, d).value.1
  {
    SkipKeeps(s, d);
  }

  lemma {:induction false} SkipKeeps(s: Chars, d: byte)
    ensures forall c :: c in SkipDelims(s, d) ==> c in s
  {
    if s != [] && s[0] == d { SkipKeeps(s[1..], d); }
  }

  /** The last two fields: whatever tokens are left. */
  function ParseStrings(rest: CString): (r: (Option<CString>, Option<CString>)) {
    TokenIsCString(rest, BAR);
    match NextToken(rest, BAR)
    case None => (None, None)
    case Some((user, rest')) =>
      TokenIsCString(rest', BAR);
      (match NextToken(rest', BAR)
       case None => (Some(user), None)
       case Some((file, _)) => (Some(user), Some(file)))
  }

  /** `deserialize_replica_event`. */
  function Deserialize(s: CString): ReplicaEvent {
    TokenIsCString(s, BAR);
    match NextToken(s, BAR)
    case None => ReplicaEvent(0, NO_ADDRESS, None, None)
    case Some((kind, rest)) =>
      TokenIsCString(rest, BAR);
      (match NextToken(rest, BAR)
       case None => ReplicaEvent(Atoi(kind), NO_ADDRESS, None, None)
       case Some((address, rest')) =>
         var (user, file) := ParseStrings(rest');
         ReplicaEvent(Atoi(kind), ParseAddress(address), user, file))
  }

  /** A string that survives as one field. */
  predicate Clean(s: Option<CString>) {
    s.Some? ==> s.value != [] && BAR !in s.value
  }

  lemma SerializeIsCString(e: ReplicaEvent)
    ensures 0 !in Serialize(e)
  {
    AddressChars(e.address);
  }

  lemma StringsRoundTrip(e: ReplicaEvent)
    requires Constructed(e) && Clean(e.username) && Clean(e.filepath)
    ensures ParseStrings(OrEmpty(e.username) + [BAR] + OrEmpty(e.filepath)) == (e.username, e.filepath)
  {
    NoToken(BAR);
    if e.username.None? {
      assert [] + [BAR] + [] == [BAR];
    } else {
      TokenOfField(e.username.value, BAR, OrEmpty(e.filepath));
      if e.filepath.Some? {
        TokenOfField(e.filepath.value, BAR, []);
      }
    }
  }

  /** The first two fields, for any rest. */
  lemma DeserializePieces(kind: Chars, address: Chars, rest: CString)
    requires kind != [] && BAR !in kind && 0 !in kind && address != [] && BAR !in address && 0 !in address
    ensures 0 !in kind + [BAR] + (address + [BAR] + rest)
    ensures Deserialize(kind + [BAR] + (address + [BAR] + rest))
            == ReplicaEvent(Atoi(kind), ParseAddress(address), ParseStrings(rest).0, ParseStrings(rest).1)
  {
    TokenOfField(kind, BAR, address + [BAR] + rest);
    TokenOfField(address, BAR, rest);
  }

  lemma HeadRoundTrip(kind: int, address: Address, rest: CString)
    ensures 0 !in Decimal(kind) + [BAR] + (AddressText(address) + [BAR] + rest)
    ensures Deserialize(Decimal(kind) + [BAR] + (AddressText(address) + [BAR] + rest))
            == ReplicaEvent(kind, address, ParseStrings(rest).0, ParseStrings(rest).1)
  {
    AddressChars(address);
    AddressRoundTrip(address);
    AtoiOfDecimal(kind);
    DeserializePieces(Decimal(kind), AddressText(address), rest);
  }

  /** Event text round trip, exactly: an event from the constructors comes back if and only
   *  if its strings are non-empty and free of '|'.  Heartbeats and connects, whose empty
   *  fields strtok_r swallows, are included. */
  lemma EventRoundTrip(e: ReplicaEvent)
    requires Constructed(e)
    ensures 0 !in Serialize(e)
    ensures Deserialize(Serialize(e)) == e <==> Clean(e.username) && Clean(e.filepath)
  {
    SerializeIsCString(e);
    HeadRoundTrip(e.kind, e.address, OrEmpty(e.username) + [BAR] + OrEmpty(e.filepath));
    if Clean(e.username) && Clean(e.filepath) {
      StringsRoundTrip(e);
    }
  }

  /** Text that ends too early leaves zeros and nulls; the kind is then that of a connect. */
  lemma MissingFields(kind: CString, address: CString)
    requires kind != [] && BAR !in kind && address != [] && BAR !in address
    ensures Deserialize([]) == ReplicaEvent(0, NO_ADDRESS, None, None)
    ensures Deserialize(kind) == ReplicaEvent(Atoi(kind), NO_ADDRESS, None, None)
    ensures Deserialize(kind + [BAR] + address) == ReplicaEvent(Atoi(kind), ParseAddress(address), None, None)
  {
    NoToken(BAR);
    TokenOfField(kind, BAR, address);
    TokenOfField(address, BAR, []);
  }

  /** `sscanf(..., "%d:%d", ...)` with its result checked against two. */
  function ScanIdAndPort(s: Chars): Option<(int, int)> {
    match ScanInt(s)
    case None => None
    case Some((id, rest)) =>
      if rest == [] || rest[0] != COLON then None
      else
        match ScanInt(rest[1..])
        case None => None
        case Some((port, _)) => Some((id, port))
  }

  /** The id and port that EVENT_REPLICA_ADDED carries in its user field; the port may be
   *  the -1 of a backup that follows a new leader. */
  lemma IdAndPortRoundTrip(id: Int32, port: Int32)
    ensures ScanIdAndPort(IdAndPort(id, port)) == Some((id, port))
    ensures Clean(Some(IdAndPort(id, port)))
  {
    var tail := [COLON] + Decimal(port);
    assert IdAndPort(id, port) == Decimal(id) + tail && tail[1..] == Decimal(port);
    ScanIntOfDecimal(id, tail);
    ScanIntOfDecimal(port, []);
    assert Decimal(port) + [] == Decimal(port);
  }

  /** Without the colon, or with anything else in its place, the scan finds one number and fails. */
  lemma NoPortNoMatch(id: Int32, c: byte, rest: Chars)
    requires c != 58 && !(48 <= c <= 57)
    ensures ScanIdAndPort(Decimal(id)) == None && ScanIdAndPort(Decimal(id) + ([c] + rest)) == None
  {
    ScanIntOfDecimal(id, []);
    ScanIntOfDecimal(id, [c] + rest);
    assert Decimal(id) + [] == Decimal(id);
  }

  // ------------------------------------------------------------------ election events

  datatype ElectionEvent = ElectionEvent(kind: int, id: int, address: Address)

  function ElectionMessage(id: Int32): ElectionEvent {
    ElectionEvent(0, id, NO_ADDRESS)
  }

  function AnswerMessage(id: Int32): ElectionEvent {
    ElectionEvent(1, id, NO_ADDRESS)
  }

  function CoordinatorMessage(id: Int32, address: Address): ElectionEvent {
    ElectionEvent(2, id, address)
  }

  /** `serialize_election_event`. */
  function SerializeElection(e: ElectionEvent): Chars {
    Decimal(e.kind) + [BAR] + (AddressText(e.address) + [BAR] + Decimal(e.id))
  }

  /** The 32-bit `int` an id is stored in. */
  function ToInt32(n: int): int {
    (n + 0x8000_0000) % 0x1_0000_0000 - 0x8000_0000
  }

  /** `deserialize_election_event`; a missing field leaves zeros. */
  function DeserializeElection(s: Chars): ElectionEvent {
    match NextToken(s, BAR)
    case None => ElectionEvent(0, 0, NO_ADDRESS)
    case Some((kind, rest)) =>
      match NextToken(rest, BAR)
      case None => ElectionEvent(Atoi(kind), 0, NO_ADDRESS)
      case Some((address, rest')) =>
        match NextToken(rest', BAR)
        case None => ElectionEvent(Atoi(kind), 0, ParseAddress(address))
        case Some((id, _)) => ElectionEvent(Atoi(kind), ToInt32(Atoi(id)), ParseAddress(address))
  }

  /** A number stored in an `int` is the one of its 32-bit values that differs by a multiple of
   *  2^32. */
  lemma ToInt32Means(n: int)
    ensures -0x8000_0000 <= ToInt32(n) < 0x8000_0000 && (n - ToInt32(n)) % 0x1_0000_0000 == 0
  {
  }

  lemma MissingElectionFields(kind: CString, address: CString)
    requires kind != [] && BAR !in kind && address != [] && BAR !in address
    ensures DeserializeElection([]) == ElectionEvent(0, 0, NO_ADDRESS)
    ensures DeserializeElection(kind) == ElectionEvent(Atoi(kind), 0, NO_ADDRESS)
    ensures DeserializeElection(kind + [BAR] + address) == ElectionEvent(Atoi(kind), 0, ParseAddress(address))
  {
    NoToken(BAR);
    TokenOfField(kind, BAR, address);
    TokenOfField(address, BAR, []);
  }

  lemma DeserializeElectionPieces(kind: Chars, address: Chars, id: Chars, e: ElectionEvent)
    requires kind != [] && BAR !in kind && address != [] && BAR !in address && id != [] && BAR !in id
    requires -0x8000_0000 <= e.id < 0x8000_0000
    requires e == ElectionEvent(Atoi(kind), Atoi(id), ParseAddress(address))
    ensures DeserializeElection(kind + [BAR] + (address + [BAR] + id)) == e
  {
    TokenOfField(kind, BAR, address + [BAR] + id);
    TokenOfField(address, BAR, id);
    TokenOfField(id, BAR, []);
  }

  lemma ElectionFields(e: ElectionEvent, code: Chars)
    requires Decimal(e.kind) == code
    ensures SerializeElection(e) == code + [124] + AddressText(e.address) + [124] + Decimal(e.id)
  {
  }

  /** The text of the three messages: code, address and id, with bars between them. */
  lemma ElectionMessageText(id: Int32, address: Address)
    ensures SerializeElection(ElectionMessage(id))
            == [48] + [124] + [48, 46, 48, 46, 48, 46, 48, 58, 48] + [124] + Decimal(id)
    ensures SerializeElection(AnswerMessage(id))
            == [49] + [124] + [48, 46, 48, 46, 48, 46, 48, 58, 48] + [124] + Decimal(id)
    ensures SerializeElection(CoordinatorMessage(id, address))
            == [50] + [124] + AddressText(address) + [124] + Decimal(id)
  {
    OneDigit(0);
    OneDigit(1);
    OneDigit(2);
    NoAddressText();
    ElectionFields(ElectionMessage(id), [48]);
    ElectionFields(AnswerMessage(id), [49]);
    ElectionFields(CoordinatorMessage(id, address), [50]);
  }

  /** Every election event comes back, negative ids included. */
  lemma ElectionEventRoundTrip(e: ElectionEvent)
    requires -0x8000_0000 <= e.id < 0x8000_0000
    ensures DeserializeElection(SerializeElection(e)) == e
  {
    AddressChars(e.address);
    AddressRoundTrip(e.address);
    AtoiOfDecimal(e.kind);
    AtoiOfDecimal(e.id);
    DeserializeElectionPieces(Decimal(e.kind), AddressText(e.address), Decimal(e.id), e);
  }
}
