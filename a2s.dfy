/**
 * The stateless part of the A2S client: the request byte layouts, the header
 * conventions, the byte tables, and the decoders for the info reply and the
 * player reply, each with the encoder it inverts.
 */
module A2S {
  import opened Wrappers
  import opened Packet
  import opened Types

  /** The failures a query can report. */
  datatype Error =
    | Transport              // the socket write or read failed; the cause is opaque here
    | ShortRead              // the bytes ran out before a field, or before a slice the Go code takes
    | BadPacketHeader        // challenge reply header neither -1 nor -2
    | BadChallengeResponse   // challenge reply type neither 0x41 nor 0x44
    | MultiplePacketResponse // player reply split over several datagrams
    | FailedToGetPlayerInfo  // player reply header neither -1 nor -2
    | BadPlayersHeader       // player reply header re-read and not -1
    | BadPlayersReply        // player reply type not 0x44

  /** Header -1: the reply is one whole datagram. */
  const SimpleHeader: seq<byte> := [0xFF, 0xFF, 0xFF, 0xFF]
  /** Header -2: the reply is split over several datagrams. */
  const SplitHeader: seq<byte> := [0xFE, 0xFF, 0xFF, 0xFF]

  const InfoQuery: byte := 0x54       // 'T'
  const PlayerQuery: byte := 0x55     // 'U'
  const ChallengeType: byte := 0x41   // 'A'
  const PlayersType: byte := 0x44     // 'D'

  /** The application ID of The Ship, the one game whose player records are longer. */
  const TheShipAppId: int := 2400

  predicate HasHeader(d: seq<byte>, h: seq<byte>) {
    |d| >= 4 && d[..4] == h
  }

  /** A challenge reply that already is the complete answer. */
  predicate IsFullReply(d: seq<byte>) {
    HasHeader(d, SplitHeader) || (HasHeader(d, SimpleHeader) && |d| > 4 && d[4] == PlayersType)
  }

  /** A challenge reply that carries a 4-byte token at offsets 5 to 8. */
  predicate IsChallengeToken(d: seq<byte>) {
    HasHeader(d, SimpleHeader) && |d| >= 9 && d[4] == ChallengeType
  }

  /** What the challenge exchange yields: the token, or the whole datagram when it is a full reply. */
  datatype ChallengeReply = ChallengeReply(data: seq<byte>, fullReply: bool)

  /** Why a challenge reply that is neither a token nor a full reply is refused. */
  function ChallengeFailure(d: seq<byte>): (e: Error)
    requires !IsFullReply(d) && !IsChallengeToken(d)
    ensures |d| >= 4 && !HasHeader(d, SimpleHeader) ==> e == BadPacketHeader
    ensures HasHeader(d, SimpleHeader) && |d| > 4 && d[4] != ChallengeType ==> e == BadChallengeResponse
    ensures e == ShortRead <==> |d| < 4 || (HasHeader(d, SimpleHeader) && (|d| == 4 || d[4] == ChallengeType))
  {
    if |d| < 4 then ShortRead
    else if d[..4] != SimpleHeader then BadPacketHeader
    else if |d| == 4 || d[4] == ChallengeType then ShortRead
    else BadChallengeResponse
  }

  // ---------------------------------------------------------------- requests

  /** The challenge request: FF FF FF FF 55 FF FF FF FF. */
  function ChallengeRequest(): (r: seq<byte>)
    ensures r == [0xFF, 0xFF, 0xFF, 0xFF, 0x55, 0xFF, 0xFF, 0xFF, 0xFF]
  {
    WriteBytes([], SimpleHeader + [PlayerQuery] + SimpleHeader)
  }

  /** The info request: FF FF FF FF 54, then "Source Engine Query" and its terminator. */
  function InfoRequest(): (r: seq<byte>)
    ensures |r| == 25
    ensures r == [0xFF, 0xFF, 0xFF, 0xFF, 0x54,
                  0x53, 0x6F, 0x75, 0x72, 0x63, 0x65, 0x20, 0x45, 0x6E, 0x67,
                  0x69, 0x6E, 0x65, 0x20, 0x51, 0x75, 0x65, 0x72, 0x79, 0x00]
  {
    WriteCString(WriteBytes([], SimpleHeader + [InfoQuery]), Ascii("Source Engine Query"))
  }

  /** The player request that answers a challenge: FF FF FF FF 55 and the token bytes in order. */
  function PlayerRequest(token: seq<byte>): (r: seq<byte>)
    requires |token| == 4
    ensures |r| == 9 && r == [0xFF, 0xFF, 0xFF, 0xFF, 0x55] + token
  {
    SimpleHeader + [PlayerQuery, token[0], token[1], token[2], token[3]]
  }

  // ---------------------------------------------------------------- byte tables

  const CodeDedicated: byte := 'd' as int
  const CodeNonDedicated: byte := 'l' as int
  const CodeSourceTV: byte := 'p' as int
  const CodeLinux: byte := 'l' as int
  const CodeWindows: byte := 'w' as int

  function ParseServerType(b: byte): (t: ServerType)
    ensures t == ServerTypeDedicated <==> b == CodeDedicated
    ensures t == ServerTypeNonDedicated <==> b == CodeNonDedicated
    ensures t == ServerTypeSourceTV <==> b == CodeSourceTV
    ensures t == ServerTypeUnknown <==> b !in {CodeDedicated, CodeNonDedicated, CodeSourceTV}
  {
    if b == CodeDedicated then ServerTypeDedicated
    else if b == CodeNonDedicated then ServerTypeNonDedicated
    else if b == CodeSourceTV then ServerTypeSourceTV
    else ServerTypeUnknown
  }

  function ParsePlatform(b: byte): (p: string)
    ensures p == "Linux" <==> b == CodeLinux
    ensures p == "Windows" <==> b == CodeWindows
    ensures p == "Unknown" <==> b !in {CodeLinux, CodeWindows}
  {
    if b == CodeLinux then "Linux"
    else if b == CodeWindows then "Windows"
    else "Unknown"
  }

  /** The name of a decoded server type: one of three names for the three codes, "Unknown" otherwise. */
  lemma ParsedServerTypeName(b: byte)
    ensures ServerTypeName(ParseServerType(b)) == "Dedicated" <==> b == CodeDedicated
    ensures ServerTypeName(ParseServerType(b)) == "Non-Dedicated" <==> b == CodeNonDedicated
    ensures ServerTypeName(ParseServerType(b)) == "SourceTV" <==> b == CodeSourceTV
    ensures ServerTypeName(ParseServerType(b)) == "Unknown" <==> b !in {CodeDedicated, CodeNonDedicated, CodeSourceTV}
  {
  }

  // ---------------------------------------------------------------- receiving

  /** What a read into a DefaultMaxPacketSize-byte buffer delivers of a datagram. */
  function Delivered(d: seq<byte>): (r: seq<byte>)
    ensures |r| <= DefaultMaxPacketSize && |r| <= |d|
    ensures r == d[..|r|]
    ensures |r| == |d| || |r| == DefaultMaxPacketSize
  {
    if |d| <= DefaultMaxPacketSize then d else d[..DefaultMaxPacketSize]
  }

  /** The whole receive buffer after that read: the delivered bytes, then the zeros it was made with. */
  function ReceiveBuffer(d: seq<byte>): (buf: seq<byte>)
    ensures |buf| == DefaultMaxPacketSize
    ensures buf[..|Delivered(d)|] == Delivered(d)
    ensures forall i :: |Delivered(d)| <= i < |buf| ==> buf[i] == 0
  {
    Delivered(d) + seq(DefaultMaxPacketSize - |Delivered(d)|, _ => 0)
  }

  // ---------------------------------------------------------------- info reply

  /**
   * The fields the info decoder reads after the four header bytes: one byte
   * and one string it discards, the strings Name, Map, Folder and Game, the
   * bytes Players, MaxPlayers, Protocol, server type, platform, Locked and
   * VAC, and the string Version.
   */
  const InfoLayout: seq<FieldKind> := [
    Uint8Field, StringField,
    StringField, StringField, StringField, StringField,
    Uint8Field, Uint8Field, Uint8Field, Uint8Field, Uint8Field, Uint8Field, Uint8Field,
    StringField]

  /**
   * The record built from the info fields: the table lookups, the two flags,
   * and the session's address. A helper of DecodeInfo; what it means for the
   * bytes on the wire is stated by the info round trip.
   */
  function InfoRecord(fs: seq<Field>, addr: Address): ServerInfo
    requires HasKinds(fs, InfoLayout)
  {
    ServerInfo(
      protocol := fs[8].b,
      name := fs[2].s,
      mapName := fs[3].s,
      folder := fs[4].s,
      game := fs[5].s,
      id := 0,
      players := fs[6].b,
      maxPlayers := fs[7].b,
      bots := 0,
      serverType := ParseServerType(fs[9].b),
      platform := ParsePlatform(fs[10].b),
      locked := fs[11].b == 0x01,
      vac := fs[12].b == 0x01,
      version := fs[13].s,
      sourceTV := None,
      address := addr)
  }

  /**
   * Decodes an info reply from the receive buffer: the reader starts after the
   * four header bytes, which it never looks at, and reads InfoLayout. The
   * fields the reply does not fill keep their zero values.
   */
  function DecodeInfo(buf: seq<byte>, addr: Address): (r: Result<ServerInfo, Error>)
    requires |buf| >= 4
    ensures r.Failure? ==> r.error == ShortRead
    ensures r.Success? ==> r.value.address == addr
    ensures r.Success? ==> r.value.id == 0 && r.value.bots == 0 && r.value.sourceTV == None
  {
    var rd := Reader(buf[4..], 0);
    var fields :- ReadFields(rd, InfoLayout).ToResult(ShortRead);
    ReadFieldsKinds(rd, InfoLayout);
    Success(InfoRecord(fields.value, addr))
  }

  // ---------------------------------------------------------------- player reply

  /**
   * What the player query makes of its reply, by the reply's little-endian
   * int32 header: -1 is decoded, -2 is a split reply, and any other header is
   * a failure. Fewer than four bytes cannot hold a header.
   */
  function PlayerReply(d: seq<byte>, theShip: bool): (r: Result<PlayerInfo, Error>)
    ensures |d| < 4 ==> r == Failure(ShortRead)
    ensures HasHeader(d, SimpleHeader) ==> r == DecodePlayerResponse(d, theShip)
    ensures HasHeader(d, SplitHeader) ==> r == Failure(MultiplePacketResponse)
    ensures |d| >= 4 && !HasHeader(d, SimpleHeader) && !HasHeader(d, SplitHeader) ==> r == Failure(FailedToGetPlayerInfo)
  {
    if |d| < 4 then Failure(ShortRead)
    else
      HeaderValues(d[..4]);
      var header := ToInt32(LeUint32(d[..4]));
      if header == -1 then DecodePlayerResponse(d, theShip)
      else if header == -2 then Failure(MultiplePacketResponse)
      else Failure(FailedToGetPlayerInfo)
  }

  /** The fields of one player record; the two Ship fields follow only when `theShip` holds. */
  function PlayerLayout(theShip: bool): (ks: seq<FieldKind>)
    ensures LayoutMinSize(ks) == if theShip then 18 else 10
  {
    if theShip then [Uint8Field, StringField, Uint32Field, Uint32Field, Uint32Field, Uint32Field]
    else [Uint8Field, StringField, Uint32Field, Uint32Field]
  }

  /** The fewest bytes a player record takes: id, an empty name's terminator, score and duration. */
  const MinPlayerRecord: nat := 10

  /**
   * The record built from a player's fields: Deaths and Money exactly when
   * `theShip` holds. A helper of DecodePlayer; the player round trip states
   * what it means for the bytes on the wire.
   */
  function PlayerRecord(fs: seq<Field>, theShip: bool): Player
    requires HasKinds(fs, PlayerLayout(theShip))
  {
    Player(fs[0].b, fs[1].s, fs[2].u, fs[3].u, if theShip then Some(ShipPlayer(fs[4].u, fs[5].u)) else None)
  }

  /** Decodes one player record. Duration is a float32 on the wire, kept as its bit pattern. */
  function DecodePlayer(rd: Reader, theShip: bool): (r: Option<Read<Player>>)
    ensures r.Some? ==> r.value.value.ship.Some? == theShip
    ensures r.Some? ==> r.value.rest.data == rd.data
    ensures r.Some? ==> rd.pos + MinPlayerRecord <= r.value.rest.pos <= |rd.data|
  {
    var fields :- ReadFields(rd, PlayerLayout(theShip));
    ReadFieldsKinds(rd, PlayerLayout(theShip));
    ReadFieldsMinSize(rd, PlayerLayout(theShip));
    Some(Read(PlayerRecord(fields.value, theShip), fields.rest))
  }

  /**
   * Decodes exactly `n` player records one after another. A success holds `n`
   * records, every one with the Ship fields exactly when `theShip` holds, and
   * consumed at least MinPlayerRecord bytes per record, so too few bytes for
   * `n` records is a failure, never a shorter list.
   */
  function DecodePlayers(rd: Reader, n: nat, theShip: bool): (r: Option<Read<seq<Player>>>)
    decreases n
    ensures r.Some? ==> |r.value.value| == n
    ensures r.Some? ==> forall p :: p in r.value.value ==> p.ship.Some? == theShip
    ensures r.Some? ==> r.value.rest.data == rd.data
    ensures r.Some? ==> rd.pos + n * MinPlayerRecord <= r.value.rest.pos
    ensures r.Some? && n > 0 ==> r.value.rest.pos <= |rd.data|
  {
    if n == 0 then Some(Read([], rd))
    else
      var p :- DecodePlayer(rd, theShip);
      var ps :- DecodePlayers(p.rest, n - 1, theShip);
      Some(Read([p.value] + ps.value, ps.rest))
  }

  /**
   * Decodes a player reply: header -1, type 0x44, a count byte, then that many
   * records.
   */
  function DecodePlayerResponse(d: seq<byte>, theShip: bool): (r: Result<PlayerInfo, Error>)
    ensures r.Success? ==> |d| >= 6 && HasHeader(d, SimpleHeader) && d[4] == PlayersType && d[5] == r.value.count
    ensures r.Success? ==> |r.value.players| == r.value.count as int
    ensures r.Success? ==> forall p :: p in r.value.players ==> p.ship.Some? == theShip
    ensures |d| >= 4 && !HasHeader(d, SimpleHeader) ==> r == Failure(BadPlayersHeader)
    ensures HasHeader(d, SimpleHeader) && |d| > 4 && d[4] != PlayersType ==> r == Failure(BadPlayersReply)
    ensures |d| >= 6 && |d| < 6 + d[5] * MinPlayerRecord ==> r.Failure?
  {
    if |d| < 4 then Failure(ShortRead)
    else
      HeaderValues(d[..4]);
      var header := ReadInt32(Reader(d, 0)).Extract();
      if header.value != -1 then Failure(BadPlayersHeader)
      else
        var kind :- ReadUint8(header.rest).ToResult(ShortRead);
        if kind.value != PlayersType then Failure(BadPlayersReply)
        else
          var count :- ReadUint8(kind.rest).ToResult(ShortRead);
          var players :- DecodePlayers(count.rest, count.value, theShip).ToResult(ShortRead);
          Success(PlayerInfo(count.value, players.value))
  }

}
