/**
 * The protocol data model: the receive-buffer size, the server-type
 * enumeration and its names, and the records a query produces.
 *
 * The Go sources declare some of these twice under different spellings. This
 * model keeps the spelling of types.go throughout: `ServerTypeDedicated` (not
 * `ServerType_Dedicated`) and the player field `ship` of type `ShipPlayer`
 * (not `TheShip` of type `TheShipPlayer`).
 */
module Types {
  import opened Wrappers
  import opened Packet

  /** The length of every receive buffer. */
  const DefaultMaxPacketSize: nat := 1400

  /** Go's `type ServerType int`: any integer, of which four are named. */
  newtype ServerType = int

  /*
   * The named values come from `iota` in a constant block whose first line is
   * DefaultMaxPacketSize (iota 0), so the enumeration starts at 1.
   */
  const ServerTypeUnknown: ServerType := 1
  const ServerTypeDedicated: ServerType := 2
  const ServerTypeNonDedicated: ServerType := 3
  const ServerTypeSourceTV: ServerType := 4

  /** The iota values of the enumeration, and that no two of them coincide. */
  lemma ServerTypeValues()
    ensures ServerTypeUnknown as int == 1 && ServerTypeDedicated as int == 2
    ensures ServerTypeNonDedicated as int == 3 && ServerTypeSourceTV as int == 4
    ensures |{ServerTypeUnknown, ServerTypeDedicated, ServerTypeNonDedicated, ServerTypeSourceTV}| == 4
  {
  }

  predicate IsNamedServerType(t: ServerType) {
    t == ServerTypeDedicated || t == ServerTypeNonDedicated || t == ServerTypeSourceTV
  }

  /** `ServerType.String`: each named kind has its own name, everything else is "Unknown". */
  function ServerTypeName(t: ServerType): (name: string)
    ensures name == "Dedicated" <==> t == ServerTypeDedicated
    ensures name == "Non-Dedicated" <==> t == ServerTypeNonDedicated
    ensures name == "SourceTV" <==> t == ServerTypeSourceTV
    ensures name == "Unknown" <==> !IsNamedServerType(t)
  {
    if t == ServerTypeDedicated then "Dedicated"
    else if t == ServerTypeNonDedicated then "Non-Dedicated"
    else if t == ServerTypeSourceTV then "SourceTV"
    else "Unknown"
  }

  /** The queried server. */
  datatype Address = Address(host: string, port: uint32)

  /** SourceTV spectator details; declared, but never decoded. */
  datatype SourceTVInfo = SourceTVInfo(port: uint16, name: Text)

  datatype ServerInfo = ServerInfo(
    protocol: byte,
    name: Text,
    mapName: Text,
    folder: Text,
    game: Text,
    id: uint16,
    players: byte,
    maxPlayers: byte,
    bots: byte,
    serverType: ServerType,
    platform: string,
    locked: bool,
    vac: bool,
    version: Text,
    sourceTV: Option<SourceTVInfo>,
    address: Address)

  /** The Ship's extra per-player fields. */
  datatype ShipPlayer = ShipPlayer(deaths: uint32, money: uint32)

  /**
   * One player record. `duration` is a 32-bit float on the wire; the model
   * keeps its raw little-endian bit pattern.
   */
  datatype Player = Player(id: byte, name: Text, score: uint32, duration: uint32, ship: Option<ShipPlayer>)

  datatype PlayerInfo = PlayerInfo(count: byte, players: seq<Player>)
}
