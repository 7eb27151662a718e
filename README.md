# A2S query client, modelled in Dafny

This project models the client side of Valve's Source Engine server queries
as implemented by the Go package `source` of iluckin/valve. The queries are
A2S_INFO and A2S_PLAYER, plus the challenge handshake that precedes
A2S_PLAYER. The model covers:

- the request datagrams the querier sends;
- how it classifies a challenge reply as a token, a full reply or an error;
- how it decodes an info reply and a player reply;
- the byte tables for server type and platform;
- the `ServerType` enumeration and its names.

The project has six modules:

- `Wrappers` holds `Option` and `Result`.
- `Packet` is a byte cursor. It reads unsigned bytes, little-endian 32-bit
  integers and NUL-terminated strings, and every read fails explicitly when
  the bytes run out. It writes the same values back. It can describe a record
  as a layout of field kinds and read or write that layout.
- `Types` holds the receive-buffer size, the enumeration and the records of
  `types.go`.
- `A2S` holds:
  - the request layouts;
  - the header conventions (-1 for a single datagram, -2 for a split reply);
  - the info and player decoders, as functions over bytes.
- `Session` holds the class `Querier`. It has the session's address and
  application ID, and one method per query:
  - Each method takes the datagram the socket delivered, or `None` when the
    write or read failed.
  - Each method returns the datagrams it sent together with its result.
  - `ReadPlayers` is the record loop of the player reply, a `while` loop
    proved equal to the decoder `A2S.DecodePlayers`.
- `RoundTrip` encodes info fields and player records in wire order. It proves
  that the decoders recover exactly what was encoded.

Two names are declared twice in the Go sources. The model uses the spelling
of `types.go` for both:

- `ServerTypeDedicated`, not `ServerType_Dedicated`;
- the player field `ship` of type `ShipPlayer`, not `TheShip` of type
  `TheShipPlayer`.

The info reply is decoded as the code reads it, which differs from the
documented A2S_INFO layout:

- The reader starts after the four header bytes.
- It reads and discards one byte and one string.
- It then reads Name, Map, Folder, Game, Players, MaxPlayers, Protocol, the
  server type, the platform, Locked, VAC and Version.
- It reads from the whole 1400-byte receive buffer, with zeros after the
  received bytes. Because of this, a reply of five bytes or fewer, even an
  empty one, decodes successfully (`RoundTrip.ShortReplyDecodes`).

## Model

| member | source | states |
|---|---|---|
| Types.ServerTypeValues | source/types.go:7-13 | iota starts on the DefaultMaxPacketSize line, so Unknown=1, Dedicated=2, NonDedicated=3, SourceTV=4, and the four are distinct |
| Types.ServerTypeName | source/types.go:68-79 | "Dedicated", "Non-Dedicated" and "SourceTV" each name exactly their constant; "Unknown" is exactly every other value, Unknown itself and out-of-range values included |
| Packet.HeaderValues | source/a2s.go:56-62 | the little-endian int32 header is -1 exactly for FF FF FF FF and -2 exactly for FE FF FF FF |
| Packet.ReadStringSpec | source/a2s.go:208 | reading a NUL-terminated string (the player name, and each string of the info reply) fails exactly when no zero byte follows the cursor, and a string read never contains a zero byte |
| Packet.ReadWrittenString | source/a2s.go:208 | a string written with its terminator reads back exactly, whatever precedes or follows it, and the cursor stops just past the terminator |
| A2S.ChallengeRequest | source/a2s.go:38-40 | the challenge request is the 9 bytes FF FF FF FF 55 FF FF FF FF |
| A2S.InfoRequest | source/a2s.go:76-82 | the info request is the 25 bytes FF FF FF FF 54, the ASCII of "Source Engine Query", and a terminating 00 |
| A2S.PlayerRequest | source/a2s.go:165 | the follow-up player request is FF FF FF FF 55 followed by the four token bytes in order |
| A2S.ChallengeFailure | source/a2s.go:56-71 | a header other than -1/-2 is "bad packet header"; header -1 with a type byte other than 0x41/0x44 is "bad challenge response"; a short read is reported only when the bytes run out before the header, the type byte or the token |
| A2S.ParseServerType | source/a2s.go:116-127 | 'd', 'l' and 'p' map to Dedicated, NonDedicated and SourceTV, each exactly; every other byte maps to Unknown |
| A2S.ParsePlatform | source/a2s.go:129-138 | 'l' is exactly "Linux", 'w' exactly "Windows", every other byte "Unknown" |
| A2S.ParsedServerTypeName | source/a2s.go:116-127 | the name of a decoded server-type byte is "Dedicated", "Non-Dedicated" or "SourceTV" exactly for 'd', 'l' and 'p', and "Unknown" for every other byte |
| A2S.Delivered | source/a2s.go:46-53 | a read into the 1400-byte buffer delivers a prefix of the datagram: all of it, or its first 1400 bytes |
| A2S.ReceiveBuffer | source/a2s.go:89-93 | the info buffer is always 1400 bytes: the delivered bytes, then zeros |
| A2S.DecodeInfo | source/a2s.go:95-111 | a decoded record always carries the session's address and zero ID/Bots/no SourceTV; the only failure is running out of bytes |
| A2S.PlayerReply | source/a2s.go:179-187 | dispatch on the player reply's header: -1 is decoded, -2 is always "Multiple packet response." and never a list, anything else "Failed to get player info."; fewer than four bytes is a short read instead of Go's panic |
| A2S.PlayerLayout | source/a2s.go:207-217 | a player record takes at least 18 bytes with The Ship's fields and at least 10 without |
| A2S.DecodePlayer | source/a2s.go:205-219 | a decoded record has the Ship extension exactly when asked for, and the cursor advances by at least 10 bytes within the datagram |
| A2S.DecodePlayers | source/a2s.go:204-220 | decoding n records yields exactly n, each with the Ship extension exactly when asked for, consuming at least 10 bytes each |
| A2S.DecodePlayerResponse | source/a2s.go:190-222 | success needs header -1, type 0x44 and the count byte; the list length equals the count; a header other than -1 is "bad packet header", a type other than 0x44 "bad players reply"; a datagram too short for count records fails |
| RoundTrip.InfoRoundTrip | source/a2s.go:95-111 | any buffer holding a header, a skipped byte and string, and the info fields in wire order decodes to exactly those fields, with the flags decided by 0x01 and the session's address |
| RoundTrip.ShortReplyDecodes | source/a2s.go:89-111 | a reply of at most 5 bytes decodes successfully to empty strings, zero counts, Unknown server type, "Unknown" platform and both flags false |
| RoundTrip.PlayerRoundTrip | source/a2s.go:205-219 | one record written in wire order (ID, NUL-terminated name, LE score, duration, and the Ship fields when present) decodes to itself, leaving the cursor where the following bytes begin |
| RoundTrip.PlayersRoundTrip | source/a2s.go:204-220 | records written one after another decode in the same order and to the same values |
| RoundTrip.PlayerResponseRoundTrip | source/a2s.go:190-222 | a player reply FF FF FF FF 44, count, records decodes to exactly that count and those records in wire order |
| Session.ReadPlayers | source/a2s.go:204-220 | the record loop, advancing the cursor once per record, computes exactly DecodePlayers |
| Session.Querier.constructor | source/types.go:20-24 | a querier holds its server address and application ID |
| Session.Querier.GetAddress | source/a2s.go:34 | the address the querier was made with |
| Session.Querier.GetChallengeCode | source/a2s.go:37-72 | sends the challenge request; a -2 header, or -1 with 0x44, returns the datagram unchanged with the full-reply flag; -1 with 0x41 returns exactly bytes 5..8 without the flag; anything else the ChallengeFailure error; a failed exchange is a transport error |
| Session.Querier.GetInfo | source/a2s.go:75-114 | sends the info request and decodes the zero-padded 1400-byte receive buffer; the record's address is always the session's |
| Session.Querier.ParsePlayerInfo | source/a2s.go:190-223 | the imperative parse computes exactly DecodePlayerResponse, with the Ship fields read exactly when the application ID is 2400 |
| Session.Querier.GetPlayerInfo | source/a2s.go:158-188 | a full challenge reply is dispatched as the player reply itself; a token is answered by exactly the player request echoing it, and the next datagram is dispatched by PlayerReply; a refused challenge returns its error and sends nothing more |

## Left out

- Socket I/O: dialing, timeouts, writes and reads are not modelled. Each query takes the datagram the socket delivered as an `Option`, and `None` stands for any write or read error (`Transport`). The model does not separate a failed write from a failed read.
- `NewQuerier` (source/a2s.go:14-32) is not modelled. It parses an IP and a port with library calls and dials the network. The constructor takes the address directly.
- `Querier.ver` is never assigned by `NewQuerier`, so in the Go code it is always 0. Here it is a constructor parameter, so that the path for The Ship (application ID 2400) can be reached.
- `Close` is not modelled: it only closes the socket.
- `main.go` is not part of this model.
- Duration is a float32 on the wire. The model keeps its 32-bit little-endian bit pattern and does not interpret it as an IEEE-754 value.
- The `utils/packet` cursor library is not part of this model. `Packet` is a small cursor of its own that fails explicitly on short data, and its contracts are not claims about that library. In particular, the model cannot say what the Go reader does when it runs past its data.
- A datagram longer than the 1400-byte receive buffer is modelled as cut to its first 1400 bytes (`A2S.Delivered`), as a UDP read does on Linux. On Windows Go's read returns an error for such a datagram instead, and the model does not capture that.
- Go's panics are modelled as the explicit `ShortRead` error. Two places panic on a short datagram: the token slice `data[pos:pos+4]` and `binary.LittleEndian.Uint32(data)`.
- The SourceTV details, the application ID and the bot count of `ServerInfo` are declared but never decoded. They stay zero or absent.
- Reassembly of split (header -2) replies is not implemented by the source. Only its error path is modelled.
- Session.Querier.GetInfo does not model the sequence of cursor reads as separate statements. It delegates the whole field sequence to `A2S.DecodeInfo`, whose reads are the same layout in order.
