/**
 * The encoders the A2S decoders invert, and the round-trip proofs: bytes laid
 * out in wire order by the builder decode to exactly the values they were
 * laid out from.
 */
module RoundTrip {
  import opened Wrappers
  import opened Packet
  import opened Types
  import opened A2S

  // ---------------------------------------------------------------- info reply

  /** The raw values of an info reply after its header, in wire order. */
  datatype InfoFields = InfoFields(
    kind: byte, skipped: Text,
    name: Text, mapName: Text, folder: Text, game: Text,
    players: byte, maxPlayers: byte, protocol: byte,
    serverType: byte, platform: byte, locked: byte, vac: byte,
    version: Text)

  /** The values of `w` as the fields of InfoLayout. */
  function InfoFieldList(w: InfoFields): (fs: seq<Field>)
    ensures HasKinds(fs, InfoLayout)
  {
    [Uint8Value(w.kind), StringValue(w.skipped),
     StringValue(w.name), StringValue(w.mapName), StringValue(w.folder), StringValue(w.game),
     Uint8Value(w.players), Uint8Value(w.maxPlayers), Uint8Value(w.protocol),
     Uint8Value(w.serverType), Uint8Value(w.platform), Uint8Value(w.locked), Uint8Value(w.vac),
     StringValue(w.version)]
  }

  /** No string of `w` holds a zero byte, so each can be written as a C string. */
  predicate InfoTextsOk(w: InfoFields) {
    NoNul(w.skipped) && NoNul(w.name) && NoNul(w.mapName) && NoNul(w.folder) && NoNul(w.game) && NoNul(w.version)
  }

  /** The bytes of `w` in wire order, followed by `tail`. */
  function InfoWire(w: InfoFields, tail: seq<byte>): seq<byte> {
    FieldsWire(InfoFieldList(w), tail)
  }

  /** The record a decoder is expected to build from the raw values `w`. */
  function InfoOf(w: InfoFields, addr: Address): ServerInfo {
    ServerInfo(
      protocol := w.protocol, name := w.name, mapName := w.mapName, folder := w.folder, game := w.game,
      id := 0, players := w.players, maxPlayers := w.maxPlayers, bots := 0,
      serverType := ParseServerType(w.serverType), platform := ParsePlatform(w.platform),
      locked := w.locked == 0x01, vac := w.vac == 0x01, version := w.version,
      sourceTV := None, address := addr)
  }

  /**
   * Round trip: whatever the header, the discarded byte and the discarded
   * string, and whatever follows, a buffer that holds the fields in wire order
   * decodes to exactly those fields, with Locked and VAC true exactly when
   * their byte is 0x01 and the address taken from the session.
   */
  lemma InfoRoundTrip(header: seq<byte>, w: InfoFields, tail: seq<byte>, addr: Address)
    requires |header| == 4 && InfoTextsOk(w)
    ensures DecodeInfo(header + InfoWire(w, tail), addr) == Success(InfoOf(w, addr))
  {
    var buf := header + InfoWire(w, tail);
    var fs := InfoFieldList(w);
    assert buf[4..] == FieldsWire(fs, tail);
    assert AllWritable(fs);
    ReadFieldsOf(Reader(buf[4..], 0), fs, InfoLayout, tail);
  }

  /** Fields that are all written as one zero byte: zero bytes and empty strings. */
  lemma {:induction false} ZeroFieldsWire(fs: seq<Field>, tail: seq<byte>)
    requires forall i :: 0 <= i < |fs| ==> FieldBytes(fs[i]) == [0]
    ensures FieldsWire(fs, tail) == seq(|fs|, _ => 0) + tail
    decreases |fs|
  {
    if fs != [] {
      ZeroFieldsWire(fs[1..], tail);
      assert seq(|fs|, _ => 0) == [0] + seq(|fs| - 1, _ => 0);
    }
  }

  /** The raw values of a reply whose bytes after the kind byte are all zero. */
  function ZeroInfo(kind: byte): InfoFields {
    InfoFields(kind, [], [], [], [], [], 0, 0, 0, 0, 0, 0, 0, [])
  }

  /** The wire form of ZeroInfo: the kind byte, then thirteen zero bytes. */
  lemma ZeroInfoWire(kind: byte, tail: seq<byte>)
    ensures InfoWire(ZeroInfo(kind), tail) == [kind] + seq(13, _ => 0) + tail
  {
    var fs := InfoFieldList(ZeroInfo(kind));
    ZeroFieldsWire(fs[1..], tail);
    assert FieldsWire(fs, tail) == [kind] + FieldsWire(fs[1..], tail);
  }

  /** Past its fifth byte, the receive buffer of a reply of at most five bytes holds only zeros. */
  lemma ShortReplyBuffer(d: seq<byte>)
    requires |d| <= 5
    ensures ReceiveBuffer(d)[4..] == [ReceiveBuffer(d)[4]] + seq(13, _ => 0) + ReceiveBuffer(d)[18..]
  {
    var buf := ReceiveBuffer(d);
    assert buf[5..18] == seq(13, _ => 0);
    assert buf[4..] == [buf[4]] + buf[5..18] + buf[18..];
  }

  /** So that buffer is a header followed by the wire form of ZeroInfo. */
  lemma ShortReplyWire(d: seq<byte>)
    requires |d| <= 5
    ensures ReceiveBuffer(d) == ReceiveBuffer(d)[..4] + InfoWire(ZeroInfo(ReceiveBuffer(d)[4]), ReceiveBuffer(d)[18..])
  {
    var buf := ReceiveBuffer(d);
    ShortReplyBuffer(d);
    ZeroInfoWire(buf[4], buf[18..]);
    assert buf == buf[..4] + buf[4..];
  }

  /**
   * Because the decoder reads the whole zero-filled buffer and checks neither
   * the header nor the received length, a reply of at most five bytes (even an
   * empty one) decodes successfully to empty strings and zero counts.
   */
  lemma ShortReplyDecodes(d: seq<byte>, addr: Address)
    requires |d| <= 5
    ensures DecodeInfo(ReceiveBuffer(d), addr) == Success(ServerInfo(
      protocol := 0, name := [], mapName := [], folder := [], game := [],
      id := 0, players := 0, maxPlayers := 0, bots := 0,
      serverType := ServerTypeUnknown, platform := "Unknown",
      locked := false, vac := false, version := [],
      sourceTV := None, address := addr))
  {
    var buf := ReceiveBuffer(d);
    ShortReplyWire(d);
    InfoRoundTrip(buf[..4], ZeroInfo(buf[4]), buf[18..], addr);
  }

  // ---------------------------------------------------------------- player reply

  /** The values of the record `p` as the fields of its layout. */
  function PlayerFieldList(p: Player): seq<Field> {
    [Uint8Value(p.id), StringValue(p.name), Uint32Value(p.score), Uint32Value(p.duration)]
    + match p.ship
      case None => []
      case Some(s) => [Uint32Value(s.deaths), Uint32Value(s.money)]
  }

  /** The bytes of one player record, followed by `tail`. */
  function PlayerWire(p: Player, tail: seq<byte>): seq<byte> {
    FieldsWire(PlayerFieldList(p), tail)
  }

  /** The records of `ps` one after another, followed by `tail`. */
  function PlayersWire(ps: seq<Player>, tail: seq<byte>): seq<byte>
    decreases |ps|
  {
    if ps == [] then tail else PlayerWire(ps[0], PlayersWire(ps[1..], tail))
  }

  /** A record the decoder can reproduce: its name has no zero byte and its Ship fields match the session. */
  predicate Encodable(p: Player, theShip: bool) {
    NoNul(p.name) && p.ship.Some? == theShip
  }

  /** The fields of an encodable record follow the layout, can be written, and rebuild the record. */
  lemma PlayerFields(p: Player, theShip: bool)
    requires Encodable(p, theShip)
    ensures HasKinds(PlayerFieldList(p), PlayerLayout(theShip)) && AllWritable(PlayerFieldList(p))
    ensures PlayerRecord(PlayerFieldList(p), theShip) == p
  {
  }

  /** A record written by the builder decodes to itself, and the cursor ends where `tail` begins. */
  lemma PlayerRoundTrip(rd: Reader, p: Player, theShip: bool, tail: seq<byte>)
    requires Encodable(p, theShip)
    requires rd.pos <= |rd.data| && rd.data[rd.pos..] == PlayerWire(p, tail)
    ensures |tail| <= |rd.data| && rd.data[|rd.data| - |tail|..] == tail
    ensures DecodePlayer(rd, theShip) == Some(Read(p, Reader(rd.data, |rd.data| - |tail|)))
  {
    PlayerFields(p, theShip);
    ReadFieldsOf(rd, PlayerFieldList(p), PlayerLayout(theShip), tail);
  }

  /** Decoding record after record from `rd` gives back `ps`, in order, and stops at `last`. */
  predicate ReadsPlayers(rd: Reader, ps: seq<Player>, theShip: bool, last: Reader)
    decreases |ps|
  {
    if ps == [] then rd == last
    else
      var r := DecodePlayer(rd, theShip);
      r.Some? && r.value.value == ps[0] && ReadsPlayers(r.value.rest, ps[1..], theShip, last)
  }

  /** Records written one after another by the builder read back one after another. */
  lemma {:induction false} PlayersWireReads(rd: Reader, ps: seq<Player>, theShip: bool, tail: seq<byte>)
    requires forall p :: p in ps ==> Encodable(p, theShip)
    requires rd.pos <= |rd.data| && rd.data[rd.pos..] == PlayersWire(ps, tail)
    ensures |tail| <= |rd.data|
    ensures ReadsPlayers(rd, ps, theShip, Reader(rd.data, |rd.data| - |tail|))
    decreases |ps|
  {
    if ps != [] {
      var more := PlayersWire(ps[1..], tail);
      PlayerRoundTrip(rd, ps[0], theShip, more);
      PlayersWireReads(Reader(rd.data, |rd.data| - |more|), ps[1..], theShip, tail);
    }
  }

  /** Decoding records one at a time: the first record, then the remaining ones. */
  lemma DecodePlayersCons(rd: Reader, theShip: bool, p: Player, ps: seq<Player>, next: Reader, last: Reader)
    requires DecodePlayer(rd, theShip) == Some(Read(p, next))
    requires DecodePlayers(next, |ps|, theShip) == Some(Read(ps, last))
    ensures DecodePlayers(rd, |[p] + ps|, theShip) == Some(Read([p] + ps, last))
  {
  }

  /** Records that read back one after another are what DecodePlayers returns for their count. */
  lemma {:induction false} ReadsPlayersDecode(rd: Reader, ps: seq<Player>, theShip: bool, last: Reader)
    requires ReadsPlayers(rd, ps, theShip, last)
    ensures DecodePlayers(rd, |ps|, theShip) == Some(Read(ps, last))
    decreases |ps|
  {
    if ps != [] {
      var next := DecodePlayer(rd, theShip).value.rest;
      ReadsPlayersDecode(next, ps[1..], theShip, last);
      assert [ps[0]] + ps[1..] == ps;
      DecodePlayersCons(rd, theShip, ps[0], ps[1..], next, last);
    }
  }

  /** Round trip for a sequence of records: decoding |ps| records gives back ps, in order. */
  lemma PlayersRoundTrip(rd: Reader, ps: seq<Player>, theShip: bool, tail: seq<byte>)
    requires forall p :: p in ps ==> Encodable(p, theShip)
    requires rd.pos <= |rd.data| && rd.data[rd.pos..] == PlayersWire(ps, tail)
    ensures |tail| <= |rd.data|
    ensures DecodePlayers(rd, |ps|, theShip) == Some(Read(ps, Reader(rd.data, |rd.data| - |tail|)))
  {
    PlayersWireReads(rd, ps, theShip, tail);
    ReadsPlayersDecode(rd, ps, theShip, Reader(rd.data, |rd.data| - |tail|));
  }

  /** Round trip for a whole player reply. */
  lemma PlayerResponseRoundTrip(ps: seq<Player>, theShip: bool, tail: seq<byte>)
    requires |ps| < 0x100
    requires forall p :: p in ps ==> Encodable(p, theShip)
    ensures DecodePlayerResponse(SimpleHeader + [PlayersType, |ps|] + PlayersWire(ps, tail), theShip)
            == Success(PlayerInfo(|ps|, ps))
  {
    var d := SimpleHeader + [PlayersType, |ps|] + PlayersWire(ps, tail);
    assert d[..4] == SimpleHeader;
    assert d[4] == PlayersType && d[5] == |ps|;
    var rd := Reader(d, 6);
    assert d[6..] == PlayersWire(ps, tail);
    PlayersRoundTrip(rd, ps, theShip, tail);
  }
}
