/**
 * The querier: one session with one server, and the three queries it runs
 * over its connection. The connection itself is not modelled; each query
 * takes what the socket delivered as a parameter, `None` when the write or
 * the read failed, and returns the datagrams it sent.
 */
module Session {
  import opened Wrappers
  import opened Packet
  import opened Types
  import opened A2S

  /** `ps` in front of the records a decode produced; a failed decode stays failed. */
  ghost function Prepend(ps: seq<Player>, r: Option<Read<seq<Player>>>): Option<Read<seq<Player>>> {
    if r.None? then None else Some(Read(ps + r.value.value, r.value.rest))
  }

  /** One record decoded at the front moves from the pending decode to the prefix. */
  lemma PrependStep(ps: seq<Player>, rd: Reader, n: nat, theShip: bool, ps': seq<Player>, rd': Reader)
    requires n > 0 && DecodePlayer(rd, theShip).Some?
    requires ps' == ps + [DecodePlayer(rd, theShip).value.value] && rd' == DecodePlayer(rd, theShip).value.rest
    ensures Prepend(ps, DecodePlayers(rd, n, theShip)) == Prepend(ps', DecodePlayers(rd', n - 1, theShip))
  {
    var rest := DecodePlayers(rd', n - 1, theShip);
    if rest.Some? {
      assert ps + ([DecodePlayer(rd, theShip).value.value] + rest.value.value) == ps' + rest.value.value;
    }
  }

  lemma PrependNil(r: Option<Read<seq<Player>>>)
    ensures Prepend([], r) == r
  {
    if r.Some? {
      assert [] + r.value.value == r.value.value;
    }
  }

  /**
   * The record loop of the player reply: `n` records read one after another
   * from `rd`, stopping at the first that does not fit.
   */
  method ReadPlayers(rd: Reader, n: nat, theShip: bool) returns (r: Option<Read<seq<Player>>>)
    ensures r == DecodePlayers(rd, n, theShip)
  {
    var next := rd;
    var players: seq<Player> := [];
    var left := n;
    PrependNil(DecodePlayers(rd, n, theShip));
    while left > 0
      invariant DecodePlayers(rd, n, theShip) == Prepend(players, DecodePlayers(next, left, theShip))
    {
      var player := DecodePlayer(next, theShip);
      if player.None? {
        return None;
      }
      ghost var done, at := players, next;
      players := players + [player.value.value];
      next := player.value.rest;
      PrependStep(done, at, left, theShip, players, next);
      left := left - 1;
    }
    assert players + [] == players;
    return Some(Read(players, next));
  }

  class Querier {
    /** The server this querier talks to. */
    const addr: Address
    /** The application ID of the game; 2400 (The Ship) lengthens player records. */
    const ver: int32

    constructor(addr: Address, ver: int32)
      ensures this.addr == addr && this.ver == ver
    {
      this.addr := addr;
      this.ver := ver;
    }

    function GetAddress(): (a: Address)
      ensures a == addr
    {
      addr
    }

    /** Whether player records carry The Ship's two extra fields. */
    predicate TheShip() {
      ver == TheShipAppId
    }

    /**
     * Sends the challenge request and classifies the reply: a split header,
     * or header -1 with type 0x44, is the whole answer already; header -1
     * with type 0x41 carries the 4-byte token after the type byte; anything
     * else is refused.
     */
    method GetChallengeCode(received: Option<seq<byte>>) returns (request: seq<byte>, r: Result<ChallengeReply, Error>)
      ensures request == ChallengeRequest()
      ensures received.None? ==> r == Failure(Transport)
      ensures received.Some? && IsFullReply(Delivered(received.value))
        ==> r == Success(ChallengeReply(Delivered(received.value), true))
      ensures received.Some? && IsChallengeToken(Delivered(received.value))
        ==> r == Success(ChallengeReply(Delivered(received.value)[5..9], false))
      ensures received.Some? && !IsFullReply(Delivered(received.value)) && !IsChallengeToken(Delivered(received.value))
        ==> r == Failure(ChallengeFailure(Delivered(received.value)))
    {
      request := WriteBytes([], SimpleHeader + [PlayerQuery] + SimpleHeader);
      if received.None? {
        return request, Failure(Transport);
      }
      var data := Delivered(received.value);
      var header := ReadInt32(Reader(data, 0));
      if header.None? {
        return request, Failure(ShortRead);
      }
      HeaderValues(data[..4]);
      if header.value.value == -2 {
        return request, Success(ChallengeReply(data, true));
      } else if header.value.value != -1 {
        return request, Failure(BadPacketHeader);
      }
      var kind := ReadUint8(header.value.rest);
      if kind.None? {
        return request, Failure(ShortRead);
      }
      var pos := kind.value.rest.pos;
      if kind.value.value == ChallengeType {
        if pos + 4 > |data| {
          return request, Failure(ShortRead);
        }
        return request, Success(ChallengeReply(data[pos..pos + 4], false));
      } else if kind.value.value == PlayersType {
        return request, Success(ChallengeReply(data, true));
      }
      return request, Failure(BadChallengeResponse);
    }

    /**
     * Sends the info request and decodes whatever the receive buffer holds
     * afterwards, from the fifth byte on; the reply's header is never checked.
     */
    method GetInfo(received: Option<seq<byte>>) returns (request: seq<byte>, r: Result<ServerInfo, Error>)
      ensures request == InfoRequest()
      ensures received.None? ==> r == Failure(Transport)
      ensures received.Some? ==> r == DecodeInfo(ReceiveBuffer(received.value), addr)
      ensures r.Success? ==> r.value.address == addr
    {
      request := WriteCString(WriteBytes([], SimpleHeader + [InfoQuery]), Ascii("Source Engine Query"));
      if received.None? {
        return request, Failure(Transport);
      }
      var buf := ReceiveBuffer(received.value);
      r := DecodeInfo(buf, addr);
    }

    /**
     * Reads a player reply: header -1, type 0x44, the count, then one record
     * per count, each with the Ship fields when this querier's game is The Ship.
     */
    method ParsePlayerInfo(data: seq<byte>) returns (r: Result<PlayerInfo, Error>)
      ensures r == DecodePlayerResponse(data, TheShip())
    {
      var theShip := TheShip();
      if |data| < 4 {
        return Failure(ShortRead);
      }
      HeaderValues(data[..4]);
      var header := ReadInt32(Reader(data, 0)).Extract();
      if header.value != -1 {
        return Failure(BadPlayersHeader);
      }
      var kind := ReadUint8(header.rest);
      if kind.None? {
        return Failure(ShortRead);
      }
      if kind.value.value != PlayersType {
        return Failure(BadPlayersReply);
      }
      var count := ReadUint8(kind.value.rest);
      if count.None? {
        return Failure(ShortRead);
      }
      var players := ReadPlayers(count.value.rest, count.value.value as nat, theShip);
      if players.None? {
        return Failure(ShortRead);
      }
      return Success(PlayerInfo(count.value.value, players.value.value));
    }

    /**
     * Runs the challenge exchange; on a token, sends the player request that
     * echoes it and takes the next datagram as the reply. The reply is then
     * dispatched on its header.
     */
    method GetPlayerInfo(challenge: Option<seq<byte>>, response: Option<seq<byte>>)
      returns (sent: seq<seq<byte>>, r: Result<PlayerInfo, Error>)
      ensures challenge.None? ==> sent == [ChallengeRequest()] && r == Failure(Transport)
      ensures challenge.Some? && IsFullReply(Delivered(challenge.value))
        ==> sent == [ChallengeRequest()] && r == PlayerReply(Delivered(challenge.value), TheShip())
      ensures challenge.Some? && IsChallengeToken(Delivered(challenge.value))
        ==> sent == [ChallengeRequest(), PlayerRequest(Delivered(challenge.value)[5..9])]
            && r == (if response.None? then Failure(Transport) else PlayerReply(Delivered(response.value), TheShip()))
      ensures challenge.Some? && !IsFullReply(Delivered(challenge.value)) && !IsChallengeToken(Delivered(challenge.value))
        ==> sent == [ChallengeRequest()] && r == Failure(ChallengeFailure(Delivered(challenge.value)))
    {
      var request, reply := GetChallengeCode(challenge);
      sent := [request];
      if reply.Failure? {
        return sent, Failure(reply.error);
      }
      var data := reply.value.data;
      if !reply.value.fullReply {
        sent := sent + [SimpleHeader + [PlayerQuery, data[0], data[1], data[2], data[3]]];
        if response.None? {
          return sent, Failure(Transport);
        }
        data := Delivered(response.value);
      }
      if |data| < 4 {
        return sent, Failure(ShortRead);
      }
      HeaderValues(data[..4]);
      var header := ToInt32(LeUint32(data[..4]));
      if header == -1 {
        r := ParsePlayerInfo(data);
      } else if header == -2 {
        r := Failure(MultiplePacketResponse);
      } else {
        r := Failure(FailedToGetPlayerInfo);
      }
    }
  }
}
