// From the router's member table to the worker's list of peers: print, serialize, send, decode, parse.

module JoinResponse {
  import opened AddressText
  import opened Bytes
  import opened Common
  import opened Nodes
  import opened Selection
  import Membership
  import Gossip
  import GossipCodec
  import Bootstrap

  /** What a worker learns about one router. */
  datatype Peer = Peer(id: Port, gossipIp: seq<Byte>, gossipPort: Port, dataIp: seq<Byte>, dataPort: Port)

  function Entry(m: Membership.Member): Bootstrap.Router {
    Bootstrap.Router(m.id, Printed(m.ip, m.gossipPort), Printed(m.ip, m.dataPort))
  }

  function Listed(ms: seq<Membership.Member>): (rs: seq<Bootstrap.Router>)
    ensures |rs| == |ms|
  {
    seq(|ms|, i requires 0 <= i < |ms| => Entry(ms[i]))
  }

  function PeerOf(r: Bootstrap.Router): Peer {
    var (gossipIp, gossipPort) := Parsed(r.gossip);
    var (dataIp, dataPort) := Parsed(r.data);
    Peer(r.id, gossipIp, gossipPort, dataIp, dataPort)
  }

  function Peers(rs: seq<Bootstrap.Router>): (ps: seq<Peer>)
    ensures |ps| == |rs|
  {
    seq(|rs|, i requires 0 <= i < |rs| => PeerOf(rs[i]))
  }

  /** What the worker ought to learn about a member. */
  function Known(m: Membership.Member): Peer {
    Peer(m.id, m.ip, m.gossipPort, m.ip, m.dataPort)
  }

  /** An address that survives printing and parsing: a short C string without a colon. */
  ghost predicate Plain(ms: seq<Membership.Member>) {
    forall i | 0 <= i < |ms| :: GossipCodec.Address(ms[i].ip) && COLON !in ms[i].ip
  }

  lemma PrintedIsText(ip: seq<Byte>, port: Port)
    requires GossipCodec.Address(ip)
    ensures Bootstrap.Text(Printed(ip, port))
  {
    PortDigits(port);
    assert forall i | 0 <= i < |Decimal(port)| :: Digit(Decimal(port)[i]);
  }

  /** The whole pipeline through a buffer of any positive size gives back the first routers, as many
      as whole 130-byte records fit behind the count, with ids, addresses and ports intact. */
  lemma Pipeline(ms: seq<Membership.Member>, size: nat)
    requires |ms| <= Gossip.MAX_CONFIG_ROUTERS && Plain(ms) && size >= 1
    ensures var k := if |ms| < (size - 1) / 130 then |ms| else (size - 1) / 130;
            var ps := Peers(Bootstrap.Decode(Bootstrap.Response(Listed(ms), size)));
            |ps| == k && forall i | 0 <= i < k :: ps[i] == Known(ms[i])
  {
    hide Printed, Parsed, Bootstrap.Text, Bootstrap.Response, Bootstrap.Decode;
    var rs := Listed(ms);
    forall i | 0 <= i < |ms|
      ensures Bootstrap.Text(rs[i].gossip) && Bootstrap.Text(rs[i].data)
      ensures PeerOf(rs[i]) == Known(ms[i])
    {
      PrintedIsText(ms[i].ip, ms[i].gossipPort);
      PrintedIsText(ms[i].ip, ms[i].dataPort);
      ParsedOfPrintedIff(ms[i].ip, ms[i].gossipPort);
      ParsedOfPrintedIff(ms[i].ip, ms[i].dataPort);
    }
    Bootstrap.ResponseDecodes(rs, size);
  }

  /** The datagram that answers a WORKER_JOIN: a message without updates, then the router list. */
  function Reply(sender: NodeId, sequenceNum: nat): Gossip.Message {
    Gossip.Message(1, Gossip.MSG_JOIN_RESPONSE, 0, sender, sequenceNum, [])
  }

  function ReplyDatagram(sender: NodeId, sequenceNum: nat, v: seq<Membership.Member>): seq<Byte> {
    var head := GossipCodec.Datagram(Reply(sender, sequenceNum), GossipCodec.MAX_PAYLOAD);
    head + Bootstrap.Response(Listed(Gossip.Routers(v)), GossipCodec.MAX_PAYLOAD - |head|)
  }

  lemma ReplyParts(sender: NodeId, sequenceNum: nat, v: seq<Membership.Member>)
    requires sequenceNum < TWO_TO_THE_64
    ensures var b := ReplyDatagram(sender, sequenceNum, v);
            && |b| > 16
            && GossipCodec.Decode(b) == Some(Reply(sender, sequenceNum))
            && b[16..] == Bootstrap.Response(Listed(Gossip.Routers(v)), 1384)
  {
    hide GossipCodec.EncodeHeader, Bootstrap.Response, Gossip.Routers;
    var m, b := Reply(sender, sequenceNum), ReplyDatagram(sender, sequenceNum, v);
    assert GossipCodec.EncodeUpdates([]) == [];
    assert b[..16] == GossipCodec.EncodeHeader(m);
    GossipCodec.HeaderRead(b, m);
    assert b[16..] == Bootstrap.Response(Listed(Gossip.Routers(v)), 1384);
  }

  /** These peers are the ALIVE routers of the table in table order, each one that has fewer than `limit` before it. */
  ghost predicate Tells(ps: seq<Peer>, v: seq<Membership.Member>, limit: nat) {
    var n := Rank(v, AliveRouter, |v|);
    && |ps| == (if n < limit then n else limit)
    && (forall i | 0 <= i < |v| && AliveRouter(v[i]) && Rank(v, AliveRouter, i) < limit ::
          Rank(v, AliveRouter, i) < |ps| && ps[Rank(v, AliveRouter, i)] == Known(v[i]))
    && (forall j | 0 <= j < |ps| :: exists i :: 0 <= i < |v| && AliveRouter(v[i]) && ps[j] == Known(v[i]))
  }

  lemma PeersTell(ps: seq<Peer>, ms: seq<Membership.Member>, v: seq<Membership.Member>, limit: nat)
    requires limit <= Gossip.MAX_CONFIG_ROUTERS && Picks(ms, v, AliveRouter, Gossip.MAX_CONFIG_ROUTERS)
    requires |ps| == (if |ms| < limit then |ms| else limit) && forall j | 0 <= j < |ps| :: ps[j] == Known(ms[j])
    ensures Tells(ps, v, limit)
  {
    hide Rank;
    forall i | 0 <= i < |v| && AliveRouter(v[i]) && Rank(v, AliveRouter, i) < limit
      ensures Rank(v, AliveRouter, i) < |ps| && ps[Rank(v, AliveRouter, i)] == Known(v[i])
    {
      assert ms[Rank(v, AliveRouter, i)] == v[i];
    }
    forall j | 0 <= j < |ps|
      ensures exists i :: 0 <= i < |v| && AliveRouter(v[i]) && ps[j] == Known(v[i])
    {
      var i := MemberAtRank(v, AliveRouter, |v|, j);
      assert ms[j] == v[i];
    }
    assert |ps| == (if Rank(v, AliveRouter, |v|) < limit then Rank(v, AliveRouter, |v|) else limit);
    assert forall j | 0 <= j < |ps| :: exists i :: 0 <= i < |v| && AliveRouter(v[i]) && ps[j] == Known(v[i]);
    assert forall i | 0 <= i < |v| && AliveRouter(v[i]) && Rank(v, AliveRouter, i) < limit ::
          Rank(v, AliveRouter, i) < |ps| && ps[Rank(v, AliveRouter, i)] == Known(v[i]);
  }

  lemma RoutersPlain(v: seq<Membership.Member>)
    requires Plain(v)
    ensures Plain(Gossip.Routers(v))
  {
    hide Gossip.Routers, Rank;
    var ms := Gossip.Routers(v);
    RoutersPicked(v);
    PickedOnce(ms, ms, v, AliveRouter, Gossip.MAX_CONFIG_ROUTERS);
    forall i | 0 <= i < |ms|
      ensures GossipCodec.Address(ms[i].ip) && COLON !in ms[i].ip
    {
      assert ms[i] in v;
    }
  }

  /** The reply decodes as the message the worker waits for. Its peers are the ALIVE routers of the table in
      table order, each one that has fewer than ten before it: the payload has room for ten, so of up to
      sixteen listed the last six never arrive. */
  lemma ReplyArrives(sender: NodeId, sequenceNum: nat, v: seq<Membership.Member>)
    requires sequenceNum < TWO_TO_THE_64 && Plain(v)
    ensures var b := ReplyDatagram(sender, sequenceNum, v);
            && |b| > 16
            && GossipCodec.Decode(b) == Some(Reply(sender, sequenceNum))
            && Tells(Peers(Bootstrap.Decode(b[16..])), v, 10)
  {
    hide Bootstrap.Response, Bootstrap.Decode, ReplyDatagram, Gossip.Routers, GossipCodec.Decode, Plain, Picks, Tells;
    var ms := Gossip.Routers(v);
    RoutersPlain(v);
    RoutersPicked(v);
    ReplyParts(sender, sequenceNum, v);
    Pipeline(ms, 1384);
    PeersTell(Peers(Bootstrap.Decode(ReplyDatagram(sender, sequenceNum, v)[16..])), ms, v, 10);
  }
}
