/**
 With the cipher of tests/fake_scooter.py, runs that end with a session that is up and proven: under
 its key, so that what is proved about such sessions is about something, and without it.
 */
module Witness {
  import opened Wrappers
  import opened Bytes
  import opened Errors
  import opened Protocol
  import opened Crypto
  import opened Framing
  import opened Receiver
  import opened Registers
  import opened RegisterRead
  import opened Polling
  import opened Session
  import opened Links
  import opened Runs
  import opened Service
  import opened Client
  import opened Coordinator

  function Zeros(n: nat): (z: Bytes)
    ensures |z| == n
  {
    if n == 0 then [] else [0] + Zeros(n - 1)
  }

  function Pauses(n: nat): (z: seq<nat>)
    ensures |z| == n
  {
    if n == 0 then [] else [0] + Pauses(n - 1)
  }

  /** The reply as the stub sends it. */
  function Sealed(reply: Packet): Bytes
    requires reply.OnWire()
  {
    Stub().encrypt([], reply.Pack().value)
  }

  function AtOnce(s: Setup, w: World, request: Packet, reply: Packet): Service
    requires request.Pack().Success? && reply.OnWire()
  {
    Service(Pauses(ChunkCount(|s.cipher.encrypt(w.rx.crypto, request.Pack().value)|, w.chunkSize)), [],
            Sealed(reply), reply, [])
  }

  /** A stub's client with the link up and nothing left over. */
  ghost predicate Ready(s: Setup, w: World) {
    s.cipher == Stub() && s.requestTimeout > 0 && w.IsUp() && w.rx.queue == [] && w.rx.buffer == []
  }

  lemma AtOnceServes(s: Setup, w: World, request: Packet, reply: Packet)
    requires Ready(s, w) && request.Pack().Success? && reply.OnWire() && reply.MatchesRequest(request)
    ensures Serves(s, w, request, AtOnce(s, w, request, reply))
    ensures Ready(s, Served(s, w, request, AtOnce(s, w, request, reply)))
  {
    var rx := Asked(w, request).rx;
    assert rx.(queue := []) == rx;
    var data := Sealed(reply);
    StubIsLawful();
    assert Concat([data]) == data;
    SentIsReceived(Stub(), [], rx, reply, [data]);
    assert NotifiedAll(Stub(), rx, [data]) == Notified(Stub(), rx, data);
  }

  /** A register that one bulk request can ask for and one reply can answer. */
  predicate Readable(reg: Register) {
    reg.length <= 255 && reg.index < 256
  }

  function ReadReply(reg: Register): Packet {
    Packet(reg.board, HOST, READ_ACK, reg.index, Zeros(reg.length))
  }

  lemma ReadAtOnce(s: Setup, w: World, reg: Register)
    requires Ready(s, w) && Readable(reg)
    ensures var v := AtOnce(s, w, BulkRequest(reg), ReadReply(reg));
            && ServesRead(s, w, reg, Whole(v)) && ReadServed(s, w, reg, Whole(v)) == Served(s, w, BulkRequest(reg), v)
            && Ready(s, Served(s, w, BulkRequest(reg), v))
  {
    hide Serves, Served;
    AtOnceServes(s, w, BulkRequest(reg), ReadReply(reg));
  }

  predicate AllReadable(regs: seq<Register>) {
    forall i :: 0 <= i < |regs| ==> Readable(regs[i])
  }

  function PollAtOnce(s: Setup, w: World, regs: seq<Register>): (vs: seq<Reading>)
    requires AllReadable(regs)
    ensures |vs| == |regs|
    decreases |regs|
  {
    if regs == [] then []
    else
      assert Readable(regs[0]);
      var v := AtOnce(s, w, BulkRequest(regs[0]), ReadReply(regs[0]));
      [Whole(v)] + PollAtOnce(s, Served(s, w, BulkRequest(regs[0]), v), regs[1..])
  }

  lemma {:induction false} PollAtOnceServes(s: Setup, w: World, regs: seq<Register>)
    requires Ready(s, w) && AllReadable(regs)
    ensures ServesPoll(s, w, regs, PollAtOnce(s, w, regs))
    decreases |regs|
  {
    hide ServesRead, ReadServed, Served;
    if regs != [] {
      assert Readable(regs[0]);
      var v := AtOnce(s, w, BulkRequest(regs[0]), ReadReply(regs[0]));
      ReadAtOnce(s, w, regs[0]);
      PollAtOnceServes(s, Served(s, w, BulkRequest(regs[0]), v), regs[1..]);
    }
  }

  const INIT_REPLY := Packet(BLE, HOST, INIT, 0, Zeros(APP_KEY_LENGTH))
  const PING_REPLY := Packet(BLE, HOST, PING, 1, [])
  const PAIR_REPLY := Packet(BLE, HOST, PAIR, 1, [])

  function GreetAtOnce(s: Setup, w: World, appKey: Bytes): Greeting
    requires |appKey| == APP_KEY_LENGTH && Readable(s.serialNumber)
  {
    var init := AtOnce(s, w, InitRequest(), INIT_REPLY);
    var a := Introduced(s, w, init);
    var ping := AtOnce(s, a, PingRequest(appKey), PING_REPLY);
    var b := Served(s, a, PingRequest(appKey), ping).Called(SetAppData(appKey));
    var pair := AtOnce(s, b, PairRequest([]), PAIR_REPLY);
    var c := Served(s, b, PairRequest([]), pair);
    Greeting(init, ping, Known, pair, Whole(AtOnce(s, c, BulkRequest(s.serialNumber), ReadReply(s.serialNumber))))
  }

  lemma GreetAtOnceServes(s: Setup, w: World, appKey: Bytes)
    requires Ready(s, w) && |appKey| == APP_KEY_LENGTH && Readable(s.serialNumber)
    ensures ServesHandshake(s, w, appKey, GreetAtOnce(s, w, appKey))
    ensures Ready(s, Greeted(s, w, appKey, GreetAtOnce(s, w, appKey)))
  {
    hide Serves, ServesRead, ReadServed, Pauses, ChunkCount, Sealed, Readable;
    var g := GreetAtOnce(s, w, appKey);
    AtOnceServes(s, w, InitRequest(), INIT_REPLY);
    var a := Introduced(s, w, g.init);
    assert Challenge(g.init) == [];
    AtOnceServes(s, a, PingRequest(appKey), PING_REPLY);
    var b := Authorized(s, a, appKey, [], g.ping, Known);
    AtOnceServes(s, b, PairRequest([]), PAIR_REPLY);
    ReadAtOnce(s, Served(s, b, PairRequest([]), g.pair), s.serialNumber);
  }

  /** The link opens, and a scooter that knows the key answers everything at once. */
  function VisitAtOnce(s: Setup, w: World, appKey: Bytes, table: seq<Register>): (v: Visit)
    requires s.requestTimeout > 0 && s.cipher == Stub()
    requires |appKey| == APP_KEY_LENGTH && Readable(s.serialNumber) && AllReadable(PollTable(table, true))
    ensures Responsive(s, w, appKey, table, v)
  {
    var open := Opened(s, w, LinkUp(0, 0, 0));
    GreetAtOnceServes(s, open, appKey);
    var greeting := GreetAtOnce(s, open, appKey);
    PollAtOnceServes(s, Greeted(s, open, appKey, greeting), PollTable(table, true));
    Visit(LinkUp(0, 0, 0), greeting, PollAtOnce(s, Greeted(s, open, appKey, greeting), PollTable(table, true)))
  }

  lemma VisitIsPolled(s: Setup, w: World, appKey: Bytes, table: seq<Register>, v: Visit)
    requires !w.IsUp() && Responsive(s, w, appKey, table, v)
    ensures Visited(AsyncUpdate(s, w.(events := v.Events()), appKey, false, appKey, table, true), v.greeting.init,
                    appKey, PollTable(table, true))
  {
    hide Responsive, Visit.Events, AsyncUpdate, Visited, PollTable;
    ResponsiveWhatever(s, w, appKey, table, v, v.Events());
    ResponsiveIsPolled(s, w.(events := v.Events()), appKey, false, appKey, table, true, v);
  }

  /** For every table that one request and one reply per register can read, a session can be up and proven. */
  method ConnectedIsReachable(table: seq<Register>, serial: Register, appKey: Bytes, memory: Memory)
    returns (c: NinebotCoordinator)
    requires |appKey| == APP_KEY_LENGTH && Readable(serial) && AllReadable(PollTable(table, true))
    ensures c.Valid() && c.client.IsConnected() && c.client.table == table && |c.polls| == 1
    ensures AllRecorded(PollTable(table, true), c.polls[0])
  {
    hide AsyncUpdate, PollTable, AllRecorded, NinebotClient.Valid, NinebotClient.Traced, Disconnect, Responsive,
         Visit.Events, Readable, BothKeys;
    var client := new NinebotClient(Stub(), [], table, serial, None, appKey, 1, 1, memory);
    c := new NinebotCoordinator(client, None, true);
    var s, w := Setup(Stub(), [], serial, 1, 1), World(Rx([], [], []), NoLink, 0, [], DEFAULT_CHUNK_SIZE);
    var visit := VisitAtOnce(s, w, appKey, table);
    VisitIsPolled(s, w, appKey, table, visit);
    assert client.AsSetup() == s && client.AsWorld() == w;
    var _, _ := c.AsyncPoll(visit.Events(), appKey);
  }

  // ----- a session proven by replies that came before its key -----

  function Bursts(packets: seq<Packet>): (bursts: seq<Burst>)
    ensures Packets(bursts) == packets
    ensures |bursts| == |packets| && forall i :: 0 <= i < |packets| ==> bursts[i] == Burst([], packets[i])
  {
    if packets == [] then [] else [Burst([], packets[0])] + Bursts(packets[1..])
  }

  /** All the packets, as the stub sends them one behind the other. */
  function AllSealed(packets: seq<Packet>): Bytes
    requires forall i :: 0 <= i < |packets| ==> packets[i].OnWire()
  {
    Air(Sent(Stub(), [], Bursts(packets)), [])
  }

  lemma SealedAreQueued(rx: Rx, packets: seq<Packet>)
    requires rx.buffer == [] && rx.queue == [] && |packets| <= QUEUE_LIMIT
    requires forall i :: 0 <= i < |packets| ==> packets[i].OnWire()
    ensures Notified(Stub(), rx, AllSealed(packets)).queue == packets
    ensures Notified(Stub(), rx, AllSealed(packets)).buffer == []
    ensures Keys(Notified(Stub(), rx, AllSealed(packets)).crypto) == Keys(rx.crypto)
  {
    var data := AllSealed(packets);
    StubIsLawful();
    NotifyKeepsKeys(Stub(), rx, data);
    assert Concat([data]) == data && rx.queue + packets == packets;
    EndToEnd(Stub(), [], rx, Bursts(packets), [], [data]);
    assert NotifiedAll(Stub(), rx, [data]) == Notified(Stub(), rx, data);
  }

  /** The link opens, the scooter sends everything at once, and the subscription works. */
  function EarlyOpening(packets: seq<Packet>): seq<Event>
    requires forall i :: 0 <= i < |packets| ==> packets[i].OnWire()
  {
    [Completed(Worked(Some(0))), Notify(AllSealed(packets)), Completed(Worked(None))]
  }

  function EarlyOpened(s: Setup, w: World, packets: seq<Packet>): World
    requires forall i :: 0 <= i < |packets| ==> packets[i].OnWire()
  {
    World(Notified(Stub(), Rx([], [], [SetName(s.name)]), AllSealed(packets)), Link(true), w.now, [],
          DEFAULT_CHUNK_SIZE)
  }

  lemma EarlyOpeningWorks(s: Setup, w: World, packets: seq<Packet>, rest: seq<Event>)
    requires forall i :: 0 <= i < |packets| ==> packets[i].OnWire()
    requires s.cipher == Stub() && w.events == EarlyOpening(packets) + rest
    ensures ConnectTransport(s, w) == Ran(EarlyOpened(s, w, packets).(events := rest), Success(()))
  {
    hide Notified, Air;
    var blank := Rx([], [], [SetName(s.name)]);
    assert w.events[1..] == [Notify(AllSealed(packets)), Completed(Worked(None))] + rest;
    assert w.events[1..][1..] == [Completed(Worked(None))] + rest && w.events[1..][1..][1..] == rest;
    var a := w.(rx := blank);
    assert Await(s, a) == Ran(a.(events := w.events[1..]), Worked(Some(0)));
    var b := a.(events := w.events[1..], link := Link(true));
    var c := Next(s, b);
    assert c == b.(rx := Notified(Stub(), blank, AllSealed(packets)), events := w.events[1..][1..]);
    assert Await(s, b) == Await(s, c) == Ran(c.(events := rest), Worked(None));
  }

  /** A session is up and proven although the cipher decrypted nothing after it was given the key. */
  ghost predicate ProvenWithoutKey(w: World, r: Result<(), Error>, key: Bytes) {
    var calls := w.rx.crypto;
    && r == Success(()) && w.IsUp() && SetAppData(key) in calls
    && forall i, j :: 0 <= i < j < |calls| && calls[i] == SetAppData(key) ==> !calls[j].Decrypt?
  }

  /** Whether a client without a link gets there with these events. */
  ghost predicate LeadsToUnkeyed(s: Setup, w: World, events: seq<Event>, key: Bytes) {
    var run := OpenSession(s, w.(events := events), key);
    ProvenWithoutKey(run.world, run.result, key)
  }

  lemma EarlyPackets(serial: Register, bleKey: Bytes, data: Bytes)
    requires Readable(serial) && |bleKey| == APP_KEY_LENGTH && |data| <= MAX_DATA_LENGTH
    ensures var queue := EarlyQueue(serial, bleKey, data);
            |queue| <= QUEUE_LIMIT && forall i :: 0 <= i < |queue| ==> queue[i].OnWire()
  {
  }

  lemma {:induction false} NoKeyNoCall(calls: seq<Call>, key: Bytes)
    requires Keys(calls) == []
    ensures SetAppData(key) !in calls
    decreases |calls|
  {
    if calls != [] {
      var n := |calls| - 1;
      NoKeyNoCall(calls[..n], key);
      assert calls == calls[..n] + [calls[n]];
    }
  }

  lemma UnkeyedCalls(before: seq<Call>, serial: Register, bleKey: Bytes, key: Bytes, w: World, r: Result<(), Error>)
    requires Keys(before) == [] && |key| <= MAX_DATA_LENGTH && serial.length <= MAX_DATA_LENGTH
    requires w.rx.crypto == before + EarlyCalls(serial, bleKey, key) && r == Success(()) && w.IsUp()
    ensures ProvenWithoutKey(w, r, key)
  {
    hide Keys, Packet.Pack;
    var calls, n := w.rx.crypto, |before|;
    NoKeyNoCall(before, key);
    assert calls[n + 4] == SetAppData(key);
    assert forall k :: 0 <= k < n ==> calls[k] == before[k] && before[k] in before;
    forall i, j | 0 <= i < j < |calls| && calls[i] == SetAppData(key)
      ensures !calls[j].Decrypt?
    {
      assert calls[j] == EarlyCalls(serial, bleKey, key)[j - n];
    }
  }

  /** For every client of the stub there is such a run: all five replies come while the subscription is under way. */
  lemma {:induction false} ProvenWithoutKeyIsReachable(s: Setup, w: World, bleKey: Bytes, key: Bytes, data: Bytes)
    requires s.cipher == Stub() && Readable(s.serialNumber) && s.requestTimeout > 0 && s.pairingTimeout > 0
    requires |bleKey| == APP_KEY_LENGTH && |key| <= MAX_DATA_LENGTH
    requires s.serialNumber.length <= |data| <= MAX_DATA_LENGTH
    ensures exists events :: LeadsToUnkeyed(s, w, events, key)
  {
    hide Notified, EarlyQueue, Handshake, ConnectTransport, AllSealed, EarlyCalls, ProvenWithoutKey, Works;
    var queue := EarlyQueue(s.serialNumber, bleKey, data);
    EarlyPackets(s.serialNumber, bleKey, data);
    SealedAreQueued(Rx([], [], [SetName(s.name)]), queue);
    NoKeysYet(s.name);
    var open := EarlyOpened(s, w, queue);
    EarlyRepliesProve(s, open, bleKey, key, data);
    var n: nat :| ProvenEarly(s, open, Works(n), bleKey, key);
    var events := EarlyOpening(queue) + Works(n);
    EarlyOpeningWorks(s, w.(events := events), queue, Works(n));
    var run := Handshake(s, open.(events := Works(n)), key);
    UnkeyedCalls(open.rx.crypto, s.serialNumber, bleKey, key, run.world, run.result);
    assert LeadsToUnkeyed(s, w, events, key);
  }
}
