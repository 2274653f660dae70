/**
 The steps a link goes through before its session is proven, each justified by the one before
 it. Replies are named by their position among all packets ever queued.
 */
module Session {
  import opened Wrappers
  import opened Bytes
  import opened Protocol
  import opened Crypto
  import opened Errors
  import opened Hex
  import opened Registers
  import opened RegisterRead
  import opened Receiver

  const APP_KEY_LENGTH := 16

  /**
   `since` is how many packets had been taken off the queue. The read that proves a session ends with
   the reply to `request`, the packet sent as number `send`, when `from` packets had been taken.
   */
  datatype Step =
    | InitTaken(at: nat)
    | BleKeySet(key: Bytes, since: nat)
    | PingTaken(at: nat)
    | PairingAccepted(at: nat)
    | AppKeySet(key: Bytes, since: nat)
    | PairTaken(at: nat)
    | AckTaken(at: nat, send: nat, from: nat, request: Packet)

  function InitRequest(): Packet {
    Packet(HOST, BLE, INIT, 0, [])
  }

  function PingRequest(appKey: Bytes): Packet {
    Packet(HOST, BLE, PING, 0, appKey)
  }

  function PairRequest(challenge: Bytes): Packet {
    Packet(HOST, BLE, PAIR, 0, challenge)
  }

  function PairRequests(challenge: Bytes, n: nat): seq<Packet> {
    if n == 0 then [] else PairRequests(challenge, n - 1) + [PairRequest(challenge)]
  }

  /** Between two histories of packets sent lie this many requests to pair and nothing else. */
  predicate PairsSent(before: seq<Packet>, sent: seq<Packet>, challenge: Bytes, n: nat) {
    sent == before + PairRequests(challenge, n)
  }

  lemma PairsSentGrows(before: seq<Packet>, sent: seq<Packet>, more: seq<Packet>, challenge: Bytes, n: nat)
    requires more == sent + [PairRequest(challenge)] && PairsSent(before, sent, challenge, n)
    ensures PairsSent(before, more, challenge, n + 1)
  {
  }

  /** The requests of a handshake, written out, and what answers them. */
  lemma HandshakePackets(appKey: Bytes, challenge: Bytes)
    ensures InitRequest() == Packet(HOST, BLE, INIT, 0, []) && PingRequest(appKey) == Packet(HOST, BLE, PING, 0, appKey)
    ensures PairRequest(challenge) == Packet(HOST, BLE, PAIR, 0, challenge)
    ensures forall p: Packet :: p.MatchesRequest(InitRequest()) <==>
                                  p.source == BLE && p.target == HOST && p.command == INIT
    ensures forall p: Packet :: p.MatchesRequest(PingRequest(appKey)) <==>
                                  p.source == BLE && p.target == HOST && p.command == PING
    ensures forall p: Packet :: p.MatchesRequest(PairRequest(challenge)) <==>
                                  p.source == BLE && p.target == HOST && p.command == PAIR
  {
  }

  /** Without pairing a handshake sends three packets. Each time it asks to pair, one more PAIR goes out. */
  lemma HandshakeSendsPackets(appKey: Bytes, challenge: Bytes, asked: nat)
    ensures |HandshakeRequests(appKey, challenge, asked)| == 3 + asked
    ensures var packets := HandshakeRequests(appKey, challenge, asked);
            && packets[0] == Packet(HOST, BLE, INIT, 0, []) && packets[1] == Packet(HOST, BLE, PING, 0, appKey)
            && forall i :: 2 <= i < |packets| ==> packets[i] == Packet(HOST, BLE, PAIR, 0, challenge)
  {
    AllPair(challenge, asked);
  }

  lemma {:induction false} AllPair(challenge: Bytes, n: nat)
    ensures |PairRequests(challenge, n)| == n
    ensures forall i :: 0 <= i < n ==> PairRequests(challenge, n)[i] == Packet(HOST, BLE, PAIR, 0, challenge)
  {
    if n > 0 {
      AllPair(challenge, n - 1);
    }
  }

  /** What a completed handshake sends before it reads a register, having asked to pair `asked` times. */
  function HandshakeRequests(appKey: Bytes, challenge: Bytes, asked: nat): seq<Packet> {
    [InitRequest(), PingRequest(appKey)] + PairRequests(challenge, asked) + [PairRequest(challenge)]
  }

  lemma HandshakeSends(before: seq<Packet>, appKey: Bytes, challenge: Bytes, asked: nat)
    ensures before + [InitRequest()] + [PingRequest(appKey)] + PairRequests(challenge, asked) + [PairRequest(challenge)]
            == before + HandshakeRequests(appKey, challenge, asked)
  {
  }

  /** A reply the pairing loop accepts. */
  predicate AcceptsPairing(p: Packet) {
    (p.command == PING || p.command == PAIR) && p.index == 1
  }

  /** Pairing is accepted by a PING or PAIR with status one, and by nothing else. */
  lemma AcceptsIff(p: Packet)
    ensures AcceptsPairing(p) <==> p.index == 1 && (p.command == PING || p.command == PAIR)
  {
  }

  /** None of the packets from `lo` to before `hi` accepts pairing. */
  predicate NoneAccepts(packets: seq<Packet>, lo: nat, hi: nat) {
    forall i :: lo <= i < hi && i < |packets| ==> !AcceptsPairing(packets[i])
  }

  lemma NoneAcceptsJoin(packets: seq<Packet>, more: seq<Packet>, lo: nat, mid: nat, hi: nat)
    requires packets <= more && mid <= |packets| && NoneAccepts(packets, lo, mid)
    ensures NoneAccepts(more, lo, mid) && (NoneAccepts(more, mid, hi) ==> NoneAccepts(more, lo, hi))
  {
  }

  /**
   `step` may follow `prev` on a link whose queue was emptied when `start` packets had been queued,
   `serial` being the register read to prove the session.
   */
  predicate Justified(queued: seq<Packet>, start: nat, serial: Register, prev: Option<Step>, step: Step) {
    match step
    case InitTaken(at) =>
      prev == None && start <= at < |queued| && queued[at].MatchesRequest(InitRequest())
    case BleKeySet(key, since) =>
      && prev.Some? && prev.value.InitTaken? && prev.value.at < since <= |queued|
      && |queued[prev.value.at].data| >= APP_KEY_LENGTH
      && key == queued[prev.value.at].data[..APP_KEY_LENGTH]
    case PingTaken(at) =>
      && prev.Some? && prev.value.BleKeySet?
      && prev.value.since <= at < |queued| && queued[at].MatchesRequest(PingRequest([]))
    case PairingAccepted(at) =>
      && prev.Some? && prev.value.PingTaken? && prev.value.at < at < |queued|
      && queued[prev.value.at].index == 0 && AcceptsPairing(queued[at])
    case AppKeySet(_, since) =>
      && prev.Some? && since <= |queued|
      && ((prev.value.PingTaken? && since == prev.value.at + 1 && queued[prev.value.at].index != 0)
          || (prev.value.PairingAccepted? && since == prev.value.at + 1))
    case PairTaken(at) =>
      && prev.Some? && prev.value.AppKeySet? && prev.value.since <= at < |queued|
      && queued[at].MatchesRequest(PairRequest([])) && NoneMatch(queued, prev.value.since, at, PairRequest([]))
    case AckTaken(at, _, from, request) =>
      && prev.Some? && prev.value.PairTaken? && prev.value.at < from <= at < |queued|
      && AsksFor(serial, request) && queued[at].MatchesRequest(request) && NoneMatch(queued, from, at, request)
  }

  function Before(journey: seq<Step>, i: nat): Option<Step>
    requires i <= |journey|
  {
    if i == 0 then None else Some(journey[i - 1])
  }

  ghost predicate Path(queued: seq<Packet>, start: nat, serial: Register, journey: seq<Step>) {
    forall i {:trigger Before(journey, i)} ::
      0 <= i < |journey| ==> Justified(queued, start, serial, Before(journey, i), journey[i])
  }

  /** The reply that proves a session names the packet sent for it and how much had been heard by then. */
  ghost predicate Named(journey: seq<Step>, sent: seq<Packet>, sentAt: seq<nat>) {
    && |sentAt| == |sent|
    && forall i :: 0 <= i < |journey| && journey[i].AckTaken? ==>
                     var ack := journey[i];
                     ack.send < |sent| && sent[ack.send] == ack.request && sentAt[ack.send] == ack.from
  }

  lemma NamedGrows(journey: seq<Step>, sent: seq<Packet>, sentAt: seq<nat>, more: seq<Packet>, moreAt: seq<nat>)
    requires Named(journey, sent, sentAt) && sent <= more && sentAt <= moreAt && |more| == |moreAt|
    ensures Named(journey, more, moreAt)
  {
  }

  /** The key calls a cipher has seen when it went along with the journey. */
  function KeyCalls(journey: seq<Step>): seq<Call> {
    if journey == [] then [] else KeyCalls(journey[..|journey| - 1]) + KeyCall(journey[|journey| - 1])
  }

  function KeyCall(step: Step): seq<Call> {
    if step.BleKeySet? then [SetBleData(step.key)]
    else if step.AppKeySet? then [SetAppData(step.key)]
    else []
  }

  /** The last three steps: `key` installed, the handshake closed, and then a register read. */
  predicate Established(journey: seq<Step>, key: Bytes) {
    var n := |journey|;
    && n >= 3 && journey[n - 1].AckTaken?
    && journey[n - 3].AppKeySet? && journey[n - 3].key == key
  }

  lemma JustifyPing(queued: seq<Packet>, start: nat, serial: Register, bleKey: Bytes, since: nat,
                    at: nat, appKey: Bytes)
    requires since <= at < |queued| && queued[at].MatchesRequest(PingRequest(appKey))
    ensures Justified(queued, start, serial, Some(BleKeySet(bleKey, since)), PingTaken(at))
  {
  }

  lemma JustifyAccepted(queued: seq<Packet>, start: nat, serial: Register, ping: nat, at: nat)
    requires ping < at < |queued| && queued[ping].index == 0 && AcceptsPairing(queued[at])
    ensures Justified(queued, start, serial, Some(PingTaken(ping)), PairingAccepted(at))
  {
  }

  lemma JustifyAppKey(queued: seq<Packet>, start: nat, serial: Register, ping: nat, key: Bytes)
    requires ping + 1 == |queued|
    ensures queued[ping].index != 0 ==>
              Justified(queued, start, serial, Some(PingTaken(ping)), AppKeySet(key, |queued|))
    ensures Justified(queued, start, serial, Some(PairingAccepted(ping)), AppKeySet(key, |queued|))
  {
  }

  lemma EstablishedBy(journey: seq<Step>, key: Bytes, since: nat, pair: nat, ack: Step)
    requires Before(journey, |journey|) == Some(AppKeySet(key, since)) && ack.AckTaken?
    ensures Established(journey + [PairTaken(pair)] + [ack], key)
  {
  }

  lemma JustifyInit(queued: seq<Packet>, start: nat, serial: Register, at: nat)
    requires start <= at < |queued| && queued[at].MatchesRequest(InitRequest())
    ensures Justified(queued, start, serial, None, InitTaken(at))
    ensures forall key, since ::
              APP_KEY_LENGTH <= |queued[at].data| && key == queued[at].data[..APP_KEY_LENGTH] && at < since <= |queued|
              ==> Justified(queued, start, serial, Some(InitTaken(at)), BleKeySet(key, since))
  {
  }

  lemma JustifyPair(queued: seq<Packet>, start: nat, serial: Register, key: Bytes, since: nat,
                    at: nat, challenge: Bytes)
    requires since <= at < |queued| && queued[at].MatchesRequest(PairRequest(challenge))
    requires NoneMatch(queued, since, at, PairRequest(challenge))
    ensures Justified(queued, start, serial, Some(AppKeySet(key, since)), PairTaken(at))
  {
    forall i | since <= i < at
      ensures !queued[i].MatchesRequest(PairRequest([]))
    {
      assert !queued[i].MatchesRequest(PairRequest(challenge));
    }
  }

  lemma JustifyAck(queued: seq<Packet>, start: nat, serial: Register, pair: nat, ack: Step)
    requires ack.AckTaken? && pair < ack.from <= ack.at < |queued| && AsksFor(serial, ack.request)
    requires queued[ack.at].MatchesRequest(ack.request) && NoneMatch(queued, ack.from, ack.at, ack.request)
    ensures Justified(queued, start, serial, Some(PairTaken(pair)), ack)
  {
  }

  lemma JustifiedGrows(queued: seq<Packet>, more: seq<Packet>, start: nat, serial: Register,
                       prev: Option<Step>, step: Step)
    requires queued <= more && Justified(queued, start, serial, prev, step)
    requires prev.Some? && prev.value.PingTaken? ==> prev.value.at < |queued|
    ensures Justified(more, start, serial, prev, step)
  {
  }

  lemma PathGrows(queued: seq<Packet>, more: seq<Packet>, start: nat, serial: Register, journey: seq<Step>)
    requires Path(queued, start, serial, journey) && queued <= more
    ensures Path(more, start, serial, journey)
  {
    forall i | 0 <= i < |journey|
      ensures Justified(more, start, serial, Before(journey, i), journey[i])
    {
      if i > 0 {
        assert Justified(queued, start, serial, Before(journey, i - 1), journey[i - 1]);
      }
      JustifiedGrows(queued, more, start, serial, Before(journey, i), journey[i]);
    }
  }

  /** A fresh cipher and a journey not begun go together. */
  lemma FreshStart(queued: seq<Packet>, start: nat, serial: Register, name: Bytes)
    ensures Path(queued, start, serial, []) && KeyCalls([]) == []
    ensures Keys([SetName(name)]) == [] && Decryptions([SetName(name)]) == []
  {
    CallsGrow([], SetName(name));
  }

  lemma KeyCallsExtend(journey: seq<Step>, step: Step)
    ensures KeyCalls(journey + [step]) == KeyCalls(journey) + KeyCall(step)
  {
    assert (journey + [step])[..|journey|] == journey;
  }

  lemma PathExtends(queued: seq<Packet>, start: nat, serial: Register, journey: seq<Step>, step: Step)
    requires Path(queued, start, serial, journey) && Justified(queued, start, serial, Before(journey, |journey|), step)
    ensures Path(queued, start, serial, journey + [step])
  {
    var longer := journey + [step];
    forall i | 0 <= i < |longer|
      ensures Justified(queued, start, serial, Before(longer, i), longer[i])
    {
      var prev, here := Before(longer, i), longer[i];
      assert prev == Before(journey, i);
      assert here == if i < |journey| then journey[i] else step;
    }
  }

  /** A key installed in the cipher and noted in the journey at once. */
  lemma {:induction false} KeyStep(queued: seq<Packet>, start: nat, serial: Register, journey: seq<Step>, step: Step,
                                   crypto: Crypto, call: Call)
    requires Path(queued, start, serial, journey) && Justified(queued, start, serial, Before(journey, |journey|), step)
    requires Keys(crypto) == KeyCalls(journey) && KeyCall(step) == [call]
    ensures Path(queued, start, serial, journey + [step])
    ensures Keys(crypto + [call]) == KeyCalls(journey + [step])
    ensures Decryptions(crypto + [call]) == Decryptions(crypto)
  {
    PathExtends(queued, start, serial, journey, step);
    KeyCallsExtend(journey, step);
    KeyCallGrows(crypto, call);
  }

  /** Where in its journey a step can stand. */
  lemma {:induction false} PathPositions(queued: seq<Packet>, start: nat, serial: Register, journey: seq<Step>, i: nat)
    requires Path(queued, start, serial, journey) && i < |journey|
    ensures match journey[i]
            case InitTaken(_) => i == 0
            case BleKeySet(_, _) => i == 1
            case PingTaken(_) => i == 2
            case PairingAccepted(_) => i == 3
            case AppKeySet(_, _) => (i == 3 && journey[2].PingTaken?) || (i == 4 && journey[3].PairingAccepted?)
            case PairTaken(_) => i == 4 || i == 5
            case AckTaken(_, _, _, _) => i == 5 || i == 6
  {
    assert Justified(queued, start, serial, Before(journey, i), journey[i]);
    if i > 0 {
      PathPositions(queued, start, serial, journey, i - 1);
    }
  }

  /** The challenge is what follows the key in the first reply. */
  ghost predicate ChallengeHeard(queued: seq<Packet>, journey: seq<Step>, challenge: Bytes) {
    && journey != [] && journey[0].InitTaken? && journey[0].at < |queued|
    && |queued[journey[0].at].data| >= 16 && challenge == queued[journey[0].at].data[16..]
  }

  lemma StillChallenged(heard: seq<Packet>, introduced: seq<Step>, queued: seq<Packet>, journey: seq<Step>,
                        challenge: Bytes)
    requires ChallengeHeard(heard, introduced, challenge) && heard <= queued && introduced <= journey
    ensures ChallengeHeard(queued, journey, challenge)
  {
    assert journey[0] == introduced[0];
  }

  /**
   Whenever the application key has been installed, an INIT reply of at least a key's length was
   taken first, then the PING reply, and either its status was not zero or an accepting reply
   was taken after it.
   */
  ghost predicate HandshakeOrder(queued: seq<Packet>, start: nat, journey: seq<Step>) {
    && |journey| >= 4
    && journey[0].InitTaken? && journey[1].BleKeySet? && journey[2].PingTaken?
    && start <= journey[0].at < journey[1].since <= journey[2].at < |queued|
    && var init, ping := queued[journey[0].at], queued[journey[2].at];
    && init.source == BLE && init.target == HOST && init.command == INIT
    && ping.source == BLE && ping.target == HOST && ping.command == PING
    && journey[1].key <= init.data && |journey[1].key| == 16
    && (journey[3].AppKeySet? ==> ping.index != 0 && journey[3].since == journey[2].at + 1)
    && (!journey[3].AppKeySet? ==>
          && |journey| >= 5 && journey[3].PairingAccepted? && journey[4].AppKeySet?
          && ping.index == 0
          && journey[2].at < journey[3].at < |queued| && journey[4].since == journey[3].at + 1
          && queued[journey[3].at].index == 1
          && (queued[journey[3].at].command == PING || queued[journey[3].at].command == PAIR))
  }

  lemma AppKeyAt(queued: seq<Packet>, start: nat, serial: Register, journey: seq<Step>, i: nat)
    requires Path(queued, start, serial, journey) && i < |journey| && journey[i].AppKeySet?
    ensures HandshakeOrder(queued, start, journey)
  {
    PathPositions(queued, start, serial, journey, i);
    forall k | 0 <= k <= i
      ensures Justified(queued, start, serial, Before(journey, k), journey[k])
    {
    }
    PathPositions(queued, start, serial, journey, 2);
    assert Before(journey, 2) == Some(journey[1]) && Before(journey, 1) == Some(journey[0]);
    assert Justified(queued, start, serial, Before(journey, 2), journey[2]);
    assert Justified(queued, start, serial, Before(journey, 1), journey[1]);
    assert Justified(queued, start, serial, Before(journey, 0), journey[0]);
  }

  lemma {:induction false} KeyCallFrom(journey: seq<Step>, c: Call) returns (i: nat)
    requires c in KeyCalls(journey)
    ensures i < |journey|
    ensures (journey[i].BleKeySet? && c == SetBleData(journey[i].key))
            || (journey[i].AppKeySet? && c == SetAppData(journey[i].key))
    decreases |journey|
  {
    i := |journey| - 1;
    if c in KeyCalls(journey[..i]) {
      i := KeyCallFrom(journey[..i], c);
    }
  }

  /** The cipher's application key is installed only after the handshake has earned it. */
  lemma {:induction false} AppKeyIsEarned(queued: seq<Packet>, start: nat, serial: Register,
                                          journey: seq<Step>, key: Bytes)
    requires Path(queued, start, serial, journey) && SetAppData(key) in KeyCalls(journey)
    ensures HandshakeOrder(queued, start, journey)
  {
    var i := KeyCallFrom(journey, SetAppData(key));
    AppKeyAt(queued, start, serial, journey, i);
  }

  /** A session whose handshake is closed and that then took a reply to a register read. */
  ghost predicate Proven(queued: seq<Packet>, serial: Register, journey: seq<Step>, key: Bytes) {
    var n := |journey|;
    && n >= 6 && n == (if journey[3].AppKeySet? then 6 else 7)
    && journey[n - 3].AppKeySet? && journey[n - 3].key == key
    && journey[n - 2].PairTaken? && journey[n - 1].AckTaken?
    && journey[n - 3].since <= journey[n - 2].at < journey[n - 1].at < |queued|
    && var pair, ack := queued[journey[n - 2].at], queued[journey[n - 1].at];
    && pair.source == BLE && pair.target == HOST && pair.command == PAIR
    && ack.source == serial.board && ack.target == HOST && ack.command == READ_ACK
    && (ack.index == serial.index || serial.index < ack.index < serial.index + (serial.length + 1) / 2)
  }

  /**
   Which of the two replies that close and prove a session were decrypted under its key, going by the
   calls on the cipher. The closing reply was exactly when no packet left on the queue at the key's
   installation answers a PAIR; the proving one exactly when none of those still there when it was
   asked for answers that request, and so whenever none of them answers a read of the register.
   */
  ghost predicate UnderKeyIff(queued: seq<Packet>, crypto: Crypto, when: seq<nat>, serial: Register,
                              journey: seq<Step>, key: Bytes) {
    var n := |journey|;
    && n >= 3 && journey[n - 3].AppKeySet? && journey[n - 2].PairTaken? && journey[n - 1].AckTaken?
    && var pair, ack := journey[n - 2].at, journey[n - 1].at;
    && (Keyed(crypto, when, key, pair) <==>
          NoneEarlyMatches(queued, crypto, when, key, journey[n - 3].since, PairRequest([])))
    && (Keyed(crypto, when, key, ack) <==>
          NoneEarlyMatches(queued, crypto, when, key, journey[n - 1].from, journey[n - 1].request))
    && ((forall i :: pair < i < |queued| && !Keyed(crypto, when, key, i) ==> !AnswersRead(serial, queued[i]))
          ==> Keyed(crypto, when, key, ack))
  }

  /** No packet from `lo` on that was decrypted before the key was installed answers `request`. */
  ghost predicate NoneEarlyMatches(queued: seq<Packet>, crypto: Crypto, when: seq<nat>, key: Bytes, lo: nat,
                                   request: Packet) {
    forall i :: lo <= i < |queued| && !Keyed(crypto, when, key, i) ==> !queued[i].MatchesRequest(request)
  }

  /** The first packet that answers a request was decrypted under the key exactly when no early one answers it. */
  lemma FirstMatchKeyed(c: Cipher, crypto: Crypto, start: nat, queued: seq<Packet>, when: seq<nat>, key: Bytes,
                        lo: nat, at: nat, request: Packet)
    requires Dated(c, crypto, start, queued, when) && start <= lo <= at < |queued|
    requires queued[at].MatchesRequest(request) && NoneMatch(queued, lo, at, request)
    ensures Keyed(crypto, when, key, at) <==> NoneEarlyMatches(queued, crypto, when, key, lo, request)
  {
    hide Dated, Keyed, Packet.MatchesRequest;
    if Keyed(crypto, when, key, at) {
      forall i | lo <= i < |queued| && !Keyed(crypto, when, key, i)
        ensures !queued[i].MatchesRequest(request)
      {
        if at <= i {
          KeyedStays(c, crypto, start, queued, when, key, at, i);
        }
      }
    }
  }

  lemma EstablishedCloses(queued: seq<Packet>, start: nat, serial: Register, journey: seq<Step>, key: Bytes)
    requires Path(queued, start, serial, journey) && Established(journey, key)
    ensures Proven(queued, serial, journey, key)
  {
    hide Packet.MatchesRequest, AsksFor;
    var n := |journey|;
    HandshakePackets([], []);
    PathPositions(queued, start, serial, journey, n - 1);
    PathPositions(queued, start, serial, journey, n - 3);
    assert Before(journey, n - 1) == Some(journey[n - 2]) && Before(journey, n - 2) == Some(journey[n - 3]);
    assert Justified(queued, start, serial, Before(journey, n - 1), journey[n - 1]);
    assert Justified(queued, start, serial, Before(journey, n - 2), journey[n - 2]);
    AskedIsAnswered(serial, journey[n - 1].request, queued[journey[n - 1].at]);
  }

  /**
   An established session went through the whole handshake on this link, installed `key` and no
   other, and then took the closing reply and after it a reply to a read of the register `serial`.
   */
  lemma {:induction false} EstablishedMeans(queued: seq<Packet>, start: nat, serial: Register,
                                            journey: seq<Step>, key: Bytes)
    requires Path(queued, start, serial, journey) && Established(journey, key)
    ensures HandshakeOrder(queued, start, journey) && Proven(queued, serial, journey, key)
    ensures forall k :: SetAppData(k) in KeyCalls(journey) <==> k == key
  {
    var n := |journey|;
    AppKeyAt(queued, start, serial, journey, n - 3);
    EstablishedCloses(queued, start, serial, journey, key);
    KeyCallIn(journey, n - 3);
    forall k | SetAppData(k) in KeyCalls(journey)
      ensures k == key
    {
      var i := KeyCallFrom(journey, SetAppData(k));
      PathPositions(queued, start, serial, journey, i);
    }
  }

  /** When the replies that close and prove an established session were decrypted. */
  lemma EstablishedUnderKey(c: Cipher, crypto: Crypto, when: seq<nat>, queued: seq<Packet>, start: nat,
                            serial: Register, journey: seq<Step>, key: Bytes)
    requires Path(queued, start, serial, journey) && Established(journey, key)
    requires Dated(c, crypto, start, queued, when)
    ensures UnderKeyIff(queued, crypto, when, serial, journey, key)
  {
    var n := |journey|;
    EstablishedMeans(queued, start, serial, journey, key);
    assert Before(journey, n - 1) == Some(journey[n - 2]) && Before(journey, n - 2) == Some(journey[n - 3]);
    assert Justified(queued, start, serial, Before(journey, n - 1), journey[n - 1]);
    assert Justified(queued, start, serial, Before(journey, n - 2), journey[n - 2]);
    hide Dated, Keyed, Packet.MatchesRequest, AnswersRead, AsksFor, Path;
    var ack := journey[n - 1];
    FirstMatchKeyed(c, crypto, start, queued, when, key, journey[n - 3].since, journey[n - 2].at, PairRequest([]));
    FirstMatchKeyed(c, crypto, start, queued, when, key, ack.from, ack.at, ack.request);
    AskedIsAnswered(serial, ack.request, queued[ack.at]);
  }

  lemma {:induction false} KeyCallIn(journey: seq<Step>, i: nat)
    requires i < |journey| && journey[i].AppKeySet?
    ensures SetAppData(journey[i].key) in KeyCalls(journey)
    decreases |journey|
  {
    if i < |journey| - 1 {
      KeyCallIn(journey[..|journey| - 1], i);
    }
  }

  // ----- the stored key -----

  /** The key a client starts with and whether it counts as supplied. An empty key is replaced, yet counts. */
  function InitialKey(supplied: Option<Bytes>, freshKey: Bytes): (Bytes, bool) {
    (if supplied.Some? && supplied.value != [] then supplied.value else freshKey, supplied.Some?)
  }

  /** The key in the stored entry, when setting up: none, a key, or text that raises. */
  function StoredKey(stored: Option<string>): Result<Option<Bytes>, Error> {
    if stored == None || stored.value == "" then Success(None)
    else if FromHex(stored.value).None? then Failure(Other)
    else Success(FromHex(stored.value))
  }

  /** No stored text, or an empty one, is no key; a client without a key draws one and remembers that it did. */
  lemma KeysAtStart(supplied: Bytes, freshKey: Bytes, text: string)
    ensures StoredKey(None) == Success(None) && StoredKey(Some("")) == Success(None)
    ensures text != "" ==>
              StoredKey(Some(text))
              == match FromHex(text) { case None => Failure(Other) case Some(b) => Success(Some(b)) }
    ensures InitialKey(None, freshKey) == (freshKey, false)
    ensures InitialKey(Some([]), freshKey) == (freshKey, true)
    ensures supplied != [] ==> InitialKey(Some(supplied), freshKey) == (supplied, true)
  {
  }

  /** A restart from the stored text of a key rebuilds that key, marked as supplied. */
  lemma {:induction false} RestartKeepsKey(key: Bytes, freshKey: Bytes)
    ensures key != [] ==> StoredKey(Some(ToHex(key, false))) == Success(Some(key))
                          && InitialKey(StoredKey(Some(ToHex(key, false))).value, freshKey) == (key, true)
    ensures key == [] ==> StoredKey(Some(ToHex(key, false))) == Success(None)
  {
    FromHexToHex(key, false);
  }
}
