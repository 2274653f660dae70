/**
 What every method of the client does to its world, as functions: the receive path, the link, the
 clock and the events still to come. The methods of the client are proved to do exactly this,
 so which error ends a run, and when, is fixed by the events.
 */
module Runs {
  import opened Wrappers
  import opened Bytes
  import opened Errors
  import opened Protocol
  import opened Crypto
  import opened Receiver
  import opened Registers
  import opened RegisterRead
  import opened Snapshots
  import opened Polling
  import opened Session
  import opened Links

  const DEFAULT_CHUNK_SIZE := 20
  const PAIRING_RETRY_INTERVAL := 1

  /** What a client is built with. */
  datatype Setup = Setup(cipher: Cipher, name: Bytes, serialNumber: Register, requestTimeout: int, pairingTimeout: int)

  datatype World = World(rx: Rx, link: Link, now: int, events: seq<Event>, chunkSize: nat) {
    predicate IsUp() {
      link.Link? && link.up
    }

    /** Nothing moves backwards. */
    predicate After(before: World) {
      |events| <= |before.events| && now >= before.now
    }

    function Called(call: Call): World {
      this.(rx := rx.(crypto := rx.crypto + [call]))
    }
  }

  /** Where a run stops, and with what. */
  datatype Ran<+R> = Ran(world: World, result: R)

  // ----- events -----

  function Handle(s: Setup, w: World, e: Event): (w': World)
    ensures w'.events == w.events && w'.now >= w.now
  {
    match e
    case Notify(data) => w.(rx := Notified(s.cipher, w.rx, data))
    case Tick(seconds) => w.(now := w.now + seconds)
    case LinkLost => w.(link := Dropped(w.link, true))
    case Completed(_) => w
  }

  /** The world once the next event has been handled. */
  function Next(s: Setup, w: World): (w': World)
    requires w.events != []
    ensures |w'.events| == |w.events| - 1 && w'.now >= w.now
  {
    Handle(s, w.(events := w.events[1..]), w.events[0])
  }

  /** Until the operation that was begun ends. */
  function Await(s: Setup, w: World): (a: Ran<Completion>)
    ensures a.world.After(w)
    decreases |w.events|
  {
    if w.events == [] then Ran(w, Refused)
    else if w.events[0].Completed? then Ran(Next(s, w), w.events[0].how)
    else Await(s, Next(s, w))
  }

  function ReadClock(w: World): (w': World)
    ensures w'.After(w)
  {
    if w.events != [] && w.events[0].Tick? then w.(now := w.now + w.events[0].seconds, events := w.events[1..]) else w
  }

  /** Until a packet is on the queue or the deadline has passed. */
  function Receive(s: Setup, w: World, deadline: int): (a: Ran<Answer>)
    ensures a.world.After(w)
    ensures a.result.Success? && |a.world.events| == |w.events| ==> |a.world.rx.queue| < |w.rx.queue|
    ensures a.result.Failure? ==> a.result.error == Timeout && a.world.now >= deadline
    decreases |w.events|
  {
    if w.rx.queue != [] then Ran(w.(rx := w.rx.(queue := w.rx.queue[1..])), Success(w.rx.queue[0]))
    else if w.events == [] then Ran(w.(now := if w.now < deadline then deadline else w.now), Failure(Timeout))
    else
      var next := Next(s, w);
      if next.rx.queue == [] && next.now >= deadline then Ran(next, Failure(Timeout))
      else Receive(s, next, deadline)
  }

  // ----- sending and asking -----

  /** How many writes `length` bytes take. */
  function ChunkCount(length: int, size: nat): nat
    decreases length
  {
    if length <= 0 || size == 0 then 0 else 1 + ChunkCount(length - size, size)
  }

  function Write(s: Setup, w: World, chunks: nat): (a: Ran<Result<(), Error>>)
    ensures a.world.After(w)
    ensures a.result.Failure? ==> a.result.error == Connection || a.result.error == Other
    decreases chunks
  {
    if chunks == 0 then Ran(w, Success(()))
    else
      var a := Await(s, w);
      match a.result
      case Refused => Ran(a.world, Failure(Connection))
      case Raised => Ran(a.world, Failure(Other))
      case Worked(_) => Write(s, a.world, chunks - 1)
  }

  function Send(s: Setup, w: World, packet: Packet): (a: Ran<Result<(), Error>>)
    ensures a.world.After(w)
    ensures a.result.Failure? ==> IsLinkError(a.result.error) && a.result.error != Timeout
  {
    if !w.IsUp() then Ran(w, Failure(Connection))
    else
      match packet.Pack()
      case Failure(_) => Ran(w, Failure(Error.Protocol))
      case Success(plain) =>
        Write(s, w.Called(Encrypt(plain)), ChunkCount(|s.cipher.encrypt(w.rx.crypto, plain)|, w.chunkSize))
  }

  function AwaitAnswer(s: Setup, w: World, packet: Packet, deadline: int): (a: Ran<Answer>)
    ensures a.world.After(w)
    ensures a.result.Failure? ==> a.result.error == Timeout
    decreases |w.events|, |w.rx.queue|
  {
    var now := ReadClock(w);
    if deadline <= now.now then Ran(now, Failure(Timeout))
    else
      var a := Receive(s, now, deadline);
      if a.result.Failure? || a.result.value.MatchesRequest(packet) then a
      else AwaitAnswer(s, a.world, packet, deadline)
  }

  function Request(s: Setup, w: World, packet: Packet): (a: Ran<Answer>)
    ensures a.world.After(w)
    ensures a.result.Failure? ==> IsLinkError(a.result.error)
  {
    var sent := Send(s, w, packet);
    match sent.result
    case Failure(e) => Ran(sent.world, Failure(e))
    case Success(_) =>
      var now := ReadClock(sent.world);
      AwaitAnswer(s, now, packet, now.now + s.requestTimeout)
  }

  // ----- reading registers -----

  function WalkRegister(s: Setup, w: World, reg: Register, word: nat, payload: Bytes): (a: Ran<Result<Bytes, Error>>)
    requires word <= Words(reg)
    ensures a.result.Failure? ==> IsLinkError(a.result.error)
    decreases Words(reg) - word
  {
    if word == Words(reg) then Ran(w, Success(Take(payload, reg.length)))
    else
      var a := Request(s, w, WordRequest(reg, word));
      match a.result
      case Failure(e) => Ran(a.world, Failure(e))
      case Success(p) => WalkRegister(s, a.world, reg, word + 1, payload + Take(p.data, 2))
  }

  function ReadRegister(s: Setup, w: World, reg: Register): (a: Ran<Result<Bytes, Error>>)
    ensures a.result.Failure? ==> IsLinkError(a.result.error)
  {
    if reg.length > 255 then Ran(w, Failure(Other))
    else
      var a := Request(s, w, BulkRequest(reg));
      if Walks(reg, a.result) then WalkRegister(s, a.world, reg, 0, [])
      else
        match a.result
        case Success(p) => Ran(a.world, Success(p.data[..reg.length]))
        case Failure(e) => Ran(a.world, Failure(e))
  }

  /** The rest of a poll. */
  function PollRegisters(s: Setup, w: World, regs: seq<Register>, p: Progress): (a: Ran<Result<Snapshot, Error>>)
    ensures a.result.Failure? ==> a.result.error == Connection || a.result.error == Other
    decreases |regs|
  {
    if regs == [] then Ran(w, Success(p.state))
    else
      var read := ReadRegister(s, w, regs[0]);
      match Abort(read.result, p.streak)
      case Some(e) => Ran(read.world, Failure(e))
      case None => PollRegisters(s, read.world, regs[1..], Recorded(regs[0], read.result, p))
  }

  function AsyncPoll(s: Setup, w: World, regs: seq<Register>): Ran<Result<Snapshot, Error>> {
    if w.IsUp() then PollRegisters(s, w, regs, START) else Ran(w, Failure(Connection))
  }

  // ----- the handshake -----

  /** Ask once for the button press. */
  function AskToPair(s: Setup, w: World, challenge: Bytes): (a: Ran<Result<bool, Error>>)
    ensures a.world.After(w)
    ensures a.result.Failure? ==> IsLinkError(a.result.error) && a.result.error != Timeout
  {
    var sent := Send(s, w, PairRequest(challenge));
    match sent.result
    case Failure(e) => Ran(sent.world, Failure(e))
    case Success(_) =>
      var a := Receive(s, sent.world, sent.world.now + PAIRING_RETRY_INTERVAL);
      Ran(a.world, Success(a.result.Success? && AcceptsPairing(a.result.value)))
  }

  /** One turn of the pairing loop: how it ends the loop, if it does. */
  function PairingTurn(s: Setup, w: World, challenge: Bytes, deadline: int): Ran<Option<Result<(), Error>>> {
    var now := ReadClock(w);
    if now.now >= deadline then Ran(now, Some(Failure(PairingRequired)))
    else
      var a := AskToPair(s, now, challenge);
      Ran(a.world, match a.result
                   case Failure(e) => Some(Failure(e))
                   case Success(accepted) => if accepted then Some(Success(())) else None)
  }

  /** Until a packet accepts or the deadline has passed. */
  function AwaitPairing(s: Setup, w: World, challenge: Bytes, deadline: int): (a: Ran<Result<(), Error>>)
    ensures a.result.Failure? ==>
              a.result.error == PairingRequired || (IsLinkError(a.result.error) && a.result.error != Timeout)
    decreases |w.events|, |w.rx.queue| + if w.now < deadline then deadline - w.now else 0
  {
    var a := PairingTurn(s, w, challenge, deadline);
    if a.result.Some? then Ran(a.world, a.result.value) else AwaitPairing(s, a.world, challenge, deadline)
  }

  /** INIT: the scooter's key is installed and its challenge is the result. */
  function Introduce(s: Setup, w: World): Ran<Result<Bytes, Error>> {
    var init := Request(s, w, InitRequest());
    match init.result
    case Failure(e) => Ran(init.world, Failure(e))
    case Success(p) =>
      if |p.data| < APP_KEY_LENGTH then Ran(init.world, Failure(Auth))
      else Ran(init.world.Called(SetBleData(p.data[..APP_KEY_LENGTH])), Success(p.data[APP_KEY_LENGTH..]))
  }

  /** With a PING reply in hand, pair if it asks for that. */
  function PairIfNeeded(s: Setup, w: World, ping: Packet, challenge: Bytes): Ran<Result<(), Error>> {
    if ping.index == 0 then
      var now := ReadClock(w);
      AwaitPairing(s, now, challenge, now.now + s.pairingTimeout)
    else Ran(w, Success(()))
  }

  /** PING and, if asked for, pairing; then the session key is installed. */
  function Authorize(s: Setup, w: World, appKey: Bytes, challenge: Bytes): Ran<Result<(), Error>> {
    var ping := Request(s, w, PingRequest(appKey));
    match ping.result
    case Failure(e) => Ran(ping.world, Failure(e))
    case Success(p) =>
      var paired := PairIfNeeded(s, ping.world, p, challenge);
      if paired.result.Success? then Ran(paired.world.Called(SetAppData(appKey)), paired.result) else paired
  }

  function ClosePairing(s: Setup, w: World, challenge: Bytes): Ran<Result<(), Error>> {
    var a := Request(s, w, PairRequest(challenge));
    Ran(a.world, if a.result.Success? then Success(()) else Failure(a.result.error))
  }

  /** How the read that proves a session ends it. */
  function Verdict(read: Result<Bytes, Error>): Result<(), Error> {
    match read
    case Success(_) => Success(())
    case Failure(e) => Failure(if e == Timeout || e == Error.Protocol then Auth else e)
  }

  function VerifySession(s: Setup, w: World): Ran<Result<(), Error>> {
    var read := ReadRegister(s, w, s.serialNumber);
    Ran(read.world, Verdict(read.result))
  }

  /** What is left once the session key is installed. */
  function Settle(s: Setup, w: World, challenge: Bytes): Ran<Result<(), Error>> {
    var a := ClosePairing(s, w, challenge);
    if a.result.Failure? then a else VerifySession(s, a.world)
  }

  function Handshake(s: Setup, w: World, appKey: Bytes): Ran<Result<(), Error>> {
    var a := Introduce(s, w);
    match a.result
    case Failure(e) => Ran(a.world, Failure(e))
    case Success(challenge) =>
      var b := Authorize(s, a.world, appKey, challenge);
      if b.result.Failure? then b else Settle(s, b.world, challenge)
  }

  // ----- opening and closing the link -----

  function CloseForgotten(s: Setup, w: World): Ran<Result<(), Error>> {
    var a := Await(s, w);
    if a.result == Raised then Ran(a.world, Failure(Other))
    else
      var b := Await(s, a.world);
      Ran(b.world, if b.result == Raised then Failure(Other) else Success(()))
  }

  function Disconnect(s: Setup, w: World): Ran<Result<(), Error>> {
    var forgotten := w.(link := NoLink);
    if w.IsUp() then CloseForgotten(s, forgotten) else Ran(forgotten, Success(()))
  }

  function Subscribe(s: Setup, w: World, characteristic: Option<nat>): Ran<Result<(), Error>> {
    var a := Await(s, w);
    match a.result
    case Refused => Ran(a.world.(link := NoLink), Failure(Connection))
    case Raised => Ran(a.world, Failure(Other))
    case Worked(_) =>
      match characteristic
      case None =>
        var closed := Disconnect(s, a.world);
        Ran(closed.world, Failure(if closed.result.Failure? then Other else Connection))
      case Some(size) =>
        Ran(a.world.(chunkSize := if size == 0 then DEFAULT_CHUNK_SIZE else size), Success(()))
  }

  function OpenLink(s: Setup, w: World): Ran<Result<(), Error>> {
    var a := Await(s, w);
    match a.result
    case Refused => Ran(a.world.(link := NoLink), Failure(Connection))
    case Raised => Ran(a.world, Failure(Other))
    case Worked(characteristic) => Subscribe(s, a.world.(link := Link(true)), characteristic)
  }

  function ConnectTransport(s: Setup, w: World): (a: Ran<Result<(), Error>>)
    ensures a.result.Failure? ==> a.result.error == Connection || a.result.error == Other
  {
    OpenLink(s, w.(rx := Rx([], [], [SetName(s.name)])))
  }

  function OpenSession(s: Setup, w: World, appKey: Bytes): Ran<Result<(), Error>> {
    var a := ConnectTransport(s, w);
    if a.result.Failure? then a else Handshake(s, a.world, appKey)
  }

  /** The key an error leads to: a supplied one that was rejected gives way to a fresh one. */
  predicate Replaces(r: Result<(), Error>, supplied: bool) {
    r.Failure? && IsAuth(r.error) && supplied
  }

  function Connect(s: Setup, w: World, appKey: Bytes, supplied: bool, freshKey: Bytes): Ran<Result<(), Error>> {
    var first := OpenSession(s, w, appKey);
    if !Replaces(first.result, supplied) then first
    else
      var closed := Disconnect(s, first.world);
      if closed.result.Failure? then closed else OpenSession(s, closed.world, freshKey)
  }

  /** Connect unless the link is up, then poll; a new link is polled for the static registers too. */
  function AsyncUpdate(s: Setup, w: World, appKey: Bytes, supplied: bool, freshKey: Bytes, table: seq<Register>,
                       firstPoll: bool): Ran<Result<Snapshot, Error>> {
    if w.IsUp() then AsyncPoll(s, w, PollTable(table, firstPoll))
    else
      var a := Connect(s, w, appKey, supplied, freshKey);
      match a.result
      case Failure(e) => Ran(a.world, Failure(e))
      case Success(_) => AsyncPoll(s, a.world, PollTable(table, true))
  }

  // ----- which error comes from where -----

  /** Awaiting an operation ends as its events end it. */
  lemma {:induction false} AwaitEnds(s: Setup, w: World)
    ensures var a := Await(s, w); a.result == Ending(w.events).how && a.world.events == Ending(w.events).rest
    decreases |w.events|
  {
    if w.events != [] && !w.events[0].Completed? {
      AwaitEnds(s, Next(s, w));
    }
  }

  /** How the first write that does not work ends, if one of so many does not. */
  function WriteEnding(events: seq<Event>, writes: nat): Option<Completion>
    decreases writes
  {
    if writes == 0 then None
    else if Ending(events).how.Worked? then WriteEnding(Ending(events).rest, writes - 1)
    else Some(Ending(events).how)
  }

  /** A refused write is a connection error, and one that raises anything else something foreign. */
  lemma {:induction false} WriteErrors(s: Setup, w: World, chunks: nat)
    ensures Write(s, w, chunks).result == match WriteEnding(w.events, chunks)
                                          case None => Success(())
                                          case Some(Refused) => Failure(Connection)
                                          case Some(_) => Failure(Other)
    decreases chunks
  {
    AwaitEnds(s, w);
    if chunks > 0 && Await(s, w).result.Worked? {
      WriteErrors(s, Await(s, w).world, chunks - 1);
    }
  }

  /** So many writes as it takes pieces of the negotiated size to hold the bytes. */
  lemma {:induction false} ChunksHold(length: nat, size: nat)
    requires size > 0
    ensures ChunkCount(length, size) * size >= length
    ensures length > 0 ==> (ChunkCount(length, size) - 1) * size < length
    decreases length
  {
    if length > size {
      ChunksHold(length - size, size);
    } else if length > 0 {
      assert ChunkCount(length - size, size) == 0;
    }
  }

  /** How opening a link and subscribing on it ends, by how the operations do. */
  lemma {:induction false} TransportEnds(s: Setup, w: World)
    ensures var open := Ending(w.events);
            var subscribe := Ending(open.rest);
            var stop := Ending(subscribe.rest);
            ConnectTransport(s, w).result ==
              match open.how
              case Refused => Failure(Connection)
              case Raised => Failure(Other)
              case Worked(characteristic) =>
                match subscribe.how
                case Refused => Failure(Connection)
                case Raised => Failure(Other)
                case Worked(_) =>
                  if characteristic.Some? then Success(())
                  else if !subscribe.lost && (stop.how == Raised || Ending(stop.rest).how == Raised) then Failure(Other)
                  else Failure(Connection)
    ensures var open := Ending(w.events);
            var subscribe := Ending(open.rest);
            ConnectTransport(s, w).world.link ==
              match open.how
              case Refused => NoLink
              case Raised => Dropped(w.link, open.lost)
              case Worked(characteristic) =>
                if subscribe.how == Refused || (subscribe.how.Worked? && characteristic.None?) then NoLink
                else Link(!subscribe.lost)
  {
    hide Await;
    var blank := w.(rx := Rx([], [], [SetName(s.name)]));
    AwaitEnds(s, blank);
    AwaitLink(s, blank);
    var a := Await(s, blank);
    if a.result.Worked? {
      var up := a.world.(link := Link(true));
      AwaitEnds(s, up);
      AwaitLink(s, up);
      var b := Await(s, up);
      if b.result.Worked? && a.result.characteristic.None? {
        AwaitEnds(s, b.world.(link := NoLink));
        var c := Await(s, b.world.(link := NoLink));
        AwaitEnds(s, c.world);
        AwaitLink(s, b.world.(link := NoLink));
        AwaitLink(s, c.world);
      }
    }
  }

  lemma {:induction false} AwaitLink(s: Setup, w: World)
    ensures Await(s, w).world.link == Dropped(w.link, Ending(w.events).lost)
    decreases |w.events|
  {
    if w.events != [] && !w.events[0].Completed? {
      AwaitLink(s, Next(s, w));
    }
  }

  /** The world after so many events, while nothing else happens. */
  function Ahead(s: Setup, w: World, k: nat): World
    requires k <= |w.events|
    decreases k
  {
    if k == 0 then w else Ahead(s, Next(s, w), k - 1)
  }

  /** After so many events a packet waits, and the event before the last was handled in time. */
  predicate Arrives(s: Setup, w: World, deadline: int, k: nat) {
    k <= |w.events| && Ahead(s, w, k).rx.queue != [] && (k > 1 ==> Ahead(s, w, k - 1).now < deadline)
  }

  lemma {:induction false} TimeGoesOn(s: Setup, w: World, k: nat)
    requires k <= |w.events|
    ensures Ahead(s, w, k).now >= w.now
    decreases k
  {
    if k > 0 {
      TimeGoesOn(s, Next(s, w), k - 1);
    }
  }

  /** Waiting for a packet succeeds exactly when one arrives in time. */
  lemma {:induction false} ReceiveIffArrives(s: Setup, w: World, deadline: int)
    ensures Receive(s, w, deadline).result.Success? <==> exists k: nat :: Arrives(s, w, deadline, k)
    decreases |w.events|
  {
    hide Next;
    if w.rx.queue != [] {
      assert Arrives(s, w, deadline, 0);
    } else if w.events != [] {
      var next := Next(s, w);
      ReceiveIffArrives(s, next, deadline);
      if next.rx.queue != [] {
        assert Arrives(s, next, deadline, 0) && Arrives(s, w, deadline, 1);
      } else {
        forall k: nat | Arrives(s, w, deadline, k)
          ensures k > 1 && Arrives(s, next, deadline, k - 1) && next.now < deadline
        {
          TimeGoesOn(s, next, k - 2);
        }
        if next.now < deadline {
          forall k: nat | Arrives(s, next, deadline, k)
            ensures Arrives(s, w, deadline, k + 1)
          {
          }
        }
      }
    }
  }

  /** The serial number could not be read under the new key, for want of an answer. */
  predicate KeyRejected(s: Setup, w: World, appKey: Bytes) {
    var a := Introduce(s, w);
    && a.result.Success?
    && var b := Authorize(s, a.world, appKey, a.result.value);
    && b.result.Success?
    && var c := ClosePairing(s, b.world, a.result.value);
    && c.result.Success?
    && ReadRegister(s, c.world, s.serialNumber).result in {Failure(Timeout), Failure(Error.Protocol)}
  }

  /**
   So many requests to pair go out, each before the deadline; every one is written, and no packet taken
   for it accepts. Then the clock is past the deadline.
   */
  predicate InVain(s: Setup, w: World, challenge: Bytes, deadline: int, asked: nat)
    decreases asked
  {
    var now := ReadClock(w);
    if asked == 0 then deadline <= now.now
    else
      && now.now < deadline
      && var sent := Send(s, now, PairRequest(challenge));
      && sent.result.Success?
      && var a := Receive(s, sent.world, sent.world.now + 1);
      && (a.result.Success? ==> a.result.value.index != 1 || a.result.value.command !in {PING, PAIR})
      && InVain(s, a.world, challenge, deadline, asked - 1)
  }

  /**
   After so many requests to pair in vain one more is written before the deadline, and the packet taken
   for it is a PING or PAIR with status one.
   */
  predicate AcceptedAfter(s: Setup, w: World, challenge: Bytes, deadline: int, asked: nat)
    decreases asked
  {
    var now := ReadClock(w);
    && now.now < deadline
    && var sent := Send(s, now, PairRequest(challenge));
    && sent.result.Success?
    && var a := Receive(s, sent.world, sent.world.now + 1);
    var accepted := a.result.Success? && a.result.value.index == 1 && a.result.value.command in {PING, PAIR};
    if asked == 0 then accepted else !accepted && AcceptedAfter(s, a.world, challenge, deadline, asked - 1)
  }

  ghost predicate GivenUp(s: Setup, w: World, challenge: Bytes, deadline: int) {
    exists asked: nat :: InVain(s, w, challenge, deadline, asked)
  }

  /** Pairing is given up exactly when it was asked for in vain until the deadline. */
  lemma {:induction false} PairingTimesOutIff(s: Setup, w: World, challenge: Bytes, deadline: int)
    ensures AwaitPairing(s, w, challenge, deadline).result == Failure(PairingRequired)
            <==> GivenUp(s, w, challenge, deadline)
    decreases |w.events|, |w.rx.queue| + if w.now < deadline then deadline - w.now else 0
  {
    hide Send, Receive, ReadClock;
    var now := ReadClock(w);
    if now.now >= deadline {
      assert InVain(s, w, challenge, deadline, 0);
    } else {
      var turn := PairingTurn(s, w, challenge, deadline);
      if turn.result.None? {
        TurnMovesOn(s, w, challenge, deadline);
        PairingTimesOutIff(s, turn.world, challenge, deadline);
        forall n: nat | InVain(s, turn.world, challenge, deadline, n)
          ensures InVain(s, w, challenge, deadline, n + 1)
        {
        }
        forall n: nat | InVain(s, w, challenge, deadline, n)
          ensures n > 0 && InVain(s, turn.world, challenge, deadline, n - 1)
        {
        }
      } else {
        forall n: nat
          ensures !InVain(s, w, challenge, deadline, n)
        {
        }
      }
    }
  }

  ghost predicate ButtonPressed(s: Setup, w: World, challenge: Bytes, deadline: int) {
    exists asked: nat :: AcceptedAfter(s, w, challenge, deadline, asked)
  }

  /** Pairing succeeds exactly when a packet accepts it in time; replies with another status never do. */
  lemma {:induction false} PairingSucceedsIff(s: Setup, w: World, challenge: Bytes, deadline: int)
    ensures AwaitPairing(s, w, challenge, deadline).result.Success? <==> ButtonPressed(s, w, challenge, deadline)
    decreases |w.events|, |w.rx.queue| + if w.now < deadline then deadline - w.now else 0
  {
    hide Send, Receive, ReadClock;
    var now := ReadClock(w);
    var turn := PairingTurn(s, w, challenge, deadline);
    if turn.result == Some(Success(())) {
      assert AcceptedAfter(s, w, challenge, deadline, 0);
    } else if turn.result.None? {
      TurnMovesOn(s, w, challenge, deadline);
      PairingSucceedsIff(s, turn.world, challenge, deadline);
      forall n: nat | AcceptedAfter(s, turn.world, challenge, deadline, n)
        ensures AcceptedAfter(s, w, challenge, deadline, n + 1)
      {
      }
      forall n: nat | AcceptedAfter(s, w, challenge, deadline, n)
        ensures n > 0 && AcceptedAfter(s, turn.world, challenge, deadline, n - 1)
      {
      }
    } else {
      forall n: nat
        ensures !AcceptedAfter(s, w, challenge, deadline, n)
      {
      }
    }
  }

  lemma TurnMovesOn(s: Setup, w: World, challenge: Bytes, deadline: int)
    requires PairingTurn(s, w, challenge, deadline).result.None?
    ensures var next := PairingTurn(s, w, challenge, deadline).world;
            || |next.events| < |w.events|
            || (|next.events| == |w.events|
                && |next.rx.queue| + (if next.now < deadline then deadline - next.now else 0)
                   < |w.rx.queue| + (if w.now < deadline then deadline - w.now else 0))
  {
  }

  /** The scooter did not know the key, and pairing was asked for in vain until it was given up. */
  ghost predicate NotPaired(s: Setup, w: World, appKey: Bytes) {
    var a := Introduce(s, w);
    && a.result.Success?
    && var ping := Request(s, a.world, PingRequest(appKey));
    && ping.result.Success? && ping.result.value.index == 0
    && var now := ReadClock(ping.world);
    GivenUp(s, now, a.result.value, now.now + s.pairingTimeout)
  }

  predicate IntroducedTooShort(s: Setup, w: World) {
    var init := Request(s, w, InitRequest());
    init.result.Success? && |init.result.value.data| < APP_KEY_LENGTH
  }

  /** Where the two errors of a handshake that can lead to pairing anew come from. */
  lemma {:induction false} HandshakeErrorsIff(s: Setup, w: World, appKey: Bytes)
    ensures Handshake(s, w, appKey).result == Failure(Auth)
            <==> IntroducedTooShort(s, w) || KeyRejected(s, w, appKey)
    ensures Handshake(s, w, appKey).result == Failure(PairingRequired) <==> NotPaired(s, w, appKey)
  {
    hide Request, ReadRegister, AwaitPairing, GivenUp, ReadClock;
    var a := Introduce(s, w);
    if a.result.Success? {
      var ping := Request(s, a.world, PingRequest(appKey));
      var now := ReadClock(ping.world);
      PairingTimesOutIff(s, now, a.result.value, now.now + s.pairingTimeout);
    }
  }

  /** A supplied key gives way to a fresh one exactly when the link opened and the handshake rejected the key. */
  lemma {:induction false} ReplacesIff(s: Setup, w: World, appKey: Bytes, supplied: bool)
    ensures Replaces(OpenSession(s, w, appKey).result, supplied)
            <==> var a := ConnectTransport(s, w);
                 && supplied && a.result.Success?
                 && (IntroducedTooShort(s, a.world) || KeyRejected(s, a.world, appKey) || NotPaired(s, a.world, appKey))
  {
    hide Handshake, ConnectTransport, IntroducedTooShort, KeyRejected, NotPaired;
    HandshakeErrorsIff(s, ConnectTransport(s, w).world, appKey);
  }

  /** A session was asked for that the scooter does not know the key of. */
  ghost predicate SessionNotPaired(s: Setup, w: World, appKey: Bytes) {
    var a := ConnectTransport(s, w);
    a.result.Success? && NotPaired(s, a.world, appKey)
  }

  /**
   An update ends for want of pairing exactly when there was no link and the last session asked for is
   not paired: the only one when the key was not supplied, the second one when it was and gave way.
   */
  lemma {:induction false} UpdateNeedsPairingIff(s: Setup, w: World, appKey: Bytes, supplied: bool, freshKey: Bytes,
                                                 table: seq<Register>, firstPoll: bool)
    ensures AsyncUpdate(s, w, appKey, supplied, freshKey, table, firstPoll).result == Failure(PairingRequired)
            <==> !w.IsUp()
                 && var first := OpenSession(s, w, appKey);
                 if Replaces(first.result, supplied) then
                   var closed := Disconnect(s, first.world);
                   closed.result.Success? && SessionNotPaired(s, closed.world, freshKey)
                 else SessionNotPaired(s, w, appKey)
  {
    hide Handshake, ConnectTransport, NotPaired, PollRegisters, CloseForgotten;
    HandshakeErrorsIff(s, ConnectTransport(s, w).world, appKey);
    var closed := Disconnect(s, OpenSession(s, w, appKey).world);
    DisconnectErrors(s, OpenSession(s, w, appKey).world);
    HandshakeErrorsIff(s, ConnectTransport(s, closed.world).world, freshKey);
  }

  lemma DisconnectErrors(s: Setup, w: World)
    ensures Disconnect(s, w).result.Failure? ==> Disconnect(s, w).result.error == Other
  {
  }
}
