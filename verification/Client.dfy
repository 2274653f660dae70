/**
 The BLE client: one object whose fields the event loop and the awaiting methods update. What
 the outside world does during a run is a finite list of events; when the list is used up
 nothing more happens, so a pending operation fails and a pending wait runs out.
 */
module Client {
  import opened Wrappers
  import opened Bytes
  import opened Errors
  import opened Protocol
  import opened Crypto
  import opened Framing
  import opened Receiver
  import opened Registers
  import opened RegisterRead
  import opened Snapshots
  import opened Models
  import opened Polling
  import opened Session
  import opened Hex
  import opened Links
  import opened Runs

  class NinebotClient {
    const cipher: Cipher
    const name: Bytes
    const table: seq<Register>
    const serialNumber: Register
    const requestTimeout: int
    const pairingTimeout: int
    /** What the scooter's boards hold, for saying which replies are true. */
    ghost const memory: Memory

    var appKey: Bytes
    var appKeyWasSupplied: bool
    var crypto: Crypto
    var link: Link
    var responses: seq<Packet>
    var buffer: Bytes
    var chunkSize: nat
    var serialChallenge: Bytes

    var events: seq<Event>
    var now: int

    /** Bytes notified since the buffer was last cleared. */
    ghost var arrived: Bytes
    /** Every packet ever put on the queue, and how many of them have been taken off. */
    ghost var queued: seq<Packet>
    ghost var taken: nat
    /** For each of them, how many calls the cipher of its link had seen when it was decrypted. */
    ghost var decryptedAt: seq<nat>
    /** Packets queued when the queue was last emptied for a new link. */
    ghost var linkStart: nat
    ghost var journey: seq<Step>
    /** Packets encrypted for sending, chunks written and links opened, ever. */
    ghost var sent: seq<Packet>
    /** For each packet sent, how many had been taken off the queue by then. */
    ghost var sentAt: seq<nat>
    ghost var written: seq<Bytes>
    ghost var linksOpened: nat
    /** The operations on links, and how many links were let go of while up and not told to close. */
    ghost var operations: seq<Operation>
    ghost var orphaned: nat

    constructor (cipher: Cipher, name: Bytes, table: seq<Register>, serialNumber: Register,
                 suppliedKey: Option<Bytes>, freshKey: Bytes, requestTimeout: int, pairingTimeout: int,
                 ghost memory: Memory)
      requires |freshKey| == APP_KEY_LENGTH
      ensures Valid() && Traced() && link == NoLink && (appKey, appKeyWasSupplied) == InitialKey(suppliedKey, freshKey)
      ensures appKey != []
      ensures Receiving() == Rx([], [], []) && arrived == [] && chunkSize == 20
      ensures serialChallenge == [] && events == [] && now == 0
      ensures queued == [] && taken == 0 && linkStart == 0 && journey == [] && sent == [] && written == []
      ensures decryptedAt == [] && sentAt == []
      ensures linksOpened == 0 && operations == [] && orphaned == 0
      ensures this.cipher == cipher && this.name == name && this.table == table && this.memory == memory
      ensures this.serialNumber == serialNumber
      ensures this.requestTimeout == requestTimeout && this.pairingTimeout == pairingTimeout
    {
      this.cipher, this.name, this.table, this.serialNumber := cipher, name, table, serialNumber;
      this.requestTimeout, this.pairingTimeout, this.memory := requestTimeout, pairingTimeout, memory;
      appKey := if suppliedKey.Some? && suppliedKey.value != [] then suppliedKey.value else freshKey;
      appKeyWasSupplied := suppliedKey.Some?;
      crypto, link, responses, buffer := [], NoLink, [], [];
      chunkSize, serialChallenge := DEFAULT_CHUNK_SIZE, [];
      events, now := [], 0;
      arrived, queued, taken, linkStart, journey := [], [], 0, 0, [];
      decryptedAt, sentAt := [], [];
      sent, written, linksOpened, operations, orphaned := [], [], 0, [], 0;
    }

    ghost predicate QueueOk()
      reads `queued, `taken, `responses
    {
      && taken <= |queued|
      && responses == queued[taken..]
      && |responses| <= QUEUE_LIMIT
      && Unpacked(queued)
    }

    /** Packets as unpacking leaves them. */
    static ghost predicate Unpacked(packets: seq<Packet>) {
      forall i :: 0 <= i < |packets| ==> packets[i].OnWire()
    }

    /** Packets taken off the queue so far. */
    ghost function Heard(): seq<Packet>
      requires QueueOk()
      reads `queued, `taken, `responses
    {
      queued[..taken]
    }

    /**
     What every method keeps: the buffer and the cipher's decryptions are those of the whole
     stream since the link was opened, the queue is the untaken part of the history, and every packet
     of this link was decrypted by the call noted for it.
     */
    ghost predicate Valid()
      reads `queued, `taken, `responses, `chunkSize, `buffer, `arrived, `crypto, `linkStart, `decryptedAt
      reads `sent, `sentAt
    {
      && QueueOk()
      && chunkSize > 0
      && buffer == Residue(arrived)
      && Decryptions(crypto) == FramesIn(arrived)
      && Dated(cipher, crypto, linkStart, queued, decryptedAt)
      && |sentAt| == |sent|
    }

    /** The keys the cipher holds were installed along a journey the packets heard and sent justify. */
    ghost predicate Traced()
      reads `queued, `taken, `responses, `linkStart, `journey, `crypto, `sent, `sentAt
    {
      && QueueOk()
      && linkStart <= taken
      && Path(Heard(), linkStart, serialNumber, journey)
      && Keys(crypto) == KeyCalls(journey)
      && Named(journey, sent, sentAt)
    }

    ghost function Receiving(): Rx
      reads `buffer, `responses, `crypto
    {
      Rx(buffer, responses, crypto)
    }

    /** What a run starts from and changes, and what it is given. */
    ghost function AsWorld(): World
      reads `buffer, `responses, `crypto, `link, `now, `events, `chunkSize
    {
      World(Receiving(), link, now, events, chunkSize)
    }

    ghost function AsSetup(): Setup {
      Setup(cipher, name, serialNumber, requestTimeout, pairingTimeout)
    }

    predicate IsConnected()
      reads `link
    {
      link.Link? && link.up
    }

    /** Every packet that ever reached the queue tells the truth about the memory. */
    ghost predicate HonestTraffic()
      reads `queued
    {
      forall p :: p in queued ==> Honest(memory, p)
    }

    /** Time and histories only move one way, and traffic that lied stays so. */
    twostate predicate Onward()
      reads `queued, `taken, `now, `events
    {
      && old(taken) <= taken && old(now) <= now && |events| <= |old(events)|
      && old(queued) <= queued && (HonestTraffic() ==> old(HonestTraffic()))
    }

    /** A link can only drop. */
    twostate predicate SameLink()
      reads `link
    {
      link == old(link) || (old(link).Link? && link == Link(false))
    }

    /** Every link let go of since then, and no other, is accounted for by an operation that leaks. */
    twostate predicate LeaksAccounted()
      reads `operations, `orphaned
    {
      && old(operations) <= operations
      && orphaned + LeakCount(old(operations)) == old(orphaned) + LeakCount(operations)
    }

    /** Only time, traffic and the link moved on; no key was installed. */
    twostate predicate Later()
      reads `queued, `taken, `now, `link, `events, `crypto
    {
      Onward() && SameLink() && Keys(crypto) == old(Keys(crypto))
    }

    /** Packets sent since then are on record behind the earlier ones. */
    twostate predicate SendsOn()
      reads `sent, `sentAt
    {
      && old(sent) <= sent && old(sentAt) <= sentAt
      && |sent| + old(|sentAt|) == old(|sent|) + |sentAt|
    }

    /** `packet` was sent, and nothing else, before anything more was taken off the queue. */
    twostate predicate SentOnly(packet: Packet)
      reads `sent, `sentAt
    {
      sent == old(sent) + [packet] && sentAt == old(sentAt) + [old(taken)]
    }

    /** Events were used up, or none was and the queue is as it was. */
    twostate predicate UsedEvents()
      reads `events, `responses
    {
      |events| < |old(events)| || (events == old(events) && responses == old(responses))
    }

    /** Of the receive path, only `data` came in. */
    twostate predicate Received(data: Bytes)
      reads `buffer, `responses, `crypto, `arrived, `taken
    {
      && arrived == old(arrived) + data && taken == old(taken)
      && Receiving() == Notified(cipher, old(Receiving()), data)
    }

    // ----- receiving -----

    /** One decryption per frame; what it holds goes on the queue if it is a packet and there is room. */
    method Dispatch(frame: Bytes)
      requires QueueOk() && Dated(cipher, crypto, linkStart, queued, decryptedAt)
      modifies `crypto, `responses, `queued, `decryptedAt
      ensures QueueOk() && old(queued) <= queued && Dated(cipher, crypto, linkStart, queued, decryptedAt)
      ensures Receiving() == Dispatched(cipher, old(Receiving()), frame)
    {
      hide Dated;
      DatedGrows(cipher, crypto, Decrypt(frame), linkStart, queued, decryptedAt);
      ghost var calls := |crypto|;
      var plaintext := cipher.decrypt(crypto, frame);
      crypto := crypto + [Decrypt(frame)];
      if plaintext.None? {
        return;
      }
      var packet := Unpack(plaintext.value);
      if packet.Failure? {
        return;
      }
      if |responses| < QUEUE_LIMIT {
        PackUnpack(plaintext.value);
        responses := responses + [packet.value];
        queued, decryptedAt := queued + [packet.value], decryptedAt + [calls];
      }
    }

    /** Cut every frame that is whole by now off the buffer and dispatch it; keep only what may be part of one. */
    method OnNotify(data: Bytes)
      requires QueueOk() && Dated(cipher, crypto, linkStart, queued, decryptedAt)
      modifies `buffer, `crypto, `responses, `queued, `decryptedAt
      ensures QueueOk() && old(queued) <= queued && Dated(cipher, crypto, linkStart, queued, decryptedAt)
      ensures Receiving() == Notified(cipher, old(Receiving()), data)
    {
      hide Finished, Notified, Dispatched, Unpacked, Scan, Dated;
      FinishNotified(cipher, Receiving(), data);
      buffer := buffer + data;
      while true
        invariant QueueOk() && old(queued) <= queued && Dated(cipher, crypto, linkStart, queued, decryptedAt)
        invariant Finished(cipher, Receiving()) == Notified(cipher, old(Receiving()), data)
        decreases |buffer|
      {
        var first := Find(buffer);
        if first < 0 {
          if |buffer| > 1 {
            FinishSkip(cipher, Receiving(), |buffer| - 1);
          }
          buffer := buffer[if |buffer| > 1 then |buffer| - 1 else 0..];
          Waits(buffer);
          break;
        }
        if first > 0 {
          FinishSkip(cipher, Receiving(), first);
          buffer := buffer[first..];
        }
        var total := ExpectedFrameLength(buffer);
        if total.None? || |buffer| < total.value {
          Waits(buffer);
          break;
        }
        FinishCut(cipher, Receiving(), total.value);
        var frame := buffer[..total.value];
        buffer := buffer[total.value..];
        Dispatch(frame);
      }
      FinishNotified(cipher, Receiving(), []);
    }

    /** Nothing heard or sent since then undoes a journey. */
    lemma StillTraced(heard: seq<Packet>, said: seq<Packet>, saidAt: seq<nat>)
      requires QueueOk() && linkStart <= |heard| && heard <= Heard()
      requires Path(heard, linkStart, serialNumber, journey) && Keys(crypto) == KeyCalls(journey)
      requires Named(journey, said, saidAt) && said <= sent && saidAt <= sentAt && |sent| == |sentAt|
      ensures Traced()
    {
      PathGrows(heard, Heard(), linkStart, serialNumber, journey);
      NamedGrows(journey, said, saidAt, sent, sentAt);
    }

    // ----- the event loop -----

    /** One event of the outside world, handled between two steps of whatever is awaiting. */
    method HandleEvent(e: Event)
      requires Valid()
      modifies `buffer, `crypto, `responses, `queued, `decryptedAt, `arrived, `link, `now
      ensures Valid() && Later()
      ensures Received(Payload(e))
      ensures now == old(now) + (if e.Tick? then e.seconds else 0)
      ensures link == if e.LinkLost? && old(link).Link? then Link(false) else old(link)
      ensures AsWorld() == Runs.Handle(AsSetup(), old(AsWorld()), e)
    {
      match e
      case Notify(data) =>
        Deliver(data);
      case Tick(seconds) =>
        ReceivedNothing();
        now := now + seconds;
      case LinkLost =>
        ReceivedNothing();
        if link.Link? {
          link := Link(false);
        }
      case Completed(_) =>
        ReceivedNothing();
    }

    static function Payload(e: Event): Bytes {
      if e.Notify? then e.data else []
    }

    /** The link's notification callback runs. */
    method Deliver(data: Bytes)
      requires Valid()
      modifies `buffer, `crypto, `responses, `queued, `decryptedAt, `arrived
      ensures Valid() && old(queued) <= queued && Received(data) && Keys(crypto) == old(Keys(crypto))
    {
      NotifiedKeeps(cipher, Receiving(), arrived, data);
      OnNotify(data);
      arrived := arrived + data;
    }

    lemma ReceivedNothing()
      requires Valid()
      ensures Notified(cipher, Receiving(), []) == Receiving()
    {
      ResidueIsSettled(arrived);
      FinishNotified(cipher, Receiving(), []);
      assert buffer + [] == buffer;
    }

    /** Handle the next event. */
    method HandleNext()
      requires Valid() && events != []
      modifies `buffer, `crypto, `responses, `queued, `decryptedAt, `arrived, `link, `now, `events
      ensures Valid() && Later() && taken == old(taken) && events == old(events)[1..]
      ensures link == Dropped(old(link), old(events)[0].LinkLost?)
      ensures AsWorld() == Runs.Next(AsSetup(), old(AsWorld()))
    {
      hide Valid, Keys, HonestTraffic, Notified, Received, Runs.Handle;
      var e := events[0];
      events := events[1..];
      HandleEvent(e);
    }

    /** Handle events until one ends the operation that was begun. */
    method Await() returns (how: Completion, ghost lost: bool)
      requires Valid()
      modifies `buffer, `crypto, `responses, `queued, `decryptedAt, `arrived, `link, `now, `events
      ensures Valid() && Later()
      ensures UsedEvents() && (events == old(events) ==> how == Refused)
      ensures Ended(how, lost, events) == Ending(old(events)) && link == Dropped(old(link), lost)
      ensures Ran(AsWorld(), how) == Runs.Await(AsSetup(), old(AsWorld()))
    {
      hide Valid, Keys, HonestTraffic, Runs.Next;
      lost := false;
      while events != []
        invariant Valid() && Later() && UsedEvents()
        invariant link == Dropped(old(link), lost)
        invariant var e := Ending(events); Ending(old(events)) == e.(lost := lost || e.lost)
        invariant Runs.Await(AsSetup(), AsWorld()) == Runs.Await(AsSetup(), old(AsWorld()))
        decreases |events|
      {
        var e := events[0];
        HandleNext();
        if e.Completed? {
          return e.how, lost;
        }
        lost := lost || e.LinkLost?;
      }
      return Refused, lost;
    }

    /** The loop's clock. Time may have passed since it was last looked at. */
    method ReadClock() returns (t: int)
      requires Valid()
      modifies `now, `events
      ensures Valid() && Later() && t == now
      ensures AsWorld() == Runs.ReadClock(old(AsWorld()))
    {
      if events != [] && events[0].Tick? {
        now := now + events[0].seconds;
        events := events[1..];
      }
      return now;
    }

    /** Take the oldest packet off the queue. */
    method TakeOldest() returns (p: Packet)
      requires Valid() && responses != []
      modifies `responses, `taken
      ensures Valid() && taken == old(taken) + 1 <= |queued| && p == queued[old(taken)] == old(responses)[0]
      ensures responses == old(responses)[1..]
    {
      hide Decryptions, Residue, FramesIn, Dated, Unpacked;
      p := responses[0];
      responses := responses[1..];
      taken := taken + 1;
    }

    lemma NothingWaits()
      requires Valid() && responses == []
      ensures taken == |queued|
    {
    }

    /** Take the oldest packet off the queue, waiting for one no longer than `timeout`. */
    method Receive(timeout: int) returns (r: Result<Packet, Error>)
      requires Valid()
      modifies `buffer, `crypto, `responses, `queued, `decryptedAt, `arrived, `link, `now, `events, `taken
      ensures Valid() && Later()
      ensures r.Success? ==> taken == old(taken) + 1 && r.value == queued[old(taken)]
      ensures old(responses) != [] ==> r.Success? && events == old(events) && now == old(now)
      ensures r.Failure? ==> r.error == Timeout && taken == old(taken) == |queued| && responses == []
                             && now >= old(now) + timeout
      ensures |events| < |old(events)| || events == old(events)
      ensures r.Success? && events == old(events) ==> |responses| < |old(responses)|
      ensures Ran(AsWorld(), r) == Runs.Receive(AsSetup(), old(AsWorld()), old(now) + timeout)
    {
      hide Valid, Keys, HonestTraffic, Runs.Next;
      var deadline := now + timeout;
      while responses == []
        invariant Valid() && Later() && taken == old(taken) && UsedEvents()
        invariant old(responses) != [] ==> responses != [] && events == old(events) && now == old(now)
        invariant Runs.Receive(AsSetup(), AsWorld(), deadline) == Runs.Receive(AsSetup(), old(AsWorld()), deadline)
        decreases |events|
      {
        NothingWaits();
        if events == [] {
          now := if now < deadline then deadline else now;
          return Failure(Timeout);
        }
        HandleNext();
        if responses == [] && now >= deadline {
          NothingWaits();
          return Failure(Timeout);
        }
      }
      var oldest := TakeOldest();
      return Success(oldest);
    }

    // ----- sending and asking -----

    /** Chunks that carry a prefix of `payload`, all of the negotiated size but its last, which may be shorter. */
    static ghost predicate CutsOf(chunks: seq<Bytes>, payload: Bytes, size: nat) {
      && Concat(chunks) <= payload
      && (forall i :: 0 <= i < |chunks| ==> 0 < |chunks[i]| <= size)
      && (forall i :: 0 <= i < |chunks| - 1 ==> |chunks[i]| == size)
      && (chunks != [] && Concat(chunks) != payload ==> |chunks[|chunks| - 1]| == size)
    }

    /** The chunks carry the payload up to `offset`. */
    static ghost predicate CutTo(chunks: seq<Bytes>, payload: Bytes, size: nat, offset: nat) {
      CutsOf(chunks, payload, size) && |Concat(chunks)| == if offset < |payload| then offset else |payload|
    }

    static function Chunk(payload: Bytes, size: nat, offset: nat): Bytes
      requires offset <= |payload|
    {
      payload[offset..if offset + size < |payload| then offset + size else |payload|]
    }

    static lemma NextCut(chunks: seq<Bytes>, payload: Bytes, size: nat, offset: nat)
      requires size > 0 && offset < |payload| && CutTo(chunks, payload, size, offset)
      ensures CutTo(chunks + [Chunk(payload, size, offset)], payload, size, offset + size)
    {
      var chunk := Chunk(payload, size, offset);
      ConcatAppend(chunks, [chunk]);
      assert Concat([chunk]) == chunk;
    }

    static lemma NoCut(payload: Bytes, size: nat)
      ensures CutTo([], payload, size, 0)
    {
    }

    static lemma CutsDone(chunks: seq<Bytes>, payload: Bytes, size: nat, offset: nat)
      requires CutTo(chunks, payload, size, offset)
      ensures CutsOf(chunks, payload, size) && (offset >= |payload| ==> Concat(chunks) == payload)
    {
    }

    lemma WritesSomething()
      requires Valid()
      ensures chunkSize > 0
    {
    }

    /** Write a payload in chunks of the negotiated size. */
    method WriteChunks(payload: Bytes) returns (r: Result<(), Error>, ghost chunks: seq<Bytes>)
      requires Valid()
      modifies `buffer, `crypto, `responses, `queued, `decryptedAt, `arrived, `link, `now, `events, `written
      ensures Valid() && Later() && UsedEvents()
      ensures r.Failure? ==> r.error == Connection || r.error == Other
      ensures written == old(written) + chunks && CutsOf(chunks, payload, chunkSize)
      ensures r.Success? ==> Concat(chunks) == payload
      ensures Ran(AsWorld(), r) == Runs.Write(AsSetup(), old(AsWorld()), ChunkCount(|payload|, chunkSize))
    {
      hide Valid, CutTo, CutsOf, Concat, Ending, Dropped, Keys, HonestTraffic, Chunk, Runs.Await;
      chunks := [];
      var size, offset := chunkSize, 0;
      WritesSomething();
      NoCut(payload, size);
      while offset < |payload|
        invariant Valid() && Later() && UsedEvents()
        invariant written == old(written) + chunks && CutTo(chunks, payload, size, offset)
        invariant Runs.Write(AsSetup(), AsWorld(), ChunkCount(|payload| - offset, size))
                  == Runs.Write(AsSetup(), old(AsWorld()), ChunkCount(|payload|, size))
        decreases |payload| - offset
      {
        CutsDone(chunks, payload, size, offset);
        var how, lost := Await();
        if how == Refused {
          return Failure(Connection), chunks;
        } else if how == Raised {
          return Failure(Other), chunks;
        }
        NextCut(chunks, payload, size, offset);
        chunks := chunks + [Chunk(payload, size, offset)];
        written := written + [Chunk(payload, size, offset)];
        offset := offset + size;
      }
      CutsDone(chunks, payload, size, offset);
      return Success(()), chunks;
    }

    /** One encryption per packet, its bytes written piece by piece while the writes work. */
    method Send(packet: Packet) returns (r: Result<(), Error>, ghost chunks: seq<Bytes>)
      requires Valid()
      modifies `buffer, `crypto, `responses, `queued, `decryptedAt, `arrived, `link, `now, `events
      modifies `sent, `sentAt, `written
      ensures Valid() && Later() && UsedEvents()
      ensures !old(IsConnected()) ==> r == Failure(Connection) && crypto == old(crypto) && chunks == []
      ensures r == Failure(Protocol) <==> old(IsConnected()) && |packet.data| > MAX_DATA_LENGTH
      ensures r.Failure? ==> r.error == Connection || r.error == Protocol || r.error == Other
      ensures if old(IsConnected()) && |packet.data| <= MAX_DATA_LENGTH then SentOnly(packet)
              else sent == old(sent) && sentAt == old(sentAt)
      ensures written == old(written) + chunks
      ensures |packet.data| > MAX_DATA_LENGTH ==> chunks == []
      ensures |packet.data| <= MAX_DATA_LENGTH ==>
                var payload := cipher.encrypt(old(crypto), packet.Pack().value);
                && CutsOf(chunks, payload, chunkSize)
                && (r.Success? ==> Concat(chunks) == payload)
      ensures Ran(AsWorld(), r) == Runs.Send(AsSetup(), old(AsWorld()), packet)
    {
      hide Keys, Decryptions, Residue, FramesIn, Dated, Unpacked, HonestTraffic, Runs.Write, ChunkCount;
      chunks := [];
      if !IsConnected() {
        return Failure(Connection), [];
      }
      var packed := packet.Pack();
      if packed.Failure? {
        return Failure(Protocol), [];
      }
      var payload := cipher.encrypt(crypto, packed.value);
      EncryptGrows(crypto, packed.value);
      DatedGrows(cipher, crypto, Encrypt(packed.value), linkStart, queued, decryptedAt);
      crypto := crypto + [Encrypt(packed.value)];
      sent, sentAt := sent + [packet], sentAt + [taken];
      r, chunks := WriteChunks(payload);
    }

    lemma IndexFits(i: nat, request: Packet)
      requires Valid() && i < |queued| && queued[i].MatchesRequest(request)
      ensures request.command == READ ==> request.index < 256
    {
    }

    lemma NothingTakenYet(request: Packet)
      requires Valid()
      ensures taken <= |queued| && NoneMatch(queued, taken, taken, request)
    {
    }

    /** Take packets off the queue until one answers `packet` or the deadline has passed. */
    method AwaitAnswer(packet: Packet, deadline: int) returns (r: Answer)
      requires Valid()
      modifies `buffer, `crypto, `responses, `queued, `decryptedAt, `arrived, `link, `now, `events, `taken
      ensures Valid() && Later() && AnswerOk(packet, r)
      ensures r.Failure? ==> r.error == Timeout && now >= deadline
      ensures packet.command == READ && packet.index > 255 ==> r.Failure?
      ensures Ran(AsWorld(), r) == Runs.AwaitAnswer(AsSetup(), old(AsWorld()), packet, deadline)
    {
      hide Valid, Keys, HonestTraffic, Packet.MatchesRequest, NoneMatch, Runs.Receive, Runs.ReadClock;
      NothingTakenYet(packet);
      while true
        invariant Valid() && Later() && NoneMatch(queued, old(taken), taken, packet) && taken <= |queued|
        invariant Runs.AwaitAnswer(AsSetup(), AsWorld(), packet, deadline)
                  == Runs.AwaitAnswer(AsSetup(), old(AsWorld()), packet, deadline)
        decreases |events|, |responses|
      {
        ghost var before, first := queued, taken;
        var t := ReadClock();
        var remaining := deadline - t;
        if remaining <= 0 {
          return Failure(Timeout);
        }
        var received := Receive(remaining);
        NothingTakenYet(packet);
        NoneMatchGrows(before, queued, old(taken), first, packet);
        if received.Failure? {
          return Failure(Timeout);
        }
        if received.value.MatchesRequest(packet) {
          IndexFits(taken - 1, packet);
          return Success(received.value);
        }
      }
    }

    /** Wait for the answer to a packet that has just been sent. */
    method AwaitReply(packet: Packet) returns (r: Answer)
      requires Valid()
      modifies `buffer, `crypto, `responses, `queued, `decryptedAt, `arrived, `link, `now, `events, `taken
      ensures Valid() && Later() && AnswerOk(packet, r)
      ensures r.Failure? ==> r.error == Timeout && now >= old(now) + requestTimeout
      ensures packet.command == READ && packet.index > 255 ==> r.Failure?
      ensures var start := Runs.ReadClock(old(AsWorld()));
              Ran(AsWorld(), r) == Runs.AwaitAnswer(AsSetup(), start, packet, start.now + requestTimeout)
    {
      hide Valid, Keys, HonestTraffic, Packet.MatchesRequest, NoneMatch, Runs.AwaitAnswer, Runs.ReadClock;
      var t := ReadClock();
      r := AwaitAnswer(packet, t + requestTimeout);
    }

    /** Send a packet; the answer is the first one to arrive in time that matches it. */
    method Request(packet: Packet) returns (r: Answer)
      requires Valid()
      modifies `buffer, `crypto, `responses, `queued, `decryptedAt, `arrived, `link, `now, `events
      modifies `sent, `sentAt, `written, `taken
      ensures Valid() && Later() && AnswerOk(packet, r)
      ensures SendsOn() && (r.Success? ==> SentOnly(packet))
      ensures r == Failure(Timeout) ==> now >= old(now) + requestTimeout
      ensures packet.command == READ && packet.index > 255 ==> r.Failure?
      ensures !old(IsConnected()) ==> r == Failure(Connection)
      ensures old(IsConnected()) && |packet.data| > MAX_DATA_LENGTH ==> r == Failure(Protocol)
      ensures Ran(AsWorld(), r) == Runs.Request(AsSetup(), old(AsWorld()), packet)
    {
      hide Valid, Keys, HonestTraffic, Packet.MatchesRequest, NoneMatch, CutsOf, Concat, Packet.Pack, Runs.Send,
           Runs.AwaitAnswer, Runs.ReadClock;
      var delivered, _ := Send(packet);
      NothingTakenYet(packet);
      if delivered.Failure? {
        return Failure(delivered.error);
      }
      r := AwaitReply(packet);
    }

    /**
     The answer is the first packet in arrival order that matches; the packets taken before it,
     or before giving up, did not match. A failed send takes nothing off the queue.
     */
    twostate predicate AnswerOk(packet: Packet, new r: Answer)
      reads `queued, `taken
    {
      match r
      case Success(p) =>
        && old(taken) < taken <= |queued| && p == queued[taken - 1] && p.MatchesRequest(packet)
        && NoneMatch(queued, old(taken), taken - 1, packet)
      case Failure(e) =>
        && IsLinkError(e) && (e != Timeout ==> taken == old(taken))
        && old(taken) <= taken <= |queued|
        && NoneMatch(queued, old(taken), taken, packet)
    }

    /** One request of a register read, added to its dialogue. */
    method Ask(request: Packet, ghost xs: seq<Exchange>) returns (r: Answer, ghost xs': seq<Exchange>)
      requires Valid() && Backed(xs, queued)
      modifies `buffer, `crypto, `responses, `queued, `decryptedAt, `arrived, `link, `now, `events
      modifies `sent, `sentAt, `written, `taken
      ensures Valid() && Later() && AnswerOk(request, r)
      ensures xs' == xs + [Exchange(request, r)] && Backed(xs', queued)
      ensures SendsOn() && (r.Success? ==> SentOnly(request))
      ensures !old(IsConnected()) ==> r == Failure(Connection)
      ensures Ran(AsWorld(), r) == Runs.Request(AsSetup(), old(AsWorld()), request)
    {
      hide Valid, Keys, HonestTraffic, Runs.Request;
      ghost var before := queued;
      r := Request(request);
      xs' := xs + [Exchange(request, r)];
      BackedGrows(xs, Exchange(request, r), before, queued);
    }

    /**
     The last packet taken is the first one taken since the last packet was sent that answers it, and
     what was sent asks for this register.
     */
    twostate predicate AckFor(reg: Register)
      reads `queued, `taken, `sent, `sentAt
    {
      && sent != [] && sentAt != []
      && var request, from := sent[|sent| - 1], sentAt[|sentAt| - 1];
      && old(taken) <= from < taken <= |queued| && AsksFor(reg, request)
      && queued[taken - 1].MatchesRequest(request) && NoneMatch(queued, from, taken - 1, request)
    }

    /** Walk a register's index one word at a time. */
    method WalkRegister(reg: Register) returns (r: Result<Bytes, Error>, ghost xs: seq<Exchange>)
      requires Valid()
      modifies `buffer, `crypto, `responses, `queued, `decryptedAt, `arrived, `link, `now, `events
      modifies `sent, `sentAt, `written, `taken
      ensures Valid() && Later()
      ensures WalkRun(reg, 0, [], xs, r) && Backed(xs, queued) && SendsOn()
      ensures r.Success? && reg.length > 0 ==> AckFor(reg)
      ensures r.Failure? ==> IsLinkError(r.error)
      ensures Ran(AsWorld(), r) == Runs.WalkRegister(AsSetup(), old(AsWorld()), reg, 0, [])
    {
      hide Collected, Backed, Take, WordRequest, Valid, Keys, HonestTraffic, WalkRun, Packet.MatchesRequest, NoneMatch,
           AsksFor, Runs.Request;
      NothingCollected(reg, queued);
      xs := [];
      var payload: Bytes := [];
      var word := 0;
      while word < (reg.length + 1) / 2
        invariant Valid() && Later() && word <= Words(reg)
        invariant Backed(xs, queued) && Collected(reg, xs, payload) && |xs| == word
        invariant SendsOn() && (word > 0 ==> AckFor(reg))
        invariant Runs.WalkRegister(AsSetup(), AsWorld(), reg, word, payload)
                  == Runs.WalkRegister(AsSetup(), old(AsWorld()), reg, 0, [])
      {
        ghost var before := xs;
        var response;
        response, xs := Ask(WordRequest(reg, word), xs);
        if response.Failure? {
          WalkFails(reg, before, payload, response.error);
          return Failure(response.error), xs;
        }
        WalkedOn(reg, before, payload, response.value);
        WordIsAsked(reg, word);
        payload := payload + Take(response.value.data, 2);
        word := word + 1;
      }
      WalkEnds(reg, xs, payload);
      r := Success(Take(payload, reg.length));
    }

    /**
     Read a register's raw payload: one bulk request, or the index walked one word at a time when
     the bulk answer is short or, for a longer register, missing.
     */
    method ReadRegister(reg: Register) returns (r: Result<Bytes, Error>, ghost xs: seq<Exchange>)
      requires Valid()
      modifies `buffer, `crypto, `responses, `queued, `decryptedAt, `arrived, `link, `now, `events
      modifies `sent, `sentAt, `written, `taken
      ensures Valid() && Later()
      ensures ReadRun(reg, xs, r) && Backed(xs, queued) && SendsOn()
      ensures HonestTraffic() && r.Success? ==> r.value == Slice(memory, reg.board, reg.index, reg.length)
      ensures r.Success? ==> AckFor(reg)
      ensures r.Failure? ==> IsLinkError(r.error)
      ensures Ran(AsWorld(), r) == Runs.ReadRegister(AsSetup(), old(AsWorld()), reg)
    {
      hide Valid, Keys, Unpacked, HonestTraffic, WalkRun, Packet.MatchesRequest, NoneMatch, Runs.Request,
           Runs.WalkRegister;
      xs := [];
      if reg.length > 255 {
        return Failure(Other), [];
      }
      var response;
      response, xs := Ask(BulkRequest(reg), []);
      if response.Success? {
        if |response.value.data| >= reg.length {
          BulkIsAsked(reg);
          r := Success(response.value.data[..reg.length]);
          ReadIsBacked(reg, xs, r);
          return;
        }
      } else if response.error != Timeout || reg.length <= WORD_SIZE {
        return Failure(response.error), xs;
      }
      ghost var before, bulk, walk := queued, xs[0], [];
      assert xs == [bulk];
      r, walk := WalkRegister(reg);
      BackedJoins(bulk, walk, before, queued);
      xs := [bulk] + walk;
      assert xs[1..] == walk;
      ReadIsBacked(reg, xs, r);
    }

    lemma ReadIsBacked(reg: Register, xs: seq<Exchange>, r: Result<Bytes, Error>)
      requires ReadRun(reg, xs, r) && Backed(xs, queued)
      ensures HonestTraffic() && r.Success? ==> r.value == Slice(memory, reg.board, reg.index, reg.length)
    {
      if HonestTraffic() {
        BackedIsTruthful(memory, xs, queued);
        ReadIsTrue(memory, reg, xs, r);
      }
    }

    // ----- polling -----

    /** A poll's result as a value. */
    static ghost function Shown(r: Result<ScooterState, Error>): Result<Snapshot, Error>
      reads if r.Success? then {r.value} else {}
    {
      match r
      case Success(state) => Success(state.Snap())
      case Failure(e) => Failure(e)
    }

    /** Note the outcome of one register read in the snapshot and in the count of timeouts. */
    static method Record(reg: Register, read: Outcome, state: ScooterState, streak: nat) returns (streak': nat)
      modifies state
      ensures Progress(state.Snap(), streak') == Recorded(reg, read, Progress(old(state.Snap()), streak))
    {
      match read
      case Failure(e) =>
        streak' := if e == Timeout then streak + 1 else streak;
        state.failures := state.failures[reg.key := Unread(e)];
      case Success(payload) =>
        streak' := 0;
        state.raw := state.raw[reg.key := ToHex(payload, true)];
        match reg.convert(payload) {
          case Some(v) => state.values := state.values[reg.key := v];
          case None => state.failures := state.failures[reg.key := Undecodable];
        }
    }

    /** The read of one register within a poll. */
    method PollRead(ghost regs: seq<Register>, reg: Register, ghost outcomes: seq<Outcome>)
      returns (read: Outcome)
      requires Valid() && |outcomes| < |regs| && reg == regs[|outcomes|]
      requires HonestTraffic() ==> TrueReads(memory, regs, outcomes)
      modifies `buffer, `crypto, `responses, `queued, `decryptedAt, `arrived, `link, `now, `events
      modifies `sent, `sentAt, `written, `taken
      ensures Valid() && Later() && SendsOn()
      ensures HonestTraffic() ==> TrueReads(memory, regs, outcomes + [read])
      ensures Ran(AsWorld(), read) == Runs.ReadRegister(AsSetup(), old(AsWorld()), reg)
    {
      hide Valid, Keys, Runs.ReadRegister;
      ghost var before, dialogue := queued, [];
      read, dialogue := ReadRegister(reg);
      if HonestTraffic() {
        assert forall p :: p in before ==> p in queued;
        TrueReadsGrow(memory, regs, outcomes, read);
      }
    }

    /** One turn of the poll's loop. Some error ends the poll. */
    method PollRegister(regs: seq<Register>, ghost outcomes: seq<Outcome>, reg: Register,
                        state: ScooterState, streak: nat)
      returns (abort: Option<Error>, streak': nat, ghost outcomes': seq<Outcome>)
      requires Valid() && |outcomes| < |regs| && reg == regs[|outcomes|]
      requires HonestTraffic() ==> TrueReads(memory, regs, outcomes)
      requires Ongoing(regs, outcomes) && After(regs, outcomes) == Progress(state.Snap(), streak)
      modifies `buffer, `crypto, `responses, `queued, `decryptedAt, `arrived, `link, `now, `events
      modifies `sent, `sentAt, `written, `taken, state
      ensures Valid() && Later() && SendsOn()
      ensures |outcomes'| == |outcomes| + 1
      ensures HonestTraffic() ==> TrueReads(memory, regs, outcomes')
      ensures abort.None? ==> Ongoing(regs, outcomes') && After(regs, outcomes') == Progress(state.Snap(), streak')
      ensures abort.Some? ==> PollRun(regs, outcomes', START, Failure(abort.value))
      ensures var read := Runs.ReadRegister(AsSetup(), old(AsWorld()), reg);
              && AsWorld() == read.world && abort == Abort(read.result, streak)
              && (abort.None? ==> Progress(state.Snap(), streak')
                                  == Recorded(reg, read.result, Progress(old(state.Snap()), streak)))
    {
      hide Valid, Keys, HonestTraffic, TrueReads, PollRun, Ongoing, After, Runs.ReadRegister;
      var read := PollRead(regs, reg, outcomes);
      outcomes' := outcomes + [read];
      OngoingStep(regs, outcomes, read);
      if Abort(read, streak).Some? {
        PollAborts(regs, outcomes, read);
      }
      if read == Failure(Other) {
        return Some(Other), streak, outcomes';
      }
      streak' := Record(reg, read, state, streak);
      abort := if read == Failure(Timeout) && streak' >= MAX_CONSECUTIVE_TIMEOUTS then Some(Connection) else None;
    }

    /** Read these registers into a new snapshot. */
    method PollRegisters(regs: seq<Register>) returns (r: Result<ScooterState, Error>, ghost outcomes: seq<Outcome>)
      requires Valid()
      modifies `buffer, `crypto, `responses, `queued, `decryptedAt, `arrived, `link, `now, `events
      modifies `sent, `sentAt, `written, `taken
      ensures Valid() && Later() && SendsOn()
      ensures PollRun(regs, outcomes, START, Shown(r)) && (r.Success? ==> fresh(r.value))
      ensures HonestTraffic() ==> TrueReads(memory, regs, outcomes)
      ensures Ran(AsWorld(), Shown(r)) == Runs.PollRegisters(AsSetup(), old(AsWorld()), regs, START)
    {
      hide Valid, Keys, PollRun, Recorded, Ongoing, After, TrueReads, Abort, Runs.ReadRegister;
      PollBegins(regs, memory);
      outcomes := [];
      var state := new ScooterState();
      var consecutiveTimeouts: nat := 0;
      assert regs[0..] == regs;
      for i := 0 to |regs|
        invariant Valid() && Later() && SendsOn() && fresh(state) && |outcomes| == i
        invariant Ongoing(regs, outcomes) && After(regs, outcomes) == Progress(state.Snap(), consecutiveTimeouts)
        invariant HonestTraffic() ==> TrueReads(memory, regs, outcomes)
        invariant Runs.PollRegisters(AsSetup(), AsWorld(), regs[i..], Progress(state.Snap(), consecutiveTimeouts))
                  == Runs.PollRegisters(AsSetup(), old(AsWorld()), regs, START)
      {
        assert regs[i..][1..] == regs[i + 1..];
        var abort;
        abort, consecutiveTimeouts, outcomes := PollRegister(regs, outcomes, regs[i], state, consecutiveTimeouts);
        if abort.Some? {
          return Failure(abort.value), outcomes;
        }
      }
      PollEnds(regs, outcomes);
      r := Success(state);
    }

    /** Poll the dynamic registers, and the static ones when asked to, on a link that is up. */
    method AsyncPoll(includeStatic: bool) returns (r: Result<ScooterState, Error>, ghost outcomes: seq<Outcome>)
      requires Valid()
      modifies `buffer, `crypto, `responses, `queued, `decryptedAt, `arrived, `link, `now, `events
      modifies `sent, `sentAt, `written, `taken
      ensures Valid() && Later()
      ensures !old(IsConnected()) ==> r == Failure(Connection) && outcomes == []
      ensures old(IsConnected()) ==> PollRun(PollTable(table, includeStatic), outcomes, START, Shown(r))
      ensures HonestTraffic() ==> TrueReads(memory, PollTable(table, includeStatic), outcomes)
      ensures r.Success? ==> fresh(r.value)
      ensures old(Traced()) ==> Traced()
      ensures Ran(AsWorld(), Shown(r)) == Runs.AsyncPoll(AsSetup(), old(AsWorld()), PollTable(table, includeStatic))
    {
      hide Keys, Decryptions, Residue, FramesIn, Dated, Unpacked, HonestTraffic, Runs.PollRegisters;
      if !IsConnected() {
        return Failure(Connection), [];
      }
      ghost var heard := Heard();
      r, outcomes := PollRegisters(PollTable(table, includeStatic));
      if old(Traced()) {
        StillTraced(heard, old(sent), old(sentAt));
      }
    }

    // ----- opening and closing the link -----

    /** Start over: a fresh cipher, an empty buffer and an empty queue. */
    method ResetReceiver()
      requires Valid()
      modifies `crypto, `buffer, `arrived, `responses, `taken, `linkStart, `journey
      ensures Valid() && Traced() && Receiving() == Rx([], [], [SetName(name)])
      ensures arrived == [] && journey == [] && linkStart == taken == |queued|
      ensures AsWorld() == old(AsWorld()).(rx := Rx([], [], [SetName(name)]))
    {
      hide HonestTraffic, Unpacked, Keys, KeyCalls, Decryptions, Residue, FramesIn, Dated, Path;
      DatedAnew(cipher, crypto, [SetName(name)], linkStart, queued, decryptedAt);
      crypto := [SetName(name)];
      buffer := [];
      arrived := [];
      while responses != []
        invariant QueueOk() && crypto == [SetName(name)] && buffer == [] && arrived == []
        decreases |responses|
      {
        responses := responses[1..];
        taken := taken + 1;
      }
      NothingToScan();
      FreshStart(Heard(), taken, serialNumber, name);
      linkStart, journey := taken, [];
    }

    /** Await an operation on a link that is up or not, and note how it ended. */
    method AwaitOperation(ghost kind: Kind, ghost up: bool) returns (how: Completion, ghost op: Operation)
      requires Valid()
      modifies `buffer, `crypto, `responses, `queued, `decryptedAt, `arrived, `link, `now, `events, `operations
      ensures Valid() && Later() && taken == old(taken)
      ensures var e := Ending(old(events));
              && how == e.how && events == e.rest && link == Dropped(old(link), e.lost)
              && op == Operation(kind, how, up && !e.lost)
      ensures operations == old(operations) + [op]
      ensures LeakCount(operations) == LeakCount(old(operations)) + if Leaks(op) then 1 else 0
      ensures Ran(AsWorld(), how) == Runs.Await(AsSetup(), old(AsWorld()))
    {
      hide Valid, Keys, HonestTraffic, Ending, LeakCount, Leaks, Dropped, Runs.Await;
      ghost var lost;
      how, lost := Await();
      op := Operation(kind, how, up && !lost);
      LeakStep(operations, op);
      operations := operations + [op];
    }

    /** Unsubscribe from a link that was up and that nothing refers to any more, and close it. */
    method CloseForgotten() returns (r: Result<(), Error>)
      requires Valid() && link == NoLink
      modifies `buffer, `crypto, `responses, `queued, `decryptedAt, `arrived, `link, `now, `events
      modifies `operations, `orphaned
      ensures Valid() && Later() && taken == old(taken) && link == NoLink
      ensures r.Failure? ==> r.error == Other
      ensures r.Failure? <==> var stop := Ending(old(events)); stop.how == Raised || Ending(stop.rest).how == Raised
      ensures LeaksAccounted() && operations == old(operations) + ClosingOps(true, old(events))
      ensures Ran(AsWorld(), r) == Runs.CloseForgotten(AsSetup(), old(AsWorld()))
    {
      hide Valid, Keys, HonestTraffic, Ending, LeakCount, Runs.Await;
      var stopped, stop := AwaitOperation(Unsubscribing, true);
      if stopped == Raised {
        orphaned := orphaned + if stop.up then 1 else 0;
        return Failure(Other);
      }
      var closed, close := AwaitOperation(Closing, stop.up);
      orphaned := orphaned + if close.up && !closed.Worked? then 1 else 0;
      return if closed == Raised then Failure(Other) else Success(());
    }

    /** Let go of the link: whatever is raised on the way, the client holds none afterwards. */
    method Disconnect() returns (r: Result<(), Error>)
      requires Valid()
      modifies `buffer, `crypto, `responses, `queued, `decryptedAt, `arrived, `link, `now, `events
      modifies `operations, `orphaned
      ensures Valid() && Onward() && taken == old(taken) && Keys(crypto) == old(Keys(crypto))
      ensures link == NoLink && (old(Traced()) ==> Traced())
      ensures r.Failure? ==> r.error == Other
      ensures r.Failure? <==> var stop := Ending(old(events));
                              old(IsConnected()) && (stop.how == Raised || Ending(stop.rest).how == Raised)
      ensures LeaksAccounted() && operations == old(operations) + ClosingOps(old(IsConnected()), old(events))
      ensures !old(IsConnected()) ==> events == old(events)
      ensures Ran(AsWorld(), r) == Runs.Disconnect(AsSetup(), old(AsWorld()))
    {
      hide Keys, KeyCalls, Decryptions, Residue, FramesIn, Dated, Unpacked, HonestTraffic, Path, Ending, LeakCount,
           Runs.CloseForgotten;
      ghost var heard := Heard();
      var client := link;
      link := NoLink;
      r := Success(());
      if client.Link? && client.up {
        r := CloseForgotten();
      }
      if old(Traced()) {
        StillTraced(heard, old(sent), old(sentAt));
      }
    }

    /** Writes are this long from now on. */
    method SettleChunkSize(size: nat)
      requires Valid()
      modifies `chunkSize
      ensures Valid() && chunkSize == if size == 0 then DEFAULT_CHUNK_SIZE else size
    {
      chunkSize := if size == 0 then DEFAULT_CHUNK_SIZE else size;
    }

    /**
     Subscribe to notifications on a link just opened, and settle the size of writes. A refused
     subscription forgets the link without closing it.
     */
    method Subscribe(characteristic: Option<nat>) returns (r: Result<(), Error>)
      requires Valid() && link.Link?
      modifies `buffer, `crypto, `responses, `queued, `decryptedAt, `arrived, `link, `now, `events, `chunkSize
      modifies `operations, `orphaned
      ensures Valid() && Onward() && taken == old(taken) && Keys(crypto) == old(Keys(crypto))
      ensures r.Success? ==> link.Link? && characteristic.Some?
      ensures r.Success? ==> chunkSize == if characteristic.value == 0 then 20 else characteristic.value
      ensures r.Failure? ==> (r.error == Connection || r.error == Other) && chunkSize == old(chunkSize)
      ensures r == Failure(Connection) ==> link == NoLink
      ensures LeaksAccounted()
      ensures operations == old(operations) + SubscribingOps(old(link).up, characteristic, old(events))
      ensures Ran(AsWorld(), r) == Runs.Subscribe(AsSetup(), old(AsWorld()), characteristic)
    {
      hide Valid, Keys, HonestTraffic, Ending, LeakCount, ClosingOps, Runs.Await, Runs.Disconnect;
      var subscribed, op := AwaitOperation(Subscribing, link.up);
      if subscribed == Refused {
        orphaned := orphaned + if link.up then 1 else 0;
        link := NoLink;
        return Failure(Connection);
      } else if subscribed == Raised {
        return Failure(Other);
      }
      if characteristic.None? {
        var closed := Disconnect();
        return Failure(if closed.Failure? then Other else Connection);
      }
      SettleChunkSize(characteristic.value);
      return Success(());
    }

    /** Establish the link and subscribe on it. */
    method OpenLink() returns (r: Result<(), Error>)
      requires Valid()
      modifies `buffer, `crypto, `responses, `queued, `decryptedAt, `arrived, `link, `now, `events, `chunkSize
      modifies `linksOpened, `operations, `orphaned
      ensures Valid() && Onward() && taken == old(taken) && Keys(crypto) == old(Keys(crypto))
      ensures r.Success? ==> link.Link?
      ensures r.Failure? ==> r.error == Connection || r.error == Other
      ensures r == Failure(Connection) ==> link == NoLink
      ensures old(linksOpened) <= linksOpened <= old(linksOpened) + 1
      ensures r.Success? ==> linksOpened == old(linksOpened) + 1
      ensures LeaksAccounted() && operations == old(operations) + OpeningOps(old(IsConnected()), old(events))
      ensures Ran(AsWorld(), r) == Runs.OpenLink(AsSetup(), old(AsWorld()))
    {
      hide Valid, Keys, HonestTraffic, Ending, LeakCount, SubscribingOps, Runs.Await, Runs.Subscribe;
      var established, op := AwaitOperation(Opening, IsConnected());
      match established
      case Refused =>
        orphaned := orphaned + if IsConnected() then 1 else 0;
        link := NoLink;
        r := Failure(Connection);
      case Raised =>
        r := Failure(Other);
      case Worked(characteristic) =>
        orphaned := orphaned + if IsConnected() then 1 else 0;
        link := Link(true);
        linksOpened := linksOpened + 1;
        r := Subscribe(characteristic);
    }

    /** Open the link, with a fresh cipher and nothing left over from an earlier one. */
    method ConnectTransport() returns (r: Result<(), Error>)
      requires Valid()
      modifies `buffer, `crypto, `responses, `queued, `decryptedAt, `arrived, `link, `now, `events, `taken
      modifies `linkStart, `journey, `chunkSize, `linksOpened, `operations, `orphaned
      ensures Valid() && Traced() && Onward()
      ensures journey == [] && linkStart == taken == |old(queued)|
      ensures r.Success? ==> link.Link? && linksOpened == old(linksOpened) + 1
      ensures r.Failure? ==> r.error == Connection || r.error == Other
      ensures r == Failure(Connection) ==> link == NoLink
      ensures old(linksOpened) <= linksOpened <= old(linksOpened) + 1
      ensures LeaksAccounted() && operations == old(operations) + OpeningOps(old(IsConnected()), old(events))
      ensures Ran(AsWorld(), r) == Runs.ConnectTransport(AsSetup(), old(AsWorld()))
    {
      hide Decryptions, Residue, FramesIn, Dated, Unpacked, HonestTraffic, OpeningOps, LeakCount, Runs.OpenLink;
      ResetReceiver();
      r := OpenLink();
    }

    // ----- the handshake -----

    /** Note a step of the handshake that installs no key. */
    ghost method Mark(step: Step)
      requires Traced() && Justified(Heard(), linkStart, serialNumber, Before(journey, |journey|), step)
      requires KeyCall(step) == [] && Named([step], sent, sentAt)
      modifies `journey
      ensures Traced() && journey == old(journey) + [step]
    {
      PathExtends(Heard(), linkStart, serialNumber, journey, step);
      KeyCallsExtend(journey, step);
      journey := journey + [step];
    }

    /** `set_ble_data` or `set_app_data` on the cipher. */
    method InstallKey(call: Call, ghost step: Step)
      requires Valid() && Traced() && Justified(Heard(), linkStart, serialNumber, Before(journey, |journey|), step)
      requires KeyCall(step) == [call]
      modifies `journey, `crypto
      ensures Valid() && Traced() && journey == old(journey) + [step] && crypto == old(crypto) + [call]
      ensures AsWorld() == old(AsWorld()).Called(call)
    {
      hide Keys, KeyCalls;
      KeyStep(Heard(), linkStart, serialNumber, journey, step, crypto, call);
      DatedGrows(cipher, crypto, call, linkStart, queued, decryptedAt);
      journey := journey + [step];
      crypto := crypto + [call];
    }

    /** A request of the handshake. */
    method HandshakeRequest(packet: Packet) returns (r: Answer)
      requires Valid() && Traced()
      modifies `buffer, `crypto, `responses, `queued, `decryptedAt, `arrived, `link, `now, `events
      modifies `sent, `sentAt, `written, `taken
      ensures Valid() && Traced() && Later() && AnswerOk(packet, r)
      ensures SendsOn() && (r.Success? ==> SentOnly(packet))
      ensures Ran(AsWorld(), r) == Runs.Request(AsSetup(), old(AsWorld()), packet)
    {
      hide Keys, KeyCalls, Decryptions, Residue, FramesIn, Dated, Unpacked, HonestTraffic, Path, Runs.Request;
      ghost var heard := Heard();
      r := Request(packet);
      StillTraced(heard, old(sent), old(sentAt));
    }

    /** Ask once for the button press: whether a packet came that accepts. */
    method AskToPair() returns (r: Result<bool, Error>)
      requires Valid()
      modifies `buffer, `crypto, `responses, `queued, `decryptedAt, `arrived, `link, `now, `events
      modifies `sent, `sentAt, `written, `taken
      ensures Valid() && Later() && SendsOn()
      ensures taken <= |queued|
      ensures r == Success(true) ==> taken == old(taken) + 1 && AcceptsPairing(queued[taken - 1])
      ensures r.Success? ==> sent == old(sent) + [PairRequest(serialChallenge)]
      ensures r.Failure? ==> r.error != Timeout && IsLinkError(r.error)
      ensures r.Success? ==> || |events| < |old(events)|
                             || (events == old(events) && |responses| < |old(responses)|)
                             || (events == old(events) && responses == old(responses) && old(now) < now)
      ensures r != Success(true) ==> NoneAccepts(queued, old(taken), taken)
      ensures Ran(AsWorld(), r) == Runs.AskToPair(AsSetup(), old(AsWorld()), serialChallenge)
    {
      hide Valid, Keys, HonestTraffic, NoneAccepts, AcceptsPairing, CutsOf, Concat, Packet.Pack, Runs.Send,
           Runs.Receive;
      NothingAskedYet();
      var delivered, _ := Send(PairRequest(serialChallenge));
      NothingAskedYet();
      if delivered.Failure? {
        return Failure(delivered.error);
      }
      var response := Receive(PAIRING_RETRY_INTERVAL);
      NothingAskedYet();
      if response.Success? && !AcceptsPairing(response.value) {
        OneAsked(queued, taken - 1);
      }
      return Success(response.Success? && AcceptsPairing(response.value));
    }

    /** One turn of the pairing loop: how it ends the loop, if it does. */
    method PairingTurn(deadline: int) returns (r: Option<Result<(), Error>>)
      requires Valid()
      modifies `buffer, `crypto, `responses, `queued, `decryptedAt, `arrived, `link, `now, `events
      modifies `sent, `sentAt, `written, `taken
      ensures Valid() && Later() && SendsOn() && taken <= |queued|
      ensures r.Some? && r.value.Success? ==> taken == old(taken) + 1 && AcceptsPairing(queued[taken - 1])
      ensures r.None? || r.value.Failure? ==> NoneAccepts(queued, old(taken), taken)
      ensures r.None? || r.value.Success? ==> sent == old(sent) + [PairRequest(serialChallenge)]
      ensures r.Some? && r.value.Failure? ==>
                var e := r.value.error; e == PairingRequired || (IsLinkError(e) && e != Timeout)
      ensures r == Some(Failure(PairingRequired)) ==> now >= deadline
      ensures r.None? ==> || |events| < |old(events)|
                          || (events == old(events) && |responses| < |old(responses)|)
                          || (events == old(events) && responses == old(responses)
                              && old(now) < now && old(now) < deadline)
      ensures Ran(AsWorld(), r) == Runs.PairingTurn(AsSetup(), old(AsWorld()), serialChallenge, deadline)
    {
      hide Valid, Keys, HonestTraffic, NoneAccepts, AcceptsPairing, Runs.AskToPair;
      NothingAskedYet();
      var t := ReadClock();
      if t >= deadline {
        return Some(Failure(PairingRequired));
      }
      var accepted := AskToPair();
      if accepted.Failure? {
        return Some(Failure(accepted.error));
      }
      return if accepted.value then Some(Success(())) else None;
    }

    /** Ask over and over, until a packet accepts or the deadline has passed. */
    method PairUntil(deadline: int) returns (r: Result<(), Error>, ghost asked: nat)
      requires Valid()
      modifies `buffer, `crypto, `responses, `queued, `decryptedAt, `arrived, `link, `now, `events
      modifies `sent, `sentAt, `written, `taken
      ensures Valid() && Later() && SendsOn()
      ensures r.Success? ==> old(taken) < taken <= |queued| && AcceptsPairing(queued[taken - 1])
      ensures r.Success? ==> asked > 0 && PairsSent(old(sent), sent, serialChallenge, asked)
      ensures r.Failure? ==> r.error == PairingRequired || (IsLinkError(r.error) && r.error != Timeout)
      ensures r == Failure(PairingRequired) ==> now >= deadline
      ensures old(taken) <= taken && NoneAccepts(queued, old(taken), if r.Success? then taken - 1 else taken)
      ensures Ran(AsWorld(), r) == Runs.AwaitPairing(AsSetup(), old(AsWorld()), serialChallenge, deadline)
    {
      hide Valid, Keys, HonestTraffic, NoneAccepts, AcceptsPairing, PairsSent, Runs.PairingTurn;
      asked := 0;
      NothingAskedYet();
      while true
        invariant Valid() && Later() && SendsOn()
        invariant PairsSent(old(sent), sent, serialChallenge, asked)
        invariant taken <= |queued| && NoneAccepts(queued, old(taken), taken)
        invariant Runs.AwaitPairing(AsSetup(), AsWorld(), serialChallenge, deadline)
                  == Runs.AwaitPairing(AsSetup(), old(AsWorld()), serialChallenge, deadline)
        decreases |events|, |responses| + if now < deadline then deadline - now else 0
      {
        ghost var before, heard, asking := queued, taken, sent;
        var turn := PairingTurn(deadline);
        NoneAcceptsJoin(before, queued, old(taken), heard, taken);
        if turn.None? || turn.value.Success? {
          PairsSentGrows(old(sent), asking, sent, serialChallenge, asked);
        }
        asked := asked + 1;
        if turn.Some? {
          return turn.value, asked;
        }
      }
    }

    static lemma OneAsked(packets: seq<Packet>, i: nat)
      requires i < |packets| && !AcceptsPairing(packets[i])
      ensures NoneAccepts(packets, i, i + 1)
    {
    }

    lemma NothingAskedYet()
      requires Valid()
      ensures taken <= |queued| && NoneAccepts(queued, taken, taken) && PairsSent(sent, sent, serialChallenge, 0)
    {
    }

    /** Ask for the button press, until a packet accepts or the pairing timeout has passed. */
    method AwaitPairing() returns (r: Result<(), Error>, ghost asked: nat)
      requires Valid()
      modifies `buffer, `crypto, `responses, `queued, `decryptedAt, `arrived, `link, `now, `events
      modifies `sent, `sentAt, `written, `taken
      ensures Valid() && Later() && SendsOn()
      ensures r.Success? ==> old(taken) < taken <= |queued| && AcceptsPairing(queued[taken - 1])
      ensures r.Success? ==> asked > 0 && sent == old(sent) + PairRequests(serialChallenge, asked)
      ensures r.Failure? ==> r.error == PairingRequired || (IsLinkError(r.error) && r.error != Timeout)
      ensures r == Failure(PairingRequired) ==> now >= old(now) + pairingTimeout
      ensures r.Success? ==> queued[taken - 1].index == 1 && queued[taken - 1].command in {PING, PAIR}
      ensures old(taken) <= taken <= |queued|
      ensures forall i :: old(taken) <= i < (if r.Success? then taken - 1 else taken) ==>
                            queued[i].index != 1 || queued[i].command !in {PING, PAIR}
      ensures var start := Runs.ReadClock(old(AsWorld()));
              Ran(AsWorld(), r) == Runs.AwaitPairing(AsSetup(), start, serialChallenge, start.now + pairingTimeout)
    {
      hide Valid, Keys, HonestTraffic, PairRequests, Runs.AwaitPairing, Runs.ReadClock;
      var t := ReadClock();
      r, asked := PairUntil(t + pairingTimeout);
      NothingAskedYet();
    }

    /** The last step of the journey so far. */
    ghost function LastStep(): Option<Step>
      reads `journey
    {
      Before(journey, |journey|)
    }

    /** A session is proven by a reply to a read of the serial number; silence counts as a rejected key. */
    method VerifySession(ghost pair: nat) returns (r: Result<(), Error>)
      requires Valid() && Traced() && LastStep() == Some(PairTaken(pair)) && pair < taken
      modifies `buffer, `crypto, `responses, `queued, `decryptedAt, `arrived, `link, `now, `events
      modifies `sent, `sentAt, `written, `taken, `journey
      ensures Valid() && Traced() && Onward() && SameLink() && old(sent) <= sent
      ensures r.Success? ==> LastStep().Some? && journey == old(journey) + [LastStep().value]
      ensures r.Success? ==> var ack := LastStep().value;
                             ack.AckTaken? && ack.at == taken - 1 && ack.send == |sent| - 1 && AckFor(serialNumber)
      ensures r.Failure? ==> journey == old(journey)
      ensures r.Failure? ==> r.error == Auth || r.error == Connection || r.error == Other
      ensures Ran(AsWorld(), r) == Runs.VerifySession(AsSetup(), old(AsWorld()))
    {
      hide Keys, KeyCalls, Decryptions, Residue, FramesIn, Dated, Unpacked, HonestTraffic, Path, Justified, Established,
           Runs.ReadRegister;
      ghost var heard := Heard();
      var read, _ := ReadRegister(serialNumber);
      StillTraced(heard, old(sent), old(sentAt));
      if read.Failure? {
        return Failure(if read.error == Timeout || read.error == Protocol then Auth else read.error);
      }
      ghost var ack := AckTaken(taken - 1, |sent| - 1, sentAt[|sentAt| - 1], sent[|sent| - 1]);
      JustifyAck(Heard(), linkStart, serialNumber, pair, ack);
      Mark(ack);
      return Success(());
    }

    /** The handshake stopped after a PING reply whose status is zero. */
    ghost predicate PairingRefused()
      reads `journey, `queued
    {
      && LastStep().Some? && LastStep().value.PingTaken? && LastStep().value.at < |queued|
      && queued[LastStep().value.at].index == 0
    }

    /** The handshake stopped after an INIT reply too short for a key. */
    ghost predicate KeyTooShort()
      reads `journey, `queued
    {
      && LastStep().Some? && LastStep().value.InitTaken? && LastStep().value.at < |queued|
      && |queued[LastStep().value.at].data| < APP_KEY_LENGTH
    }

    /** INIT: take the scooter's key and challenge. */
    method Introduce() returns (r: Result<(), Error>)
      requires Valid() && Traced() && journey == []
      modifies `buffer, `crypto, `responses, `queued, `decryptedAt, `arrived, `link, `now, `events
      modifies `sent, `sentAt, `written, `taken
      modifies `journey, `serialChallenge
      ensures Valid() && Traced() && Onward() && SameLink()
      ensures r.Success? ==> LastStep().Some? && LastStep().value.BleKeySet? && LastStep().value.since <= taken
      ensures r.Success? ==> sent == old(sent) + [InitRequest()]
      ensures r.Success? ==> old(taken) < taken && APP_KEY_LENGTH <= |queued[taken - 1].data|
                             && queued[taken - 1].MatchesRequest(InitRequest())
                             && serialChallenge == queued[taken - 1].data[APP_KEY_LENGTH..]
      ensures r.Success? ==> ChallengeHeard(queued, journey, serialChallenge)
      ensures r.Failure? ==> IsLinkError(r.error) || r.error == Auth
      ensures r == Failure(Auth) <==> KeyTooShort()
      ensures Ran(AsWorld(), if r.Success? then Success(serialChallenge) else Failure(r.error))
              == Runs.Introduce(AsSetup(), old(AsWorld()))
    {
      hide Valid, Keys, KeyCalls, HonestTraffic, Path, Justified, Runs.Request;
      var init := HandshakeRequest(InitRequest());
      if init.Failure? {
        return Failure(init.error);
      }
      JustifyInit(Heard(), linkStart, serialNumber, taken - 1);
      Mark(InitTaken(taken - 1));
      if |init.value.data| < APP_KEY_LENGTH {
        return Failure(Auth);
      }
      var bleKey := init.value.data[..APP_KEY_LENGTH];
      serialChallenge := init.value.data[APP_KEY_LENGTH..];
      InstallKey(SetBleData(bleKey), BleKeySet(bleKey, taken));
      return Success(());
    }

    /** With a PING reply in hand: pair if its status says the scooter does not know the key. */
    method PairIfNeeded(ping: Packet, ghost at: nat) returns (r: Result<(), Error>, ghost asked: nat)
      requires Valid() && Traced() && LastStep() == Some(PingTaken(at)) && at + 1 == taken && queued[at] == ping
      modifies `buffer, `crypto, `responses, `queued, `decryptedAt, `arrived, `link, `now, `events
      modifies `sent, `sentAt, `written, `taken, `journey
      ensures Valid() && Traced() && Onward() && SameLink()
      ensures r.Success? ==> Justified(Heard(), linkStart, serialNumber, LastStep(), AppKeySet(appKey, taken))
      ensures old(journey) <= journey
      ensures r.Success? ==> sent == old(sent) + PairRequests(serialChallenge, asked)
      ensures r.Success? ==> (asked == 0 <==> ping.index != 0)
      ensures r.Failure? ==> IsLinkError(r.error) || r.error == PairingRequired
      ensures r == Failure(PairingRequired) ==> PairingRefused()
      ensures Ran(AsWorld(), r) == Runs.PairIfNeeded(AsSetup(), old(AsWorld()), ping, serialChallenge)
    {
      hide Keys, KeyCalls, Unpacked, HonestTraffic, Decryptions, Residue, FramesIn, Dated, Path, Justified,
           Runs.AwaitPairing;
      r, asked := Success(()), 0;
      if ping.index == 0 {
        ghost var heard := Heard();
        r, asked := AwaitPairing();
        StillTraced(heard, old(sent), old(sentAt));
        if r.Success? {
          JustifyAccepted(Heard(), linkStart, serialNumber, at, taken - 1);
          Mark(PairingAccepted(taken - 1));
          JustifyAppKey(Heard(), linkStart, serialNumber, taken - 1, appKey);
        }
      } else {
        JustifyAppKey(Heard(), linkStart, serialNumber, at, appKey);
      }
    }

    /** PING with the client's key. */
    method PingScooter() returns (r: Answer)
      requires Valid() && Traced()
      requires LastStep().Some? && LastStep().value.BleKeySet? && LastStep().value.since <= taken
      modifies `buffer, `crypto, `responses, `queued, `decryptedAt, `arrived, `link, `now, `events
      modifies `sent, `sentAt, `written, `taken, `journey
      ensures Valid() && Traced() && Onward() && SameLink()
      ensures r.Success? ==> taken > 0 && LastStep() == Some(PingTaken(taken - 1)) && queued[taken - 1] == r.value
      ensures old(journey) <= journey
      ensures r.Success? ==> sent == old(sent) + [PingRequest(appKey)]
      ensures r.Failure? ==> IsLinkError(r.error)
      ensures Ran(AsWorld(), r) == Runs.Request(AsSetup(), old(AsWorld()), PingRequest(appKey))
    {
      hide Valid, Keys, KeyCalls, Unpacked, HonestTraffic, Path, Justified, Runs.Request;
      ghost var ble := LastStep().value;
      r := HandshakeRequest(PingRequest(appKey));
      if r.Success? {
        JustifyPing(Heard(), linkStart, serialNumber, ble.key, ble.since, taken - 1, appKey);
        Mark(PingTaken(taken - 1));
      }
    }

    /** PING and, if the scooter does not know the key, pairing; then switch to the session key. */
    method Authorize() returns (r: Result<(), Error>, ghost asked: nat)
      requires Valid() && Traced()
      requires LastStep().Some? && LastStep().value.BleKeySet? && LastStep().value.since <= taken
      modifies `buffer, `crypto, `responses, `queued, `decryptedAt, `arrived, `link, `now, `events
      modifies `sent, `sentAt, `written, `taken, `journey
      ensures Valid() && Traced() && Onward() && SameLink()
      ensures r.Success? ==> LastStep() == Some(AppKeySet(appKey, taken))
      ensures old(journey) <= journey
      ensures r.Success? ==> sent == old(sent) + [PingRequest(appKey)] + PairRequests(serialChallenge, asked)
      ensures r.Failure? ==> IsLinkError(r.error) || r.error == PairingRequired
      ensures r == Failure(PairingRequired) ==> PairingRefused()
      ensures Ran(AsWorld(), r) == Runs.Authorize(AsSetup(), old(AsWorld()), appKey, serialChallenge)
    {
      hide Valid, Keys, KeyCalls, Unpacked, HonestTraffic, Path, Justified, PairRequests, Runs.Request,
           Runs.PairIfNeeded;
      var ping := PingScooter();
      if ping.Failure? {
        return Failure(ping.error), 0;
      }
      r, asked := PairIfNeeded(ping.value, taken - 1);
      if r.Success? {
        InstallKey(SetAppData(appKey), AppKeySet(appKey, taken));
      }
    }

    /** The closing PAIR, under the session key. */
    method ClosePairing() returns (r: Result<(), Error>)
      requires Valid() && Traced() && LastStep() == Some(AppKeySet(appKey, taken))
      modifies `buffer, `crypto, `responses, `queued, `decryptedAt, `arrived, `link, `now, `events
      modifies `sent, `sentAt, `written, `taken, `journey
      ensures Valid() && Traced() && Onward() && SameLink()
      ensures r.Success? ==> taken > 0 && journey == old(journey) + [PairTaken(taken - 1)]
      ensures r.Success? ==> sent == old(sent) + [PairRequest(serialChallenge)]
      ensures r.Failure? ==> IsLinkError(r.error)
      ensures Ran(AsWorld(), r) == Runs.ClosePairing(AsSetup(), old(AsWorld()), serialChallenge)
    {
      hide Valid, Keys, KeyCalls, HonestTraffic, Path, Justified, Established, Runs.Request;
      var paired := HandshakeRequest(PairRequest(serialChallenge));
      if paired.Failure? {
        return Failure(paired.error);
      }
      JustifyPair(Heard(), linkStart, serialNumber, appKey, old(taken), taken - 1, serialChallenge);
      Mark(PairTaken(taken - 1));
      return Success(());
    }

    /** The closing PAIR and the proving read. */
    method Settle() returns (r: Result<(), Error>)
      requires Valid() && Traced() && LastStep() == Some(AppKeySet(appKey, taken))
      modifies `buffer, `crypto, `responses, `queued, `decryptedAt, `arrived, `link, `now, `events
      modifies `sent, `sentAt, `written, `taken, `journey
      ensures Valid() && Traced() && Onward() && SameLink()
      ensures r.Success? ==> Established(journey, appKey) && old(journey) <= journey
      ensures r.Success? ==> old(sent) + [PairRequest(serialChallenge)] <= sent
      ensures r != Failure(PairingRequired)
      ensures r == Failure(Auth) ==> LastStep().Some? && LastStep().value.PairTaken?
      ensures Ran(AsWorld(), r) == Runs.Settle(AsSetup(), old(AsWorld()), serialChallenge)
    {
      hide Valid, Traced, HonestTraffic, Established, AckFor, Runs.ClosePairing, Runs.VerifySession;
      r := ClosePairing();
      if r.Failure? {
        return;
      }
      ghost var pair := taken - 1;
      r := VerifySession(pair);
      if r.Success? {
        EstablishedBy(old(journey), appKey, old(taken), pair, journey[|journey| - 1]);
      }
    }

    /** From nothing to an established session under the client's key, or to the step that failed. */
    method Handshake() returns (r: Result<(), Error>, ghost asked: nat)
      requires Valid() && Traced() && journey == []
      modifies `buffer, `crypto, `responses, `queued, `decryptedAt, `arrived, `link, `now, `events
      modifies `sent, `sentAt, `written, `taken
      modifies `journey, `serialChallenge
      ensures Valid() && Traced() && Onward() && SameLink()
      ensures r.Success? ==> Established(journey, appKey) && ChallengeHeard(queued, journey, serialChallenge)
      ensures r.Success? ==> old(sent) + HandshakeRequests(appKey, serialChallenge, asked) <= sent
      ensures r == Failure(PairingRequired) ==> PairingRefused()
      ensures r == Failure(Auth) ==> KeyTooShort() || (LastStep().Some? && LastStep().value.PairTaken?)
      ensures Ran(AsWorld(), r) == Runs.Handshake(AsSetup(), old(AsWorld()), appKey)
    {
      hide PairingRefused, KeyTooShort, PairRequests, HandshakeRequests, Valid, Traced, Justified, Established,
           HonestTraffic, ChallengeHeard, Runs.Introduce, Runs.Authorize, Runs.Settle;
      asked := 0;
      r := Introduce();
      if r.Failure? {
        return;
      }
      ghost var introduced, heard := journey, queued;
      r, asked := Authorize();
      if r.Failure? {
        return;
      }
      HandshakeSends(old(sent), appKey, serialChallenge, asked);
      r := Settle();
      if r.Success? {
        StillChallenged(heard, introduced, queued, journey, serialChallenge);
      }
    }

    /** Open a link and run the handshake on it. */
    method OpenSession() returns (r: Result<(), Error>, ghost asked: nat)
      requires Valid()
      modifies `buffer, `crypto, `responses, `queued, `decryptedAt, `arrived, `link, `now, `events
      modifies `sent, `sentAt, `written, `taken
      modifies `journey, `serialChallenge, `linkStart, `chunkSize, `linksOpened, `operations, `orphaned
      ensures Valid() && Traced() && Onward()
      ensures old(linksOpened) <= linksOpened <= old(linksOpened) + 1
      ensures r.Success? ==> linksOpened == old(linksOpened) + 1
      ensures LeaksAccounted() && (!old(IsConnected()) && old(NoneOver(operations)) ==> NoneOver(operations))
      ensures r.Success? ==> Established(journey, appKey)
      ensures r.Success? ==> old(sent) + HandshakeRequests(appKey, serialChallenge, asked) <= sent
      ensures Ran(AsWorld(), r) == Runs.OpenSession(AsSetup(), old(AsWorld()), appKey)
    {
      hide Valid, Traced, HonestTraffic, Established, LeakCount, NoneOver, ClosingOps, OpeningOps,
           Runs.ConnectTransport, Runs.Handshake;
      asked := 0;
      r := ConnectTransport();
      OpeningIsNotOver(old(operations), old(IsConnected()), old(events));
      if r.Success? {
        r, asked := Handshake();
      }
    }

    /**
     An established session on a new link, or an error. A supplied key that leads to an authentication
     error is replaced by `freshKey` and the handshake is tried once more on a new link. Opening
     a link never raises an authentication error, so only the handshake can lead there.
     */
    method Connect(freshKey: Bytes) returns (r: Result<(), Error>, ghost attempts: seq<Result<(), Error>>)
      requires Valid() && |freshKey| == APP_KEY_LENGTH
      modifies `buffer, `crypto, `responses, `queued, `decryptedAt, `arrived, `link, `now, `events
      modifies `sent, `sentAt, `written, `taken
      modifies `journey, `serialChallenge, `linkStart, `chunkSize, `linksOpened, `operations, `orphaned
      modifies `appKey, `appKeyWasSupplied
      ensures Valid() && Traced() && Onward()
      ensures r.Success? ==> Established(journey, appKey)
      ensures LeaksAccounted() && (!old(IsConnected()) && old(NoneOver(operations)) ==> NoneOver(operations))
      ensures 1 <= |attempts| <= 2 && linksOpened <= old(linksOpened) + |attempts|
      ensures r.Success? ==> linksOpened > old(linksOpened)
      ensures old(appKey) != [] ==> appKey != []
      ensures r == attempts[|attempts| - 1] || (r == Failure(Other) && |attempts| == 1)
      ensures var replaced := attempts[0].Failure? && IsAuth(attempts[0].error) && old(appKeyWasSupplied);
              && appKey == (if replaced then freshKey else old(appKey))
              && appKeyWasSupplied == (old(appKeyWasSupplied) && !replaced)
              && (|attempts| == 2 ==> replaced)
              && (!replaced ==> r == attempts[0])
      ensures attempts[0] == Runs.OpenSession(AsSetup(), old(AsWorld()), old(appKey)).result
      ensures Ran(AsWorld(), r)
              == Runs.Connect(AsSetup(), old(AsWorld()), old(appKey), old(appKeyWasSupplied), freshKey)
    {
      hide Valid, Traced, HonestTraffic, Established, LeakCount, NoneOver, ClosingOps, OpeningOps, Runs.OpenSession,
           Runs.Disconnect;
      ghost var asked;
      r, asked := OpenSession();
      attempts := [r];
      if r.Success? || !IsAuth(r.error) || !appKeyWasSupplied {
        return;
      }
      appKey := freshKey;
      appKeyWasSupplied := false;
      ClosingIsNotOver(operations, IsConnected(), events);
      r := Disconnect();
      if r.Failure? {
        return;
      }
      r, asked := OpenSession();
      attempts := attempts + [r];
    }

    /** What happens on the link while no method is running. */
    method Idle(e: Event)
      requires Valid() && Traced()
      modifies `buffer, `crypto, `responses, `queued, `decryptedAt, `arrived, `link, `now
      ensures Valid() && Traced() && Later()
    {
      ghost var heard := Heard();
      HandleEvent(e);
      StillTraced(heard, old(sent), old(sentAt));
    }
  }
}
