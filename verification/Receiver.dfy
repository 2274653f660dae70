/**
 The receive path as a function of its state: what one notification does to the buffer, the
 queue and the cipher, and what any run of notifications does.
 */
module Receiver {
  import opened Wrappers
  import opened Bytes
  import opened Protocol
  import opened Crypto
  import opened Framing

  const QUEUE_LIMIT := 64

  datatype Rx = Rx(buffer: Bytes, queue: seq<Packet>, crypto: Crypto)

  /** The packet in a frame, or None when it does not decrypt or does not unpack. */
  function Decoded(c: Cipher, crypto: Crypto, frame: Bytes): Option<Packet> {
    var plain := c.decrypt(crypto, frame);
    if plain.Some? && Unpack(plain.value).Success? then Some(Unpack(plain.value).value) else None
  }

  /** A bounded queue drops what does not fit. */
  function Enqueued(queue: seq<Packet>, p: Packet): seq<Packet> {
    if |queue| < QUEUE_LIMIT then queue + [p] else queue
  }

  function Dispatched(c: Cipher, rx: Rx, frame: Bytes): Rx {
    var packet := Decoded(c, rx.crypto, frame);
    rx.(crypto := rx.crypto + [Decrypt(frame)],
        queue := if packet.Some? then Enqueued(rx.queue, packet.value) else rx.queue)
  }

  function DispatchedAll(c: Cipher, rx: Rx, frames: seq<Bytes>): Rx
    decreases |frames|
  {
    if frames == [] then rx else DispatchedAll(c, Dispatched(c, rx, frames[0]), frames[1..])
  }

  /** One notification. */
  function Notified(c: Cipher, rx: Rx, data: Bytes): Rx {
    var stream := rx.buffer + data;
    DispatchedAll(c, rx.(buffer := Residue(stream)), FramesIn(stream))
  }

  /** A run of notifications. */
  function NotifiedAll(c: Cipher, rx: Rx, chunks: seq<Bytes>): Rx
    decreases |chunks|
  {
    if chunks == [] then rx else NotifiedAll(c, Notified(c, rx, chunks[0]), chunks[1..])
  }

  /** A buffer no further frame can be cut from, as every notification leaves it. */
  predicate Settled(rx: Rx) {
    Scan(rx.buffer) == Scanned([], rx.buffer)
  }

  // ----- independence of the cuts -----

  lemma {:induction false} DispatchKeepsBuffer(c: Cipher, rx: Rx, b: Bytes, frames: seq<Bytes>)
    ensures DispatchedAll(c, rx, frames).buffer == rx.buffer
    ensures DispatchedAll(c, rx.(buffer := b), frames) == DispatchedAll(c, rx, frames).(buffer := b)
    decreases |frames|
  {
    if frames != [] {
      DispatchKeepsBuffer(c, Dispatched(c, rx, frames[0]), b, frames[1..]);
    }
  }

  lemma {:induction false} DispatchAppend(c: Cipher, rx: Rx, xs: seq<Bytes>, ys: seq<Bytes>)
    ensures DispatchedAll(c, rx, xs + ys) == DispatchedAll(c, DispatchedAll(c, rx, xs), ys)
    decreases |xs|
  {
    if xs == [] {
      assert xs + ys == ys;
    } else {
      assert (xs + ys)[1..] == xs[1..] + ys;
      DispatchAppend(c, Dispatched(c, rx, xs[0]), xs[1..], ys);
    }
  }

  /** Notifying `a` and then `b` is notifying `a + b`. */
  lemma NotifyTwice(c: Cipher, rx: Rx, a: Bytes, b: Bytes)
    ensures Notified(c, Notified(c, rx, a), b) == Notified(c, rx, a + b)
    ensures Settled(Notified(c, rx, a))
  {
    var s := rx.buffer + a;
    assert rx.buffer + (a + b) == s + b;
    FramesResume(s, b);
    var mid := DispatchedAll(c, rx.(buffer := Residue(s)), FramesIn(s));
    DispatchKeepsBuffer(c, rx.(buffer := Residue(s)), Residue(s + b), FramesIn(s));
    ResidueIsSettled(s);
    DispatchAppend(c, rx.(buffer := Residue(s + b)), FramesIn(s), FramesIn(Residue(s) + b));
  }

  /** However a stream is cut into notifications, the outcome is that of one notification of all of it. */
  lemma {:induction false} ChunkIndependence(c: Cipher, rx: Rx, chunks: seq<Bytes>)
    requires Settled(rx)
    ensures NotifiedAll(c, rx, chunks) == Notified(c, rx, Concat(chunks))
    decreases |chunks|
  {
    if chunks == [] {
      assert rx.buffer + [] == rx.buffer;
    } else {
      NotifyTwice(c, rx, chunks[0], Concat(chunks[1..]));
      ChunkIndependence(c, Notified(c, rx, chunks[0]), chunks[1..]);
    }
  }

  /** Two ways of cutting the same bytes cannot be told apart. */
  lemma {:induction false} CutsAgree(c: Cipher, rx: Rx, xs: seq<Bytes>, ys: seq<Bytes>)
    requires Settled(rx) && Concat(xs) == Concat(ys)
    ensures NotifiedAll(c, rx, xs) == NotifiedAll(c, rx, ys)
  {
    ChunkIndependence(c, rx, xs);
    ChunkIndependence(c, rx, ys);
  }

  // ----- one turn of the reassembly loop -----

  /** What is left to do with the bytes in the buffer. */
  function Finished(c: Cipher, rx: Rx): Rx {
    DispatchedAll(c, rx.(buffer := Residue(rx.buffer)), FramesIn(rx.buffer))
  }

  lemma FinishNotified(c: Cipher, rx: Rx, data: Bytes)
    ensures Finished(c, rx.(buffer := rx.buffer + data)) == Notified(c, rx, data)
    ensures Settled(rx) ==> Finished(c, rx) == rx
  {
  }

  /** Discarding bytes no preamble starts at. */
  lemma FinishSkip(c: Cipher, rx: Rx, n: nat)
    requires n < |rx.buffer| && forall i :: 0 <= i < n ==> !StartsFrame(rx.buffer[i..])
    ensures Finished(c, rx.(buffer := rx.buffer[n..])) == Finished(c, rx)
  {
    SkipJunk(rx.buffer, n);
  }

  /** Cutting off and dispatching the frame at the head. */
  lemma FinishCut(c: Cipher, rx: Rx, n: nat)
    requires HasFrame(rx.buffer) && n == ExpectedFrameLength(rx.buffer).value
    ensures Finished(c, Dispatched(c, rx.(buffer := rx.buffer[n..]), rx.buffer[..n])) == Finished(c, rx)
  {
    assert HeadLength(rx.buffer) == Some(n);
    var frames := FramesIn(rx.buffer);
    assert frames[1..] == FramesIn(rx.buffer[n..]);
  }

  /** A notification keeps buffer and decryptions those of the whole stream. */
  lemma NotifiedKeeps(c: Cipher, rx: Rx, arrived: Bytes, data: Bytes)
    requires rx.buffer == Residue(arrived) && Decryptions(rx.crypto) == FramesIn(arrived)
    ensures var rx' := Notified(c, rx, data);
            && rx'.buffer == Residue(arrived + data) && Decryptions(rx'.crypto) == FramesIn(arrived + data)
            && Keys(rx'.crypto) == Keys(rx.crypto)
  {
    FramesResume(arrived, data);
    var s := rx.buffer + data;
    DispatchCalls(c, rx.(buffer := Residue(s)), FramesIn(s));
    DispatchKeepsBuffer(c, rx.(buffer := Residue(s)), Residue(s), FramesIn(s));
  }

  // ----- the cipher and the queue over a run -----

  /**
   One frame: it is decrypted, and only what then unpacks goes on the queue, behind the packets there,
   unless sixty-four are waiting. Otherwise the queue stays as it is.
   */
  lemma DispatchIs(c: Cipher, rx: Rx, frame: Bytes)
    ensures var rx' := Dispatched(c, rx, frame);
            && rx'.buffer == rx.buffer && rx'.crypto == rx.crypto + [Decrypt(frame)]
            && match c.decrypt(rx.crypto, frame)
               case None => rx'.queue == rx.queue
               case Some(plain) =>
                 match Unpack(plain)
                 case Failure(_) => rx'.queue == rx.queue
                 case Success(p) => rx'.queue == if |rx.queue| < 64 then rx.queue + [p] else rx.queue
  {
  }

  /** The cipher is called once for every whole frame, in order, and the bound is never exceeded. */
  lemma {:induction false} DispatchCalls(c: Cipher, rx: Rx, frames: seq<Bytes>)
    ensures Decryptions(DispatchedAll(c, rx, frames).crypto) == Decryptions(rx.crypto) + frames
    ensures Keys(DispatchedAll(c, rx, frames).crypto) == Keys(rx.crypto)
    ensures rx.queue <= DispatchedAll(c, rx, frames).queue
    ensures |rx.queue| <= 64 ==> |DispatchedAll(c, rx, frames).queue| <= 64
    decreases |frames|
  {
    if frames != [] {
      CallsGrow(rx.crypto, Decrypt(frames[0]));
      DispatchCalls(c, Dispatched(c, rx, frames[0]), frames[1..]);
    }
  }

  /** A run of notifications decrypts the frames in the buffer and all the bytes, and keeps their unfinished tail. */
  lemma RunDecrypts(c: Cipher, rx: Rx, chunks: seq<Bytes>)
    requires Settled(rx)
    ensures var s := rx.buffer + Concat(chunks);
            && NotifiedAll(c, rx, chunks) == DispatchedAll(c, rx, FramesIn(s)).(buffer := Residue(s))
            && Decryptions(NotifiedAll(c, rx, chunks).crypto) == Decryptions(rx.crypto) + FramesIn(s)
  {
    hide FramesIn, Residue, Settled;
    var s := rx.buffer + Concat(chunks);
    ChunkIndependence(c, rx, chunks);
    DispatchKeepsBuffer(c, rx, Residue(s), FramesIn(s));
    DispatchCalls(c, rx, FramesIn(s));
  }

  lemma NotifyKeepsKeys(c: Cipher, rx: Rx, data: Bytes)
    ensures Keys(Notified(c, rx, data).crypto) == Keys(rx.crypto)
  {
    var stream := rx.buffer + data;
    DispatchCalls(c, rx.(buffer := Residue(stream)), FramesIn(stream));
  }

  // ----- when a queued packet was decrypted -----

  /**
   From packet `start` on, `when[i]` is the call on the cipher that decrypted packet `i`: it was given
   the packet's frame, with the calls before it already made.
   */
  ghost predicate Dated(c: Cipher, crypto: Crypto, start: nat, queued: seq<Packet>, when: seq<nat>) {
    && |when| == |queued|
    && (forall i :: start <= i < |queued| ==> DecryptedAt(c, crypto, queued[i], when[i]))
    && forall i, j :: start <= i < j < |queued| ==> when[i] < when[j]
  }

  predicate DecryptedAt(c: Cipher, crypto: Crypto, p: Packet, n: nat) {
    n < |crypto| && crypto[n].Decrypt? && Decoded(c, crypto[..n], crypto[n].frame) == Some(p)
  }

  /** Calls made later change nothing about it. */
  lemma DatedGrows(c: Cipher, crypto: Crypto, call: Call, start: nat, queued: seq<Packet>, when: seq<nat>)
    requires Dated(c, crypto, start, queued, when)
    ensures Dated(c, crypto + [call], start, queued, when)
    ensures call.Decrypt? ==> forall p :: Decoded(c, crypto, call.frame) == Some(p) ==>
                                Dated(c, crypto + [call], start, queued + [p], when + [|crypto|])
  {
    hide Decoded;
    var more := crypto + [call];
    assert more[..|crypto|] == crypto && forall n :: 0 <= n < |crypto| ==> more[..n] == crypto[..n];
  }

  /** A new link, with a fresh cipher, starts behind all of them. */
  lemma DatedAnew(c: Cipher, crypto: Crypto, blank: Crypto, start: nat, queued: seq<Packet>, when: seq<nat>)
    requires Dated(c, crypto, start, queued, when)
    ensures Dated(c, blank, |queued|, queued, when)
  {
  }

  /** Whether the application key had been installed when packet `i` was decrypted. */
  ghost predicate Keyed(crypto: Crypto, when: seq<nat>, key: Bytes, i: nat) {
    i < |when| && when[i] <= |crypto| && SetAppData(key) in crypto[..when[i]]
  }

  /** Packets queued later were decrypted later. */
  lemma KeyedStays(c: Cipher, crypto: Crypto, start: nat, queued: seq<Packet>, when: seq<nat>, key: Bytes,
                   i: nat, j: nat)
    requires Dated(c, crypto, start, queued, when) && start <= i <= j < |queued| && Keyed(crypto, when, key, i)
    ensures Keyed(crypto, when, key, j)
  {
    assert DecryptedAt(c, crypto, queued[j], when[j]);
    assert crypto[..when[i]] <= crypto[..when[j]];
  }

  /**
   Any well-framed messages with quiet noise around them, cut in any way, are decrypted frame by
   frame in order, whatever is in the buffer from before and whether or not they decrypt.
   */
  lemma {:induction false} ResyncRun(c: Cipher, rx: Rx, ms: seq<Message>, tail: Bytes, chunks: seq<Bytes>)
    requires Settled(rx) && WellFramed(ms) && Quiet(tail) && QuietBehind(rx.buffer, ms, tail)
    requires Concat(chunks) == Air(ms, tail)
    ensures NotifiedAll(c, rx, chunks)
            == DispatchedAll(c, rx, FramesOf(ms)).(buffer := Kept(TailBehind(rx.buffer, ms, tail)))
    ensures Decryptions(NotifiedAll(c, rx, chunks).crypto) == Decryptions(rx.crypto) + FramesOf(ms)
  {
    RunDecrypts(c, rx, chunks);
    ResyncBehind(rx.buffer, ms, tail);
  }

  /**
   Whatever was received before, even the head of a frame that never was one, after enough quiet noise
   at most one false frame is decrypted and then the messages are, frame by frame in order.
   */
  lemma {:induction false} NoiseResyncsRun(c: Cipher, rx: Rx, ms: seq<Message>, tail: Bytes, chunks: seq<Bytes>)
    requires Settled(rx) && WellFramed(ms) && Quiet(tail) && ms != [] && |ms[0].noise| >= LONGEST_FRAME - 1
    requires Concat(chunks) == Air(ms, tail)
    ensures var before, after := Decryptions(rx.crypto), Decryptions(NotifiedAll(c, rx, chunks).crypto);
            || after == before + FramesOf(ms)
            || exists f :: IsFrame(f) && after == before + ([f] + FramesOf(ms))
    ensures NotifiedAll(c, rx, chunks).buffer == Kept(tail)
  {
    ScanSegments(rx.buffer);
    assert IsResidue(rx.buffer);
    hide IsFrame, Kept, FramesIn, Residue, FramesOf, Air, NotifiedAll, DispatchedAll, Decryptions, IsResidue;
    RunDecrypts(c, rx, chunks);
    var junk := NoiseResyncsBehind(rx.buffer, ms, tail);
    if junk == [] {
      assert [] + FramesOf(ms) == FramesOf(ms);
    }
  }

  // ----- from the scooter's packets to the client's queue -----

  /** Stray bytes and then a packet the scooter sends. */
  datatype Burst = Burst(noise: Bytes, packet: Packet)

  function Packets(bursts: seq<Burst>): (r: seq<Packet>)
    ensures |r| == |bursts|
  {
    if bursts == [] then [] else [bursts[0].packet] + Packets(bursts[1..])
  }

  predicate Sendable(bursts: seq<Burst>) {
    forall i :: 0 <= i < |bursts| ==> bursts[i].packet.OnWire() && Quiet(bursts[i].noise)
  }

  /** Every packet packed and encrypted in order by `peer`. */
  function Sent(c: Cipher, peer: Crypto, bursts: seq<Burst>): (ms: seq<Message>)
    requires Sendable(bursts)
    ensures |ms| == |bursts|
    decreases |bursts|
  {
    if bursts == [] then []
    else
      var plain := bursts[0].packet.Pack().value;
      [Message(bursts[0].noise, c.encrypt(peer, plain))] + Sent(c, peer + [Encrypt(plain)], bursts[1..])
  }

  /** The scooter's cipher after sending every packet. */
  function PeerAfter(peer: Crypto, bursts: seq<Burst>): Crypto
    requires Sendable(bursts)
    decreases |bursts|
  {
    if bursts == [] then peer
    else PeerAfter(peer + [Encrypt(bursts[0].packet.Pack().value)], bursts[1..])
  }

  /** One message through a lawful cipher: a whole frame, read back, and the pair kept in step. */
  lemma LawfulMessage(c: Cipher, e: Crypto, d: Crypto, plain: Bytes)
    requires Lawful(c) && c.paired(e, d) && IsPlain(plain)
    ensures IsFrame(c.encrypt(e, plain))
    ensures c.decrypt(d, c.encrypt(e, plain)) == Some(plain)
    ensures c.paired(e + [Encrypt(plain)], d + [Decrypt(c.encrypt(e, plain))])
  {
    var f := c.encrypt(e, plain);
    assert LawfulAt(c, e, d, plain);
    assert f[0] == f[..3][0] == plain[..3][0] && f[1] == f[..3][1] == plain[..3][1]
           && f[2] == f[..3][2] == plain[..3][2];
  }

  lemma QueueFills(queue: seq<Packet>, p: Packet, ps: seq<Packet>)
    requires |queue| <= QUEUE_LIMIT
    ensures Take(Enqueued(queue, p) + ps, QUEUE_LIMIT) == Take(queue + ([p] + ps), QUEUE_LIMIT)
  {
    assert queue + ([p] + ps) == queue + [p] + ps;
  }

  lemma MessageIsReceived(c: Cipher, peer: Crypto, rx: Rx, p: Packet)
    returns (next: Rx, f: Bytes, peer': Crypto)
    requires Lawful(c) && c.paired(peer, rx.crypto) && p.OnWire()
    ensures f == c.encrypt(peer, p.Pack().value) && IsFrame(f)
    ensures next == Dispatched(c, rx, f) && next.queue == Enqueued(rx.queue, p)
    ensures peer' == peer + [Encrypt(p.Pack().value)] && c.paired(peer', next.crypto)
  {
    var plain := p.Pack().value;
    f := c.encrypt(peer, plain);
    UnpackPack(p, []);
    LawfulMessage(c, peer, rx.crypto, plain);
    next := Dispatched(c, rx, f);
    peer' := peer + [Encrypt(plain)];
  }

  /** The frames of packets sent in step are whole frames, and dispatching them queues the packets. */
  lemma {:induction false} SentIsDispatched(c: Cipher, peer: Crypto, rx: Rx, bursts: seq<Burst>)
    requires Lawful(c) && c.paired(peer, rx.crypto)
    requires Sendable(bursts) && |rx.queue| <= QUEUE_LIMIT
    ensures WellFramed(Sent(c, peer, bursts))
    ensures var rx' := DispatchedAll(c, rx, FramesOf(Sent(c, peer, bursts)));
            && rx'.queue == Take(rx.queue + Packets(bursts), QUEUE_LIMIT)
            && c.paired(PeerAfter(peer, bursts), rx'.crypto)
    decreases |bursts|
  {
    if bursts == [] {
      assert rx.queue + [] == rx.queue;
    } else {
      var p := bursts[0].packet;
      var next, f, peer' := MessageIsReceived(c, peer, rx, p);
      SentIsDispatched(c, peer', next, bursts[1..]);
      var ms := Sent(c, peer, bursts);
      assert ms[1..] == Sent(c, peer', bursts[1..]);
      assert FramesOf(ms)[1..] == FramesOf(ms[1..]);
      QueueFills(rx.queue, p, Packets(bursts[1..]));
    }
  }

  /**
   Packets sent through a lawful cipher, with quiet noise around them and cut in any way,
   arrive exactly and in order, up to the queue's bound; on overflow the newest are lost.
   The cipher is called once per packet and both sides stay paired, so that the next stretch can
   follow; what is in the buffer from the last one only has to keep the noise quiet.
   */
  lemma EndToEnd(c: Cipher, peer: Crypto, rx: Rx, bursts: seq<Burst>, tail: Bytes, chunks: seq<Bytes>)
    requires Lawful(c) && c.paired(peer, rx.crypto)
    requires Sendable(bursts) && Quiet(tail) && QuietBehind(rx.buffer, Sent(c, peer, bursts), tail)
    requires Settled(rx) && |rx.queue| <= 64
    requires Concat(chunks) == Air(Sent(c, peer, bursts), tail)
    ensures var rx' := NotifiedAll(c, rx, chunks);
            && rx'.queue == Take(rx.queue + Packets(bursts), 64)
            && rx'.buffer == Kept(TailBehind(rx.buffer, Sent(c, peer, bursts), tail))
            && Decryptions(rx'.crypto) == Decryptions(rx.crypto) + FramesOf(Sent(c, peer, bursts))
            && c.paired(PeerAfter(peer, bursts), rx'.crypto)
            && Settled(rx') && |rx'.queue| <= 64
  {
    SentIsDispatched(c, peer, rx, bursts);
    ResyncRun(c, rx, Sent(c, peer, bursts), tail, chunks);
  }

  /** What a sender writes, chunk by chunk, a receiver in step with it reads back as the packet. */
  lemma SentIsReceived(c: Cipher, sender: Crypto, rx: Rx, p: Packet, chunks: seq<Bytes>)
    requires Lawful(c) && c.paired(sender, rx.crypto) && p.OnWire()
    requires rx.buffer == [] && |rx.queue| < QUEUE_LIMIT
    requires Concat(chunks) == c.encrypt(sender, p.Pack().value)
    ensures NotifiedAll(c, rx, chunks).queue == rx.queue + [p] && NotifiedAll(c, rx, chunks).buffer == []
  {
    var burst := Burst([], p);
    var ms := Sent(c, sender, [burst]);
    assert ms[1..] == [] && ms[0] == Message([], c.encrypt(sender, p.Pack().value));
    assert Air(ms, []) == [] + c.encrypt(sender, p.Pack().value) + [];
    EndToEnd(c, sender, rx, [burst], [], chunks);
    assert Packets([burst]) == [p];
  }
}
