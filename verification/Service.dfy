/** A scooter that answers in time, however it does so, and what the client makes of it. */
module Service {
  import opened Wrappers
  import opened Bytes
  import opened Errors
  import opened Protocol
  import opened Crypto
  import opened Receiver
  import opened Registers
  import opened RegisterRead
  import opened Snapshots
  import opened Polling
  import opened Session
  import opened Links
  import opened Runs

  // ----- one request -----

  /**
   How one request is served: each write works after a pause, and after some more time the bytes of
   the reply are notified, with later packets behind it.
   */
  datatype Service = Service(pauses: seq<nat>, delays: seq<nat>, data: Bytes, reply: Packet, later: seq<Packet>)

  function Sum(ns: seq<nat>): nat {
    if ns == [] then 0 else ns[0] + Sum(ns[1..])
  }

  function Writes(pauses: seq<nat>): seq<Event> {
    if pauses == [] then [] else [Tick(pauses[0]), Completed(Worked(None))] + Writes(pauses[1..])
  }

  function Ticks(delays: seq<nat>): seq<Event> {
    if delays == [] then [] else [Tick(delays[0])] + Ticks(delays[1..])
  }

  function Script(v: Service): seq<Event> {
    Writes(v.pauses) + (Ticks(v.delays) + [Notify(v.data)])
  }

  /** The world once a request has been encrypted. */
  function Asked(w: World, request: Packet): World
    requires request.Pack().Success?
  {
    w.Called(Encrypt(request.Pack().value))
  }

  /** The world once the bytes have been notified and the reply taken off the queue, with nothing more to come. */
  function Served(s: Setup, w: World, request: Packet, v: Service): World
    requires request.Pack().Success?
  {
    var asked := Asked(w, request).rx.(queue := []);
    w.(rx := Notified(s.cipher, asked, v.data).(queue := v.later), now := w.now + Sum(v.pauses) + Sum(v.delays),
       events := [])
  }

  /** The link is up and there is one write for each chunk. */
  predicate Writable(s: Setup, w: World, request: Packet, writes: nat) {
    && w.IsUp() && request.Pack().Success?
    && writes == ChunkCount(|s.cipher.encrypt(w.rx.crypto, request.Pack().value)|, w.chunkSize)
  }

  /**
   No packet waiting answers the request, which may be any number of stale ones; the bytes hold a
   reply to it and come in time.
   */
  predicate Serves(s: Setup, w: World, request: Packet, v: Service) {
    && Writable(s, w, request, |v.pauses|)
    && NoneMatch(w.rx.queue, 0, |w.rx.queue|, request)
    && Sum(v.delays) < s.requestTimeout
    && Notified(s.cipher, Asked(w, request).rx.(queue := []), v.data).queue == [v.reply] + v.later
    && v.reply.MatchesRequest(request)
  }

  lemma WorksAfter(s: Setup, w: World, pause: nat, how: Completion, more: seq<Event>)
    requires w.events == [Tick(pause), Completed(how)] + more
    ensures Await(s, w) == Ran(w.(now := w.now + pause, events := more), how)
  {
    var ticked := Next(s, w);
    assert ticked == w.(now := w.now + pause, events := [Completed(how)] + more);
    assert Next(s, ticked) == ticked.(events := more);
    assert Await(s, w) == Await(s, ticked);
  }

  lemma {:induction false} WritesWork(s: Setup, w: World, pauses: seq<nat>, rest: seq<Event>)
    requires w.events == Writes(pauses) + rest
    ensures Write(s, w, |pauses|) == Ran(w.(now := w.now + Sum(pauses), events := rest), Success(()))
    decreases |pauses|
  {
    if pauses == [] {
      assert w.events == rest;
    } else {
      var more := Writes(pauses[1..]) + rest;
      assert w.events == [Tick(pauses[0]), Completed(Worked(None))] + more;
      WorksAfter(s, w, pauses[0], Worked(None), more);
      WritesWork(s, w.(now := w.now + pauses[0], events := more), pauses[1..], rest);
    }
  }

  lemma SendWorks(s: Setup, w: World, request: Packet, pauses: seq<nat>, rest: seq<Event>)
    requires Writable(s, w, request, |pauses|) && w.events == Writes(pauses) + rest
    ensures Send(s, w, request)
            == Ran(Asked(w, request).(now := w.now + Sum(pauses), events := rest), Success(()))
  {
    WritesWork(s, Asked(w, request), pauses, rest);
  }

  lemma {:induction false} ReplyIsTaken(s: Setup, w: World, delays: seq<nat>, data: Bytes, reply: Packet,
                                        later: seq<Packet>, rest: seq<Event>, deadline: int)
    requires w.events == Ticks(delays) + [Notify(data)] + rest && w.rx.queue == []
    requires w.now + Sum(delays) < deadline && Notified(s.cipher, w.rx, data).queue == [reply] + later
    ensures Receive(s, w, deadline)
            == Ran(w.(rx := Notified(s.cipher, w.rx, data).(queue := later), now := w.now + Sum(delays),
                      events := rest), Success(reply))
    decreases |delays|
  {
    hide Notified;
    if delays == [] {
      assert w.events == [Notify(data)] + rest;
      var next := Next(s, w);
      assert next == w.(rx := Notified(s.cipher, w.rx, data), events := rest);
      assert Receive(s, w, deadline) == Receive(s, next, deadline);
    } else {
      var more := Ticks(delays[1..]) + [Notify(data)] + rest;
      assert w.events == [Tick(delays[0])] + more;
      var next := Next(s, w);
      assert next == w.(now := w.now + delays[0], events := more);
      ReplyIsTaken(s, next, delays[1..], data, reply, later, rest, deadline);
    }
  }

  /** Looking at the clock takes the first delay, if there is one, and leaves the rest. */
  lemma ClockTakesDelay(w: World, delays: seq<nat>, data: Bytes, rest: seq<Event>) returns (left: seq<nat>)
    requires w.events == Ticks(delays) + [Notify(data)] + rest
    ensures ReadClock(w).events == Ticks(left) + [Notify(data)] + rest
    ensures ReadClock(w).now + Sum(left) == w.now + Sum(delays) && Sum(left) <= Sum(delays)
    ensures ReadClock(w) == w.(now := ReadClock(w).now, events := ReadClock(w).events)
  {
    if delays == [] {
      left := [];
      assert w.events[0] == Notify(data);
    } else {
      left := delays[1..];
      assert w.events == [Tick(delays[0])] + (Ticks(left) + [Notify(data)] + rest);
    }
  }

  /** Stale packets are taken and skipped, and then the reply is waited for. */
  lemma {:induction false} StaleIsSkipped(s: Setup, w: World, request: Packet, delays: seq<nat>, v: Service,
                                          rest: seq<Event>, deadline: int)
    requires w.events == Ticks(delays) + [Notify(v.data)] + rest && w.now + Sum(delays) < deadline
    requires NoneMatch(w.rx.queue, 0, |w.rx.queue|, request) && v.reply.MatchesRequest(request)
    requires Notified(s.cipher, w.rx.(queue := []), v.data).queue == [v.reply] + v.later
    ensures AwaitAnswer(s, w, request, deadline)
            == Ran(w.(rx := Notified(s.cipher, w.rx.(queue := []), v.data).(queue := v.later),
                      now := w.now + Sum(delays), events := rest), Success(v.reply))
    decreases |w.rx.queue|
  {
    hide Notified, Packet.MatchesRequest, Sum, Ticks, ReadClock;
    var left := ClockTakesDelay(w, delays, v.data, rest);
    var now := ReadClock(w);
    if w.rx.queue == [] {
      assert now.rx.(queue := []) == now.rx;
      ReplyIsTaken(s, now, left, v.data, v.reply, v.later, rest, deadline);
    } else {
      var next := now.(rx := w.rx.(queue := w.rx.queue[1..]));
      assert Receive(s, now, deadline) == Ran(next, Success(w.rx.queue[0]));
      assert !w.rx.queue[0].MatchesRequest(request);
      assert forall i :: 0 <= i < |next.rx.queue| ==> next.rx.queue[i] == w.rx.queue[i + 1];
      StaleIsSkipped(s, next, request, left, v, rest, deadline);
      assert AwaitAnswer(s, w, request, deadline) == AwaitAnswer(s, next, request, deadline);
    }
  }

  /** A request that is served is answered with the reply. */
  lemma {:induction false} RequestServed(s: Setup, w: World, request: Packet, v: Service, rest: seq<Event>)
    requires Serves(s, w, request, v) && w.events == Script(v) + rest
    ensures Request(s, w, request) == Ran(Served(s, w, request, v).(events := rest), Success(v.reply))
  {
    hide Notified, Packet.MatchesRequest, Packet.Pack, Write, Send, AwaitAnswer, ReadClock, Sum, Ticks, Writes,
         NoneMatch, Writable;
    ServedCanBePacked(s, w, request, v);
    var more := Ticks(v.delays) + [Notify(v.data)] + rest;
    assert w.events == Writes(v.pauses) + more;
    SendWorks(s, w, request, v.pauses, more);
    var sent := Asked(w, request).(now := w.now + Sum(v.pauses), events := more);
    var left := ClockTakesDelay(sent, v.delays, v.data, rest);
    var now := ReadClock(sent);
    StaleIsSkipped(s, now, request, left, v, rest, now.now + s.requestTimeout);
  }

  lemma ServedCanBePacked(s: Setup, w: World, request: Packet, v: Service)
    requires Serves(s, w, request, v)
    ensures request.Pack().Success?
  {
  }

  /** Which events are to come makes no difference to whether requests are served. */
  lemma ServesWhatever(s: Setup, w: World, request: Packet, v: Service, events: seq<Event>)
    ensures Serves(s, w.(events := events), request, v) <==> Serves(s, w, request, v)
    ensures Serves(s, w, request, v) ==> request.Pack().Success?
    ensures request.Pack().Success? ==>
              Served(s, w.(events := events), request, v) == Served(s, w, request, v)
  {
  }

  // ----- a request that stays unanswered -----

  /** The writes work, and then nothing happens for long enough. */
  datatype Silence = Silence(pauses: seq<nat>, first: nat, second: nat) {
    function Events(): seq<Event> {
      Writes(pauses) + [Tick(first), Tick(second)]
    }
  }

  predicate Silent(s: Setup, w: World, request: Packet, q: Silence) {
    Writable(s, w, request, |q.pauses|) && q.second >= s.requestTimeout
  }

  function Unanswered(w: World, request: Packet, q: Silence): World
    requires request.Pack().Success?
  {
    Asked(w, request).(now := w.now + Sum(q.pauses) + q.first + q.second, events := [])
  }

  lemma RequestUnanswered(s: Setup, w: World, request: Packet, q: Silence, rest: seq<Event>)
    requires Silent(s, w, request, q) && w.events == q.Events() + rest
    ensures Request(s, w, request) == Ran(Unanswered(w, request, q).(events := rest), Failure(Timeout))
  {
    hide Packet.Pack, Send, Sum, Writes;
    var more := [Tick(q.first), Tick(q.second)] + rest;
    assert w.events == Writes(q.pauses) + more;
    SendWorks(s, w, request, q.pauses, more);
    var sent := Asked(w, request).(now := w.now + Sum(q.pauses), events := more);
    assert more[1..] == [Tick(q.second)] + rest && more[1..][1..] == rest;
    assert ReadClock(sent) == sent.(now := sent.now + q.first, events := more[1..]);
  }

  lemma SilentWhatever(s: Setup, w: World, request: Packet, q: Silence, events: seq<Event>)
    ensures Silent(s, w.(events := events), request, q) <==> Silent(s, w, request, q)
    ensures Silent(s, w, request, q) ==> request.Pack().Success?
    ensures request.Pack().Success? ==> Unanswered(w.(events := events), request, q) == Unanswered(w, request, q)
  {
  }

  // ----- a register -----

  /** How a register is read: in one reply, or word by word because the bulk request is refused or cut short. */
  datatype Reading =
    | Whole(bulk: Service)
    | Refused(refusal: Silence, words: seq<Service>)
    | Short(bulk: Service, words: seq<Service>)
  {
    function Events(): seq<Event> {
      match this
      case Whole(bulk) => Script(bulk)
      case Refused(refusal, words) => refusal.Events() + Scripts(words)
      case Short(bulk, words) => Script(bulk) + Scripts(words)
    }

    /** The bytes read. */
    function Payload(reg: Register): Bytes {
      Take(if Whole? then bulk.reply.data else Gathered(words), reg.length)
    }
  }

  function Scripts(vs: seq<Service>): seq<Event> {
    if vs == [] then [] else Script(vs[0]) + Scripts(vs[1..])
  }

  function Gathered(words: seq<Service>): Bytes {
    if words == [] then [] else Take(words[0].reply.data, 2) + Gathered(words[1..])
  }

  predicate ServesWords(s: Setup, w: World, reg: Register, word: nat, words: seq<Service>)
    decreases |words|
  {
    words == [] || (Serves(s, w, WordRequest(reg, word), words[0])
                    && ServesWords(s, Served(s, w, WordRequest(reg, word), words[0]), reg, word + 1, words[1..]))
  }

  function WordsServed(s: Setup, w: World, reg: Register, word: nat, words: seq<Service>): World
    requires ServesWords(s, w, reg, word, words)
    decreases |words|
  {
    if words == [] then w.(events := [])
    else WordsServed(s, Served(s, w, WordRequest(reg, word), words[0]), reg, word + 1, words[1..])
  }

  predicate ServesRead(s: Setup, w: World, reg: Register, v: Reading) {
    && reg.length <= 255
    && match v
       case Whole(bulk) => Serves(s, w, BulkRequest(reg), bulk) && reg.length <= |bulk.reply.data|
       case Refused(refusal, words) =>
         && reg.length > WORD_SIZE && Silent(s, w, BulkRequest(reg), refusal) && |words| == Words(reg)
         && ServesWords(s, Unanswered(w, BulkRequest(reg), refusal), reg, 0, words)
       case Short(bulk, words) =>
         && Serves(s, w, BulkRequest(reg), bulk) && |bulk.reply.data| < reg.length && |words| == Words(reg)
         && ServesWords(s, Served(s, w, BulkRequest(reg), bulk), reg, 0, words)
  }

  function ReadServed(s: Setup, w: World, reg: Register, v: Reading): World
    requires ServesRead(s, w, reg, v)
  {
    match v
    case Whole(bulk) => Served(s, w, BulkRequest(reg), bulk)
    case Refused(refusal, words) => WordsServed(s, Unanswered(w, BulkRequest(reg), refusal), reg, 0, words)
    case Short(bulk, words) => WordsServed(s, Served(s, w, BulkRequest(reg), bulk), reg, 0, words)
  }

  lemma {:induction false} WordsAreServed(s: Setup, w: World, reg: Register, word: nat, payload: Bytes,
                                          words: seq<Service>, rest: seq<Event>)
    requires word + |words| == Words(reg) && ServesWords(s, w, reg, word, words) && w.events == Scripts(words) + rest
    ensures WalkRegister(s, w, reg, word, payload)
            == Ran(WordsServed(s, w, reg, word, words).(events := rest),
                   Success(Take(payload + Gathered(words), reg.length)))
    decreases |words|
  {
    hide Serves, Served, Script, Request, Take;
    if words == [] {
      assert w.events == rest && payload + Gathered(words) == payload;
    } else {
      var more := Scripts(words[1..]) + rest;
      var data := Take(words[0].reply.data, 2);
      assert w.events == Script(words[0]) + more;
      RequestServed(s, w, WordRequest(reg, word), words[0], more);
      var next := Served(s, w, WordRequest(reg, word), words[0]);
      WordsWhatever(s, next, reg, word + 1, words[1..], more);
      WordsAreServed(s, next.(events := more), reg, word + 1, payload + data, words[1..], rest);
      assert payload + Gathered(words) == (payload + data) + Gathered(words[1..]);
    }
  }

  lemma WordsWhatever(s: Setup, w: World, reg: Register, word: nat, words: seq<Service>, events: seq<Event>)
    ensures ServesWords(s, w.(events := events), reg, word, words) <==> ServesWords(s, w, reg, word, words)
    ensures ServesWords(s, w, reg, word, words) ==>
              WordsServed(s, w.(events := events), reg, word, words) == WordsServed(s, w, reg, word, words)
  {
    hide Serves, Served;
    if words != [] {
      ServesWhatever(s, w, WordRequest(reg, word), words[0], events);
    }
  }

  lemma {:induction false} ReadIsServed(s: Setup, w: World, reg: Register, v: Reading, rest: seq<Event>)
    requires ServesRead(s, w, reg, v) && w.events == v.Events() + rest
    ensures ReadRegister(s, w, reg) == Ran(ReadServed(s, w, reg, v).(events := rest), Success(v.Payload(reg)))
  {
    hide Serves, Served, Script, Request, Silent, Unanswered, ServesWords, WordsServed, Scripts, Silence.Events,
         WalkRegister;
    match v
    case Whole(bulk) =>
      RequestServed(s, w, BulkRequest(reg), bulk, rest);
      assert bulk.reply.data[..reg.length] == v.Payload(reg);
    case Refused(refusal, words) =>
      var more := Scripts(words) + rest;
      assert w.events == refusal.Events() + more;
      RequestUnanswered(s, w, BulkRequest(reg), refusal, more);
      var next := Unanswered(w, BulkRequest(reg), refusal);
      WordsWhatever(s, next, reg, 0, words, more);
      WordsAreServed(s, next.(events := more), reg, 0, [], words, rest);
      assert [] + Gathered(words) == Gathered(words);
    case Short(bulk, words) =>
      var more := Scripts(words) + rest;
      assert w.events == Script(bulk) + more;
      RequestServed(s, w, BulkRequest(reg), bulk, more);
      var next := Served(s, w, BulkRequest(reg), bulk);
      WordsWhatever(s, next, reg, 0, words, more);
      WordsAreServed(s, next.(events := more), reg, 0, [], words, rest);
      assert [] + Gathered(words) == Gathered(words);
  }

  lemma ReadWhatever(s: Setup, w: World, reg: Register, v: Reading, events: seq<Event>)
    ensures ServesRead(s, w.(events := events), reg, v) <==> ServesRead(s, w, reg, v)
    ensures ServesRead(s, w, reg, v) ==> ReadServed(s, w.(events := events), reg, v) == ReadServed(s, w, reg, v)
  {
    hide Serves, Served, Silent, Unanswered, ServesWords, WordsServed;
    if reg.length <= 255 {
      if v.Refused? {
        SilentWhatever(s, w, BulkRequest(reg), v.refusal, events);
      } else {
        ServesWhatever(s, w, BulkRequest(reg), v.bulk, events);
      }
    }
  }

  // ----- a poll -----

  function Readings(vs: seq<Reading>): seq<Event> {
    if vs == [] then [] else vs[0].Events() + Readings(vs[1..])
  }

  predicate ServesPoll(s: Setup, w: World, regs: seq<Register>, vs: seq<Reading>)
    requires |vs| == |regs|
    decreases |regs|
  {
    regs == [] || (ServesRead(s, w, regs[0], vs[0])
                   && ServesPoll(s, ReadServed(s, w, regs[0], vs[0]), regs[1..], vs[1..]))
  }

  function PollServed(s: Setup, w: World, regs: seq<Register>, vs: seq<Reading>): World
    requires |vs| == |regs| && ServesPoll(s, w, regs, vs)
    decreases |regs|
  {
    if regs == [] then w.(events := [])
    else PollServed(s, ReadServed(s, w, regs[0], vs[0]), regs[1..], vs[1..])
  }

  /** What a poll whose every read is answered records. */
  function AllRead(regs: seq<Register>, vs: seq<Reading>, p: Progress): Progress
    requires |vs| == |regs|
    decreases |regs|
  {
    if regs == [] then p
    else AllRead(regs[1..], vs[1..], Recorded(regs[0], Success(vs[0].Payload(regs[0])), p))
  }

  lemma {:induction false} PollWhatever(s: Setup, w: World, regs: seq<Register>, vs: seq<Reading>, events: seq<Event>)
    requires |vs| == |regs|
    ensures ServesPoll(s, w.(events := events), regs, vs) <==> ServesPoll(s, w, regs, vs)
    ensures ServesPoll(s, w, regs, vs) ==>
              PollServed(s, w.(events := events), regs, vs) == PollServed(s, w, regs, vs)
  {
    hide ServesRead, ReadServed;
    if regs != [] {
      ReadWhatever(s, w, regs[0], vs[0], events);
    }
  }

  lemma {:induction false} RecordsAll(regs: seq<Register>, vs: seq<Reading>, p: Progress)
    requires |vs| == |regs|
    ensures var q := AllRead(regs, vs, p).state;
            && (forall i :: 0 <= i < |regs| ==> regs[i].key in q.raw)
            && p.state.raw.Keys <= q.raw.Keys
            && forall k :: k in q.failures ==>
                             || q.failures[k] == Undecodable
                             || (k in p.state.failures && q.failures[k] == p.state.failures[k])
    decreases |regs|
  {
    if regs != [] {
      RecordsAll(regs[1..], vs[1..], Recorded(regs[0], Success(vs[0].Payload(regs[0])), p));
      assert forall i :: 1 <= i < |regs| ==> regs[i] == regs[1..][i - 1];
    }
  }

  /** A poll whose every request is served reads every register. */
  lemma {:induction false} PollIsServed(s: Setup, w: World, regs: seq<Register>, vs: seq<Reading>, rest: seq<Event>,
                                        p: Progress)
    requires |vs| == |regs| && ServesPoll(s, w, regs, vs) && w.events == Readings(vs) + rest
    ensures PollRegisters(s, w, regs, p)
            == Ran(PollServed(s, w, regs, vs).(events := rest), Success(AllRead(regs, vs, p).state))
    decreases |regs|
  {
    hide ServesRead, ReadServed, Reading.Events, Reading.Payload, ReadRegister, Recorded;
    if regs == [] {
      assert w.events == rest;
    } else {
      var more := Readings(vs[1..]) + rest;
      assert w.events == vs[0].Events() + more;
      ReadIsServed(s, w, regs[0], vs[0], more);
      var next := ReadServed(s, w, regs[0], vs[0]);
      PollWhatever(s, next, regs[1..], vs[1..], more);
      PollIsServed(s, next.(events := more), regs[1..], vs[1..], rest,
                   Recorded(regs[0], Success(vs[0].Payload(regs[0])), p));
    }
  }

  // ----- what serving leaves as it is -----

  /** The link and the keys of two worlds are the same. */
  predicate SameSession(w: World, w': World) {
    w.link == w'.link && Keys(w.rx.crypto) == Keys(w'.rx.crypto)
  }

  lemma ServedKeeps(s: Setup, w: World, request: Packet, v: Service)
    requires Serves(s, w, request, v)
    ensures request.Pack().Success? && SameSession(w, Served(s, w, request, v))
  {
    var plain := request.Pack().value;
    var asked := Asked(w, request).rx.(queue := []);
    EncryptGrows(w.rx.crypto, plain);
    NotifyKeepsKeys(s.cipher, asked, v.data);
  }

  lemma UnansweredKeeps(s: Setup, w: World, request: Packet, q: Silence)
    requires Silent(s, w, request, q)
    ensures SameSession(w, Unanswered(w, request, q))
  {
    EncryptGrows(w.rx.crypto, request.Pack().value);
  }

  lemma {:induction false} WordsKeep(s: Setup, w: World, reg: Register, word: nat, words: seq<Service>)
    requires ServesWords(s, w, reg, word, words)
    ensures SameSession(w, WordsServed(s, w, reg, word, words))
    decreases |words|
  {
    hide Serves, Served;
    if words != [] {
      ServedCanBePacked(s, w, WordRequest(reg, word), words[0]);
      ServedKeeps(s, w, WordRequest(reg, word), words[0]);
      WordsKeep(s, Served(s, w, WordRequest(reg, word), words[0]), reg, word + 1, words[1..]);
    }
  }

  lemma ReadKeeps(s: Setup, w: World, reg: Register, v: Reading)
    requires ServesRead(s, w, reg, v)
    ensures SameSession(w, ReadServed(s, w, reg, v))
  {
    hide Serves, Served, Silent, Unanswered, ServesWords, WordsServed;
    match v
    case Whole(bulk) =>
      ServedKeeps(s, w, BulkRequest(reg), bulk);
    case Refused(refusal, words) =>
      UnansweredKeeps(s, w, BulkRequest(reg), refusal);
      SilentWhatever(s, w, BulkRequest(reg), refusal, []);
      WordsKeep(s, Unanswered(w, BulkRequest(reg), refusal), reg, 0, words);
    case Short(bulk, words) =>
      ServedKeeps(s, w, BulkRequest(reg), bulk);
      ServedCanBePacked(s, w, BulkRequest(reg), bulk);
      WordsKeep(s, Served(s, w, BulkRequest(reg), bulk), reg, 0, words);
  }

  lemma {:induction false} PollKeeps(s: Setup, w: World, regs: seq<Register>, vs: seq<Reading>)
    requires |vs| == |regs| && ServesPoll(s, w, regs, vs)
    ensures SameSession(w, PollServed(s, w, regs, vs)) && PollServed(s, w, regs, vs).events == []
    decreases |regs|
  {
    hide ServesRead, ReadServed;
    if regs != [] {
      ReadKeeps(s, w, regs[0], vs[0]);
      PollKeeps(s, ReadServed(s, w, regs[0], vs[0]), regs[1..], vs[1..]);
    }
  }

  // ----- pairing -----

  /** A request to pair nobody accepts in time: a look at the clock, the writes, and silence. */
  datatype Turn = Turn(look: nat, pauses: seq<nat>, wait: nat) {
    function Events(): seq<Event> {
      [Tick(look)] + Writes(pauses) + [Tick(wait)]
    }
  }

  /** No need to pair, or so many turns in vain and then one in which the button is pressed. */
  datatype Pairing = Known | Pressed(first: nat, turns: seq<Turn>, look: nat, press: Service) {
    function Events(): seq<Event> {
      if Known? then [] else [Tick(first)] + TurnEvents(turns) + [Tick(look)] + Script(press)
    }
  }

  function TurnEvents(turns: seq<Turn>): seq<Event> {
    if turns == [] then [] else turns[0].Events() + TurnEvents(turns[1..])
  }

  /** The clock is looked at before the deadline, nothing waits, and the writes work. */
  predicate TurnBegins(s: Setup, w: World, challenge: Bytes, deadline: int, look: nat, writes: nat) {
    w.rx.queue == [] && w.now + look < deadline && Writable(s, w, PairRequest(challenge), writes)
  }

  function AfterTurn(w: World, challenge: Bytes, t: Turn): World
    requires PairRequest(challenge).Pack().Success?
  {
    Asked(w, PairRequest(challenge)).(now := w.now + t.look + Sum(t.pauses) + t.wait, events := [])
  }

  predicate ServesTurns(s: Setup, w: World, challenge: Bytes, deadline: int, turns: seq<Turn>, look: nat,
                        press: Service)
    decreases |turns|
  {
    if turns == [] then
      && TurnBegins(s, w, challenge, deadline, look, |press.pauses|)
      && Sum(press.delays) < PAIRING_RETRY_INTERVAL && AcceptsPairing(press.reply)
      && Notified(s.cipher, Asked(w, PairRequest(challenge)).rx, press.data).queue == [press.reply] + press.later
    else
      && TurnBegins(s, w, challenge, deadline, turns[0].look, |turns[0].pauses|)
      && turns[0].wait >= PAIRING_RETRY_INTERVAL
      && ServesTurns(s, AfterTurn(w, challenge, turns[0]), challenge, deadline, turns[1..], look, press)
  }

  function TurnsServed(s: Setup, w: World, challenge: Bytes, deadline: int, turns: seq<Turn>, look: nat,
                       press: Service): World
    requires ServesTurns(s, w, challenge, deadline, turns, look, press)
    decreases |turns|
  {
    if turns == [] then Served(s, w.(now := w.now + look), PairRequest(challenge), press)
    else TurnsServed(s, AfterTurn(w, challenge, turns[0]), challenge, deadline, turns[1..], look, press)
  }

  lemma TurnCanBePacked(s: Setup, w: World, challenge: Bytes, deadline: int, look: nat, writes: nat)
    requires TurnBegins(s, w, challenge, deadline, look, writes)
    ensures PairRequest(challenge).Pack().Success?
  {
  }

  lemma TurnGoesBy(s: Setup, w: World, challenge: Bytes, deadline: int, t: Turn, rest: seq<Event>)
    requires TurnBegins(s, w, challenge, deadline, t.look, |t.pauses|) && t.wait >= PAIRING_RETRY_INTERVAL
    requires w.events == t.Events() + rest
    ensures PairingTurn(s, w, challenge, deadline) == Ran(AfterTurn(w, challenge, t).(events := rest), None)
  {
    hide Packet.Pack, Send, Sum, Writes;
    var more := [Tick(t.wait)] + rest;
    assert w.events == [Tick(t.look)] + (Writes(t.pauses) + more);
    var now := ReadClock(w);
    assert now == w.(now := w.now + t.look, events := Writes(t.pauses) + more);
    SendWorks(s, now, PairRequest(challenge), t.pauses, more);
    var sent := Asked(now, PairRequest(challenge)).(now := now.now + Sum(t.pauses), events := more);
    assert Next(s, sent) == sent.(now := sent.now + t.wait, events := rest);
  }

  lemma PressIsTaken(s: Setup, w: World, challenge: Bytes, deadline: int, look: nat, press: Service, rest: seq<Event>)
    requires ServesTurns(s, w, challenge, deadline, [], look, press)
    requires w.events == [Tick(look)] + Script(press) + rest
    ensures PairingTurn(s, w, challenge, deadline)
            == Ran(Served(s, w.(now := w.now + look), PairRequest(challenge), press).(events := rest),
                   Some(Success(())))
  {
    hide Packet.Pack, Send, Sum, Writes, Ticks, Notified, Receive;
    var more := Ticks(press.delays) + [Notify(press.data)] + rest;
    assert w.events == [Tick(look)] + (Writes(press.pauses) + more);
    var now := ReadClock(w);
    assert now == w.(now := w.now + look, events := Writes(press.pauses) + more);
    SendWorks(s, now, PairRequest(challenge), press.pauses, more);
    var sent := Asked(now, PairRequest(challenge)).(now := now.now + Sum(press.pauses), events := more);
    ReplyIsTaken(s, sent, press.delays, press.data, press.reply, press.later, rest, sent.now + PAIRING_RETRY_INTERVAL);
    assert sent.rx.(queue := []) == sent.rx;
  }

  lemma TurnsWhatever(s: Setup, w: World, challenge: Bytes, deadline: int, turns: seq<Turn>, look: nat, press: Service,
                      events: seq<Event>)
    ensures ServesTurns(s, w.(events := events), challenge, deadline, turns, look, press)
            <==> ServesTurns(s, w, challenge, deadline, turns, look, press)
    ensures ServesTurns(s, w, challenge, deadline, turns, look, press) ==>
              TurnsServed(s, w.(events := events), challenge, deadline, turns, look, press)
              == TurnsServed(s, w, challenge, deadline, turns, look, press)
  {
    hide Notified, Sum, ChunkCount, Packet.Pack;
  }

  lemma {:induction false} TurnsAreServed(s: Setup, w: World, challenge: Bytes, deadline: int, turns: seq<Turn>,
                                          look: nat, press: Service, rest: seq<Event>)
    requires ServesTurns(s, w, challenge, deadline, turns, look, press)
    requires w.events == TurnEvents(turns) + [Tick(look)] + Script(press) + rest
    ensures AwaitPairing(s, w, challenge, deadline)
            == Ran(TurnsServed(s, w, challenge, deadline, turns, look, press).(events := rest), Success(()))
    decreases |turns|
  {
    hide PairingTurn, Script, TurnBegins, AfterTurn, Served;
    if turns == [] {
      assert w.events == [Tick(look)] + Script(press) + rest;
      PressIsTaken(s, w, challenge, deadline, look, press, rest);
    } else {
      var more := TurnEvents(turns[1..]) + [Tick(look)] + Script(press) + rest;
      assert w.events == turns[0].Events() + more;
      TurnGoesBy(s, w, challenge, deadline, turns[0], more);
      TurnCanBePacked(s, w, challenge, deadline, turns[0].look, |turns[0].pauses|);
      var next := AfterTurn(w, challenge, turns[0]);
      TurnsWhatever(s, next, challenge, deadline, turns[1..], look, press, more);
      TurnsAreServed(s, next.(events := more), challenge, deadline, turns[1..], look, press, rest);
    }
  }

  lemma {:induction false} TurnsKeep(s: Setup, w: World, challenge: Bytes, deadline: int, turns: seq<Turn>, look: nat,
                                     press: Service)
    requires ServesTurns(s, w, challenge, deadline, turns, look, press)
    ensures SameSession(w, TurnsServed(s, w, challenge, deadline, turns, look, press))
    decreases |turns|
  {
    hide Notified;
    EncryptGrows(w.rx.crypto, PairRequest(challenge).Pack().value);
    if turns == [] {
      NotifyKeepsKeys(s.cipher, Asked(w, PairRequest(challenge)).rx.(queue := []), press.data);
    } else {
      TurnsKeep(s, AfterTurn(w, challenge, turns[0]), challenge, deadline, turns[1..], look, press);
    }
  }

  // ----- a session -----

  /** The requests of a handshake. */
  datatype Greeting = Greeting(init: Service, ping: Service, pairing: Pairing, pair: Service, serial: Reading) {
    function Events(): seq<Event> {
      Script(init) + Script(ping) + pairing.Events() + Script(pair) + serial.Events()
    }
  }

  /** What the INIT reply holds behind the scooter's key. */
  function Challenge(init: Service): Bytes {
    Drop(init.reply.data, APP_KEY_LENGTH)
  }

  /** An INIT reply with a whole key in it. */
  predicate ServesInit(s: Setup, w: World, init: Service) {
    Serves(s, w, InitRequest(), init) && |init.reply.data| >= APP_KEY_LENGTH
  }

  /** The world once the INIT reply's key is installed. */
  function Introduced(s: Setup, w: World, init: Service): World {
    Served(s, w, InitRequest(), init).Called(SetBleData(Take(init.reply.data, APP_KEY_LENGTH)))
  }

  predicate ServesPairing(s: Setup, w: World, challenge: Bytes, ping: Packet, p: Pairing) {
    if ping.index != 0 then p.Known?
    else
      && p.Pressed?
      && ServesTurns(s, w.(now := w.now + p.first), challenge, w.now + p.first + s.pairingTimeout, p.turns, p.look,
                     p.press)
  }

  function Paired(s: Setup, w: World, challenge: Bytes, ping: Packet, p: Pairing): World
    requires ServesPairing(s, w, challenge, ping, p)
  {
    if p.Known? then w.(events := [])
    else TurnsServed(s, w.(now := w.now + p.first), challenge, w.now + p.first + s.pairingTimeout, p.turns, p.look,
                     p.press)
  }

  lemma PairingIsServed(s: Setup, w: World, challenge: Bytes, ping: Packet, p: Pairing, rest: seq<Event>)
    requires ServesPairing(s, w, challenge, ping, p) && w.events == p.Events() + rest
    ensures PairIfNeeded(s, w, ping, challenge) == Ran(Paired(s, w, challenge, ping, p).(events := rest), Success(()))
  {
    hide AwaitPairing, ServesTurns, TurnsServed, Script, TurnEvents;
    if p.Known? {
      assert w.events == rest;
    } else {
      var more := TurnEvents(p.turns) + [Tick(p.look)] + Script(p.press) + rest;
      assert w.events == [Tick(p.first)] + more;
      var now := w.(now := w.now + p.first);
      assert ReadClock(w) == now.(events := more);
      TurnsWhatever(s, now, challenge, now.now + s.pairingTimeout, p.turns, p.look, p.press, more);
      TurnsAreServed(s, now.(events := more), challenge, now.now + s.pairingTimeout, p.turns, p.look, p.press, rest);
    }
  }

  lemma PairingWhatever(s: Setup, w: World, challenge: Bytes, ping: Packet, p: Pairing, events: seq<Event>)
    ensures ServesPairing(s, w.(events := events), challenge, ping, p) <==> ServesPairing(s, w, challenge, ping, p)
    ensures ServesPairing(s, w, challenge, ping, p) ==>
              Paired(s, w.(events := events), challenge, ping, p) == Paired(s, w, challenge, ping, p)
  {
    hide ServesTurns, TurnsServed;
    if p.Pressed? {
      TurnsWhatever(s, w.(now := w.now + p.first), challenge, w.now + p.first + s.pairingTimeout, p.turns, p.look,
                    p.press, events);
    }
  }

  /** The PING is answered and, if the reply asks for it, the button is pressed in time. */
  predicate ServesAuthorize(s: Setup, w: World, appKey: Bytes, challenge: Bytes, ping: Service, p: Pairing) {
    && Serves(s, w, PingRequest(appKey), ping)
    && ServesPairing(s, Served(s, w, PingRequest(appKey), ping), challenge, ping.reply, p)
  }

  /** The world once the session key is installed. */
  function Authorized(s: Setup, w: World, appKey: Bytes, challenge: Bytes, ping: Service, p: Pairing): World
    requires ServesAuthorize(s, w, appKey, challenge, ping, p)
  {
    Paired(s, Served(s, w, PingRequest(appKey), ping), challenge, ping.reply, p).Called(SetAppData(appKey))
  }

  lemma AuthorizeIsServed(s: Setup, w: World, appKey: Bytes, challenge: Bytes, ping: Service, p: Pairing,
                          rest: seq<Event>)
    requires ServesAuthorize(s, w, appKey, challenge, ping, p) && w.events == Script(ping) + p.Events() + rest
    ensures Authorize(s, w, appKey, challenge)
            == Ran(Authorized(s, w, appKey, challenge, ping, p).(events := rest), Success(()))
  {
    hide Serves, Served, Script, Request, PairIfNeeded, ServesPairing, Paired, Pairing.Events, Packet.Pack;
    var more := p.Events() + rest;
    assert w.events == Script(ping) + more;
    RequestServed(s, w, PingRequest(appKey), ping, more);
    ServedCanBePacked(s, w, PingRequest(appKey), ping);
    var next := Served(s, w, PingRequest(appKey), ping);
    PairingWhatever(s, next, challenge, ping.reply, p, more);
    PairingIsServed(s, next.(events := more), challenge, ping.reply, p, rest);
  }

  lemma AuthorizeWhatever(s: Setup, w: World, appKey: Bytes, challenge: Bytes, ping: Service, p: Pairing,
                          events: seq<Event>)
    requires ServesAuthorize(s, w, appKey, challenge, ping, p)
    ensures ServesAuthorize(s, w.(events := events), appKey, challenge, ping, p)
    ensures Authorized(s, w.(events := events), appKey, challenge, ping, p)
            == Authorized(s, w, appKey, challenge, ping, p)
  {
    hide Serves, Served, ServesPairing, Paired;
    ServesWhatever(s, w, PingRequest(appKey), ping, events);
  }

  /** A scooter that answers every request of the handshake. */
  predicate ServesHandshake(s: Setup, w: World, appKey: Bytes, g: Greeting) {
    && ServesInit(s, w, g.init)
    && ServesAuthorize(s, Introduced(s, w, g.init), appKey, Challenge(g.init), g.ping, g.pairing)
    && var keyed := Authorized(s, Introduced(s, w, g.init), appKey, Challenge(g.init), g.ping, g.pairing);
    && Serves(s, keyed, PairRequest(Challenge(g.init)), g.pair)
    && ServesRead(s, Served(s, keyed, PairRequest(Challenge(g.init)), g.pair), s.serialNumber, g.serial)
  }

  /** The world once the session is proven. */
  function Greeted(s: Setup, w: World, appKey: Bytes, g: Greeting): World
    requires ServesHandshake(s, w, appKey, g)
  {
    var keyed := Authorized(s, Introduced(s, w, g.init), appKey, Challenge(g.init), g.ping, g.pairing);
    ReadServed(s, Served(s, keyed, PairRequest(Challenge(g.init)), g.pair), s.serialNumber, g.serial)
  }

  lemma IntroduceIsServed(s: Setup, w: World, init: Service, rest: seq<Event>)
    requires ServesInit(s, w, init) && w.events == Script(init) + rest
    ensures Introduce(s, w) == Ran(Introduced(s, w, init).(events := rest), Success(Challenge(init)))
  {
    hide Serves, Served, Script, Request;
    RequestServed(s, w, InitRequest(), init, rest);
    var data := init.reply.data;
    assert data[..APP_KEY_LENGTH] == Take(data, APP_KEY_LENGTH) && data[APP_KEY_LENGTH..] == Drop(data, APP_KEY_LENGTH);
  }

  lemma {:induction false} HandshakeIsServed(s: Setup, w: World, appKey: Bytes, g: Greeting, rest: seq<Event>)
    requires ServesHandshake(s, w, appKey, g) && w.events == g.Events() + rest
    ensures Handshake(s, w, appKey) == Ran(Greeted(s, w, appKey, g).(events := rest), Success(()))
  {
    hide ServesInit, Introduced, Introduce, Serves, Served, Script, Request, ReadRegister, Packet.Pack, ServesAuthorize,
         Authorized, Authorize, ServesRead, ReadServed, Reading.Events, Pairing.Events, Challenge;
    var challenge := Challenge(g.init);
    var last := g.serial.Events() + rest;
    var closing := Script(g.pair) + last;
    var asking := Script(g.ping) + g.pairing.Events() + closing;
    assert w.events == Script(g.init) + asking;
    IntroduceIsServed(s, w, g.init, asking);
    var a := Introduced(s, w, g.init);
    AuthorizeWhatever(s, a, appKey, challenge, g.ping, g.pairing, asking);
    AuthorizeIsServed(s, a.(events := asking), appKey, challenge, g.ping, g.pairing, closing);
    var b := Authorized(s, a, appKey, challenge, g.ping, g.pairing);
    ServesWhatever(s, b, PairRequest(challenge), g.pair, closing);
    RequestServed(s, b.(events := closing), PairRequest(challenge), g.pair, last);
    var c := Served(s, b, PairRequest(challenge), g.pair);
    ReadWhatever(s, c, s.serialNumber, g.serial, last);
    ReadIsServed(s, c.(events := last), s.serialNumber, g.serial, rest);
  }

  /** The keys a handshake installs. */
  function BothKeys(init: Service, appKey: Bytes): seq<Call> {
    [SetBleData(Take(init.reply.data, APP_KEY_LENGTH)), SetAppData(appKey)]
  }

  lemma GreetedKeeps(s: Setup, w: World, appKey: Bytes, g: Greeting)
    requires ServesHandshake(s, w, appKey, g)
    ensures Greeted(s, w, appKey, g).link == w.link
    ensures Keys(Greeted(s, w, appKey, g).rx.crypto) == Keys(w.rx.crypto) + BothKeys(g.init, appKey)
  {
    hide Serves, Served, Packet.Pack, ServesRead, ReadServed, ServesTurns, TurnsServed, Keys, Take;
    ServedKeeps(s, w, InitRequest(), g.init);
    KeyCallGrows(Served(s, w, InitRequest(), g.init).rx.crypto, SetBleData(Take(g.init.reply.data, APP_KEY_LENGTH)));
    var a, challenge := Introduced(s, w, g.init), Challenge(g.init);
    ServedKeeps(s, a, PingRequest(appKey), g.ping);
    var pinged := Served(s, a, PingRequest(appKey), g.ping);
    if g.pairing.Pressed? {
      TurnsKeep(s, pinged.(now := pinged.now + g.pairing.first), challenge,
                pinged.now + g.pairing.first + s.pairingTimeout, g.pairing.turns, g.pairing.look, g.pairing.press);
    }
    KeyCallGrows(Paired(s, pinged, challenge, g.ping.reply, g.pairing).rx.crypto, SetAppData(appKey));
    var b := Authorized(s, a, appKey, challenge, g.ping, g.pairing);
    ServedKeeps(s, b, PairRequest(challenge), g.pair);
    ReadKeeps(s, Served(s, b, PairRequest(challenge), g.pair), s.serialNumber, g.serial);
  }

  // ----- a whole update -----

  /** The link opens after a pause, and after another one the subscription works. */
  datatype LinkUp = LinkUp(size: nat, first: nat, second: nat) {
    function Events(): seq<Event> {
      [Tick(first), Completed(Worked(Some(size))), Tick(second), Completed(Worked(None))]
    }
  }

  /** The world once the link is open, with nothing more to come. */
  function Opened(s: Setup, w: World, o: LinkUp): World {
    World(Rx([], [], [SetName(s.name)]), Link(true), w.now + o.first + o.second, [],
          if o.size == 0 then DEFAULT_CHUNK_SIZE else o.size)
  }

  lemma OpeningWorks(s: Setup, w: World, o: LinkUp, rest: seq<Event>)
    requires w.events == o.Events() + rest
    ensures ConnectTransport(s, w) == Ran(Opened(s, w, o).(events := rest), Success(()))
  {
    hide Await;
    var more := [Tick(o.second), Completed(Worked(None))] + rest;
    var blank := w.(rx := Rx([], [], [SetName(s.name)]));
    assert blank.events == [Tick(o.first), Completed(Worked(Some(o.size)))] + more;
    WorksAfter(s, blank, o.first, Worked(Some(o.size)), more);
    WorksAfter(s, blank.(now := w.now + o.first, events := more, link := Link(true)), o.second, Worked(None), rest);
  }

  /** A link that opens, a handshake and a first poll. */
  datatype Visit = Visit(open: LinkUp, greeting: Greeting, readings: seq<Reading>) {
    function Events(): seq<Event> {
      open.Events() + greeting.Events() + Readings(readings)
    }
  }

  /** Whether the scooter opens, greets and answers everything a first poll asks. */
  predicate Responsive(s: Setup, w: World, appKey: Bytes, table: seq<Register>, v: Visit) {
    && |v.readings| == |PollTable(table, true)|
    && ServesHandshake(s, Opened(s, w, v.open), appKey, v.greeting)
    && ServesPoll(s, Greeted(s, Opened(s, w, v.open), appKey, v.greeting), PollTable(table, true), v.readings)
  }

  /** Every register was read, and fails at most because it does not decode. */
  predicate AllRecorded(regs: seq<Register>, snapshot: Snapshot) {
    && (forall i :: 0 <= i < |regs| ==> regs[i].key in snapshot.raw)
    && forall k :: k in snapshot.failures ==> snapshot.failures[k] == Undecodable
  }

  /** A session and its first poll: the link is up, under this key, and every register is recorded. */
  predicate Visited(run: Ran<Result<Snapshot, Error>>, init: Service, appKey: Bytes, regs: seq<Register>) {
    && run.world.IsUp() && run.world.events == [] && Keys(run.world.rx.crypto) == BothKeys(init, appKey)
    && run.result.Success? && AllRecorded(regs, run.result.value)
  }

  lemma VisitWorks(s: Setup, w: World, appKey: Bytes, table: seq<Register>, v: Visit)
    requires Responsive(s, w, appKey, table, v) && w.events == v.Events()
    ensures var a := OpenSession(s, w, appKey);
            && a.result == Success(())
            && Visited(AsyncPoll(s, a.world, PollTable(table, true)), v.greeting.init, appKey, PollTable(table, true))
  {
    hide ServesPoll, PollServed, ServesHandshake, Greeted, PollTable, Readings, ConnectTransport, Handshake,
         PollRegisters, Greeting.Events, LinkUp.Events, AllRead, BothKeys;
    var regs, rest := PollTable(table, true), Readings(v.readings);
    var open := Opened(s, w, v.open);
    var greeted := Greeted(s, open, appKey, v.greeting);
    assert w.events == v.open.Events() + (v.greeting.Events() + rest);
    OpeningWorks(s, w, v.open, v.greeting.Events() + rest);
    HandshakeWhatever(s, open, appKey, v.greeting, v.greeting.Events() + rest);
    HandshakeIsServed(s, open.(events := v.greeting.Events() + rest), appKey, v.greeting, rest);
    GreetedKeeps(s, open, appKey, v.greeting);
    PollWhatever(s, greeted, regs, v.readings, rest);
    assert rest == rest + [];
    PollIsServed(s, greeted.(events := rest), regs, v.readings, [], START);
    PollKeeps(s, greeted, regs, v.readings);
    RecordsAll(regs, v.readings, START);
    NoKeysYet(s.name);
  }

  lemma NoKeysYet(name: Bytes)
    ensures Keys([SetName(name)]) == [] && forall calls: seq<Call> :: [] + calls == calls
  {
    CallsGrow([], SetName(name));
    assert [] + [SetName(name)] == [SetName(name)];
  }

  lemma HandshakeWhatever(s: Setup, w: World, appKey: Bytes, g: Greeting, events: seq<Event>)
    requires ServesHandshake(s, w, appKey, g)
    ensures ServesHandshake(s, w.(events := events), appKey, g)
    ensures Greeted(s, w.(events := events), appKey, g) == Greeted(s, w, appKey, g)
  {
    hide Serves, Served, ServesAuthorize, Authorized, ServesRead, ReadServed;
    ServesWhatever(s, w, InitRequest(), g.init, events);
    ServedCanBePacked(s, w, InitRequest(), g.init);
  }

  /**
   A client without a link gets a scooter that answers in time connected and polled, and keeps the
   link, whether or not it has to pair first.
   */
  lemma {:induction false} ResponsiveIsPolled(s: Setup, w: World, appKey: Bytes, supplied: bool, freshKey: Bytes,
                                              table: seq<Register>, firstPoll: bool, v: Visit)
    requires !w.IsUp() && Responsive(s, w, appKey, table, v) && w.events == v.Events()
    ensures Visited(AsyncUpdate(s, w, appKey, supplied, freshKey, table, firstPoll), v.greeting.init, appKey,
                    PollTable(table, true))
  {
    hide Responsive, Visit.Events, OpenSession, AsyncPoll, Visited, PollTable;
    VisitWorks(s, w, appKey, table, v);
  }

  // ----- a scooter that forgot the key -----

  /**
   The scooter greets the client as if it knew the key, but what it gets under it makes no sense to it:
   the read that should prove the session stays unanswered.
   */
  datatype Rejection = Rejection(init: Service, ping: Service, pair: Service, bulk: Silence, word: Silence) {
    function Events(serial: Register): seq<Event> {
      Script(init) + (Script(ping) + Known.Events()) + Script(pair) + ReadEvents(serial)
    }

    function ReadEvents(serial: Register): seq<Event> {
      bulk.Events() + if serial.length > WORD_SIZE then word.Events() else []
    }
  }

  predicate IgnoresRead(s: Setup, w: World, reg: Register, bulk: Silence, word: Silence) {
    && reg.length <= 255 && Silent(s, w, BulkRequest(reg), bulk)
    && (reg.length > WORD_SIZE ==> Silent(s, Unanswered(w, BulkRequest(reg), bulk), WordRequest(reg, 0), word))
  }

  function ReadIgnored(s: Setup, w: World, reg: Register, bulk: Silence, word: Silence): World
    requires IgnoresRead(s, w, reg, bulk, word)
  {
    var a := Unanswered(w, BulkRequest(reg), bulk);
    if reg.length > WORD_SIZE then Unanswered(a, WordRequest(reg, 0), word) else a
  }

  lemma IgnoredReadTimesOut(s: Setup, w: World, reg: Register, bulk: Silence, word: Silence, rest: seq<Event>)
    requires IgnoresRead(s, w, reg, bulk, word)
    requires w.events == bulk.Events() + (if reg.length > WORD_SIZE then word.Events() else []) + rest
    ensures ReadRegister(s, w, reg) == Ran(ReadIgnored(s, w, reg, bulk, word).(events := rest), Failure(Timeout))
  {
    hide Silent, Unanswered, Request, Silence.Events;
    var more := (if reg.length > WORD_SIZE then word.Events() else []) + rest;
    assert w.events == bulk.Events() + more;
    RequestUnanswered(s, w, BulkRequest(reg), bulk, more);
    SilentWhatever(s, w, BulkRequest(reg), bulk, []);
    var a := Unanswered(w, BulkRequest(reg), bulk);
    if reg.length > WORD_SIZE {
      SilentWhatever(s, a, WordRequest(reg, 0), word, more);
      RequestUnanswered(s, a.(events := more), WordRequest(reg, 0), word, rest);
    } else {
      assert more == rest;
    }
  }

  predicate Rejects(s: Setup, w: World, appKey: Bytes, r: Rejection) {
    && ServesInit(s, w, r.init) && r.ping.reply.index != 0
    && ServesAuthorize(s, Introduced(s, w, r.init), appKey, Challenge(r.init), r.ping, Known)
    && var keyed := Authorized(s, Introduced(s, w, r.init), appKey, Challenge(r.init), r.ping, Known);
    && Serves(s, keyed, PairRequest(Challenge(r.init)), r.pair)
    && IgnoresRead(s, Served(s, keyed, PairRequest(Challenge(r.init)), r.pair), s.serialNumber, r.bulk, r.word)
  }

  function Rejected(s: Setup, w: World, appKey: Bytes, r: Rejection): World
    requires Rejects(s, w, appKey, r)
  {
    var keyed := Authorized(s, Introduced(s, w, r.init), appKey, Challenge(r.init), r.ping, Known);
    ReadIgnored(s, Served(s, keyed, PairRequest(Challenge(r.init)), r.pair), s.serialNumber, r.bulk, r.word)
  }

  lemma HandshakeIsRejected(s: Setup, w: World, appKey: Bytes, r: Rejection, rest: seq<Event>)
    requires Rejects(s, w, appKey, r) && w.events == r.Events(s.serialNumber) + rest
    ensures Handshake(s, w, appKey) == Ran(Rejected(s, w, appKey, r).(events := rest), Failure(Auth))
  {
    hide ServesInit, Introduced, Introduce, Serves, Served, Script, Request, ReadRegister, Packet.Pack, ServesAuthorize,
         Authorized, Authorize, IgnoresRead, ReadIgnored, Rejection.ReadEvents, Pairing.Events, Challenge;
    var challenge := Challenge(r.init);
    var last := r.ReadEvents(s.serialNumber) + rest;
    var closing := Script(r.pair) + last;
    var asking := Script(r.ping) + Known.Events() + closing;
    assert w.events == Script(r.init) + asking;
    IntroduceIsServed(s, w, r.init, asking);
    var a := Introduced(s, w, r.init);
    AuthorizeWhatever(s, a, appKey, challenge, r.ping, Known, asking);
    AuthorizeIsServed(s, a.(events := asking), appKey, challenge, r.ping, Known, closing);
    var b := Authorized(s, a, appKey, challenge, r.ping, Known);
    ServesWhatever(s, b, PairRequest(challenge), r.pair, closing);
    RequestServed(s, b.(events := closing), PairRequest(challenge), r.pair, last);
    var c := Served(s, b, PairRequest(challenge), r.pair);
    IgnoresWhatever(s, c, s.serialNumber, r.bulk, r.word, last);
    IgnoredReadEvents(r, s.serialNumber, rest);
    IgnoredReadTimesOut(s, c.(events := last), s.serialNumber, r.bulk, r.word, rest);
  }

  lemma IgnoredReadEvents(r: Rejection, serial: Register, rest: seq<Event>)
    ensures r.ReadEvents(serial) + rest
            == r.bulk.Events() + (if serial.length > WORD_SIZE then r.word.Events() else []) + rest
  {
  }

  lemma IgnoresWhatever(s: Setup, w: World, reg: Register, bulk: Silence, word: Silence, events: seq<Event>)
    requires IgnoresRead(s, w, reg, bulk, word)
    ensures IgnoresRead(s, w.(events := events), reg, bulk, word)
    ensures ReadIgnored(s, w.(events := events), reg, bulk, word) == ReadIgnored(s, w, reg, bulk, word)
  {
    hide Silent, Unanswered;
    SilentWhatever(s, w, BulkRequest(reg), bulk, events);
  }

  /** The link opens, the key turns out to be forgotten, and the link is closed again. */
  datatype Rebuff = Rebuff(open: LinkUp, rejection: Rejection) {
    function Events(serial: Register): seq<Event> {
      open.Events() + rejection.Events(serial) + CLOSING
    }
  }

  const CLOSING: seq<Event> := [Completed(Worked(None)), Completed(Worked(None))]

  predicate Rebuffs(s: Setup, w: World, appKey: Bytes, b: Rebuff) {
    Rejects(s, Opened(s, w, b.open), appKey, b.rejection)
  }

  /** The world once the link is closed again. */
  function Rebuffed(s: Setup, w: World, appKey: Bytes, b: Rebuff): World
    requires Rebuffs(s, w, appKey, b)
  {
    Rejected(s, Opened(s, w, b.open), appKey, b.rejection).(link := NoLink)
  }

  lemma SessionIsRebuffed(s: Setup, w: World, appKey: Bytes, b: Rebuff, rest: seq<Event>)
    requires Rebuffs(s, w, appKey, b) && w.events == b.Events(s.serialNumber) + rest
    ensures var a := OpenSession(s, w, appKey);
            && a.result == Failure(Auth)
            && Disconnect(s, a.world) == Ran(Rebuffed(s, w, appKey, b).(events := rest), Success(()))
  {
    hide ConnectTransport, Handshake, LinkUp.Events, Rejection.Events, Rejects, Rejected;
    var more := CLOSING + rest;
    var all := b.rejection.Events(s.serialNumber) + more;
    var open := Opened(s, w, b.open);
    assert w.events == b.open.Events() + all;
    OpeningWorks(s, w, b.open, all);
    RejectsWhatever(s, open, appKey, b.rejection, all);
    HandshakeIsRejected(s, open.(events := all), appKey, b.rejection, more);
    RejectedKeepsLink(s, open, appKey, b.rejection);
    CloseWorks(s, Rejected(s, open, appKey, b.rejection).(events := more), rest);
  }

  lemma RejectsWhatever(s: Setup, w: World, appKey: Bytes, r: Rejection, events: seq<Event>)
    requires Rejects(s, w, appKey, r)
    ensures Rejects(s, w.(events := events), appKey, r)
    ensures Rejected(s, w.(events := events), appKey, r) == Rejected(s, w, appKey, r)
  {
    hide Serves, Served, ServesAuthorize, Authorized, IgnoresRead, ReadIgnored;
    ServesWhatever(s, w, InitRequest(), r.init, events);
  }

  lemma RejectedKeepsLink(s: Setup, w: World, appKey: Bytes, r: Rejection)
    requires Rejects(s, w, appKey, r)
    ensures Rejected(s, w, appKey, r).link == w.link
  {
  }

  lemma CloseWorks(s: Setup, w: World, rest: seq<Event>)
    requires w.IsUp() && w.events == CLOSING + rest
    ensures Disconnect(s, w) == Ran(w.(link := NoLink, events := rest), Success(()))
  {
    var a := w.(link := NoLink);
    assert w.events[1..] == [Completed(Worked(None))] + rest && w.events[1..][1..] == rest;
    assert Await(s, a) == Ran(a.(events := w.events[1..]), Worked(None));
    assert Await(s, a.(events := w.events[1..])) == Ran(a.(events := rest), Worked(None));
  }

  /**
   A scooter that forgot a supplied key: the same update finds out, replaces the key, connects again,
   pairs if a PING with the fresh key asks for it and the button is pressed in time, polls, and keeps
   the link under the fresh key.
   */
  lemma {:induction false} ForgetfulIsRepaired(s: Setup, w: World, appKey: Bytes, freshKey: Bytes,
                                               table: seq<Register>, firstPoll: bool, b: Rebuff, v: Visit)
    requires !w.IsUp() && Rebuffs(s, w, appKey, b)
    requires Responsive(s, Rebuffed(s, w, appKey, b), freshKey, table, v)
    requires w.events == b.Events(s.serialNumber) + v.Events()
    ensures Visited(AsyncUpdate(s, w, appKey, true, freshKey, table, firstPoll), v.greeting.init, freshKey,
                    PollTable(table, true))
  {
    hide Rebuffs, Rebuffed, Responsive, Rebuff.Events, Visit.Events, OpenSession, Disconnect, AsyncPoll, Visited,
         PollTable;
    SessionIsRebuffed(s, w, appKey, b, v.Events());
    ResponsiveWhatever(s, Rebuffed(s, w, appKey, b), freshKey, table, v, v.Events());
    VisitWorks(s, Rebuffed(s, w, appKey, b).(events := v.Events()), freshKey, table, v);
  }

  lemma ResponsiveWhatever(s: Setup, w: World, appKey: Bytes, table: seq<Register>, v: Visit, events: seq<Event>)
    ensures Responsive(s, w.(events := events), appKey, table, v) <==> Responsive(s, w, appKey, table, v)
  {
    hide ServesHandshake, Greeted, ServesPoll, PollTable;
    assert Opened(s, w.(events := events), v.open) == Opened(s, w, v.open);
  }

  // ----- replies that were there before they were asked for -----

  /** Nothing but writes that work. */
  function Works(n: nat): (events: seq<Event>)
    ensures |events| == n && forall i :: 0 <= i < n ==> events[i] == Completed(Worked(None))
  {
    if n == 0 then [] else [Completed(Worked(None))] + Works(n - 1)
  }

  lemma {:induction false} WorksWrite(s: Setup, w: World, n: nat, m: nat)
    requires w.events == Works(n + m)
    ensures Write(s, w, n) == Ran(w.(events := Works(m)), Success(()))
    decreases n
  {
    if n > 0 {
      assert w.events[1..] == Works(n - 1 + m);
      assert Await(s, w) == Ran(w.(events := Works(n - 1 + m)), Worked(None));
      WorksWrite(s, w.(events := Works(n - 1 + m)), n - 1, m);
    }
  }

  /** The world once a request has been encrypted and the oldest packet has been taken for it. */
  function Taken(w: World, request: Packet): World
    requires request.Pack().Success? && w.rx.queue != []
  {
    var asked := Asked(w, request);
    asked.(rx := asked.rx.(queue := w.rx.queue[1..]))
  }

  /** How many writes a request takes. */
  function WritesFor(s: Setup, w: World, request: Packet): nat
    requires request.Pack().Success?
  {
    ChunkCount(|s.cipher.encrypt(w.rx.crypto, request.Pack().value)|, w.chunkSize)
  }

  lemma SendAtOnce(s: Setup, w: World, request: Packet, m: nat)
    requires w.IsUp() && request.Pack().Success? && w.events == Works(WritesFor(s, w, request) + m)
    ensures Send(s, w, request) == Ran(Asked(w, request).(events := Works(m)), Success(()))
    ensures forall u: World :: u.events == Works(m) ==> ReadClock(u) == u
  {
    WorksWrite(s, Asked(w, request), WritesFor(s, w, request), m);
  }

  /** A packet that waits already answers a request that goes out only now. */
  lemma WaitingAnswers(s: Setup, w: World, request: Packet, m: nat)
    requires w.IsUp() && request.Pack().Success? && w.events == Works(WritesFor(s, w, request) + m)
    requires w.rx.queue != [] && w.rx.queue[0].MatchesRequest(request) && s.requestTimeout > 0
    ensures Request(s, w, request) == Ran(Taken(w, request).(events := Works(m)), Success(w.rx.queue[0]))
  {
    hide Packet.Pack, Packet.MatchesRequest, Send, ReadClock, ChunkCount;
    SendAtOnce(s, w, request, m);
    var sent := Asked(w, request).(events := Works(m));
    assert Receive(s, sent, sent.now + s.requestTimeout)
           == Ran(Taken(w, request).(events := Works(m)), Success(w.rx.queue[0]));
  }

  /** A packet that waits already accepts pairing. */
  lemma WaitingAccepts(s: Setup, w: World, challenge: Bytes, deadline: int, m: nat)
    requires w.IsUp() && PairRequest(challenge).Pack().Success? && w.now < deadline
    requires w.events == Works(WritesFor(s, w, PairRequest(challenge)) + m)
    requires w.rx.queue != [] && AcceptsPairing(w.rx.queue[0])
    ensures AwaitPairing(s, w, challenge, deadline)
            == Ran(Taken(w, PairRequest(challenge)).(events := Works(m)), Success(()))
  {
    hide Packet.Pack, Send, ChunkCount, AcceptsPairing;
    SendAtOnce(s, w, PairRequest(challenge), m);
    assert ReadClock(w) == w;
    var sent := Asked(w, PairRequest(challenge)).(events := Works(m));
    assert Receive(s, sent, sent.now + PAIRING_RETRY_INTERVAL)
           == Ran(Taken(w, PairRequest(challenge)).(events := Works(m)), Success(w.rx.queue[0]));
    assert PairingTurn(s, w, challenge, deadline)
           == Ran(Taken(w, PairRequest(challenge)).(events := Works(m)), Some(Success(())));
  }

  /** A packet with any other status does not accept, and the next turn comes. */
  lemma WaitingRefuses(s: Setup, w: World, challenge: Bytes, deadline: int, m: nat)
    requires w.IsUp() && PairRequest(challenge).Pack().Success? && w.now < deadline
    requires w.events == Works(WritesFor(s, w, PairRequest(challenge)) + m)
    requires w.rx.queue != [] && w.rx.queue[0].index != 1
    ensures PairingTurn(s, w, challenge, deadline)
            == Ran(Taken(w, PairRequest(challenge)).(events := Works(m)), None)
  {
    hide Packet.Pack, Send, ChunkCount;
    SendAtOnce(s, w, PairRequest(challenge), m);
    assert ReadClock(w) == w;
    var sent := Asked(w, PairRequest(challenge)).(events := Works(m));
    assert Receive(s, sent, sent.now + PAIRING_RETRY_INTERVAL)
           == Ran(Taken(w, PairRequest(challenge)).(events := Works(m)), Success(w.rx.queue[0]));
  }

  /**
   Answers to all requests of a handshake, sent before any of them: INIT, PING, an accepted pairing, a
   second reply to it, and a reply to a read of the serial number.
   */
  function EarlyQueue(serial: Register, bleKey: Bytes, data: Bytes): seq<Packet> {
    [Packet(BLE, HOST, INIT, 0, bleKey), Packet(BLE, HOST, PING, 0, []), Packet(BLE, HOST, PAIR, 1, []),
     Packet(BLE, HOST, PAIR, 1, []), Packet(serial.board, HOST, READ_ACK, serial.index, data)]
  }

  /** The calls the handshake then makes on the cipher. None of them decrypts anything. */
  function EarlyCalls(serial: Register, bleKey: Bytes, key: Bytes): seq<Call>
    requires |key| <= MAX_DATA_LENGTH && serial.length <= MAX_DATA_LENGTH
  {
    [Encrypt(InitRequest().Pack().value), SetBleData(bleKey), Encrypt(PingRequest(key).Pack().value),
     Encrypt(PairRequest([]).Pack().value), SetAppData(key), Encrypt(PairRequest([]).Pack().value),
     Encrypt(BulkRequest(serial).Pack().value)]
  }

  /**
   With these five packets on the queue, nothing more has to come from the scooter: once the writes
   work the session is proven, and the cipher has decrypted nothing since before it got the key.
   */
  lemma {:induction false} EarlyRepliesProve(s: Setup, w: World, bleKey: Bytes, key: Bytes, data: Bytes)
    requires w.IsUp() && w.rx.queue == EarlyQueue(s.serialNumber, bleKey, data) && |bleKey| == APP_KEY_LENGTH
    requires |key| <= MAX_DATA_LENGTH && s.serialNumber.length <= MAX_DATA_LENGTH
    requires s.serialNumber.length <= |data| && s.requestTimeout > 0 && s.pairingTimeout > 0
    ensures exists n: nat :: ProvenEarly(s, w, Works(n), bleKey, key)
  {
    hide Packet.Pack, Packet.MatchesRequest, Request, AwaitPairing, ReadClock, ChunkCount, Works;
    var serial, queue := s.serialNumber, w.rx.queue;
    SmallRequests(key, serial);
    EarlyMatches(serial, bleKey, key, data);
    var a := Taken(w, InitRequest()).Called(SetBleData(bleKey));
    var b := Taken(a, PingRequest(key));
    var c := Taken(b, PairRequest([])).Called(SetAppData(key));
    var d := Taken(c, PairRequest([]));
    var n5 := WritesFor(s, d, BulkRequest(serial));
    var n4 := WritesFor(s, c, PairRequest([])) + n5;
    var n3 := WritesFor(s, b, PairRequest([])) + n4;
    var n2 := WritesFor(s, a, PingRequest(key)) + n3;
    var n := WritesFor(s, w, InitRequest()) + n2;
    WaitingAnswers(s, w.(events := Works(n)), InitRequest(), n2);
    assert bleKey[..APP_KEY_LENGTH] == bleKey && bleKey[APP_KEY_LENGTH..] == [];
    assert Introduce(s, w.(events := Works(n))) == Ran(a.(events := Works(n2)), Success([]));
    WaitingAnswers(s, a.(events := Works(n2)), PingRequest(key), n3);
    ClockStands(b.(events := Works(n3)), n3);
    WaitingAccepts(s, b.(events := Works(n3)), [], b.now + s.pairingTimeout, n4);
    assert Authorize(s, a.(events := Works(n2)), key, []) == Ran(c.(events := Works(n4)), Success(()));
    WaitingAnswers(s, c.(events := Works(n4)), PairRequest([]), n5);
    assert n5 == n5 + 0;
    WaitingAnswers(s, d.(events := Works(n5)), BulkRequest(serial), 0);
    assert ProvenEarly(s, w, Works(n), bleKey, key);
  }

  ghost predicate ProvenEarly(s: Setup, w: World, events: seq<Event>, bleKey: Bytes, key: Bytes)
    requires |key| <= MAX_DATA_LENGTH && s.serialNumber.length <= MAX_DATA_LENGTH
  {
    var run := Handshake(s, w.(events := events), key);
    && run.result == Success(()) && run.world.link == w.link
    && run.world.rx.crypto == w.rx.crypto + EarlyCalls(s.serialNumber, bleKey, key)
  }

  lemma ClockStands(w: World, n: nat)
    requires w.events == Works(n)
    ensures ReadClock(w) == w
  {
  }

  lemma SmallRequests(key: Bytes, serial: Register)
    requires |key| <= MAX_DATA_LENGTH && serial.length <= MAX_DATA_LENGTH
    ensures InitRequest().Pack().Success? && PingRequest(key).Pack().Success? && PairRequest([]).Pack().Success?
    ensures BulkRequest(serial).Pack().Success?
  {
  }

  lemma EarlyMatches(serial: Register, bleKey: Bytes, key: Bytes, data: Bytes)
    requires serial.length <= MAX_DATA_LENGTH
    ensures var queue := EarlyQueue(serial, bleKey, data);
            && queue[0].MatchesRequest(InitRequest()) && queue[1].MatchesRequest(PingRequest(key))
            && AcceptsPairing(queue[2]) && queue[3].MatchesRequest(PairRequest([]))
            && queue[4].MatchesRequest(BulkRequest(serial))
  {
  }
}
