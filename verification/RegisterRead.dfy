/**
 One register read as a dialogue: the requests it makes, the answers it gets and the payload
 or error it ends with, for every list of answers an unreliable link may give.
 */
module RegisterRead {
  import opened Wrappers
  import opened Bytes
  import opened Errors
  import opened Protocol
  import opened Registers

  const WORD_SIZE := 2

  type Answer = Result<Packet, Error>

  datatype Exchange = Exchange(request: Packet, answer: Answer)

  function BulkRequest(reg: Register): Packet
    requires reg.length < 256
  {
    Packet(HOST, reg.board, READ, reg.index, [reg.length])
  }

  function WordRequest(reg: Register, word: nat): Packet {
    Packet(HOST, reg.board, READ, reg.index + word, [2])
  }

  function Words(reg: Register): nat {
    (reg.length + 1) / 2
  }

  /** A reply to some request a read of this register makes. */
  predicate AnswersRead(reg: Register, p: Packet) {
    && p.command == READ_ACK && p.target == HOST && p.source == reg.board
    && (reg.index == p.index || reg.index < p.index < reg.index + Words(reg))
  }

  /** The bulk request asks like the first word, and matching tells the requests apart by index only. */
  lemma AnswersReadIff(reg: Register, p: Packet)
    ensures AnswersRead(reg, p)
            <==> exists w: nat :: (w == 0 || w < Words(reg)) && p.MatchesRequest(WordRequest(reg, w))
    ensures reg.length < 256 ==> (p.MatchesRequest(BulkRequest(reg)) <==> p.MatchesRequest(WordRequest(reg, 0)))
  {
    if AnswersRead(reg, p) {
      assert p.MatchesRequest(WordRequest(reg, p.index - reg.index));
    }
  }

  /** A request some read of this register makes. */
  predicate AsksFor(reg: Register, request: Packet) {
    && request.command == READ && request.source == HOST && request.target == reg.board
    && (reg.index == request.index || reg.index < request.index < reg.index + Words(reg))
  }

  lemma WordIsAsked(reg: Register, word: nat)
    requires word == 0 || word < Words(reg)
    ensures AsksFor(reg, WordRequest(reg, word))
  {
  }

  lemma BulkIsAsked(reg: Register)
    requires reg.length < 256
    ensures AsksFor(reg, BulkRequest(reg))
  {
  }

  lemma AskedIsAnswered(reg: Register, request: Packet, p: Packet)
    requires AsksFor(reg, request) && p.MatchesRequest(request)
    ensures AnswersRead(reg, p)
  {
  }

  /** Walking the index from `word` on, with `payload` collected so far. */
  ghost predicate WalkRun(reg: Register, word: nat, payload: Bytes, xs: seq<Exchange>, r: Result<Bytes, Error>)
    requires word <= Words(reg)
    decreases Words(reg) - word
  {
    if word == Words(reg) then
      xs == [] && r == Success(Take(payload, reg.length))
    else
      && xs != []
      && xs[0].request == WordRequest(reg, word)
      && match xs[0].answer
         case Failure(e) => |xs| == 1 && r == Failure(e)
         case Success(p) => WalkRun(reg, word + 1, payload + Take(p.data, 2), xs[1..], r)
  }

  /** Whether the answer to the bulk request leads to walking the index. */
  predicate Walks(reg: Register, bulk: Answer) {
    match bulk
    case Success(p) => |p.data| < reg.length
    case Failure(e) => e == Timeout && reg.length > WORD_SIZE
  }

  /** A whole read: one bulk request, and a walk when the bulk answer is short or missing. */
  ghost predicate ReadRun(reg: Register, xs: seq<Exchange>, r: Result<Bytes, Error>) {
    if reg.length > 255 then xs == [] && r == Failure(Other)
    else
      && xs != []
      && xs[0].request == BulkRequest(reg)
      && if Walks(reg, xs[0].answer) then WalkRun(reg, 0, [], xs[1..], r)
         else
           && |xs| == 1
           && r == match xs[0].answer
                   case Success(p) => Success(p.data[..reg.length])
                   case Failure(e) => Failure(e)
  }

  /** A reply the matching rule lets through and that is true to the memory. */
  predicate TruthfulExchange(memory: Memory, x: Exchange) {
    x.answer.Success? ==> x.answer.value.MatchesRequest(x.request) && Honest(memory, x.answer.value)
  }

  ghost predicate Truthful(memory: Memory, xs: seq<Exchange>) {
    forall i :: 0 <= i < |xs| ==> TruthfulExchange(memory, xs[i])
  }

  // ----- a read seen from its end -----

  /** The first words of a walk have all been answered. */
  ghost predicate Walked(reg: Register, xs: seq<Exchange>) {
    && |xs| <= Words(reg)
    && forall i :: 0 <= i < |xs| ==> xs[i].request == WordRequest(reg, i) && xs[i].answer.Success?
  }

  ghost function WalkedPayload(xs: seq<Exchange>): Bytes
    requires forall i :: 0 <= i < |xs| ==> xs[i].answer.Success?
  {
    if xs == [] then []
    else WalkedPayload(xs[..|xs| - 1]) + Take(xs[|xs| - 1].answer.value.data, 2)
  }

  lemma {:induction false} WalkFrom(reg: Register, xs: seq<Exchange>, n: nat, r: Result<Bytes, Error>)
    requires n <= |xs| && Walked(reg, xs[..n])
    requires WalkRun(reg, n, WalkedPayload(xs[..n]), xs[n..], r)
    ensures WalkRun(reg, 0, [], xs, r)
    decreases n
  {
    if n == 0 {
      assert xs[0..] == xs;
    } else {
      assert xs[..n][..n - 1] == xs[..n - 1];
      assert xs[n - 1..][1..] == xs[n..];
      assert xs[..n][n - 1] == xs[n - 1];
      WalkFrom(reg, xs, n - 1, r);
    }
  }

  /** So many words have been answered, with this payload. */
  ghost predicate Collected(reg: Register, xs: seq<Exchange>, payload: Bytes) {
    Walked(reg, xs) && payload == WalkedPayload(xs)
  }

  lemma NothingCollected(reg: Register, queued: seq<Packet>)
    ensures Collected(reg, [], []) && Backed([], queued)
  {
  }

  lemma WalkedOn(reg: Register, xs: seq<Exchange>, payload: Bytes, p: Packet)
    requires Collected(reg, xs, payload) && |xs| < Words(reg)
    ensures Collected(reg, xs + [Exchange(WordRequest(reg, |xs|), Success(p))], payload + Take(p.data, 2))
  {
    assert (xs + [Exchange(WordRequest(reg, |xs|), Success(p))])[..|xs|] == xs;
  }

  /** A walk cut short by an error. */
  lemma WalkFails(reg: Register, xs: seq<Exchange>, payload: Bytes, e: Error)
    requires Collected(reg, xs, payload) && |xs| < Words(reg)
    ensures WalkRun(reg, 0, [], xs + [Exchange(WordRequest(reg, |xs|), Failure(e))], Failure(e))
  {
    var all := xs + [Exchange(WordRequest(reg, |xs|), Failure(e))];
    assert all[..|xs|] == xs && all[|xs|..] == [Exchange(WordRequest(reg, |xs|), Failure(e))];
    WalkFrom(reg, all, |xs|, Failure(e));
  }

  /** A walk that got every word. */
  lemma WalkEnds(reg: Register, xs: seq<Exchange>, payload: Bytes)
    requires Collected(reg, xs, payload) && |xs| == Words(reg)
    ensures WalkRun(reg, 0, [], xs, Success(Take(payload, reg.length)))
  {
    assert xs[..|xs|] == xs;
    WalkFrom(reg, xs, |xs|, Success(Take(WalkedPayload(xs), reg.length)));
  }

  /** Every reply of the dialogue was on the queue and answers its request. */
  ghost predicate Backed(xs: seq<Exchange>, queued: seq<Packet>) {
    forall i :: 0 <= i < |xs| && xs[i].answer.Success? ==>
                  xs[i].answer.value.MatchesRequest(xs[i].request) && xs[i].answer.value in queued
  }

  lemma BackedGrows(xs: seq<Exchange>, x: Exchange, queued: seq<Packet>, more: seq<Packet>)
    requires Backed(xs, queued) && queued <= more
    requires x.answer.Success? ==> x.answer.value.MatchesRequest(x.request) && x.answer.value in more
    ensures Backed(xs + [x], more)
  {
    assert forall p :: p in queued ==> p in more;
  }

  lemma BackedJoins(x: Exchange, xs: seq<Exchange>, queued: seq<Packet>, more: seq<Packet>)
    requires Backed([x], queued) && Backed(xs, more) && queued <= more
    ensures Backed([x] + xs, more)
  {
    assert [x][0] == x;
    assert forall p :: p in queued ==> p in more;
  }

  lemma BackedIsTruthful(memory: Memory, xs: seq<Exchange>, queued: seq<Packet>)
    requires Backed(xs, queued) && forall p :: p in queued ==> Honest(memory, p)
    ensures Truthful(memory, xs)
  {
  }

  // ----- correctness under honest, stale, reordered or lost replies -----

  lemma SliceGrows(memory: Memory, board: DeviceId, index: nat, words: nat)
    ensures Slice(memory, board, index, 2 * words) + Slice(memory, board, index + words, 2)
            == Slice(memory, board, index, 2 * (words + 1))
  {
    var rest := Drop(memory(board), 2 * index);
    assert Drop(memory(board), 2 * (index + words)) == Drop(rest, 2 * words);
  }

  lemma SliceShrinks(memory: Memory, board: DeviceId, index: nat, long: nat, short: nat)
    requires short <= long
    ensures Take(Slice(memory, board, index, long), short) == Slice(memory, board, index, short)
  {
  }

  lemma HonestPrefix(memory: Memory, p: Packet, n: nat)
    requires Honest(memory, p) && p.command == READ_ACK
    requires n <= 2 || n <= |p.data|
    ensures Take(p.data, n) == Slice(memory, p.source, p.index, n)
  {
    assert |p.data| >= |Slice(memory, p.source, p.index, 2)|;
  }

  lemma WordGrows(memory: Memory, reg: Register, word: nat, x: Exchange)
    requires x.request == WordRequest(reg, word) && x.answer.Success? && TruthfulExchange(memory, x)
    ensures Slice(memory, reg.board, reg.index, 2 * word) + Take(x.answer.value.data, 2)
            == Slice(memory, reg.board, reg.index, 2 * (word + 1))
  {
    HonestPrefix(memory, x.answer.value, 2);
    SliceGrows(memory, reg.board, reg.index, word);
  }

  lemma {:induction false} WalkReadsMemory(memory: Memory, reg: Register, word: nat,
                                           xs: seq<Exchange>, r: Result<Bytes, Error>)
    requires word <= Words(reg) && Truthful(memory, xs)
    requires WalkRun(reg, word, Slice(memory, reg.board, reg.index, 2 * word), xs, r)
    ensures r.Success? ==> r.value == Slice(memory, reg.board, reg.index, reg.length)
    decreases Words(reg) - word
  {
    hide Slice, TruthfulExchange;
    if word == Words(reg) {
      SliceShrinks(memory, reg.board, reg.index, 2 * word, reg.length);
    } else if xs[0].answer.Success? {
      WordGrows(memory, reg, word, xs[0]);
      WalkReadsMemory(memory, reg, word + 1, xs[1..], r);
    }
  }

  /**
   Whatever mix of true replies arrives, late, repeated or out of order, a read that returns
   returns the memory.
   */
  lemma ReadIsTrue(memory: Memory, reg: Register, xs: seq<Exchange>, r: Result<Bytes, Error>)
    requires ReadRun(reg, xs, r) && Truthful(memory, xs)
    ensures r.Success? ==> r.value == Slice(memory, reg.board, reg.index, reg.length)
  {
    if reg.length <= 255 {
      assert TruthfulExchange(memory, xs[0]);
      if Walks(reg, xs[0].answer) {
        assert Slice(memory, reg.board, reg.index, 0) == [];
        WalkReadsMemory(memory, reg, 0, xs[1..], r);
      } else if xs[0].answer.Success? {
        HonestPrefix(memory, xs[0].answer.value, reg.length);
      }
    }
  }

  // ----- cost -----

  function Timeouts(xs: seq<Exchange>): nat {
    if xs == [] then 0 else (if xs[0].answer == Failure(Timeout) then 1 else 0) + Timeouts(xs[1..])
  }

  lemma {:induction false} WalkCost(reg: Register, word: nat, payload: Bytes,
                                    xs: seq<Exchange>, r: Result<Bytes, Error>)
    requires word <= Words(reg) && WalkRun(reg, word, payload, xs, r)
    ensures |xs| <= Words(reg) - word && Timeouts(xs) <= 1
    ensures r.Success? <==> Timeouts(xs) == 0 && |xs| == Words(reg) - word
                            && forall x :: x in xs ==> x.answer.Success?
    ensures r == Failure(Timeout) <==> Timeouts(xs) == 1
    decreases Words(reg) - word
  {
    if word < Words(reg) && xs[0].answer.Success? {
      WalkCost(reg, word + 1, payload + Take(xs[0].answer.value.data, 2), xs[1..], r);
    }
  }

  /** A read costs at most one request more than it has words, and waits out at most two of them. */
  lemma ReadCost(reg: Register, xs: seq<Exchange>, r: Result<Bytes, Error>)
    requires ReadRun(reg, xs, r)
    ensures |xs| <= 1 + Words(reg) && Timeouts(xs) <= 2
    ensures r.Success? ==> xs != [] && Timeouts(xs) <= 1 && xs[|xs| - 1].answer.Success?
    ensures r == Failure(Timeout) ==> 1 <= Timeouts(xs) && xs[|xs| - 1].answer == Failure(Timeout)
    ensures Timeouts(xs) == 2 ==> reg.length > 2
    ensures Words(reg) == (reg.length + 1) / 2
  {
    if reg.length <= 255 && Walks(reg, xs[0].answer) {
      WalkCost(reg, 0, [], xs[1..], r);
      assert forall i :: 1 <= i < |xs| ==> xs[i] == xs[1..][i - 1] && xs[i] in xs[1..];
      if xs[1..] != [] && r == Failure(Timeout) {
        WalkEndsInFailure(reg, 0, [], xs[1..], r);
      }
    }
  }

  /**
   What a read asks: first for the whole register at once and, when that reply is short or a longer
   register than two bytes gets none in time, for one word after the other.
   */
  lemma {:induction false} ReadAsks(reg: Register, xs: seq<Exchange>, r: Result<Bytes, Error>)
    requires ReadRun(reg, xs, r) && reg.length <= 255
    ensures xs != [] && xs[0].request == Packet(HOST, reg.board, READ, reg.index, [reg.length])
    ensures forall i :: 1 <= i < |xs| ==> xs[i].request == Packet(HOST, reg.board, READ, reg.index + i - 1, [2])
    ensures |xs| > 1 <==> match xs[0].answer
                          case Success(p) => |p.data| < reg.length
                          case Failure(e) => e == Timeout && reg.length > 2
    ensures |xs| == 1 ==> r == match xs[0].answer
                               case Success(p) => Success(p.data[..reg.length])
                               case Failure(e) => Failure(e)
  {
    if Walks(reg, xs[0].answer) {
      WalkAsks(reg, 0, [], xs[1..], r);
      assert forall i :: 1 <= i < |xs| ==> xs[i] == xs[1..][i - 1];
    }
  }

  lemma {:induction false} WalkAsks(reg: Register, word: nat, payload: Bytes, xs: seq<Exchange>,
                                    r: Result<Bytes, Error>)
    requires word <= Words(reg) && WalkRun(reg, word, payload, xs, r)
    ensures word < Words(reg) ==> xs != []
    ensures forall i :: 0 <= i < |xs| ==> xs[i].request == Packet(HOST, reg.board, READ, reg.index + word + i, [2])
    decreases Words(reg) - word
  {
    if word < Words(reg) && xs[0].answer.Success? {
      WalkAsks(reg, word + 1, payload + Take(xs[0].answer.value.data, 2), xs[1..], r);
      assert forall i :: 1 <= i < |xs| ==> xs[i] == xs[1..][i - 1];
    }
  }

  lemma {:induction false} WalkEndsInFailure(reg: Register, word: nat, payload: Bytes,
                                             xs: seq<Exchange>, r: Result<Bytes, Error>)
    requires word <= Words(reg) && WalkRun(reg, word, payload, xs, r) && r.Failure?
    ensures xs != [] && xs[|xs| - 1].answer == Failure(r.error)
    decreases Words(reg) - word
  {
    if xs[0].answer.Success? {
      WalkEndsInFailure(reg, word + 1, payload + Take(xs[0].answer.value.data, 2), xs[1..], r);
    }
  }

  // ----- scooters that answer bulk reads and scooters that do not -----

  /**
   What a request to a scooter with this memory ends with. One without bulk reads stays silent to
   long requests; above index 255 no reply can match.
   */
  function Scooter(memory: Memory, bulk: bool, request: Packet): Answer
    requires request.data != []
  {
    if request.index > 255 || (!bulk && request.data[0] > 2) then Failure(Timeout)
    else Success(Packet(request.target, HOST, READ_ACK, request.index,
                        Slice(memory, request.target, request.index, request.data[0])))
  }

  ghost predicate AnsweredBy(memory: Memory, bulk: bool, xs: seq<Exchange>) {
    forall i :: 0 <= i < |xs| ==> xs[i].request.data != [] && xs[i].answer == Scooter(memory, bulk, xs[i].request)
  }

  lemma TruthfulJoins(memory: Memory, xs: seq<Exchange>)
    requires xs != [] && TruthfulExchange(memory, xs[0]) && Truthful(memory, xs[1..])
    ensures Truthful(memory, xs)
  {
    assert forall i :: 1 <= i < |xs| ==> xs[i] == xs[1..][i - 1];
  }

  lemma {:induction false} WalkIsAnswered(memory: Memory, bulk: bool, reg: Register, word: nat, payload: Bytes,
                                          xs: seq<Exchange>, r: Result<Bytes, Error>)
    requires word <= Words(reg) && WalkRun(reg, word, payload, xs, r) && AnsweredBy(memory, bulk, xs)
    ensures Truthful(memory, xs)
    ensures r.Success? <==> word == Words(reg) || reg.index + Words(reg) <= 256
    ensures r.Failure? ==> r.error == Timeout
    decreases Words(reg) - word
  {
    if word < Words(reg) {
      assert xs[0].answer == Scooter(memory, bulk, WordRequest(reg, word));
      if xs[0].answer.Success? {
        WalkIsAnswered(memory, bulk, reg, word + 1, payload + Take(xs[0].answer.value.data, 2), xs[1..], r);
      }
      TruthfulJoins(memory, xs);
    }
  }

  /** A scooter's bulk reply holds the whole register. */
  predicate BulkIsWhole(memory: Memory, bulk: bool, reg: Register) {
    (bulk || reg.length <= 2) && |Slice(memory, reg.board, reg.index, reg.length)| == reg.length
  }

  /**
   A scooter that refuses bulk reads yields the same bytes as one that allows them, for every
   register one request can ask for and whose indices fit a byte. Only the refusal costs time,
   once. A register that reaches past index 255 is read only if the bulk reply holds all of it.
   */
  lemma BulkAndWalkedAgree(memory: Memory, bulk: bool, reg: Register, xs: seq<Exchange>, r: Result<Bytes, Error>)
    requires reg.length <= 255 && ReadRun(reg, xs, r) && AnsweredBy(memory, bulk, xs)
    ensures r.Success? <==> reg.index < 256 && (BulkIsWhole(memory, bulk, reg) || reg.index + Words(reg) <= 256)
    ensures r == if r.Success? then Success(Slice(memory, reg.board, reg.index, reg.length)) else Failure(Timeout)
    ensures r.Success? ==> Timeouts(xs) == if !bulk && reg.length > 2 then 1 else 0
    ensures r.Success? ==> |xs| == if BulkIsWhole(memory, bulk, reg) then 1 else 1 + Words(reg)
  {
    assert xs[0].answer == Scooter(memory, bulk, BulkRequest(reg));
    if Walks(reg, xs[0].answer) {
      WalkIsAnswered(memory, bulk, reg, 0, [], xs[1..], r);
      assert Slice(memory, reg.board, reg.index, 0) == [];
      WalkReadsMemory(memory, reg, 0, xs[1..], r);
      WalkCost(reg, 0, [], xs[1..], r);
    } else if xs[0].answer.Success? {
      var data := Slice(memory, reg.board, reg.index, reg.length);
      assert xs[0].answer.value.data == data && data[..reg.length] == data;
    }
  }

  /**
   Why a true reply must hold a whole word: prefixes of the memory that stop inside a word make
   a walked read skip bytes.
   */
  lemma HalfWordsShift(memory: Memory, reg: Register, xs: seq<Exchange>)
    requires memory(MCU) == [1, 2, 3, 4]
    requires reg.board == MCU && reg.index == 0 && reg.length == 4
    requires |xs| == 3
    requires xs[0] == Exchange(BulkRequest(reg), Failure(Timeout))
    requires xs[1] == Exchange(WordRequest(reg, 0), Success(Packet(MCU, HOST, READ_ACK, 0, [1])))
    requires xs[2] == Exchange(WordRequest(reg, 1), Success(Packet(MCU, HOST, READ_ACK, 1, [3])))
    ensures ReadRun(reg, xs, Success([1, 3]))
    ensures Slice(memory, MCU, 0, 4) == [1, 2, 3, 4]
  {
    assert xs[1..] == [xs[1], xs[2]] && [xs[1], xs[2]][1..] == [xs[2]];
    assert [1] + Take([3], 2) == [1, 3] && Take<Byte>([1, 3], 4) == [1, 3];
    assert WalkRun(reg, 2, [1, 3], [], Success([1, 3]));
    assert WalkRun(reg, 1, [1], [xs[2]], Success([1, 3]));
    assert [] + Take<Byte>([1], 2) == [1];
    assert WalkRun(reg, 0, [], xs[1..], Success([1, 3]));
  }
}
