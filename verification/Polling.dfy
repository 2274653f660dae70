/** One poll over a register table, as a relation between the outcomes of its reads and its result. */
module Polling {
  import opened Wrappers
  import opened Bytes
  import opened Errors
  import opened Registers
  import opened Snapshots
  import opened Hex

  const MAX_CONSECUTIVE_TIMEOUTS := 3

  type Outcome = Result<Bytes, Error>

  /** The snapshot so far and the timeouts counted since the last good read. */
  datatype Progress = Progress(state: Snapshot, streak: nat)

  const START := Progress(EMPTY, 0)

  function Recorded(reg: Register, o: Outcome, p: Progress): Progress {
    match o
    case Failure(e) =>
      Progress(p.state.(failures := p.state.failures[reg.key := Unread(e)]),
               if e == Timeout then p.streak + 1 else p.streak)
    case Success(payload) =>
      var s := p.state.(raw := p.state.raw[reg.key := ToHex(payload, true)]);
      match reg.convert(payload)
      case Some(v) => Progress(s.(values := s.values[reg.key := v]), 0)
      case None => Progress(s.(failures := s.failures[reg.key := Undecodable]), 0)
  }

  /** Whether an outcome ends the poll, and with which error. */
  function Abort(o: Outcome, streak: nat): Option<Error> {
    if o == Failure(Other) then Some(Other)
    else if o == Failure(Timeout) && streak + 1 >= MAX_CONSECUTIVE_TIMEOUTS then Some(Connection)
    else None
  }

  /** `outcomes` are the reads the poll made, one for each register from the head of `regs`. */
  ghost predicate PollRun(regs: seq<Register>, outcomes: seq<Outcome>, p: Progress, r: Result<Snapshot, Error>)
    decreases |regs|
  {
    if regs == [] then outcomes == [] && r == Success(p.state)
    else
      && outcomes != []
      && match Abort(outcomes[0], p.streak)
         case Some(e) => |outcomes| == 1 && r == Failure(e)
         case None => PollRun(regs[1..], outcomes[1..], Recorded(regs[0], outcomes[0], p), r)
  }

  // ----- a poll seen from its end -----

  /** The progress made by these outcomes, for the registers at the head of the table. */
  ghost function After(regs: seq<Register>, os: seq<Outcome>): Progress
    requires |os| <= |regs|
  {
    if os == [] then START
    else Recorded(regs[|os| - 1], os[|os| - 1], After(regs, os[..|os| - 1]))
  }

  /** None of these outcomes ended the poll. */
  ghost predicate Ongoing(regs: seq<Register>, os: seq<Outcome>) {
    && |os| <= |regs|
    && forall i :: 0 <= i < |os| ==> Abort(os[i], After(regs, os[..i]).streak).None?
  }

  /** A run from register `n` on is a run from the register before it. */
  lemma RunStep(regs: seq<Register>, os: seq<Outcome>, n: nat, r: Result<Snapshot, Error>)
    requires n < |os| <= |regs| && Abort(os[n], After(regs, os[..n]).streak).None?
    requires PollRun(regs[n + 1..], os[n + 1..], After(regs, os[..n + 1]), r)
    ensures PollRun(regs[n..], os[n..], After(regs, os[..n]), r)
  {
    hide Abort, Recorded;
    assert os[..n + 1][..n] == os[..n];
    assert os[n..][1..] == os[n + 1..] && regs[n..][1..] == regs[n + 1..];
  }

  lemma {:induction false} RunFrom(regs: seq<Register>, os: seq<Outcome>, n: nat, r: Result<Snapshot, Error>)
    requires n <= |os| <= |regs| && Ongoing(regs, os[..n])
    requires PollRun(regs[n..], os[n..], After(regs, os[..n]), r)
    ensures PollRun(regs, os, START, r)
    decreases n
  {
    hide PollRun, Abort, Recorded;
    if n == 0 {
      assert os[0..] == os && regs[0..] == regs;
    } else {
      OngoingStep(regs, os[..n - 1], os[n - 1]);
      assert os[..n - 1] + [os[n - 1]] == os[..n];
      RunStep(regs, os, n - 1, r);
      RunFrom(regs, os, n - 1, r);
    }
  }

  lemma {:induction false} OngoingStep(regs: seq<Register>, os: seq<Outcome>, o: Outcome)
    requires |os| < |regs|
    ensures After(regs, os + [o]) == Recorded(regs[|os|], o, After(regs, os))
    ensures Ongoing(regs, os + [o]) <==> Ongoing(regs, os) && Abort(o, After(regs, os).streak).None?
  {
    var longer := os + [o];
    assert longer[..|os|] == os;
    assert forall i :: 0 <= i < |os| ==> longer[..i] == os[..i];
  }

  lemma {:induction false} PollAborts(regs: seq<Register>, os: seq<Outcome>, o: Outcome)
    requires Ongoing(regs, os) && |os| < |regs| && Abort(o, After(regs, os).streak).Some?
    ensures PollRun(regs, os + [o], START, Failure(Abort(o, After(regs, os).streak).value))
  {
    var longer := os + [o];
    assert longer[..|os|] == os && longer[|os|..] == [o];
    RunFrom(regs, longer, |os|, Failure(Abort(o, After(regs, os).streak).value));
  }

  lemma {:induction false} PollEnds(regs: seq<Register>, os: seq<Outcome>)
    requires Ongoing(regs, os) && |os| == |regs|
    ensures PollRun(regs, os, START, Success(After(regs, os).state))
  {
    assert os[..|os|] == os;
    RunFrom(regs, os, |os|, Success(After(regs, os).state));
  }

  // ----- when a poll is abandoned -----

  function TimeoutCount(os: seq<Outcome>): nat {
    if os == [] then 0 else (if os[0] == Failure(Timeout) then 1 else 0) + TimeoutCount(os[1..])
  }

  function SuccessCount(os: seq<Outcome>): nat {
    if os == [] then 0 else (if os[0].Success? then 1 else 0) + SuccessCount(os[1..])
  }

  /**
   Outcome `i` is a timeout that completes three of them in a stretch, starting at `j`, without a
   good read. Other errors may lie in between.
   */
  ghost predicate SilentStretch(os: seq<Outcome>, j: nat, i: nat) {
    && j <= i < |os|
    && os[i] == Failure(Timeout)
    && (forall k :: j <= k <= i ==> os[k].Failure?)
    && TimeoutCount(os[j..i + 1]) >= 3
  }

  ghost predicate Silent(os: seq<Outcome>, i: nat) {
    exists j :: SilentStretch(os, j, i)
  }

  /** Timeouts since the last good read. */
  function Streak(os: seq<Outcome>): nat {
    if os == [] || os[|os| - 1].Success? then 0
    else Streak(os[..|os| - 1]) + (if os[|os| - 1] == Failure(Timeout) then 1 else 0)
  }

  lemma {:induction false} TimeoutCountLast(os: seq<Outcome>)
    requires os != []
    ensures TimeoutCount(os) == TimeoutCount(os[..|os| - 1]) + (if os[|os| - 1] == Failure(Timeout) then 1 else 0)
  {
    if |os| > 1 {
      TimeoutCountLast(os[1..]);
      assert os[1..][..|os| - 2] == os[..|os| - 1][1..];
    }
  }

  lemma {:induction false} StreakIsAttained(os: seq<Outcome>) returns (start: nat)
    ensures start <= |os| && TimeoutCount(os[start..]) == Streak(os)
    ensures forall k :: start <= k < |os| ==> os[k].Failure?
    decreases |os|
  {
    if os == [] || os[|os| - 1].Success? {
      start := |os|;
    } else {
      var n := |os| - 1;
      start := StreakIsAttained(os[..n]);
      assert os[start..][..n - start] == os[..n][start..];
      TimeoutCountLast(os[start..]);
    }
  }

  lemma {:induction false} StreakIsLongest(os: seq<Outcome>, j: nat)
    requires j <= |os| && forall k :: j <= k < |os| ==> os[k].Failure?
    ensures TimeoutCount(os[j..]) <= Streak(os)
    decreases |os|
  {
    if j < |os| {
      var n := |os| - 1;
      StreakIsLongest(os[..n], j);
      assert os[j..][..n - j] == os[..n][j..];
      TimeoutCountLast(os[j..]);
    }
  }

  /** Counting since the last good read finds exactly the silent stretches. */
  lemma {:induction false} SilentIffStreak(os: seq<Outcome>, i: nat)
    requires i < |os|
    ensures Silent(os, i) <==> os[i] == Failure(Timeout) && Streak(os[..i]) + 1 >= MAX_CONSECUTIVE_TIMEOUTS
  {
    var upto := os[..i + 1];
    assert upto[..i] == os[..i];
    assert forall j :: 0 <= j <= i ==> upto[j..] == os[j..i + 1];
    if os[i] == Failure(Timeout) && Streak(upto) >= MAX_CONSECUTIVE_TIMEOUTS {
      var start := StreakIsAttained(upto);
      assert SilentStretch(os, start, i);
    }
    if Silent(os, i) {
      var j :| SilentStretch(os, j, i);
      StreakIsLongest(upto, j);
    }
  }

  /** Whether outcome `i` ends a poll that had these outcomes so far. */
  function AbortAt(os: seq<Outcome>, i: nat): Option<Error>
    requires i < |os|
  {
    Abort(os[i], Streak(os[..i]))
  }

  lemma StreakStep(os: seq<Outcome>, n: nat)
    requires n < |os|
    ensures Streak(os[..n + 1]) == if os[n].Success? then 0
                                   else if os[n] == Failure(Timeout) then Streak(os[..n]) + 1 else Streak(os[..n])
  {
    assert os[..n + 1][..n] == os[..n];
  }

  lemma {:induction false} AbortByStreak(regs: seq<Register>, os: seq<Outcome>, n: nat,
                                         p: Progress, r: Result<Snapshot, Error>)
    requires n <= |os| && PollRun(regs, os[n..], p, r) && p.streak == Streak(os[..n])
    ensures forall i :: n <= i < |os| - 1 ==> AbortAt(os, i).None?
    ensures r.Failure? ==> n < |os| && AbortAt(os, |os| - 1) == Some(r.error)
    ensures r.Success? ==> |os| - n == |regs| && (n < |os| ==> AbortAt(os, |os| - 1).None?)
    decreases |regs|
  {
    if regs != [] && AbortAt(os, n).None? {
      StreakStep(os, n);
      assert os[n..][1..] == os[n + 1..];
      AbortByStreak(regs[1..], os, n + 1, Recorded(regs[0], os[n], p), r);
    }
  }

  lemma AbortIsSilence(os: seq<Outcome>, i: nat)
    requires i < |os|
    ensures AbortAt(os, i) == Some(Other) <==> os[i] == Failure(Other)
    ensures AbortAt(os, i) == Some(Connection) <==> Silent(os, i)
    ensures AbortAt(os, i).Some? ==> AbortAt(os, i).value == Other || AbortAt(os, i).value == Connection
  {
    SilentIffStreak(os, i);
  }

  /**
   A poll is abandoned at register `i` exactly when the read of `i` completes a silent stretch, or
   raises something foreign; nothing before `i` does either. Otherwise every register is read.
   */
  lemma {:induction false} AbortIff(regs: seq<Register>, outcomes: seq<Outcome>, r: Result<Snapshot, Error>)
    requires PollRun(regs, outcomes, START, r)
    ensures forall i :: 0 <= i < |outcomes| - 1 ==> outcomes[i] != Failure(Other) && !Silent(outcomes, i)
    ensures r == Failure(Connection) <==> outcomes != [] && Silent(outcomes, |outcomes| - 1)
    ensures r == Failure(Other) <==> outcomes != [] && outcomes[|outcomes| - 1] == Failure(Other)
    ensures r.Success? ==> |outcomes| == |regs|
    ensures r.Failure? ==> r.error == Connection || r.error == Other
  {
    assert outcomes[0..] == outcomes;
    AbortByStreak(regs, outcomes, 0, START, r);
    forall i | 0 <= i < |outcomes| - 1
      ensures outcomes[i] != Failure(Other) && !Silent(outcomes, i)
    {
      AbortIsSilence(outcomes, i);
    }
    if outcomes != [] {
      AbortIsSilence(outcomes, |outcomes| - 1);
    }
  }

  lemma {:induction false} TimeoutsBoundedFrom(regs: seq<Register>, outcomes: seq<Outcome>, p: Progress,
                                               r: Result<Snapshot, Error>)
    requires PollRun(regs, outcomes, p, r) && r.Success? && p.streak < MAX_CONSECUTIVE_TIMEOUTS
    ensures TimeoutCount(outcomes) + p.streak <= 2 * (SuccessCount(outcomes) + 1)
    decreases |regs|
  {
    if regs != [] {
      TimeoutsBoundedFrom(regs[1..], outcomes[1..], Recorded(regs[0], outcomes[0], p), r);
    }
  }

  /** A poll that returns waited out at most two reads for every good one, and two more. */
  lemma {:induction false} TimeoutsBounded(regs: seq<Register>, outcomes: seq<Outcome>, r: Result<Snapshot, Error>)
    requires PollRun(regs, outcomes, START, r) && r.Success?
    ensures TimeoutCount(outcomes) <= 2 * (SuccessCount(outcomes) + 1)
  {
    TimeoutsBoundedFrom(regs, outcomes, START, r);
  }

  /** No good read and nothing foreign. */
  ghost predicate NothingRead(os: seq<Outcome>) {
    forall i :: 0 <= i < |os| ==> os[i].Failure? && os[i] != Failure(Other)
  }

  lemma {:induction false} EmptyPollFrom(regs: seq<Register>, outcomes: seq<Outcome>, p: Progress,
                                         r: Result<Snapshot, Error>)
    requires PollRun(regs, outcomes, p, r) && NothingRead(outcomes) && p.streak < MAX_CONSECUTIVE_TIMEOUTS
    ensures r.Success? <==> p.streak + TimeoutCount(outcomes) < 3
    ensures r.Success? ==> r.value.values == p.state.values && r.value.raw == p.state.raw
                           && p.state.failures.Keys <= r.value.failures.Keys
                           && forall i :: 0 <= i < |regs| ==> regs[i].key in r.value.failures
    ensures r.Failure? ==> r.error == Connection
    decreases |regs|
  {
    if regs != [] {
      if Abort(outcomes[0], p.streak).None? {
        EmptyPollFrom(regs[1..], outcomes[1..], Recorded(regs[0], outcomes[0], p), r);
        assert forall i :: 1 <= i < |regs| ==> regs[i] == regs[1..][i - 1];
      } else {
        assert outcomes[1..] == [];
      }
    }
  }

  /** A poll that reads nothing returns, with every register failing, exactly when under three reads timed out. */
  lemma {:induction false} EmptyPollIff(regs: seq<Register>, outcomes: seq<Outcome>, r: Result<Snapshot, Error>)
    requires PollRun(regs, outcomes, START, r) && NothingRead(outcomes)
    ensures r.Success? <==> TimeoutCount(outcomes) < 3
    ensures r.Success? ==> r.value.values == map[] && r.value.raw == map[]
                           && forall i :: 0 <= i < |regs| ==> regs[i].key in r.value.failures
  {
    EmptyPollFrom(regs, outcomes, START, r);
  }

  /** Every one of these registers failing because nothing could be sent. */
  function Unsent(regs: seq<Register>): (m: map<string, FailureReason>)
    ensures forall i :: 0 <= i < |regs| ==> regs[i].key in m
    ensures forall k :: k in m ==> m[k] == Unread(Connection) && exists i :: 0 <= i < |regs| && regs[i].key == k
  {
    if regs == [] then map[]
    else
      assert forall i :: 1 <= i < |regs| ==> regs[i] == regs[1..][i - 1];
      map[regs[0].key := Unread(Connection)] + Unsent(regs[1..])
  }

  /**
   Errors other than timeouts never end a poll: one whose every send fails still returns, with every
   register failing for that reason and nothing else changed.
   */
  lemma {:induction false} DeadLinkPollReturns(regs: seq<Register>, outcomes: seq<Outcome>, p: Progress,
                                               r: Result<Snapshot, Error>)
    requires PollRun(regs, outcomes, p, r)
    requires forall i :: 0 <= i < |outcomes| ==> outcomes[i] == Failure(Connection)
    ensures r == Success(p.state.(failures := p.state.failures + Unsent(regs)))
    decreases |regs|
  {
    if regs == [] {
      assert p.state.failures + Unsent(regs) == p.state.failures;
    } else {
      DeadLinkPollReturns(regs[1..], outcomes[1..], Recorded(regs[0], outcomes[0], p), r);
      UnsentStep(regs, p.state.failures);
    }
  }

  lemma UnsentStep(regs: seq<Register>, failures: map<string, FailureReason>)
    requires regs != []
    ensures failures[regs[0].key := Unread(Connection)] + Unsent(regs[1..]) == failures + Unsent(regs)
  {
    var rest, one := Unsent(regs[1..]), map[regs[0].key := Unread(Connection)];
    assert failures[regs[0].key := Unread(Connection)] == failures + one;
    UpdateAssociative(failures, one, rest);
  }

  // ----- what a poll records -----

  /** What one read leaves in the snapshot. */
  ghost predicate Entry(reg: Register, o: Outcome, s: Snapshot) {
    match o
    case Failure(e) =>
      reg.key !in s.values && reg.key !in s.raw && reg.key in s.failures && s.failures[reg.key] == Unread(e)
    case Success(payload) =>
      && reg.key in s.raw && s.raw[reg.key] == ToHex(payload, true)
      && match reg.convert(payload)
         case Some(v) => reg.key !in s.failures && reg.key in s.values && s.values[reg.key] == v
         case None => reg.key !in s.values && reg.key in s.failures && s.failures[reg.key] == Undecodable
  }

  predicate Mentions(s: Snapshot, k: string) {
    k in s.values || k in s.raw || k in s.failures
  }

  lemma {:induction false} PollRecordsFrom(regs: seq<Register>, outcomes: seq<Outcome>, p: Progress,
                                           r: Result<Snapshot, Error>)
    requires PollRun(regs, outcomes, p, r) && r.Success? && UniqueKeys(regs)
    requires forall i :: 0 <= i < |regs| ==> !Mentions(p.state, regs[i].key)
    ensures |outcomes| == |regs|
    ensures forall i :: 0 <= i < |regs| ==> Entry(regs[i], outcomes[i], r.value)
    ensures forall k :: (forall i :: 0 <= i < |regs| ==> regs[i].key != k) ==> SameEntry(k, p.state, r.value)
    decreases |regs|
  {
    if regs != [] {
      var next := Recorded(regs[0], outcomes[0], p);
      PollRecordsFrom(regs[1..], outcomes[1..], next, r);
      assert forall i :: 1 <= i < |regs| ==> regs[i] == regs[1..][i - 1] && outcomes[i] == outcomes[1..][i - 1];
      assert SameEntry(regs[0].key, next.state, r.value);
      forall k | forall i :: 0 <= i < |regs| ==> regs[i].key != k
        ensures SameEntry(k, p.state, r.value)
      {
        assert SameEntry(k, next.state, r.value);
      }
    }
  }

  ghost predicate SameEntry(k: string, a: Snapshot, b: Snapshot) {
    && (k in a.values <==> k in b.values) && (k in a.values ==> a.values[k] == b.values[k])
    && (k in a.raw <==> k in b.raw) && (k in a.raw ==> a.raw[k] == b.raw[k])
    && (k in a.failures <==> k in b.failures) && (k in a.failures ==> a.failures[k] == b.failures[k])
  }

  /**
   On normal return every register read is in exactly one of values and failures, with the
   entry its read calls for, and nothing else is mentioned.
   */
  lemma {:induction false} PollPartition(regs: seq<Register>, outcomes: seq<Outcome>, r: Result<Snapshot, Error>)
    requires PollRun(regs, outcomes, START, r) && r.Success? && UniqueKeys(regs)
    ensures |outcomes| == |regs|
    ensures forall i :: 0 <= i < |regs| ==> Entry(regs[i], outcomes[i], r.value)
    ensures forall k :: Mentions(r.value, k) <==> exists i :: 0 <= i < |regs| && regs[i].key == k
    ensures r.value.values.Keys !! r.value.failures.Keys
    ensures r.value.values.Keys <= r.value.raw.Keys
    ensures forall k :: k in r.value.raw && k in r.value.failures <==>
                        k in r.value.failures && r.value.failures[k] == Undecodable
  {
    PollRecordsFrom(regs, outcomes, START, r);
    forall k | Mentions(r.value, k)
      ensures exists i :: 0 <= i < |regs| && regs[i].key == k && Entry(regs[i], outcomes[i], r.value)
    {
      assert !SameEntry(k, EMPTY, r.value);
      var i :| 0 <= i < |regs| && regs[i].key == k;
      assert Entry(regs[i], outcomes[i], r.value);
    }
    forall i | 0 <= i < |regs|
      ensures Mentions(r.value, regs[i].key)
    {
      assert Entry(regs[i], outcomes[i], r.value);
    }
    assert forall k :: k in r.value.values || k in r.value.failures || k in r.value.raw ==> Mentions(r.value, k);
  }

  /** The snapshot of a poll is coherent over the whole table, and as true as its reads were. */
  lemma {:induction false} PollIsCoherent(table: seq<Register>, memory: Memory, includeStatic: bool,
                                          outcomes: seq<Outcome>, r: Result<Snapshot, Error>)
    requires UniqueKeys(table) && r.Success?
    requires PollRun(PollTable(table, includeStatic), outcomes, START, r)
    ensures Coherent(table, r.value)
    ensures TrueReads(memory, PollTable(table, includeStatic), outcomes) ==> TrueRaw(memory, table, r.value)
  {
    var regs := PollTable(table, includeStatic);
    PollTableSelects(table, includeStatic);
    PollPartition(regs, outcomes, r);
    forall i | 0 <= i < |table|
      ensures CoherentKey(table[i], r.value)
      ensures TrueReads(memory, regs, outcomes) && table[i].key in r.value.raw ==>
                r.value.raw[table[i].key] == RawText(memory, table[i])
    {
      if Mentions(r.value, table[i].key) {
        var j :| 0 <= j < |regs| && regs[j].key == table[i].key;
        assert regs[j] in regs && table[i] in table;
        KeyDetermines(table, regs[j], table[i]);
        assert Entry(regs[j], outcomes[j], r.value);
        if outcomes[j].Success? {
          FromHexToHex(outcomes[j].value, true);
        }
      }
    }
  }

  /** Every good read returned the memory of its register. */
  ghost predicate TrueReads(memory: Memory, regs: seq<Register>, outcomes: seq<Outcome>) {
    forall i :: 0 <= i < |regs| && i < |outcomes| && outcomes[i].Success? ==>
                  outcomes[i].value == Slice(memory, regs[i].board, regs[i].index, regs[i].length)
  }

  lemma TrueReadsGrow(memory: Memory, regs: seq<Register>, os: seq<Outcome>, o: Outcome)
    requires |os| < |regs| && TrueReads(memory, regs, os)
    requires o.Success? ==>
               var reg := regs[|os|]; o.value == Slice(memory, reg.board, reg.index, reg.length)
    ensures TrueReads(memory, regs, os + [o])
  {
    hide Slice;
  }

  lemma PollBegins(regs: seq<Register>, memory: Memory)
    ensures Ongoing(regs, []) && After(regs, []) == START && TrueReads(memory, regs, [])
  {
  }

  /** A snapshot a completed poll over the table returned, with or without the static registers. */
  ghost predicate PolledWith(table: seq<Register>, includeStatic: bool, s: Snapshot) {
    exists outcomes :: PollRun(PollTable(table, includeStatic), outcomes, START, Success(s))
  }

  ghost predicate FromPoll(table: seq<Register>, s: Snapshot) {
    PolledWith(table, true, s) || PolledWith(table, false, s)
  }

  /**
   After any run of polls, every value that is not failing is its raw payload decoded, and every
   raw payload without a value is failing.
   */
  lemma {:induction false} RunIsCoherent(table: seq<Register>, polls: seq<Snapshot>)
    requires UniqueKeys(table) && forall i :: 0 <= i < |polls| ==> FromPoll(table, polls[i])
    ensures Coherent(table, MergeAll(polls))
  {
    var memory: Memory := _ => [];
    forall i | 0 <= i < |polls|
      ensures Coherent(table, polls[i])
    {
      var includeStatic := PolledWith(table, true, polls[i]);
      var outcomes :| PollRun(PollTable(table, includeStatic), outcomes, START, Success(polls[i]));
      PollIsCoherent(table, memory, includeStatic, outcomes, Success(polls[i]));
    }
    RunKeepsCoherence(table, memory, polls);
  }

  /** These are the reads of a poll over the table that did, or did not, return. */
  ghost predicate PollEnded(table: seq<Register>, outcomes: seq<Outcome>, returned: bool) {
    exists includeStatic, r :: PollRun(PollTable(table, includeStatic), outcomes, START, r) && r.Success? == returned
  }

  lemma ThatPollEnded(table: seq<Register>, includeStatic: bool, outcomes: seq<Outcome>, r: Result<Snapshot, Error>)
    requires PollRun(PollTable(table, includeStatic), outcomes, START, r)
    ensures PollEnded(table, outcomes, r.Success?)
  {
  }

  lemma {:induction false} EmptyPollEnds(table: seq<Register>, outcomes: seq<Outcome>, returned: bool)
    requires PollEnded(table, outcomes, returned) && NothingRead(outcomes)
    ensures returned <==> TimeoutCount(outcomes) < 3
  {
    var includeStatic, r :| PollRun(PollTable(table, includeStatic), outcomes, START, r) && r.Success? == returned;
    EmptyPollIff(PollTable(table, includeStatic), outcomes, r);
  }
}
