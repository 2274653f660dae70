/** The snapshot of one poll, the merging of snapshots and what a whole run of merges means. */
module Snapshots {
  import opened Wrappers
  import opened Errors
  import opened Registers
  import opened Hex

  datatype FailureReason = Unread(error: Error) | Undecodable

  /** Decoded values, raw payloads in hex and failures, each keyed by register. */
  datatype Snapshot = Snapshot(
    values: map<string, Value>,
    raw: map<string, string>,
    failures: map<string, FailureReason>)

  const EMPTY := Snapshot(map[], map[], map[])

  /** `older` after it is updated with `newer`. */
  function Merge(older: Snapshot, newer: Snapshot): Snapshot {
    Snapshot(older.values + newer.values,
             older.raw + newer.raw,
             (older.failures - newer.values.Keys) + newer.failures)
  }

  function MergeAll(polls: seq<Snapshot>): Snapshot {
    if polls == [] then EMPTY else Merge(MergeAll(polls[..|polls| - 1]), polls[|polls| - 1])
  }

  // ----- the algebra of merging -----

  lemma MergeIdentity(s: Snapshot)
    ensures Merge(EMPTY, s) == s == Merge(s, EMPTY)
  {
    assert Merge(EMPTY, s).values == s.values && Merge(EMPTY, s).raw == s.raw;
    assert Merge(s, EMPTY).failures == s.failures;
  }

  lemma UpdateAssociative<V>(a: map<string, V>, b: map<string, V>, c: map<string, V>)
    ensures (a + b) + c == a + (b + c)
  {
  }

  lemma ClearAssociative<V>(a: map<string, V>, b: map<string, V>, c: map<string, V>, x: set<string>, y: set<string>)
    ensures (((a - x) + b) - y) + c == (a - (x + y)) + ((b - y) + c)
  {
  }

  lemma {:induction false} MergeAssociative(a: Snapshot, b: Snapshot, c: Snapshot)
    ensures Merge(Merge(a, b), c) == Merge(a, Merge(b, c))
  {
    UpdateAssociative(a.values, b.values, c.values);
    UpdateAssociative(a.raw, b.raw, c.raw);
    ClearAssociative(a.failures, b.failures, c.failures, b.values.Keys, c.values.Keys);
    assert (b.values + c.values).Keys == b.values.Keys + c.values.Keys;
  }

  /** What a state becomes when it is updated with itself: what it decoded is cleared and not put back. */
  function SelfMerged(s: Snapshot): Snapshot {
    s.(failures := s.failures - s.values.Keys)
  }

  /** Updating a state with itself is merging an equal snapshot exactly when nothing decoded is failing. */
  lemma {:induction false} SelfMergeIff(s: Snapshot)
    ensures SelfMerged(s) == Merge(s, s) <==> s.values.Keys !! s.failures.Keys
  {
    assert Merge(s, s).failures == s.failures;
    if s.values.Keys !! s.failures.Keys {
      assert s.failures - s.values.Keys == s.failures;
    } else {
      var k :| k in s.values.Keys && k in s.failures.Keys;
      assert k !in SelfMerged(s).failures;
    }
  }

  /** A run of polls may be merged in any grouping. */
  lemma {:induction false} MergeAnyGrouping(xs: seq<Snapshot>, ys: seq<Snapshot>)
    ensures MergeAll(xs + ys) == Merge(MergeAll(xs), MergeAll(ys))
    decreases |ys|
  {
    if ys == [] {
      assert xs + ys == xs;
      MergeIdentity(MergeAll(xs));
    } else {
      var init := ys[..|ys| - 1];
      assert (xs + ys)[..|xs + ys| - 1] == xs + init;
      MergeAnyGrouping(xs, init);
      MergeAssociative(MergeAll(xs), MergeAll(init), ys[|ys| - 1]);
    }
  }

  // ----- what the merged state means -----

  predicate Tried(s: Snapshot, k: string) {
    k in s.values || k in s.failures
  }

  /** Poll `i` is the latest that decoded `k`. */
  ghost predicate LatestValue(polls: seq<Snapshot>, k: string, i: nat) {
    && i < |polls| && k in polls[i].values
    && forall j :: i < j < |polls| ==> k !in polls[j].values
  }

  /** Poll `i` is the latest that tried `k`. */
  ghost predicate LatestTry(polls: seq<Snapshot>, k: string, i: nat) {
    && i < |polls| && Tried(polls[i], k)
    && forall j :: i < j < |polls| ==> !Tried(polls[j], k)
  }

  lemma {:induction false} MergedValueAt(polls: seq<Snapshot>, k: string, i: nat)
    requires LatestValue(polls, k, i)
    ensures k in MergeAll(polls).values && MergeAll(polls).values[k] == polls[i].values[k]
    decreases |polls|
  {
    if i < |polls| - 1 {
      MergedValueAt(polls[..|polls| - 1], k, i);
    }
  }

  lemma {:induction false} MergedValueExists(polls: seq<Snapshot>, k: string) returns (i: nat)
    requires k in MergeAll(polls).values
    ensures LatestValue(polls, k, i)
    decreases |polls|
  {
    i := |polls| - 1;
    if k !in polls[i].values {
      i := MergedValueExists(polls[..i], k);
    }
  }

  /** Every key's value is the one from the latest poll that decoded it. */
  lemma {:induction false} MergedValues(polls: seq<Snapshot>, k: string)
    ensures k in MergeAll(polls).values <==> exists i: nat :: LatestValue(polls, k, i)
    ensures forall i: nat :: LatestValue(polls, k, i) ==> MergeAll(polls).values[k] == polls[i].values[k]
  {
    if k in MergeAll(polls).values {
      var i := MergedValueExists(polls, k);
    }
    forall i: nat | LatestValue(polls, k, i)
      ensures k in MergeAll(polls).values && MergeAll(polls).values[k] == polls[i].values[k]
    {
      MergedValueAt(polls, k, i);
    }
  }

  lemma {:induction false} MergedFailureAt(polls: seq<Snapshot>, k: string, i: nat)
    requires LatestTry(polls, k, i)
    ensures k in MergeAll(polls).failures <==> k in polls[i].failures
    ensures k in polls[i].failures ==> MergeAll(polls).failures[k] == polls[i].failures[k]
    decreases |polls|
  {
    if i < |polls| - 1 {
      MergedFailureAt(polls[..|polls| - 1], k, i);
    }
  }

  lemma {:induction false} MergedFailureExists(polls: seq<Snapshot>, k: string) returns (i: nat)
    requires k in MergeAll(polls).failures
    ensures LatestTry(polls, k, i)
    decreases |polls|
  {
    i := |polls| - 1;
    if !Tried(polls[i], k) {
      i := MergedFailureExists(polls[..i], k);
    }
  }

  /** A key is failing exactly when the latest poll that tried it failed on it, for that poll's reason. */
  lemma {:induction false} MergedFailures(polls: seq<Snapshot>, k: string)
    ensures k in MergeAll(polls).failures
            <==> exists i: nat :: LatestTry(polls, k, i) && k in polls[i].failures
    ensures forall i: nat :: LatestTry(polls, k, i) && k in polls[i].failures ==>
                          MergeAll(polls).failures[k] == polls[i].failures[k]
  {
    if k in MergeAll(polls).failures {
      var i := MergedFailureExists(polls, k);
      MergedFailureAt(polls, k, i);
    }
    forall i: nat | LatestTry(polls, k, i) && k in polls[i].failures
      ensures k in MergeAll(polls).failures && MergeAll(polls).failures[k] == polls[i].failures[k]
    {
      MergedFailureAt(polls, k, i);
    }
  }

  // ----- values agree with raw payloads -----

  /** Whether `reg` decodes the payload shown as `text` to `v`. */
  ghost predicate DecodesTo(reg: Register, text: string, v: Value) {
    FromHex(text).Some? && reg.convert(FromHex(text).value) == Some(v)
  }

  /**
   For every register of the table: a value that is not failing is its raw payload decoded, and
   a raw payload without a value is a failure.
   */
  ghost predicate Coherent(table: seq<Register>, s: Snapshot) {
    forall i :: 0 <= i < |table| ==> CoherentKey(table[i], s)
  }

  ghost predicate CoherentKey(reg: Register, s: Snapshot) {
    && (reg.key in s.values && reg.key !in s.failures ==>
          reg.key in s.raw && DecodesTo(reg, s.raw[reg.key], s.values[reg.key]))
    && (reg.key in s.raw && reg.key !in s.values ==> reg.key in s.failures)
    && (reg.key in s.values ==> reg.key in s.raw)
  }

  /** Every raw payload of a table register is the true memory. */
  ghost predicate TrueRaw(memory: Memory, table: seq<Register>, s: Snapshot) {
    forall i :: 0 <= i < |table| && table[i].key in s.raw ==>
                  s.raw[table[i].key] == RawText(memory, table[i])
  }

  ghost function RawText(memory: Memory, reg: Register): string {
    ToHex(Slice(memory, reg.board, reg.index, reg.length), true)
  }

  lemma MergeKeepsCoherence(table: seq<Register>, a: Snapshot, b: Snapshot)
    requires Coherent(table, a) && Coherent(table, b)
    ensures Coherent(table, Merge(a, b))
  {
    forall i | 0 <= i < |table|
      ensures CoherentKey(table[i], Merge(a, b))
    {
      assert CoherentKey(table[i], a) && CoherentKey(table[i], b);
    }
  }

  lemma MergeKeepsTruth(table: seq<Register>, memory: Memory, a: Snapshot, b: Snapshot)
    requires TrueRaw(memory, table, a) && TrueRaw(memory, table, b)
    ensures TrueRaw(memory, table, Merge(a, b))
  {
  }

  /** Coherence and truth to the memory survive any run of merges. */
  lemma {:induction false} RunKeepsCoherence(table: seq<Register>, memory: Memory, polls: seq<Snapshot>)
    requires forall i :: 0 <= i < |polls| ==> Coherent(table, polls[i])
    ensures Coherent(table, MergeAll(polls))
    ensures (forall i :: 0 <= i < |polls| ==> TrueRaw(memory, table, polls[i]))
            ==> TrueRaw(memory, table, MergeAll(polls))
    decreases |polls|
  {
    if polls != [] {
      var n := |polls| - 1;
      assert forall i :: 0 <= i < n ==> polls[..n][i] == polls[i];
      RunKeepsCoherence(table, memory, polls[..n]);
      MergeKeepsCoherence(table, MergeAll(polls[..n]), polls[n]);
    }
  }
}
