/** The long-lived state a poll's snapshot is merged into. */
module Models {
  import opened Registers
  import opened Snapshots

  class ScooterState {
    var values: map<string, Value>
    var raw: map<string, string>
    var failures: map<string, FailureReason>

    ghost function Snap(): Snapshot
      reads this
    {
      Snapshot(values, raw, failures)
    }

    constructor ()
      ensures Snap() == EMPTY
    {
      values, raw, failures := map[], map[], map[];
    }

    /**
     The newer snapshot wins, and what it decoded is no longer failing. A state given to itself only
     loses failures.
     */
    method Update(other: ScooterState)
      modifies this
      ensures other != this ==> Snap() == Merge(old(Snap()), other.Snap()) && other.Snap() == old(other.Snap())
      ensures other == this ==> Snap() == SelfMerged(old(Snap()))
    {
      values := values + other.values;
      raw := raw + other.raw;
      Clear(other.values.Keys);
      assert other == this ==> failures + other.failures == failures;
      failures := failures + other.failures;
    }

    /** These registers are no longer failing. */
    method Clear(decoded: set<string>)
      modifies `failures
      ensures failures == old(failures) - decoded
    {
      var keys := decoded;
      while keys != {}
        invariant keys <= decoded
        invariant failures == old(failures) - (decoded - keys)
        decreases keys
      {
        var key :| key in keys;
        assert old(failures) - (decoded - keys) - {key} == old(failures) - (decoded - (keys - {key}));
        failures := failures - {key};
        keys := keys - {key};
      }
    }
  }
}
