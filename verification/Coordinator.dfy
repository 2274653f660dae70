/** The coordinator: polls the scooter over and over, keeps its state and the pairing key. */
module Coordinator {
  import opened Wrappers
  import opened Bytes
  import opened Crypto
  import opened Errors
  import opened Hex
  import opened Registers
  import opened Snapshots
  import opened Models
  import opened Polling
  import opened Session
  import opened Links
  import opened Runs
  import opened Client
  import opened Availability

  class NinebotCoordinator {
    const client: NinebotClient
    const state: ScooterState
    /** `app_key` in the config entry's data. */
    var storedKey: Option<string>
    var pairingRequired: bool
    var lastPollSuccessful: bool

    ghost const successfulAtStart: bool
    /** The snapshots of the polls that succeeded, how every poll ended, and the log reports. */
    ghost var polls: seq<Snapshot>
    /** For each of them, how many links had been opened by then, which tells its link. */
    ghost var pollLinks: seq<nat>
    ghost var results: seq<Result<(), Error>>
    ghost var reports: seq<Report>

    /** The state is the merge of all successful polls of this client's table. */
    ghost predicate StateOk()
      reads `polls, `pollLinks, state
    {
      && state.Snap() == MergeAll(polls) && |pollLinks| == |polls|
      && forall i :: 0 <= i < |polls| ==> FromPoll(client.table, polls[i])
    }

    /** If all traffic was honest, every raw payload is the scooter's memory. */
    ghost predicate TruthOk()
      reads state, client
    {
      TrueIfHonest(state.Snap())
    }

    ghost predicate TrueIfHonest(s: Snapshot)
      reads client
    {
      UniqueKeys(client.table) && client.HonestTraffic() ==> TrueRaw(client.memory, client.table, s)
    }

    /** The client's session is proven and its key is the one stored. */
    ghost predicate KeyOk()
      reads `storedKey, client
    {
      Established(client.journey, client.appKey) && storedKey == Some(ToHex(client.appKey, false))
    }

    /** A poll with the static registers completed on the `link`-th link. */
    ghost predicate StaticPolledOn(link: nat)
      reads `polls, `pollLinks
    {
      exists i :: 0 <= i < |polls| && i < |pollLinks| && pollLinks[i] == link
                  && PolledWith(client.table, true, polls[i])
    }

    /** A link that is up is proven, its key is stored, and it has been polled for static registers. */
    ghost predicate LinkOk()
      reads `storedKey, `polls, `pollLinks, client
    {
      client.IsConnected() ==> KeyOk() && StaticPolledOn(client.linksOpened)
    }

    /** The client is sound, has a key and has never opened a link over one that was up. */
    ghost predicate ClientOk()
      reads client
    {
      && client.Valid() && client.Traced() && client.appKey != []
      && client.orphaned == LeakCount(client.operations) && NoneOver(client.operations)
    }

    ghost function Current(): Standing
      reads this
    {
      Standing(pairingRequired, lastPollSuccessful, reports)
    }

    /** What an update comes to when `during` happens meanwhile. */
    ghost function Expected(during: seq<Event>, freshKey: Bytes): Ran<Result<Snapshot, Error>>
      reads client, state
    {
      Runs.AsyncUpdate(client.AsSetup(), client.AsWorld().(events := during), client.appKey, client.appKeyWasSupplied,
                       freshKey, client.table, state.values == map[])
    }

    /** The end of an update as a value: the snapshot it added, or the error. */
    ghost function Shown(r: Result<(), Error>): Result<Snapshot, Error>
      requires r.Success? ==> polls != []
      reads `polls
    {
      if r.Success? then Success(polls[|polls| - 1]) else Failure(r.error)
    }

    /** What holds between polls. */
    ghost predicate Valid()
      reads this, state, client
    {
      && ClientOk() && StateOk() && TruthOk() && LinkOk()
      && Current() == ObserveAll(Unpolled(successfulAtStart), results)
    }

    constructor (client: NinebotClient, storedKey: Option<string>, successfulAtStart: bool)
      requires client.Valid() && client.Traced() && client.link == NoLink && client.appKey != []
      requires client.operations == [] && client.orphaned == 0
      ensures Valid() && fresh(state) && this.client == client && this.storedKey == storedKey
      ensures polls == [] && results == [] && reports == [] && this.successfulAtStart == successfulAtStart
    {
      this.client, this.storedKey := client, storedKey;
      state := new ScooterState();
      pairingRequired, lastPollSuccessful := false, successfulAtStart;
      this.successfulAtStart := successfulAtStart;
      polls, pollLinks, results, reports := [], [], [], [];
    }

    /** The stored key becomes the client's, and is not written when it already is. */
    method PersistAppKey()
      modifies `storedKey
      ensures storedKey == Some(ToHex(client.appKey, false))
    {
      var text := ToHex(client.appKey, false);
      if storedKey == Some(text) {
        return;
      }
      storedKey := Some(text);
    }

    lemma AbsorbedIsTrue(older: Snapshot, s: Snapshot, includeStatic: bool, taken: seq<Outcome>)
      requires TrueIfHonest(older) && PollRun(PollTable(client.table, includeStatic), taken, START, Success(s))
      requires client.HonestTraffic() ==> TrueReads(client.memory, PollTable(client.table, includeStatic), taken)
      ensures TrueIfHonest(Merge(older, s))
    {
      if UniqueKeys(client.table) && client.HonestTraffic() {
        PollIsCoherent(client.table, client.memory, includeStatic, taken, Success(s));
        MergeKeepsTruth(client.table, client.memory, older, s);
      }
    }

    /** Merge a poll's snapshot into the state. */
    method Absorb(snapshot: ScooterState, ghost includeStatic: bool, ghost taken: seq<Outcome>)
      requires snapshot != state && StateOk() && TruthOk()
      requires PollRun(PollTable(client.table, includeStatic), taken, START, Success(snapshot.Snap()))
      requires client.HonestTraffic() ==> TrueReads(client.memory, PollTable(client.table, includeStatic), taken)
      modifies state, `polls, `pollLinks
      ensures StateOk() && TruthOk()
      ensures polls == old(polls) + [snapshot.Snap()] && pollLinks == old(pollLinks) + [client.linksOpened]
      ensures PolledWith(client.table, includeStatic, polls[|polls| - 1])
    {
      hide PollRun, TrueIfHonest, TrueReads;
      ghost var s := snapshot.Snap();
      AbsorbedIsTrue(state.Snap(), s, includeStatic, taken);
      state.Update(snapshot);
      polls, pollLinks := polls + [s], pollLinks + [client.linksOpened];
      assert polls[..|polls| - 1] == old(polls);
      assert PolledWith(client.table, includeStatic, s);
      assert FromPoll(client.table, s);
    }

    /** Connect unless the link is up; tells whether it did. */
    method EnsureConnected(freshKey: Bytes) returns (r: Result<bool, Error>)
      requires ClientOk() && TruthOk() && LinkOk() && |freshKey| == APP_KEY_LENGTH
      modifies client, `storedKey
      ensures ClientOk() && TruthOk() && client.LeaksAccounted()
      ensures r.Success? ==> KeyOk() && (r.value || StaticPolledOn(client.linksOpened))
      ensures old(client.IsConnected()) ==>
                r == Success(false) && storedKey == old(storedKey) && client.AsWorld() == old(client.AsWorld())
      ensures !old(client.IsConnected()) ==>
                var run := Runs.Connect(client.AsSetup(), old(client.AsWorld()), old(client.appKey),
                                        old(client.appKeyWasSupplied), freshKey);
                && client.AsWorld() == run.world && run.result.Success? == r.Success?
                && (if r.Success? then r.value else run.result == Failure(r.error))
      ensures storedKey != old(storedKey) ==> KeyOk()
    {
      hide NinebotClient.Valid, NinebotClient.Traced, Established, TrueRaw, NinebotClient.HonestTraffic, PolledWith,
           LeakCount, NoneOver, Runs.Connect;
      if client.IsConnected() {
        return Success(false);
      }
      var connected, attempts := client.Connect(freshKey);
      if connected.Failure? {
        return Failure(connected.error);
      }
      PersistAppKey();
      return Success(true);
    }

    /**
     Read the scooter's registers into the state. `taken` are the outcomes of the reads, unless the
     link was down before the first one.
     */
    method PollInto(includeStatic: bool) returns (r: Result<(), Error>, ghost taken: Option<seq<Outcome>>)
      requires ClientOk() && StateOk() && TruthOk() && KeyOk()
      requires includeStatic || StaticPolledOn(client.linksOpened)
      modifies client, state, `polls, `pollLinks
      ensures ClientOk() && StateOk() && TruthOk() && KeyOk() && client.LeaksAccounted()
      ensures r.Success? ==> LinkOk() && |polls| == |old(polls)| + 1 && old(polls) <= polls
      ensures r.Success? ==> PolledWith(client.table, includeStatic, polls[|polls| - 1])
      ensures r.Failure? ==> polls == old(polls)
      ensures taken.Some? ==> PollEnded(client.table, taken.value, r.Success?)
      ensures taken.None? ==> r.Failure?
      ensures Ran(client.AsWorld(), Shown(r))
              == Runs.AsyncPoll(client.AsSetup(), old(client.AsWorld()), PollTable(client.table, includeStatic))
    {
      hide NinebotClient.Valid, NinebotClient.Traced, Established, TrueRaw, NinebotClient.HonestTraffic, FromPoll,
           PolledWith, LeakCount, NoneOver, Runs.AsyncPoll, PollRun, TrueReads, PollEnded, PollTable, MergeAll, Merge,
           UniqueKeys, ToHex;
      ghost var up := client.IsConnected();
      var snapshot, outcomes := client.AsyncPoll(includeStatic);
      taken := if up then Some(outcomes) else None;
      if up {
        ThatPollEnded(client.table, includeStatic, outcomes, NinebotClient.Shown(snapshot));
      }
      if snapshot.Failure? {
        return Failure(snapshot.error), taken;
      }
      Absorb(snapshot.value, includeStatic, outcomes);
      StillPolled(includeStatic);
      r := Success(());
    }

    /** A poll with the static registers stays on record, and the latest one goes on it. */
    twostate lemma StillPolled(includeStatic: bool)
      requires |polls| == |pollLinks| > 0 && old(|polls| == |pollLinks|)
      requires polls == old(polls) + [polls[|polls| - 1]] && pollLinks == old(pollLinks) + [client.linksOpened]
      requires client.linksOpened == old(client.linksOpened)
      requires PolledWith(client.table, includeStatic, polls[|polls| - 1])
      requires includeStatic || old(StaticPolledOn(client.linksOpened))
      ensures StaticPolledOn(client.linksOpened)
    {
      hide PolledWith;
      if !includeStatic {
        var i :| 0 <= i < |old(polls)| && old(pollLinks)[i] == client.linksOpened
                 && PolledWith(client.table, true, old(polls)[i]);
        assert polls[i] == old(polls)[i] && pollLinks[i] == old(pollLinks)[i];
      }
    }

    /** Connect if the link is down, then poll, with the static registers on a new link or an empty state. */
    method AsyncUpdate(freshKey: Bytes) returns (r: Result<(), Error>, ghost taken: Option<seq<Outcome>>)
      requires ClientOk() && StateOk() && TruthOk() && LinkOk() && |freshKey| == APP_KEY_LENGTH
      modifies client, state, `storedKey, `pairingRequired, `polls, `pollLinks
      ensures ClientOk() && StateOk() && TruthOk() && client.LeaksAccounted()
      ensures r.Success? ==> LinkOk() && !pairingRequired && |polls| == |old(polls)| + 1 && old(polls) <= polls
      ensures r.Success? ==>
                PolledWith(client.table, old(state.values == map[] || !client.IsConnected()), polls[|polls| - 1])
      ensures r.Failure? ==> polls == old(polls) && pairingRequired == old(pairingRequired)
      ensures storedKey != old(storedKey) ==> KeyOk()
      ensures taken.Some? ==> PollEnded(client.table, taken.value, r.Success?)
      ensures taken.None? ==> r.Failure?
      ensures Ran(client.AsWorld(), Shown(r)) == old(Expected(client.events, freshKey))
    {
      hide NinebotClient.Valid, NinebotClient.Traced, Established, TrueIfHonest, NinebotClient.HonestTraffic, FromPoll,
           PolledWith, MergeAll, LeakCount, NoneOver, PollEnded, StaticPolledOn, Runs.Connect, Runs.AsyncPoll;
      var firstPoll := state.values == map[];
      var connected := EnsureConnected(freshKey);
      if connected.Failure? {
        return Failure(connected.error), None;
      }
      r, taken := PollInto(firstPoll || connected.value);
      if r.Success? {
        pairingRequired := false;
      }
    }

    /** The client lets go of its link; an error on the way is ignored. */
    method DropConnection()
      requires ClientOk() && StateOk() && TruthOk()
      modifies client
      ensures ClientOk() && StateOk() && TruthOk() && client.LeaksAccounted()
      ensures !client.IsConnected()
      ensures client.journey == old(client.journey) && client.appKey == old(client.appKey)
      ensures client.AsWorld() == Runs.Disconnect(client.AsSetup(), old(client.AsWorld())).world
    {
      hide NinebotClient.Valid, NinebotClient.Traced, TrueRaw, NinebotClient.HonestTraffic, LeakCount, NoneOver,
           ClosingOps, Runs.Disconnect;
      ClosingIsNotOver(client.operations, client.IsConnected(), client.events);
      var closed := client.Disconnect();
    }

    /** Note how a poll ended, and log it when that is news. A good poll has cleared `pairingRequired`. */
    method Note(r: Result<(), Error>, ghost before: Standing)
      requires before == ObserveAll(Unpolled(successfulAtStart), results)
      requires Current() == before.(pairingRequired := r.Failure? && before.pairingRequired)
      modifies `pairingRequired, `lastPollSuccessful, `reports, `results
      ensures results == old(results) + [r]
      ensures Current() == ObserveAll(Unpolled(successfulAtStart), results) == Observe(before, r)
    {
      assert (results + [r])[..|results|] == results;
      results := results + [r];
      var outcome := OutcomeOf(r);
      if outcome == NeedsPairing {
        pairingRequired := true;
      }
      if outcome != Polled && lastPollSuccessful {
        reports := reports + [WentDown(outcome)];
        lastPollSuccessful := false;
      }
      if outcome == Polled && !lastPollSuccessful {
        reports := reports + [BackOnline];
        lastPollSuccessful := true;
      }
    }

    /** What will happen during the next poll. */
    method Feed(during: seq<Event>)
      requires ClientOk() && StateOk() && TruthOk() && LinkOk()
      modifies client`events
      ensures ClientOk() && StateOk() && TruthOk() && LinkOk() && client.LeaksAccounted()
      ensures client.IsConnected() == old(client.IsConnected())
      ensures client.events == during && forall k :: Expected(during, k) == old(Expected(during, k))
    {
      hide NinebotClient.Valid, NinebotClient.Traced, Established, TrueRaw, NinebotClient.HonestTraffic, LeakCount,
           NoneOver, StaticPolledOn;
      client.events := during;
    }

    /**
     One poll, during which `during` happens, tolerating every failure. Any failing path leaves
     the link down. A poll that reads nothing counts as good unless three reads timed out.
     */
    method AsyncPoll(during: seq<Event>, freshKey: Bytes)
      returns (ghost r: Result<(), Error>, ghost taken: Option<seq<Outcome>>)
      requires Valid() && |freshKey| == APP_KEY_LENGTH
      modifies client, state, this
      ensures Valid() && client.LeaksAccounted()
      ensures results == old(results) + [r]
      ensures lastPollSuccessful == r.Success?
      ensures pairingRequired == if r.Success? then false else old(pairingRequired) || r.error == PairingRequired
      ensures reports == old(reports) + NewReport(old(lastPollSuccessful), r)
      ensures r.Failure? ==> !client.IsConnected() && polls == old(polls)
      ensures r.Success? ==> |polls| == |old(polls)| + 1 && old(polls) <= polls
      ensures storedKey != old(storedKey) ==> KeyOk()
      ensures taken.Some? ==> PollEnded(client.table, taken.value, r.Success?)
      ensures r.Success? ==> taken.Some?
      ensures taken.Some? && NothingRead(taken.value) ==> (r.Success? <==> TimeoutCount(taken.value) < 3)
      ensures var run := old(Expected(during, freshKey));
              && run.result == Shown(r)
              && client.AsWorld() == if r.Success? then run.world
                                     else Runs.Disconnect(client.AsSetup(), run.world).world
    {
      hide NinebotClient.Valid, NinebotClient.Traced, Established, NinebotClient.HonestTraffic, FromPoll, PolledWith,
           MergeAll, ObserveAll, Observe, NewReport, LeakCount, NoneOver, PollEnded, NothingRead, StaticPolledOn,
           ClientOk, TrueIfHonest, StateOk, TruthOk, Expected, Runs.Disconnect;
      ghost var before := Current();
      Feed(during);
      var updated;
      updated, taken := AsyncUpdate(freshKey);
      r := updated;
      if taken.Some? && NothingRead(taken.value) {
        EmptyPollEnds(client.table, taken.value, r.Success?);
      }
      ReportAdded(before, updated);
      Note(updated, before);
      if updated.Failure? {
        DropConnection();
      }
    }

    /** Something happens on the link between polls. */
    method Idle(e: Event)
      requires Valid()
      modifies client
      ensures Valid()
    {
      client.Idle(e);
    }

    // ----- what holds after any run of polls -----

    /**
     Between polls, a link that is up has a proven session. On this link the whole handshake was
     gone through in order; the key installed is the client's and no other; after that a reply to
     a read of the serial number was taken, and it is known when that and the closing reply were
     decrypted under the key; and a poll with the static registers completed. The key is the stored
     one, from which a restart would rebuild it.
     */
    lemma SessionSafety(freshKey: Bytes)
      requires Valid() && client.IsConnected()
      ensures HandshakeOrder(client.Heard(), client.linkStart, client.journey)
      ensures Proven(client.Heard(), client.serialNumber, client.journey, client.appKey)
      ensures UnderKeyIff(client.queued, client.crypto, client.decryptedAt, client.serialNumber, client.journey,
                          client.appKey)
      ensures Named(client.journey, client.sent, client.sentAt)
      ensures forall k :: SetAppData(k) in Keys(client.crypto) <==> k == client.appKey
      ensures exists i :: 0 <= i < |polls| && i < |pollLinks| && pollLinks[i] == client.linksOpened
                          && PolledWith(client.table, true, polls[i])
      ensures storedKey == Some(ToHex(client.appKey, false)) && StoredKey(storedKey) == Success(Some(client.appKey))
      ensures InitialKey(StoredKey(storedKey).value, freshKey) == (client.appKey, true)
    {
      EstablishedMeans(client.Heard(), client.linkStart, client.serialNumber, client.journey, client.appKey);
      PathGrows(client.Heard(), client.queued, client.linkStart, client.serialNumber, client.journey);
      EstablishedUnderKey(client.cipher, client.crypto, client.decryptedAt, client.queued, client.linkStart,
                          client.serialNumber, client.journey, client.appKey);
      RestartKeepsKey(client.appKey, freshKey);
    }

    /**
     After any run, no link was left behind up exactly when every subscription that was refused, every
     unsubscription that raised something foreign and every closing that did not work ended after its
     link had dropped.
     */
    lemma NothingOrphanedIff()
      requires Valid()
      ensures client.orphaned == 0 <==>
              forall i :: 0 <= i < |client.operations| && client.operations[i].up ==>
                            var op := client.operations[i];
                            && !(op.kind == Subscribing && op.how == Refused)
                            && !(op.kind == Unsubscribing && op.how == Raised)
                            && !(op.kind == Closing && !op.how.Worked?)
    {
      NoLeakIff(client.operations);
    }

    /** The state holds, for every register, the latest value and the failure of the latest try. */
    lemma StateIsLatest(k: string)
      requires Valid()
      ensures k in state.values <==> exists i: nat :: LatestValue(polls, k, i)
      ensures forall i: nat :: LatestValue(polls, k, i) ==> state.values[k] == polls[i].values[k]
      ensures k in state.failures <==> exists i: nat :: LatestTry(polls, k, i) && k in polls[i].failures
      ensures forall i: nat :: LatestTry(polls, k, i) && k in polls[i].failures ==>
                                 state.failures[k] == polls[i].failures[k]
    {
      MergedValues(polls, k);
      MergedFailures(polls, k);
    }

    /**
     If every read reply the client ever queued was honest, every value that is not failing is
     the conversion of its register's true memory, whatever was lost, late, repeated or reordered.
     */
    lemma StateIsTrue(reg: Register)
      requires Valid() && UniqueKeys(client.table) && client.HonestTraffic()
      requires reg in client.table && reg.key in state.values && reg.key !in state.failures
      ensures reg.convert(Slice(client.memory, reg.board, reg.index, reg.length)) == Some(state.values[reg.key])
    {
      RunIsCoherent(client.table, polls);
      assert CoherentKey(reg, state.Snap());
      FromHexToHex(Slice(client.memory, reg.board, reg.index, reg.length), true);
    }

    /** Reports alternate, and both flags say what the ends of the polls so far call for. */
    lemma StandingIsEarned()
      requires Valid()
      ensures Alternate(reports)
      ensures lastPollSuccessful == if results == [] then successfulAtStart else results[|results| - 1].Success?
      ensures pairingRequired <==> exists i: nat :: i < |results| && results[i] == Failure(PairingRequired)
                                                    && forall j :: i < j < |results| ==> results[j].Failure?
    {
      ReportsAlternate(successfulAtStart, results);
      PairingFlag(successfulAtStart, results);
      if pairingRequired {
        var i: nat :| PairingSince(results, i);
        assert results[i] == Failure(PairingRequired);
      }
      forall i: nat | i < |results| && results[i] == Failure(PairingRequired)
                      && forall j :: i < j < |results| ==> results[j].Failure?
        ensures PairingSince(results, i)
      {
      }
    }
  }
}
