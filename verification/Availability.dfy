/** What the coordinator reports about a scooter over a run of polls. */
module Availability {
  import opened Errors
  import opened Wrappers

  datatype PollOutcome = Polled | NeedsPairing | Unavailable | Crashed

  datatype Report = WentDown(why: PollOutcome) | BackOnline

  datatype Standing = Standing(pairingRequired: bool, lastPollSuccessful: bool, reports: seq<Report>)

  /** How the coordinator classes the end of a poll. */
  function OutcomeOf(r: Result<(), Error>): PollOutcome {
    match r
    case Success(_) => Polled
    case Failure(e) => if e == PairingRequired then NeedsPairing else if IsNinebot(e) then Unavailable else Crashed
  }

  function Observe(s: Standing, r: Result<(), Error>): Standing {
    var o := OutcomeOf(r);
    Standing(
      if o == Polled then false else if o == NeedsPairing then true else s.pairingRequired,
      o == Polled,
      if o == Polled && !s.lastPollSuccessful then s.reports + [BackOnline]
      else if o != Polled && s.lastPollSuccessful then s.reports + [WentDown(o)]
      else s.reports)
  }

  function ObserveAll(s: Standing, results: seq<Result<(), Error>>): Standing {
    if results == [] then s
    else Observe(ObserveAll(s, results[..|results| - 1]), results[|results| - 1])
  }

  /** Before any poll. */
  function Unpolled(successful: bool): Standing {
    Standing(false, successful, [])
  }

  /** Poll `i` ended for want of pairing and no poll has succeeded since. */
  ghost predicate PairingSince(results: seq<Result<(), Error>>, i: nat) {
    && i < |results| && results[i] == Failure(PairingRequired)
    && forall j :: i < j < |results| ==> results[j].Failure?
  }

  ghost predicate PairingPending(results: seq<Result<(), Error>>) {
    exists i: nat :: PairingSince(results, i)
  }

  /** Two neighbouring reports are never of the same kind. */
  ghost predicate Alternate(reports: seq<Report>) {
    forall i :: 0 <= i < |reports| - 1 ==> (reports[i].BackOnline? <==> reports[i + 1].WentDown?)
  }

  lemma {:induction false} PairingFlag(successful: bool, results: seq<Result<(), Error>>)
    ensures ObserveAll(Unpolled(successful), results).pairingRequired <==> PairingPending(results)
    decreases |results|
  {
    if results != [] {
      var n := |results| - 1;
      var init := results[..n];
      PairingFlag(successful, init);
      if results[n] == Failure(PairingRequired) {
        assert PairingSince(results, n);
      } else if results[n].Failure? {
        assert forall i: nat :: PairingSince(init, i) <==> PairingSince(results, i);
      }
    }
  }

  /** Which report a poll adds: none when nothing is new, and otherwise one that tells its error. */
  function NewReport(successful: bool, r: Result<(), Error>): seq<Report> {
    match r
    case Success(_) => if successful then [] else [BackOnline]
    case Failure(e) =>
      if !successful then []
      else
        match e
        case PairingRequired => [WentDown(NeedsPairing)]
        case Other => [WentDown(Crashed)]
        case Connection => [WentDown(Unavailable)]
        case Timeout => [WentDown(Unavailable)]
        case Auth => [WentDown(Unavailable)]
        case Protocol => [WentDown(Unavailable)]
  }

  lemma ReportAdded(s: Standing, r: Result<(), Error>)
    ensures Observe(s, r).reports == s.reports + NewReport(s.lastPollSuccessful, r)
    ensures Observe(s, r).lastPollSuccessful == r.Success?
    ensures Observe(s, r).pairingRequired
            == if r.Success? then false else s.pairingRequired || r.error == PairingRequired
  {
  }

  /** Reports alternate, and the latest one tells the present standing. */
  lemma {:induction false} ReportsAlternate(successful: bool, results: seq<Result<(), Error>>)
    ensures var s := ObserveAll(Unpolled(successful), results);
            && Alternate(s.reports)
            && s.lastPollSuccessful == (if results == [] then successful else results[|results| - 1].Success?)
            && (s.reports == [] ==> s.lastPollSuccessful == successful)
            && (s.reports != [] ==>
                  && (s.reports[|s.reports| - 1].BackOnline? <==> s.lastPollSuccessful)
                  && (s.reports[0].WentDown? <==> successful))
    decreases |results|
  {
    if results != [] {
      ReportsAlternate(successful, results[..|results| - 1]);
    }
  }
}
