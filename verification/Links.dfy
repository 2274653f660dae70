/**
 What the outside world does during a run, and what becomes of the links the client opens: the
 operations on them, and which of them leave behind a link that is up and that nobody refers to.
 */
module Links {
  import opened Wrappers
  import opened Bytes

  /**
   How an awaited link operation ends: it works, raises one of the errors the client handles
   (BleakError, TimeoutError, OSError), or raises anything else. Opening a link also tells
   whether the write characteristic exists and the largest write it reports.
   */
  datatype Completion = Worked(characteristic: Option<nat>) | Refused | Raised

  datatype Event = Notify(data: Bytes) | Tick(seconds: nat) | LinkLost | Completed(how: Completion)

  /** `_client`: None, or a link object that is up or has dropped. */
  datatype Link = NoLink | Link(up: bool)

  function Dropped(link: Link, lost: bool): Link {
    if lost && link.Link? then Link(false) else link
  }

  /** How an operation begun before these events ends, whether the link is lost first, and what is still to come. */
  datatype Ended = Ended(how: Completion, lost: bool, rest: seq<Event>)

  function Ending(events: seq<Event>): (e: Ended)
    ensures |e.rest| <= |events|
  {
    if events == [] then Ended(Refused, false, [])
    else if events[0].Completed? then Ended(events[0].how, false, events[1..])
    else
      var later := Ending(events[1..]);
      later.(lost := later.lost || events[0].LinkLost?)
  }

  datatype Kind = Opening | Subscribing | Unsubscribing | Closing

  /**
   An operation on a link, how it ended, and whether the link was up then. For an opening that is
   the link the client still held from before.
   */
  datatype Operation = Operation(kind: Kind, how: Completion, up: bool)

  /**
   Operations after which the client no longer refers to a link that is up and will not tell it to
   close again: a subscription that is refused, an unsubscription that raises something foreign before
   the link is told to close, a closing that does not work, and an opening that takes the place of a
   link that is up.
   */
  predicate Leaks(op: Operation) {
    op.up
    && match op.kind
       case Opening => op.how != Raised
       case Subscribing => op.how == Refused
       case Unsubscribing => op.how == Raised
       case Closing => !op.how.Worked?
  }

  function LeakCount(ops: seq<Operation>): nat {
    if ops == [] then 0 else LeakCount(ops[..|ops| - 1]) + (if Leaks(ops[|ops| - 1]) then 1 else 0)
  }

  lemma LeakStep(ops: seq<Operation>, op: Operation)
    ensures LeakCount(ops + [op]) == LeakCount(ops) + (if Leaks(op) then 1 else 0)
  {
    assert (ops + [op])[..|ops|] == ops;
  }

  lemma {:induction false} LeakAppend(xs: seq<Operation>, ys: seq<Operation>)
    ensures LeakCount(xs + ys) == LeakCount(xs) + LeakCount(ys)
    decreases |ys|
  {
    if ys == [] {
      assert xs + ys == xs;
    } else {
      var n := |ys| - 1;
      assert xs + ys == (xs + ys[..n]) + [ys[n]] && ys == ys[..n] + [ys[n]];
      LeakStep(xs + ys[..n], ys[n]);
      LeakAppend(xs, ys[..n]);
    }
  }

  lemma {:induction false} NoLeakIff(ops: seq<Operation>)
    ensures LeakCount(ops) == 0 <==> forall i :: 0 <= i < |ops| ==> !Leaks(ops[i])
    decreases |ops|
  {
    if ops != [] {
      var n := |ops| - 1;
      NoLeakIff(ops[..n]);
      assert forall i :: 0 <= i < n ==> ops[..n][i] == ops[i];
    }
  }

  /** No link was opened while one from before was up. */
  ghost predicate NoneOver(ops: seq<Operation>) {
    forall i :: 0 <= i < |ops| && ops[i].kind == Opening ==> !ops[i].up
  }

  // ----- what the events make of each step -----

  /** Letting go of a link that is up or not. */
  function ClosingOps(up: bool, events: seq<Event>): seq<Operation> {
    if !up then []
    else
      var e := Ending(events);
      [Operation(Unsubscribing, e.how, !e.lost)]
      + if e.how == Raised then []
        else var last := Ending(e.rest); [Operation(Closing, last.how, !e.lost && !last.lost)]
  }

  /** Subscribing on a link, and letting go of it when it has no write characteristic. */
  function SubscribingOps(up: bool, characteristic: Option<nat>, events: seq<Event>): seq<Operation> {
    var e := Ending(events);
    [Operation(Subscribing, e.how, up && !e.lost)]
    + if e.how.Worked? && characteristic.None? then ClosingOps(up && !e.lost, e.rest) else []
  }

  /** Opening a link, with `held` telling whether one from before is up. */
  function OpeningOps(held: bool, events: seq<Event>): seq<Operation> {
    var e := Ending(events);
    [Operation(Opening, e.how, held && !e.lost)]
    + if e.how.Worked? then SubscribingOps(true, e.how.characteristic, e.rest) else []
  }

  lemma ClosingIsNotOver(before: seq<Operation>, up: bool, events: seq<Event>)
    ensures NoneOver(before) ==> NoneOver(before + ClosingOps(up, events))
  {
  }

  lemma OpeningIsNotOver(before: seq<Operation>, held: bool, events: seq<Event>)
    ensures !held && NoneOver(before) ==> NoneOver(before + OpeningOps(held, events))
  {
  }

  /**
   Letting go of a link that is up leaves it behind exactly when unsubscribing raises something foreign
   before the link drops, or unsubscribing ends otherwise and closing does not work, the link being up
   throughout.
   */
  predicate CloseFails(events: seq<Event>) {
    var stop := Ending(events);
    var close := Ending(stop.rest);
    && !stop.lost
    && (stop.how == Raised || (!close.how.Worked? && !close.lost))
  }

  lemma ClosingLeaksIff(up: bool, events: seq<Event>)
    ensures LeakCount(ClosingOps(up, events)) == if up && CloseFails(events) then 1 else 0
  {
    if up {
      var ops := ClosingOps(up, events);
      LeakAppend([ops[0]], ops[1..]);
      assert ops == [ops[0]] + ops[1..];
    }
  }

  /** Whether subscribing on a link that is up leaves it behind. */
  predicate SubscriptionFails(characteristic: Option<nat>, events: seq<Event>) {
    var e := Ending(events);
    && !e.lost
    && (e.how == Refused || (e.how.Worked? && characteristic.None? && CloseFails(e.rest)))
  }

  lemma SubscribingLeaksIff(up: bool, characteristic: Option<nat>, events: seq<Event>)
    ensures LeakCount(SubscribingOps(up, characteristic, events)) ==
              if up && SubscriptionFails(characteristic, events) then 1 else 0
  {
    var e := Ending(events);
    var ops := SubscribingOps(up, characteristic, events);
    ClosingLeaksIff(up && !e.lost, e.rest);
    LeakAppend([ops[0]], ops[1..]);
    assert ops == [ops[0]] + ops[1..];
  }

  /**
   With no link from before, opening one leaves at most one behind: exactly when it opens and, before
   it drops, the subscription is refused, or there is no write characteristic and closing it fails.
   */
  lemma {:induction false} OpeningLeaksIff(events: seq<Event>)
    ensures var open := Ending(events);
            LeakCount(OpeningOps(false, events)) ==
              if open.how.Worked? && SubscriptionFails(open.how.characteristic, open.rest) then 1 else 0
  {
    var ops := OpeningOps(false, events);
    var e := Ending(events);
    LeakAppend([ops[0]], ops[1..]);
    assert ops == [ops[0]] + ops[1..];
    if e.how.Worked? {
      SubscribingLeaksIff(true, e.how.characteristic, e.rest);
    }
  }

  /** A link that opens and whose subscription is refused at once is left behind, up. */
  lemma RefusedSubscriptionLeaks(events: seq<Event>)
    requires events == [Completed(Worked(Some(20))), Completed(Refused)]
    ensures LeakCount(OpeningOps(false, events)) == 1
  {
    assert events[1..] == [Completed(Refused)];
    SubscribingLeaksIff(true, Some(20), events[1..]);
    OpeningLeaksIff(events);
  }

  /** A link that is up and whose closing is refused is left behind, although unsubscribing worked. */
  lemma RefusedClosingLeaks(events: seq<Event>)
    requires events == [Completed(Worked(None)), Completed(Refused)]
    ensures LeakCount(ClosingOps(true, events)) == 1
  {
    assert events[1..] == [Completed(Refused)];
    ClosingLeaksIff(true, events);
  }
}
