/**
 How long a batch is held. What comes from outside is given; the two timers of the wait are set, put
 back and fire as the code has them, so when the wait ends, and with what, is computed.
 */
module QueueHolding {
  import opened Base
  import opened Queue
  import opened QueueMeaning

  predicate IsTimer(e: Event) { e.Quiet? || e.Cap? }

  /** The end of the input, or of the context. */
  predicate EndsWait(e: Event) { e.Closed? || e.Cancelled? }

  /** Whether an event starts the quiet window over. */
  predicate Resets(e: Event) { e.Arrival? || e.Notified? }

  predicate FromOutside(events: seq<Timed>) { forall i | 0 <= i < |events| :: !IsTimer(events[i].event) }

  /** The clock does not go back. */
  predicate Ordered(now: int, events: seq<Timed>)
    decreases |events|
  {
    events == [] || (now <= events[0].at && Ordered(events[0].at, events[1..]))
  }

  /** When the first of the two timers goes off. */
  function Due(since: int, window: int, cap: int): int {
    if since + window <= cap then since + window else cap
  }

  /** When the quiet window began, after some events. */
  function LastReset(since: int, events: seq<Timed>): int
    decreases |events|
  {
    if events == [] then since else LastReset(if Resets(events[0].event) then events[0].at else since, events[1..])
  }

  /** A trace that the wait can receive: what comes from outside while no timer is due, and then the
      timer that is. Of two things at one instant either may come first. */
  ghost predicate Receives(since: int, window: int, cap: int, outside: seq<Timed>, trace: seq<Timed>)
    decreases |trace|
  {
    trace != [] &&
    (var e := trace[0];
     e.at <= Due(since, window, cap) &&
     if IsTimer(e.event) then
       |trace| == 1 && e.at == (if e.event.Quiet? then since + window else cap)
       && (outside != [] ==> e.at <= outside[0].at)
     else
       outside != [] && outside[0] == e
       && if EndsWait(e.event) then |trace| == 1
          else Receives(if Resets(e.event) then e.at else since, window, cap, outside[1..], trace[1..]))
  }

  /** Whatever comes from outside, the wait receives something. */
  lemma {:induction false} SomethingIsReceived(since: int, window: int, cap: int, outside: seq<Timed>)
    returns (trace: seq<Timed>)
    requires FromOutside(outside)
    ensures Receives(since, window, cap, outside, trace)
    decreases |outside|
  {
    var due := Due(since, window, cap);
    if outside == [] || due <= outside[0].at {
      trace := [Timed(due, if since + window <= cap then Quiet else Cap)];
    } else {
      var e := outside[0];
      trace := [e];
      if !EndsWait(e.event) {
        var rest := SomethingIsReceived(if Resets(e.event) then e.at else since, window, cap, outside[1..]);
        trace := trace + rest;
        assert trace[1..] == rest;
      }
    }
  }

  /** The queue after an event's push, and after some events'. */
  function Taken(s: State, e: Event): State {
    match e
    case Arrival(m, w) => Push(s, m, w)
    case PushedElsewhere(m, w) => Push(s, m, w)
    case _ => s
  }

  function Arrived(s: State, events: seq<Timed>): State
    decreases |events|
  {
    if events == [] then s else Arrived(Taken(s, events[0].event), events[1..])
  }

  /** The outcome of a wait that a trace's last event ends, after the others have been handled. */
  function Ending(s: State, channel: string, last: Timed, works: bool): (Outcome, State) {
    match last.event
    case Closed => (InputClosed, s)
    case Cancelled => (ContextDone, s)
    case _ =>
      match Coalesce(s, channel, works)
      case (Some(m), after) => (Delivered(m, last.at), after)
      case (None, after) => (NothingBatchable, after)
  }

  lemma WaitsOn(s: State, channel: string, trace: seq<Timed>, works: bool)
    requires trace != [] && !IsTimer(trace[0].event) && !EndsWait(trace[0].event)
    ensures Debounce(s, channel, trace, works) == Debounce(Taken(s, trace[0].event), channel, trace[1..], works)
  {
    hide Coalesce, Push;
  }

  lemma WaitEnds(s: State, channel: string, last: Timed, works: bool)
    requires IsTimer(last.event) || EndsWait(last.event)
    ensures Debounce(s, channel, [last], works) == Ending(s, channel, last, works)
  {
    hide Coalesce;
  }

  /** How a trace ends: with the timer that is due, or with what ends the wait before. */
  ghost predicate EndsRight(since: int, window: int, cap: int, outside: seq<Timed>, last: Timed, k: nat)
    requires k <= |outside|
  {
    var due := Due(LastReset(since, outside[..k]), window, cap);
    if IsTimer(last.event) then last.at == due && (k < |outside| ==> due <= outside[k].at)
    else k < |outside| && outside[k] == last && EndsWait(last.event) && last.at <= due
  }

  /** The wait handles a first part of what comes from outside, and then the event that ends it. */
  lemma {:induction false} Handles(s: State, channel: string, since: int, window: int, cap: int,
                                   outside: seq<Timed>, trace: seq<Timed>, works: bool) returns (k: nat)
    requires Receives(since, window, cap, outside, trace) && FromOutside(outside)
    ensures k <= |outside| && |trace| == k + 1
    ensures forall i | 0 <= i < k :: !EndsWait(outside[i].event)
    ensures EndsRight(since, window, cap, outside, trace[k], k)
    ensures Debounce(s, channel, trace, works) == Ending(Arrived(s, outside[..k]), channel, trace[k], works)
    decreases |trace|
  {
    hide Debounce, Ending, Taken;
    var e := trace[0];
    if IsTimer(e.event) || EndsWait(e.event) {
      k := 0;
      assert outside[..0] == [] && trace == [e];
      WaitEnds(s, channel, e, works);
    } else {
      var since' := if Resets(e.event) then e.at else since;
      var s' := Taken(s, e.event);
      WaitsOn(s, channel, trace, works);
      k := Handles(s', channel, since', window, cap, outside[1..], trace[1..], works);
      assert outside[..k + 1][1..] == outside[1..][..k] && outside[..k + 1][0] == e;
      forall i | 0 <= i < k + 1 ensures !EndsWait(outside[i].event) {
        if i > 0 { assert outside[1..][i - 1] == outside[i]; }
      }
      k := k + 1;
    }
  }

  lemma {:induction false} ArrivedGrows(s: State, events: seq<Timed>)
    ensures s.messages <= Arrived(s, events).messages
    decreases |events|
  {
    if events != [] { ArrivedGrows(Taken(s, events[0].event), events[1..]); }
  }

  lemma {:induction false} ResetLater(since: int, events: seq<Timed>, k: nat)
    requires Ordered(since, events) && k <= |events|
    ensures since <= LastReset(since, events[..k])
    decreases k
  {
    if k > 0 {
      var since' := if Resets(events[0].event) then events[0].at else since;
      assert events[..k][1..] == events[1..][..k - 1];
      OrderedFrom(since', events[0].at, events[1..]);
      ResetLater(since', events[1..], k - 1);
    }
  }

  lemma OrderedFrom(early: int, now: int, events: seq<Timed>)
    requires early <= now && Ordered(now, events)
    ensures Ordered(early, events)
  {}

  /** On a clock that does not go back, what is handled came no later than what ends the wait. */
  lemma {:induction false} HandledInTime(since: int, window: int, cap: int, outside: seq<Timed>, trace: seq<Timed>,
                                         k: nat)
    requires Receives(since, window, cap, outside, trace) && FromOutside(outside) && Ordered(since, outside)
    requires k <= |outside| && |trace| == k + 1
    requires forall i | 0 <= i < k :: !EndsWait(outside[i].event)
    ensures forall i | 0 <= i < k :: outside[i].at <= Due(LastReset(since, outside[..k]), window, cap)
    decreases k
  {
    var e := trace[0];
    if k > 0 {
      var since' := if Resets(e.event) then e.at else since;
      ResetLater(since, outside, k);
      OrderedFrom(since', e.at, outside[1..]);
      HandledInTime(since', window, cap, outside[1..], trace[1..], k - 1);
      assert outside[..k][1..] == outside[1..][..k - 1];
      forall i | 0 <= i < k ensures outside[i].at <= Due(LastReset(since, outside[..k]), window, cap) {
        if i > 0 { assert outside[1..][i - 1] == outside[i]; }
      }
    }
  }

  lemma BatchGrows(s: State, channel: string, events: seq<Timed>)
    requires Batch(s.messages, channel) != []
    ensures Batch(Arrived(s, events).messages, channel) != []
  {
    var q, all := s.messages, Arrived(s, events).messages;
    ArrivedGrows(s, events);
    var taken, left := BatchIsStablePartition(q, channel);
    assert InBatch(channel, q[taken[0]]) && all[taken[0]] == q[taken[0]];
    BatchOf(all, channel);
  }

  /** Where a wait entered at an instant with something to deliver ends. It handles, in order, what
      comes from outside before its first timer goes off, the quiet one a window after the last
      reset and the cap five seconds after entry. Unless the input or the context ends before, the
      batch is then delivered, at that very instant: never later than the cap, and with all that
      came before. */
  lemma BatchIsDeliveredWhenDue(s: State, channel: string, entry: int, window: int, outside: seq<Timed>,
                                trace: seq<Timed>, works: bool) returns (k: nat)
    requires Batch(s.messages, channel) != [] && 0 <= window
    requires FromOutside(outside) && Ordered(entry, outside)
    requires Receives(entry, window, entry + 5000, outside, trace)
    ensures k <= |outside|
    ensures var due := Due(LastReset(entry, outside[..k]), window, entry + 5000);
            var held := Arrived(s, outside[..k]);
            var (o, after) := Debounce(s, channel, trace, works);
            && (forall i | 0 <= i < k :: !EndsWait(outside[i].event) && outside[i].at <= due)
            && due <= entry + 5000
            && if o.Delivered?
               then o.at == due && (Some(o.message), after) == Coalesce(held, channel, works)
                    && (k < |outside| ==> due <= outside[k].at)
               else k < |outside| && outside[k].at <= due && EndsWait(outside[k].event) && after == held
                    && o == if outside[k].event.Closed? then InputClosed else ContextDone
  {
    hide Debounce, Coalesce, Batch, Receives;
    var cap := entry + 5000;
    k := Handles(s, channel, entry, window, cap, outside, trace, works);
    HandledInTime(entry, window, cap, outside, trace, k);
    BatchGrows(s, channel, outside[..k]);
    DeliversSome(Arrived(s, outside[..k]), channel, works);
  }

  lemma DeliversSome(s: State, channel: string, works: bool)
    requires Batch(s.messages, channel) != []
    ensures Coalesce(s, channel, works).0.Some?
  {}

  /** So Next, when what it selects can be batched and neither input nor context ends, always
      delivers, within five seconds. */
  lemma NextDeliversInTime(s: State, entry: int, window: int, rounds: seq<Round>, outside: seq<Timed>,
                           trace: seq<Timed>, works: bool) returns (k: nat)
    requires 0 < window && rounds != [] && PeekBatchable(rounds[0].gate, s.messages).Some?
    requires FromOutside(outside) && Ordered(entry, outside)
    requires forall i | 0 <= i < |outside| :: !EndsWait(outside[i].event)
    requires Receives(entry, window, entry + 5000, outside, trace)
    ensures k <= |outside|
    ensures var o := Next(s, window, rounds, trace, works).0;
            var due := Due(LastReset(entry, outside[..k]), window, entry + 5000);
            o.Delivered? && o.at == due && entry <= due <= entry + 5000
  {
    hide Debounce, Receives, Batch;
    var g := rounds[0].gate;
    SelectionIsByClass(g, s.messages);
    var channel := PeekBatchable(g, s.messages).value;
    BatchOf(s.messages, channel);
    k := BatchIsDeliveredWhenDue(s, channel, entry, window, outside, trace, works);
    ResetLater(entry, outside, k);
  }
}
