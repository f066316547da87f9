/**
 One call of Next as a run of queue steps: the pushes it makes or sees, then at most one delivery,
 of exactly what it returns. So the guarantees about runs are guarantees about Next.
 */
module QueueNext {
  import opened Base
  import opened Queue
  import opened QueueMeaning
  import opened QueueRuns

  predicate AllPushes(steps: seq<Step>) { forall i | 0 <= i < |steps| :: steps[i].PushStep? }

  /** What a delivery returns to Next's caller. */
  function Returned(w: World, step: Step): Option<Message> {
    match step
    case DequeueStep(g, works) => TryDequeue(w.queue, g, works).0
    case CoalesceStep(channel, works) => Coalesce(w.queue, channel, works).0
    case _ => None
  }

  /** The pushes a wait for a batch makes or sees: those of the events before the one that ends it,
      each with the outcome of its write. */
  function HeldPushes(events: seq<Timed>): (r: seq<Step>)
    ensures AllPushes(r)
    decreases |events|
  {
    if events == [] then []
    else match events[0].event
      case Arrival(m, ok) => [PushStep(m, ok)] + HeldPushes(events[1..])
      case PushedElsewhere(m, ok) => [PushStep(m, ok)] + HeldPushes(events[1..])
      case Notified => HeldPushes(events[1..])
      case _ => []
  }

  /** The pushes of a call of Next: one for each message on its input while nothing queued can go,
      and then, if what can go is held for its batch, those of that wait. */
  function PushesOf(q: seq<Message>, window: int, rounds: seq<Round>, events: seq<Timed>): (r: seq<Step>)
    ensures AllPushes(r)
    decreases |rounds|
  {
    if rounds == [] then []
    else match NextIndex(rounds[0].gate, q)
      case Some(i) => if i < |q| && window > 0 && IsBatchable(q[i]) then HeldPushes(events) else []
      case None =>
        match rounds[0].wake
        case Input(m, ok) => [PushStep(m, ok)] + PushesOf(q + [m], window, rounds[1..], events)
        case Woken => PushesOf(q, window, rounds[1..], events)
        case _ => []
  }

  /** Pushes and perhaps a delivery, written down or not, lead from a world to an outcome and the
      state after it. */
  ghost predicate LeadsTo(w: World, pushes: seq<Step>, last: Option<Step>, works: bool, o: Outcome, after: State) {
    && AllPushes(pushes)
    && match last
       case None => !o.Delivered? && Run(w, pushes).queue == after
       case Some(step) =>
         IsDelivery(step) && step.works == works && o.Delivered? && Returned(Run(w, pushes), step) == Some(o.message)
         && Do(Run(w, pushes), step).queue == after
  }

  lemma LeadsOn(w: World, m: Message, ok: bool, pushes: seq<Step>, last: Option<Step>, works: bool,
                o: Outcome, after: State)
    requires LeadsTo(Do(w, PushStep(m, ok)), pushes, last, works, o, after)
    ensures LeadsTo(w, [PushStep(m, ok)] + pushes, last, works, o, after)
  {
    hide Do, Run;
    RunCons(w, PushStep(m, ok), pushes);
  }

  lemma {:induction false} HeldBatchIsRun(w: World, channel: string, events: seq<Timed>, works: bool)
    returns (last: Option<Step>)
    ensures var (o, after) := Debounce(w.queue, channel, events, works);
            LeadsTo(w, HeldPushes(events), last, works, o, after)
    decreases |events|
  {
    hide Coalesce, LeadsTo;
    last := None;
    if events == [] {
      StandsStill(w, works, StillWaiting);
    } else {
      match events[0].event
      case Arrival(m, ok) =>
        last := HeldBatchIsRun(Do(w, PushStep(m, ok)), channel, events[1..], works);
        var (o, after) := Debounce(Push(w.queue, m, ok), channel, events[1..], works);
        LeadsOn(w, m, ok, HeldPushes(events[1..]), last, works, o, after);
      case PushedElsewhere(m, ok) =>
        last := HeldBatchIsRun(Do(w, PushStep(m, ok)), channel, events[1..], works);
        var (o, after) := Debounce(Push(w.queue, m, ok), channel, events[1..], works);
        LeadsOn(w, m, ok, HeldPushes(events[1..]), last, works, o, after);
      case Notified => last := HeldBatchIsRun(w, channel, events[1..], works);
      case Closed => StandsStill(w, works, InputClosed);
      case Cancelled => StandsStill(w, works, ContextDone);
      case _ =>
        last := CoalescesNow(w, channel, events[0].at, works);
    }
  }

  lemma StandsStill(w: World, works: bool, o: Outcome)
    requires !o.Delivered?
    ensures LeadsTo(w, [], None, works, o, w.queue)
  {}

  lemma CoalescesNow(w: World, channel: string, at: int, works: bool) returns (last: Option<Step>)
    ensures var (m, after) := Coalesce(w.queue, channel, works);
            LeadsTo(w, [], last, works, if m.Some? then Delivered(m.value, at) else NothingBatchable, after)
  {
    hide Batch, Kept;
    last := if Coalesce(w.queue, channel, works).0.Some? then Some(CoalesceStep(channel, works)) else None;
  }

  lemma DequeuesNow(w: World, g: Gate, works: bool)
    requires TryDequeue(w.queue, g, works).0.Some?
    ensures var (m, after) := TryDequeue(w.queue, g, works);
            LeadsTo(w, [], Some(DequeueStep(g, works)), works, Delivered(m.value, 0), after)
  {
    hide NextIndex;
  }

  lemma WhatGoes(s: State, g: Gate, works: bool)
    ensures match NextIndex(g, s.messages)
            case Some(i) =>
              i < |s.messages| && TryDequeue(s, g, works).0.Some?
              && (PeekBatchable(g, s.messages).Some? <==> IsBatchable(s.messages[i]))
            case None => TryDequeue(s, g, works).0.None? && PeekBatchable(g, s.messages).None?
  {
    hide IsBatchable;
    SelectionIsByClass(g, s.messages);
  }

  /** Every call of Next is the pushes it handled, in order and as written, and then at most one
      delivery, of the message it returns. */
  lemma {:induction false} NextIsRun(w: World, window: int, rounds: seq<Round>, events: seq<Timed>, works: bool)
    returns (last: Option<Step>)
    ensures var (o, after) := Next(w.queue, window, rounds, events, works);
            LeadsTo(w, PushesOf(w.queue.messages, window, rounds, events), last, works, o, after)
    decreases |rounds|
  {
    hide Debounce, TryDequeue, LeadsTo, PeekBatchable, IsBatchable;
    last := None;
    if rounds == [] {
      StandsStill(w, works, StillWaiting);
    } else {
      var g := rounds[0].gate;
      WhatGoes(w.queue, g, works);
      var peeked := if window > 0 then PeekBatchable(g, w.queue.messages) else None;
      if peeked.Some? {
        last := HeldBatchIsRun(w, peeked.value, events, works);
      } else if TryDequeue(w.queue, g, works).0.Some? {
        last := Some(DequeueStep(g, works));
        DequeuesNow(w, g, works);
      } else {
        match rounds[0].wake
        case Input(m, ok) =>
          last := NextIsRun(Do(w, PushStep(m, ok)), window, rounds[1..], events, works);
          var (o, after) := Next(Push(w.queue, m, ok), window, rounds[1..], events, works);
          LeadsOn(w, m, ok, PushesOf(w.queue.messages + [m], window, rounds[1..], events), last, works, o, after);
        case Woken => last := NextIsRun(w, window, rounds[1..], events, works);
        case InputEnded => StandsStill(w, works, InputClosed);
        case ContextEnded => StandsStill(w, works, ContextDone);
      }
    }
  }

  lemma {:induction false} PushesKeepSafe(w: World, steps: seq<Step>)
    requires Safe(w) && AllPushes(steps)
    ensures Safe(Run(w, steps))
    decreases |steps|
  {
    hide Do, Safe;
    if steps != [] {
      StepSafeExactly(w, steps[0]);
      PushesKeepSafe(Do(w, steps[0]), steps[1..]);
    }
  }

  function End(w: World, pushes: seq<Step>, last: Option<Step>): World {
    if last.None? then Run(w, pushes) else Do(Run(w, pushes), last.value)
  }

  /** So a call of Next loses nothing acknowledged, whatever fails: each acknowledged message, those
      it pushed included, has been returned or is both in memory and on disk. */
  lemma NextLosesNothing(w: World, window: int, rounds: seq<Round>, events: seq<Timed>, works: bool)
    returns (last: Option<Step>)
    requires Safe(w)
    ensures var (o, after) := Next(w.queue, window, rounds, events, works);
            var pushes := PushesOf(w.queue.messages, window, rounds, events);
            LeadsTo(w, pushes, last, works, o, after) && Safe(End(w, pushes, last))
  {
    hide Do, Run, Safe, Next, PushesOf;
    var pushes := PushesOf(w.queue.messages, window, rounds, events);
    last := NextIsRun(w, window, rounds, events, works);
    PushesKeepSafe(w, pushes);
    if last.Some? { StepSafeExactly(Run(w, pushes), last.value); }
  }

  // ---- How a wait ends ------------------------------------------------------------------------

  /** The queue once the message on a round's input has been pushed, and once those of several have. */
  function FedOne(s: State, wake: Wake): State {
    match wake
    case Input(m, ok) => Push(s, m, ok)
    case _ => s
  }

  function Fed(s: State, rounds: seq<Round>): State
    decreases |rounds|
  {
    if rounds == [] then s else Fed(FedOne(s, rounds[0].wake), rounds[1..])
  }

  /** For its first rounds Next finds nothing that can go, and is woken again. */
  predicate Waits(s: State, rounds: seq<Round>, k: nat)
    requires k <= |rounds|
    decreases k
  {
    k == 0 || (NextIndex(rounds[0].gate, s.messages).None? && (rounds[0].wake.Input? || rounds[0].wake.Woken?)
               && Waits(FedOne(s, rounds[0].wake), rounds[1..], k - 1))
  }

  /** While nothing can go Next pushes its input and waits on; it ends without a message exactly as
      its input or its context ends, the queue as it then is. */
  lemma {:induction false} WaitEndsExactly(s: State, window: int, rounds: seq<Round>, events: seq<Timed>,
                                           works: bool, k: nat)
    requires k < |rounds| && Waits(s, rounds, k)
    requires NextIndex(rounds[k].gate, Fed(s, rounds[..k]).messages).None?
    ensures var at := Fed(s, rounds[..k]);
            match rounds[k].wake
            case InputEnded => Next(s, window, rounds, events, works) == (InputClosed, at)
            case ContextEnded => Next(s, window, rounds, events, works) == (ContextDone, at)
            case Input(m, ok) =>
              Next(s, window, rounds, events, works) == Next(Push(at, m, ok), window, rounds[k + 1..], events, works)
            case Woken => Next(s, window, rounds, events, works) == Next(at, window, rounds[k + 1..], events, works)
    decreases k
  {
    hide Debounce, TryDequeue, PeekBatchable, IsBatchable;
    WhatGoes(s, rounds[0].gate, works);
    if k == 0 {
      assert rounds[..0] == [];
    } else {
      var rest := rounds[1..];
      assert rounds[..k][0] == rounds[0];
      assert rounds[..k][1..] == rest[..k - 1] && rounds[k + 1..] == rest[k..];
      WaitEndsExactly(FedOne(s, rounds[0].wake), window, rest, events, works, k - 1);
    }
  }
}
