/**
 The queue over whole runs: any sequence of pushes, deliveries, marker changes, reloads and
 restarts, each write and each read of the disk working or failing. An acknowledged message is
 one whose Push returned nil.
 */
module QueueRuns {
  import opened Base
  import opened Queue
  import opened QueueMeaning

  datatype Step =
    | PushStep(m: Message, works: bool)
    | DequeueStep(gate: Gate, works: bool)
    | CoalesceStep(channel: string, works: bool)
    | MarkStep(channel: string, works: bool)
    | Reload(works: bool)  // the next agent iteration of the same process
    | Restart(works: bool) // a new process

  datatype World = World(queue: State, pushed: multiset<Message>,
    acknowledged: multiset<Message>, delivered: multiset<Message>)

  const FRESH := World(START, multiset{}, multiset{}, multiset{})

  function Do(w: World, step: Step): World {
    match step
    case PushStep(m, works) =>
      w.(queue := Push(w.queue, m, works), pushed := w.pushed + multiset{m},
         acknowledged := if works then w.acknowledged + multiset{m} else w.acknowledged)
    case DequeueStep(g, works) =>
      var (m, after) := TryDequeue(w.queue, g, works);
      w.(queue := after, delivered := if m.Some? then w.delivered + multiset{m.value} else w.delivered)
    case CoalesceStep(channel, works) =>
      w.(queue := Coalesce(w.queue, channel, works).1,
         delivered := w.delivered + multiset(Batch(w.queue.messages, channel)))
    case MarkStep(channel, works) => w.(queue := SetInterrupted(w.queue, channel, works))
    case Reload(works) => w.(queue := Load(w.queue, works))
    case Restart(works) => w.(queue := Load(START.(disk := w.queue.disk), works))
  }

  function Run(w: World, steps: seq<Step>): World
    decreases |steps|
  {
    if steps == [] then w else Run(Do(w, steps[0]), steps[1..])
  }

  // ---- One step -------------------------------------------------------------------------------

  predicate IsDelivery(step: Step) { step.DequeueStep? || step.CoalesceStep? }

  /** A delivery removes from memory exactly the messages it delivers, and writes that down or not;
      one that delivers nothing changes nothing. */
  ghost predicate Moves(w: World, after: World, works: bool) {
    && after.pushed == w.pushed && after.acknowledged == w.acknowledged && w.delivered <= after.delivered
    && after.delivered + multiset(after.queue.messages) == w.delivered + multiset(w.queue.messages)
    && (after.delivered == w.delivered ==> after == w)
    && (after.delivered != w.delivered ==>
          after.queue.disk == if works then Some(Saved(after.queue.messages, after.queue.interrupted))
                              else w.queue.disk)
  }

  lemma DequeueMoves(w: World, g: Gate, works: bool)
    ensures Moves(w, Do(w, DequeueStep(g, works)), works)
  {
    hide FirstOfRank;
    var q := w.queue.messages;
    SelectionIsByClass(g, q);
    if NextIndex(g, q).Some? {
      var i := NextIndex(g, q).value;
      Split(q, i);
      assert multiset(q) == multiset(Without(q, i)) + multiset{q[i]};
      assert Do(w, DequeueStep(g, works)).delivered[q[i]] == w.delivered[q[i]] + 1;
    }
  }

  lemma CoalesceMoves(w: World, channel: string, works: bool)
    ensures Moves(w, Do(w, CoalesceStep(channel, works)), works)
  {
    hide Batch, Kept;
    var q := w.queue.messages;
    var batch := Batch(q, channel);
    BatchKeepsCount(q, channel);
    if batch != [] {
      assert batch[0] in multiset(batch);
      assert Do(w, CoalesceStep(channel, works)).delivered[batch[0]] > w.delivered[batch[0]];
    }
  }

  lemma DeliveryMoves(w: World, step: Step)
    requires IsDelivery(step)
    ensures Moves(w, Do(w, step), step.works)
  {
    match step
    case DequeueStep(g, works) => DequeueMoves(w, g, works);
    case CoalesceStep(channel, works) => CoalesceMoves(w, channel, works);
  }

  /** Acknowledged messages are in memory or delivered, and on disk or delivered. */
  ghost predicate Safe(w: World) {
    && w.acknowledged <= w.delivered + multiset(w.queue.messages)
    && (w.queue.disk.Some? ==> w.acknowledged <= w.delivered + multiset(w.queue.disk.value.messages))
    && (w.queue.disk.None? ==> w.acknowledged == multiset{})
  }

  /** A restart that cannot read the disk while something acknowledged is undelivered. */
  predicate LosesAt(w: World, step: Step) {
    step.Restart? && !step.works && !(w.acknowledged <= w.delivered)
  }

  /** That is the only step that loses anything acknowledged. */
  lemma StepSafeExactly(w: World, step: Step)
    requires Safe(w)
    ensures Safe(Do(w, step)) <==> !LosesAt(w, step)
  {
    match step
    case PushStep(m, works) => assert multiset(w.queue.messages + [m]) == multiset(w.queue.messages) + multiset{m};
    case DequeueStep(_, _) => DeliveryMoves(w, step);
    case CoalesceStep(_, _) => DeliveryMoves(w, step);
    case _ =>
  }

  /** Nothing is delivered that was not pushed, nor more often. */
  ghost predicate Counted(w: World) {
    && w.delivered + multiset(w.queue.messages) <= w.pushed
    && (w.queue.disk.Some? ==> w.delivered + multiset(w.queue.disk.value.messages) <= w.pushed)
    && w.delivered <= w.pushed
  }

  /** A delivery of something that is not written down. */
  ghost predicate RepeatsAt(w: World, step: Step) {
    IsDelivery(step) && !step.works && Do(w, step).delivered != w.delivered
  }

  lemma StepKeepsCounted(w: World, step: Step)
    requires Counted(w) && !RepeatsAt(w, step)
    ensures Counted(Do(w, step))
  {
    match step
    case PushStep(m, works) => assert multiset(w.queue.messages + [m]) == multiset(w.queue.messages) + multiset{m};
    case DequeueStep(_, _) => DeliveryMoves(w, step);
    case CoalesceStep(_, _) => DeliveryMoves(w, step);
    case _ =>
  }

  /** All that was pushed is delivered or in memory, and the disk holds the memory's messages. */
  ghost predicate Settled(w: World) {
    && w.delivered + multiset(w.queue.messages) == w.pushed
    && (w.queue.disk.Some? ==> w.queue.disk.value.messages == w.queue.messages)
    && (w.queue.disk.None? ==> w.queue.messages == [])
  }

  lemma StepKeepsSettled(w: World, step: Step)
    requires Settled(w) && !RepeatsAt(w, step) && (step.PushStep? || step.Restart? ==> step.works)
    ensures Settled(Do(w, step))
  {
    match step
    case PushStep(m, works) => assert multiset(w.queue.messages + [m]) == multiset(w.queue.messages) + multiset{m};
    case DequeueStep(_, _) => DeliveryMoves(w, step);
    case CoalesceStep(_, _) => DeliveryMoves(w, step);
    case _ =>
  }

  /** While memory and disk agree, only such a delivery puts more in the books than was pushed. */
  lemma StepCountedExactly(w: World, step: Step)
    requires Counted(w) && Settled(w) && (step.PushStep? || step.Restart? ==> step.works)
    ensures Counted(Do(w, step)) <==> !RepeatsAt(w, step)
  {
    if RepeatsAt(w, step) {
      var after := Do(w, step);
      DeliveryMoves(w, step);
      assert after.queue.disk == w.queue.disk && w.queue.messages != [];
      var m :| after.delivered[m] > w.delivered[m];
      assert after.delivered[m] + multiset(w.queue.messages)[m] > w.pushed[m];
    } else if IsDelivery(step) {
      DeliveryMoves(w, step);
    } else {
      StepKeepsCounted(w, step);
    }
  }

  // ---- Runs -----------------------------------------------------------------------------------

  /** Every restart reads the disk successfully. */
  predicate RestartsRead(steps: seq<Step>) { forall i | 0 <= i < |steps| && steps[i].Restart? :: steps[i].works }

  /** Every delivery is written down. */
  predicate DeliveriesWritten(steps: seq<Step>) {
    forall i | 0 <= i < |steps| && IsDelivery(steps[i]) :: steps[i].works
  }

  predicate PushesWritten(steps: seq<Step>) { forall i | 0 <= i < |steps| && steps[i].PushStep? :: steps[i].works }

  /** The world after the first steps of a run. */
  function After(steps: seq<Step>, i: nat): World
    requires i <= |steps|
  {
    Run(FRESH, steps[..i])
  }

  lemma {:induction false} RunSnoc(w: World, steps: seq<Step>, step: Step)
    ensures Run(w, steps + [step]) == Do(Run(w, steps), step)
    decreases |steps|
  {
    hide Do;
    if steps == [] {
      assert steps + [step] == [step] && [step][1..] == [];
    } else {
      assert (steps + [step])[1..] == steps[1..] + [step];
      RunSnoc(Do(w, steps[0]), steps[1..], step);
    }
  }

  lemma AfterStep(steps: seq<Step>, i: nat)
    requires i < |steps|
    ensures After(steps, i + 1) == Do(After(steps, i), steps[i])
  {
    hide Do, Run;
    assert steps[..i + 1] == steps[..i] + [steps[i]];
    RunSnoc(FRESH, steps[..i], steps[i]);
  }

  lemma {:induction false} SafeUpTo(steps: seq<Step>, i: nat)
    requires i <= |steps| && forall j | 0 <= j < i :: !LosesAt(After(steps, j), steps[j])
    ensures Safe(After(steps, i))
    decreases i
  {
    hide Do, LosesAt, Run;
    if i == 0 {
      StartsSafe(steps);
    } else {
      SafeUpTo(steps, i - 1);
      AfterStep(steps, i - 1);
      StepSafeExactly(After(steps, i - 1), steps[i - 1]);
    }
  }

  lemma StartsSafe(steps: seq<Step>)
    ensures After(steps, 0) == FRESH && Safe(FRESH) && Counted(FRESH) && Settled(FRESH)
  {
    assert steps[..0] == [];
  }

  /** At least once, exactly: in every state of a run each acknowledged message has been delivered,
      or is both in memory and on disk so that no crash loses it, if and only if every restart whose
      read fails comes when all that was acknowledged has been delivered. */
  lemma AlwaysSafeExactly(steps: seq<Step>)
    ensures (forall i | 0 <= i <= |steps| :: Safe(After(steps, i)))
        <==> forall i | 0 <= i < |steps| :: !LosesAt(After(steps, i), steps[i])
  {
    hide Do, LosesAt, Safe, Run;
    if forall i | 0 <= i < |steps| :: !LosesAt(After(steps, i), steps[i]) {
      forall i | 0 <= i <= |steps| ensures Safe(After(steps, i)) { SafeUpTo(steps, i); }
    }
    if forall i | 0 <= i <= |steps| :: Safe(After(steps, i)) {
      forall i | 0 <= i < |steps| ensures !LosesAt(After(steps, i), steps[i]) {
        assert Safe(After(steps, i)) && Safe(After(steps, i + 1));
        AfterStep(steps, i);
        StepSafeExactly(After(steps, i), steps[i]);
      }
    }
  }

  /** So whatever writes fail, a run whose restarts read the disk loses nothing acknowledged. */
  lemma AtLeastOnce(steps: seq<Step>)
    requires RestartsRead(steps)
    ensures forall i | 0 <= i <= |steps| :: Safe(After(steps, i))
    ensures Safe(Run(FRESH, steps))
  {
    hide Safe, Run, Do;
    AlwaysSafeExactly(steps);
    assert steps[..|steps|] == steps;
    assert Safe(After(steps, |steps|));
  }

  lemma {:induction false} CountedUpTo(steps: seq<Step>, i: nat)
    requires i <= |steps| && forall j | 0 <= j < i :: !RepeatsAt(After(steps, j), steps[j])
    ensures Counted(After(steps, i))
    decreases i
  {
    hide Do, RepeatsAt, Run, Counted;
    if i == 0 {
      StartsSafe(steps);
    } else {
      CountedUpTo(steps, i - 1);
      AfterStep(steps, i - 1);
      StepKeepsCounted(After(steps, i - 1), steps[i - 1]);
    }
  }

  lemma {:induction false} SettledUpTo(steps: seq<Step>, i: nat)
    requires PushesWritten(steps) && RestartsRead(steps) && i <= |steps|
    requires forall j | 0 <= j < i :: !RepeatsAt(After(steps, j), steps[j])
    ensures Settled(After(steps, i))
    decreases i
  {
    hide Do, RepeatsAt, Run, Settled;
    if i == 0 {
      StartsSafe(steps);
    } else {
      SettledUpTo(steps, i - 1);
      AfterStep(steps, i - 1);
      StepKeepsSettled(After(steps, i - 1), steps[i - 1]);
    }
  }

  lemma {:induction false} NoRepeatUpTo(steps: seq<Step>, i: nat)
    requires PushesWritten(steps) && RestartsRead(steps) && i <= |steps|
    requires forall j | 0 <= j <= |steps| :: Counted(After(steps, j))
    ensures forall j | 0 <= j < i :: !RepeatsAt(After(steps, j), steps[j])
    decreases i
  {
    hide Do, RepeatsAt, Run, Counted, Settled;
    if i > 0 {
      NoRepeatUpTo(steps, i - 1);
      SettledUpTo(steps, i - 1);
      AfterStep(steps, i - 1);
      assert Counted(After(steps, i));
      StepCountedExactly(After(steps, i - 1), steps[i - 1]);
    }
  }

  /** At most once, exactly: while every delivery of something is written down, what is delivered
      and what a crash would bring back never exceed what was pushed, whatever else fails; and in a
      run whose pushes are written and whose restarts read the disk, only then. */
  lemma AlwaysCountedExactly(steps: seq<Step>)
    ensures (forall i | 0 <= i < |steps| :: !RepeatsAt(After(steps, i), steps[i]))
            ==> forall i | 0 <= i <= |steps| :: Counted(After(steps, i))
    ensures PushesWritten(steps) && RestartsRead(steps)
            && (forall i | 0 <= i <= |steps| :: Counted(After(steps, i)))
            ==> forall i | 0 <= i < |steps| :: !RepeatsAt(After(steps, i), steps[i])
  {
    hide Do, RepeatsAt, Run, Counted;
    if forall i | 0 <= i < |steps| :: !RepeatsAt(After(steps, i), steps[i]) {
      forall i | 0 <= i <= |steps| ensures Counted(After(steps, i)) { CountedUpTo(steps, i); }
    }
    if PushesWritten(steps) && RestartsRead(steps) && forall i | 0 <= i <= |steps| :: Counted(After(steps, i)) {
      NoRepeatUpTo(steps, |steps|);
    }
  }

  lemma WrittenNeverRepeats(w: World, step: Step)
    requires IsDelivery(step) ==> step.works
    ensures !RepeatsAt(w, step)
  {}

  /** So when deliveries reach the disk no message is delivered more often than pushed. */
  lemma AtMostOnce(steps: seq<Step>)
    requires DeliveriesWritten(steps)
    ensures Run(FRESH, steps).delivered <= Run(FRESH, steps).pushed
  {
    hide Do, Run, RepeatsAt;
    forall j | 0 <= j < |steps| ensures !RepeatsAt(After(steps, j), steps[j]) {
      WrittenNeverRepeats(After(steps, j), steps[j]);
    }
    AlwaysCountedExactly(steps);
    assert steps[..|steps|] == steps && Counted(After(steps, |steps|));
  }

  /** Exactly once: with a working store every message pushed is delivered or still queued, and
      none both. */
  lemma ExactlyOnce(steps: seq<Step>)
    requires RestartsRead(steps) && DeliveriesWritten(steps) && PushesWritten(steps)
    ensures var w := Run(FRESH, steps); w.delivered + multiset(w.queue.messages) == w.pushed
  {
    hide Do, Run, RepeatsAt;
    forall j | 0 <= j < |steps| ensures !RepeatsAt(After(steps, j), steps[j]) {
      WrittenNeverRepeats(After(steps, j), steps[j]);
    }
    SettledUpTo(steps, |steps|);
    assert steps[..|steps|] == steps;
  }

  // ---- Where the guarantees end ---------------------------------------------------------------

  /** The same delivery, written down. */
  function Written(step: Step): Step {
    match step
    case DequeueStep(g, _) => DequeueStep(g, true)
    case CoalesceStep(channel, _) => CoalesceStep(channel, true)
    case _ => step
  }

  /** Whatever a delivery that is not written down delivers, a restart and the same delivery deliver
      again: the books then hold it once more than was pushed. */
  lemma UnwrittenDeliveryRepeats(w: World, step: Step)
    requires Settled(w) && RepeatsAt(w, step)
    ensures var once := Do(w, step);
            var twice := Do(Do(once, Restart(true)), Written(step));
            var again := once.delivered - w.delivered;
            && again != multiset{} && twice.delivered == (w.delivered + again) + again
            && twice.delivered + multiset(twice.queue.messages) == w.pushed + again
  {
    hide Do;
    var once := Do(w, step);
    DeliveryMoves(w, step);
    var again := once.delivered - w.delivered;
    assert once.delivered == w.delivered + again;
    RestartBringsBack(w, once);
    var back := Do(once, Restart(true));
    DeliveryMoves(back, Written(step));
    SameDelivery(w, back, step);
  }

  lemma RestartBringsBack(w: World, once: World)
    requires Settled(w) && once.queue.disk == w.queue.disk
    ensures var back := Do(once, Restart(true));
            back.queue.messages == w.queue.messages && back.delivered == once.delivered && back.pushed == once.pushed
  {}

  /** What is delivered depends on the messages in memory only. */
  lemma SameDelivery(w: World, v: World, step: Step)
    requires IsDelivery(step) && w.queue.messages == v.queue.messages
    ensures Do(v, Written(step)).delivered == v.delivered + (Do(w, step).delivered - w.delivered)
  {}

  lemma RunCons(w: World, step: Step, rest: seq<Step>)
    ensures Run(w, [step] + rest) == Run(Do(w, step), rest)
  {
    hide Do;
    assert ([step] + rest)[1..] == rest;
  }

  lemma RunThree(w: World, a: Step, b: Step, c: Step)
    ensures Run(w, [a, b, c]) == Do(Do(Do(w, a), b), c)
  {
    hide Do;
    RunCons(w, a, [b, c]);
    RunCons(Do(w, a), b, [c]);
    RunCons(Do(Do(w, a), b), c, []);
    assert [a, b, c] == [a] + [b, c] && [b, c] == [b] + [c] && [c] == [c] + [];
  }

  /** A restart that cannot read the queue goes on with an empty one, and its next write replaces
      what was acknowledged. */
  lemma FailedReadLoses(a: Message, b: Message)
    requires a != b
    ensures var w := Run(FRESH, [PushStep(a, true), Restart(false), PushStep(b, true)]);
            a in w.acknowledged && a !in w.delivered && a !in w.queue.messages && w.queue.disk == Some(Saved([b], ""))
  {
    RunThree(FRESH, PushStep(a, true), Restart(false), PushStep(b, true));
    assert [] + [b] == [b];
  }

  /** A delivery that is not written down happens again after a restart. */
  lemma FailedWriteRepeats(a: Message, g: Gate)
    requires IsUser(a)
    ensures var w := Do(Run(FRESH, [PushStep(a, true), DequeueStep(g, false), Restart(true)]), DequeueStep(g, true));
            w.pushed[a] == 1 && w.delivered[a] == 2
  {
    var w := Do(FRESH, PushStep(a, true));
    RunThree(FRESH, PushStep(a, true), DequeueStep(g, false), Restart(true));
    assert [] + [a] == [a] && NextIndex(g, [a]) == Some(0);
    assert Do(w, DequeueStep(g, false)).delivered == multiset{a};
    UnwrittenDeliveryRepeats(w, DequeueStep(g, false));
  }
}
