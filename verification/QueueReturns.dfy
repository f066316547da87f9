/**
 What a queue hands out stands for what it took: a message as it is, or the texts of a batch, each in
 full. So what runs count as delivered is what Next's callers have been given.
 */
module QueueReturns {
  import opened Base
  import opened CommandBatches
  import opened Queue
  import opened QueueMeaning
  import opened QueueRuns
  import opened QueueNext

  // ---- One text from several ------------------------------------------------------------------

  /** A part stands in a text at an offset, in full. */
  predicate PartAt(text: string, part: string, a: nat) { a + |part| <= |text| && text[a..a + |part|] == part }

  /** A blank line does. */
  predicate BreakAt(text: string, a: nat) { a + 2 <= |text| && text[a] == '\n' && text[a + 1] == '\n' }

  /** The text is these parts, in order and each in full, at these offsets: a blank line between
      neighbours, and nothing else. */
  predicate PartsAt(text: string, parts: seq<string>, at: seq<nat>) {
    && |at| == |parts| && parts != [] && at[0] == 0
    && (forall k | 0 <= k < |parts| :: PartAt(text, parts[k], at[k]))
    && (forall k | 0 <= k < |parts| - 1 :: BreakAt(text, at[k] + |parts[k]|) && at[k + 1] == at[k] + |parts[k]| + 2)
    && at[|at| - 1] + |parts[|parts| - 1]| == |text|
  }

  lemma {:induction false} JoinedAt(texts: seq<string>) returns (at: seq<nat>)
    requires texts != []
    ensures PartsAt(Join(texts), texts, at)
    decreases |texts|
  {
    hide PartsAt;
    if |texts| == 1 {
      at := [0];
      OnePart(texts[0]);
      assert texts == [texts[0]];
    } else {
      var rest := JoinedAt(texts[1..]);
      at := JoinedOn(texts[0], texts[1..], Join(texts[1..]), rest);
      assert [texts[0]] + texts[1..] == texts;
    }
  }

  lemma OnePart(text: string)
    ensures PartsAt(text, [text], [0])
  {}

  /** The text behind the first part and its blank line. */
  lemma Shifted(first: string, text: string, part: string, a: nat)
    ensures PartAt(text, part, a) ==> PartAt(first + ("\n\n" + text), part, |first| + 2 + a)
    ensures BreakAt(text, a) ==> BreakAt(first + ("\n\n" + text), |first| + 2 + a)
  {
    var whole, d := first + ("\n\n" + text), |first| + 2;
    assert whole[d..] == text;
    if PartAt(text, part, a) { assert whole[d + a..d + a + |part|] == whole[d..][a..a + |part|]; }
    if BreakAt(text, a) { assert whole[d + a] == whole[d..][a] && whole[d + a + 1] == whole[d..][a + 1]; }
  }

  lemma JoinedOn(first: string, parts: seq<string>, text: string, rest: seq<nat>) returns (at: seq<nat>)
    requires PartsAt(text, parts, rest)
    ensures PartsAt(first + ("\n\n" + text), [first] + parts, at)
  {
    hide PartAt, BreakAt;
    var whole, all, d := first + ("\n\n" + text), [first] + parts, |first| + 2;
    at := [0] + seq(|rest|, i requires 0 <= i < |rest| => d + rest[i]);
    FirstPart(first, text);
    forall k | 0 <= k < |all| ensures PartAt(whole, all[k], at[k]) {
      if k > 0 { Shifted(first, text, parts[k - 1], rest[k - 1]); }
    }
    forall k | 0 <= k < |all| - 1 ensures BreakAt(whole, at[k] + |all[k]|) && at[k + 1] == at[k] + |all[k]| + 2 {
      if k > 0 { Shifted(first, text, "", rest[k - 1] + |parts[k - 1]|); }
    }
  }

  lemma FirstPart(first: string, text: string)
    ensures PartAt(first + ("\n\n" + text), first, 0) && BreakAt(first + ("\n\n" + text), |first|)
  {}

  // ---- One batch ------------------------------------------------------------------------------

  /** The message stands for these: on their channel, with the first one's source, and every text. */
  predicate StandsFor(m: Message, batch: seq<Message>, at: seq<nat>) {
    && batch != [] && (forall i | 0 <= i < |batch| :: batch[i].channel == m.channel) && m.source == batch[0].source
    && PartsAt(m.text, seq(|batch|, i requires 0 <= i < |batch| => batch[i].text), at)
  }

  lemma StandsForItself(m: Message)
    ensures StandsFor(m, [m], [0])
  {}

  /** What coalescing returns stands for the messages it takes, which are the batchable ones of the
      channel in the queue's order; it leaves the others, in order, and returns nothing only when
      there is nothing to take. */
  lemma CoalescedExactly(s: State, channel: string, works: bool)
    returns (taken: seq<nat>, left: seq<nat>, batch: seq<Message>, at: seq<nat>)
    ensures var (m, after) := Coalesce(s, channel, works);
            && Cover(s.messages, channel, taken, left)
            && Picks(s.messages, taken, batch) && Picks(s.messages, left, after.messages)
            && (m.None? <==> taken == [])
            && (m.Some? ==> m.value.channel == channel && StandsFor(m.value, batch, at))
            && batch == Batch(s.messages, channel)
  {
    hide Cover, Join;
    taken, left := BatchIsStablePartition(s.messages, channel);
    batch := Batch(s.messages, channel);
    at := [];
    BatchOf(s.messages, channel);
    if batch != [] {
      at := JoinedAt(Texts(batch));
    } else {
      NothingTaken(s.messages, channel, taken, left);
    }
  }

  lemma NothingTaken(q: seq<Message>, channel: string, taken: seq<nat>, left: seq<nat>)
    requires Batch(q, channel) == [] && Cover(q, channel, taken, left)
    requires Picks(q, taken, []) && Picks(q, left, Kept(q, channel))
    ensures taken == [] && Picks(q, left, q)
  {
    KeepsAll(q, channel);
  }

  lemma {:induction false} KeepsAll(q: seq<Message>, channel: string)
    requires Batch(q, channel) == []
    ensures Kept(q, channel) == q
    decreases |q|
  {
    if q != [] {
      LastSplits(q, channel);
      KeepsAll(q[..|q| - 1], channel);
    }
  }

  // ---- Runs -----------------------------------------------------------------------------------

  /** What a delivery counts as delivered, its caller has been given. */
  lemma DeliveryIsReturned(w: World, step: Step) returns (batch: seq<Message>, at: seq<nat>)
    ensures match Returned(w, step)
            case None => Do(w, step).delivered == w.delivered
            case Some(m) => StandsFor(m, batch, at) && Do(w, step).delivered == w.delivered + multiset(batch)
  {
    hide Batch, StandsFor, NextIndex;
    batch, at := [], [];
    match step
    case DequeueStep(g, works) =>
      var m := TryDequeue(w.queue, g, works).0;
      if m.Some? {
        batch, at := [m.value], [0];
        StandsForItself(m.value);
      }
    case CoalesceStep(channel, works) =>
      var taken, left;
      taken, left, batch, at := CoalescedExactly(w.queue, channel, works);
    case _ =>
  }

  /** The messages handed out over a run, in order. */
  function ReturnedOver(w: World, steps: seq<Step>): seq<Message>
    decreases |steps|
  {
    if steps == [] then []
    else
      (match Returned(w, steps[0]) case None => [] case Some(m) => [m]) + ReturnedOver(Do(w, steps[0]), steps[1..])
  }

  function Together(batches: seq<seq<Message>>): multiset<Message> {
    if batches == [] then multiset{} else multiset(batches[0]) + Together(batches[1..])
  }

  ghost predicate Stands(m: Message, batch: seq<Message>) { exists at :: StandsFor(m, batch, at) }

  ghost predicate AllStand(returned: seq<Message>, batches: seq<seq<Message>>) {
    |batches| == |returned| && forall i | 0 <= i < |returned| :: Stands(returned[i], batches[i])
  }

  /** Over any run the messages handed out stand, one by one, for what was delivered. */
  lemma {:induction false} DeliveredIsReturned(w: World, steps: seq<Step>) returns (batches: seq<seq<Message>>)
    ensures AllStand(ReturnedOver(w, steps), batches)
    ensures Run(w, steps).delivered == w.delivered + Together(batches)
    decreases |steps|
  {
    hide Do, StandsFor, Returned, Together, AllStand;
    if steps == [] {
      batches := [];
      NothingStands();
    } else {
      var batch, at := DeliveryIsReturned(w, steps[0]);
      var rest := DeliveredIsReturned(Do(w, steps[0]), steps[1..]);
      match Returned(w, steps[0]) {
        case None =>
          batches := rest;
          assert [] + ReturnedOver(Do(w, steps[0]), steps[1..]) == ReturnedOver(Do(w, steps[0]), steps[1..]);
        case Some(m) =>
          batches := [batch] + rest;
          assert Stands(m, batch);
          TogetherOn(batch, rest);
          StandOn(m, batch, ReturnedOver(Do(w, steps[0]), steps[1..]), rest);
      }
    }
  }

  lemma TogetherOn(batch: seq<Message>, batches: seq<seq<Message>>)
    ensures Together([batch] + batches) == multiset(batch) + Together(batches)
  {
    assert ([batch] + batches)[1..] == batches;
  }

  lemma NothingStands()
    ensures AllStand([], []) && Together([]) == multiset{}
  {}

  lemma StandOn(m: Message, batch: seq<Message>, returned: seq<Message>, batches: seq<seq<Message>>)
    requires Stands(m, batch) && AllStand(returned, batches)
    ensures AllStand([m] + returned, [batch] + batches)
  {}

  /** So when restarts read the disk, every message acknowledged is among those the messages handed
      out stand for, or is both in memory and on disk. */
  lemma AcknowledgedIsReturned(steps: seq<Step>) returns (batches: seq<seq<Message>>)
    requires RestartsRead(steps)
    ensures AllStand(ReturnedOver(FRESH, steps), batches)
    ensures var w := Run(FRESH, steps);
            && w.acknowledged <= Together(batches) + multiset(w.queue.messages)
            && (w.queue.disk.Some? ==> w.acknowledged <= Together(batches) + multiset(w.queue.disk.value.messages))
            && (w.queue.disk.None? ==> w.acknowledged == multiset{})
  {
    hide Do, Run, AllStand;
    batches := DeliveredIsReturned(FRESH, steps);
    AtLeastOnce(steps);
  }
}
