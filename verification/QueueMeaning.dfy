/**
 What the queue's operations mean: selection by class, batches as a stable partition, and what
 Next may deliver.
 */
module QueueMeaning {
  import opened Base
  import opened Commands
  import opened CommandBatches
  import opened Queue

  // ---- Selection ------------------------------------------------------------------------------

  /** The best class present comes first and, within it, the oldest message; a message waiting for
      its channel never does. */
  ghost predicate IsNext(g: Gate, q: seq<Message>, i: nat) {
    i < |q| && Rank(g, q[i]) < 3
    && forall j | 0 <= j < |q| :: Rank(g, q[i]) < Rank(g, q[j]) || (Rank(g, q[i]) == Rank(g, q[j]) && i <= j)
  }

  lemma SelectionIsByClass(g: Gate, q: seq<Message>)
    ensures forall i: nat :: NextIndex(g, q) == Some(i) <==> IsNext(g, q, i)
    ensures NextIndex(g, q).None? <==> forall j | 0 <= j < |q| :: Rank(g, q[j]) == 3
  {
    var found := NextIndex(g, q);
    if found.Some? {
      assert IsNext(g, q, found.value);
      forall i: nat | IsNext(g, q, i) ensures i == found.value {
        assert Rank(g, q[found.value]) == Rank(g, q[i]);
      }
    } else {
      forall j | 0 <= j < |q| ensures Rank(g, q[j]) == 3 {}
    }
  }

  predicate FromUser(m: Message) { m.source == None || m.source == Some(User) }

  predicate Deliverable(g: Gate, m: Message) {
    m.channel in g.names && g.names[m.channel] != "" ==> g.names[m.channel] !in g.busy
  }

  /** What goes next: the oldest message of a user; without any, the oldest resume; without either,
      the oldest whose channel is unknown or not busy. */
  lemma SelectionExactly(g: Gate, q: seq<Message>, i: nat)
    ensures NextIndex(g, q) == Some(i)
        <==> i < |q|
             && if exists j :: 0 <= j < |q| && FromUser(q[j]) then
                  FromUser(q[i]) && forall j | 0 <= j < i :: !FromUser(q[j])
                else if exists j :: 0 <= j < |q| && q[j].source == Some(Source.Resume) then
                  q[i].source == Some(Source.Resume) && forall j | 0 <= j < i :: q[j].source != Some(Source.Resume)
                else Deliverable(g, q[i]) && forall j | 0 <= j < i :: !Deliverable(g, q[j])
  {
    SelectionIsByClass(g, q);
    Classes(g, q);
  }

  lemma Classes(g: Gate, q: seq<Message>)
    ensures forall j | 0 <= j < |q| :: (FromUser(q[j]) <==> Rank(g, q[j]) == 0) && 0 <= Rank(g, q[j]) <= 3
    ensures forall j | 0 <= j < |q| :: Rank(g, q[j]) == 1 <==> q[j].source == Some(Source.Resume)
    ensures forall j | 0 <= j < |q| && Rank(g, q[j]) >= 2 :: Rank(g, q[j]) == 2 <==> Deliverable(g, q[j])
  {}

  /** What goes is taken out of the queue, the others staying in order, and the rest is written down. */
  lemma DequeueExactly(s: State, g: Gate, works: bool, i: nat)
    requires NextIndex(g, s.messages) == Some(i)
    ensures i < |s.messages|
    ensures var (m, after) := TryDequeue(s, g, works);
            && m == Some(s.messages[i]) && after.messages == s.messages[..i] + s.messages[i + 1..]
            && after.interrupted == s.interrupted
            && after.disk == if works then Some(Saved(after.messages, s.interrupted)) else s.disk
  {
    SelectionIsByClass(g, s.messages);
  }

  /** What joins a batch: what a user typed on its channel, but for control commands. */
  lemma BatchableExactly(channel: string, m: Message)
    ensures InBatch(channel, m) <==> m.channel == channel && FromUser(m) && !IsControlCommand(m.text)
  {
    hide IsControlCommand;
  }

  // ---- Batches --------------------------------------------------------------------------------

  /** Strictly increasing places in a queue. */
  predicate IsPlaces(q: seq<Message>, p: seq<nat>) {
    (forall i | 0 <= i < |p| :: p[i] < |q|) && forall i, j | 0 <= i < j < |p| :: p[i] < p[j]
  }

  /** The messages at some places. */
  predicate Picks(q: seq<Message>, p: seq<nat>, r: seq<Message>) {
    IsPlaces(q, p) && |r| == |p| && forall i | 0 <= i < |p| :: r[i] == q[p[i]]
  }

  lemma PicksOn(q: seq<Message>, n: nat, p: seq<nat>, r: seq<Message>)
    requires |q| == n + 1 && Picks(q[..n], p, r)
    ensures IsPlaces(q[..n], p) && Picks(q, p, r) && Picks(q, p + [n], r + [q[n]])
  {
    var p', r' := p + [n], r + [q[n]];
    forall i, j | 0 <= i < j < |p'| ensures p'[i] < p'[j] {
      if j == |p| { assert p[i] < |q[..n]|; }
    }
    forall i | 0 <= i < |p| ensures r[i] == q[p[i]] { assert q[..n][p[i]] == q[p[i]]; }
    forall i | 0 <= i < |p'| ensures r'[i] == q[p'[i]] {}
  }

  /** These places are exactly those of the messages in the batch, or of the others. */
  predicate Cover(q: seq<Message>, channel: string, taken: seq<nat>, left: seq<nat>) {
    forall k: nat | k < |q| :: (k in taken <==> InBatch(channel, q[k])) && (k in left <==> !InBatch(channel, q[k]))
  }

  /** How the last message splits a queue. */
  lemma LastSplits(q: seq<Message>, channel: string)
    requires q != []
    ensures var n := |q| - 1;
            if InBatch(channel, q[n])
            then Batch(q, channel) == Batch(q[..n], channel) + [q[n]] && Kept(q, channel) == Kept(q[..n], channel)
            else Batch(q, channel) == Batch(q[..n], channel) && Kept(q, channel) == Kept(q[..n], channel) + [q[n]]
  {
    hide InBatch;
    Unit(Batch(q[..|q| - 1], channel));
    Unit(Kept(q[..|q| - 1], channel));
  }

  lemma EmptyPartition(channel: string)
    ensures Picks([], [], Batch([], channel)) && Picks([], [], Kept([], channel)) && Cover([], channel, [], [])
  {}

  /** A batch takes the batchable messages of its channel and leaves the others, each part in the
      order of the queue. */
  lemma {:induction false} BatchIsStablePartition(q: seq<Message>, channel: string)
    returns (taken: seq<nat>, left: seq<nat>)
    ensures Picks(q, taken, Batch(q, channel)) && Picks(q, left, Kept(q, channel)) && Cover(q, channel, taken, left)
    decreases |q|
  {
    hide Picks, Cover, IsPlaces, InBatch, Batch, Kept;
    if q == [] {
      taken, left := [], [];
      EmptyPartition(channel);
    } else {
      var n := |q| - 1;
      var before, rest := BatchIsStablePartition(q[..n], channel);
      LastSplits(q, channel);
      PicksOn(q, n, before, Batch(q[..n], channel));
      PicksOn(q, n, rest, Kept(q[..n], channel));
      taken := if InBatch(channel, q[n]) then before + [n] else before;
      left := if InBatch(channel, q[n]) then rest else rest + [n];
      CoverOn(q, n, channel, before, rest, taken, left);
    }
  }

  lemma CoverOn(q: seq<Message>, n: nat, channel: string, before: seq<nat>, rest: seq<nat>,
                taken: seq<nat>, left: seq<nat>)
    requires |q| == n + 1 && Cover(q[..n], channel, before, rest) && IsPlaces(q[..n], before) && IsPlaces(q[..n], rest)
    requires taken == if InBatch(channel, q[n]) then before + [n] else before
    requires left == if InBatch(channel, q[n]) then rest else rest + [n]
    ensures Cover(q, channel, taken, left)
  {
    hide IsControlCommand;
    assert n !in before && n !in rest;
    forall k: nat | k < |q|
      ensures (k in taken <==> InBatch(channel, q[k])) && (k in left <==> !InBatch(channel, q[k]))
    {
      if k < n {
        assert q[..n][k] == q[k];
        assert (k in taken <==> k in before) && (k in left <==> k in rest);
      }
    }
  }

  lemma {:induction false} BatchKeepsCount(q: seq<Message>, channel: string)
    ensures multiset(Batch(q, channel)) + multiset(Kept(q, channel)) == multiset(q)
    decreases |q|
  {
    if q != [] {
      hide InBatch;
      var n := |q| - 1;
      assert q == q[..n] + [q[n]];
      LastSplits(q, channel);
      BatchKeepsCount(q[..n], channel);
    }
  }

  lemma {:induction false} BatchOf(q: seq<Message>, channel: string)
    ensures forall i | 0 <= i < |Batch(q, channel)| :: InBatch(channel, Batch(q, channel)[i])
    ensures (exists k :: 0 <= k < |q| && InBatch(channel, q[k])) ==> Batch(q, channel) != []
    decreases |q|
  {
    hide IsControlCommand, Kept;
    if q != [] {
      LastSplits(q, channel);
      BatchOf(q[..|q| - 1], channel);
    }
  }

  /** A coalesced message is no word command. */
  lemma CoalescedIsNoWordCommand(s: State, channel: string, works: bool)
    requires Coalesce(s, channel, works).0.Some?
    ensures var m := Coalesce(s, channel, works).0.value;
            m.channel == channel && IsUser(m) && !IsWordCommand(TrimSpace(m.text))
  {
    hide IsWordCommand, TrimSpace, IsControlCommand;
    var batch := Batch(s.messages, channel);
    BatchOf(s.messages, channel);
    assert InBatch(channel, batch[0]);
    forall i | 0 <= i < |batch| ensures !IsControlCommand(Texts(batch)[i]) {
      assert InBatch(channel, batch[i]);
    }
    BatchIsNoWordCommand(Texts(batch));
  }

  // ---- What Next delivers ---------------------------------------------------------------------

  /** Messages only ever join the end of the queue while a batch is held. */
  lemma {:induction false} HeldBatchGrows(s: State, channel: string, events: seq<Timed>, works: bool)
    returns (before: State)
    ensures s.messages <= before.messages
    ensures var r := Debounce(s, channel, events, works);
            (r.0.Delivered? ==> Coalesce(before, channel, works) == (Some(r.0.message), r.1))
            && (r.0.NothingBatchable? ==> Coalesce(before, channel, works) == (None, r.1))
    decreases |events|
  {
    before := s;
    if events != [] {
      match events[0].event
      case Arrival(m, w) => before := HeldBatchGrows(Push(s, m, w), channel, events[1..], works);
      case PushedElsewhere(m, w) => before := HeldBatchGrows(Push(s, m, w), channel, events[1..], works);
      case Notified => before := HeldBatchGrows(s, channel, events[1..], works);
      case _ =>
    }
  }

  /** Next delivers the message its class order selects, or the batch that message belongs to;
      it never ends in the error for an empty batch. */
  lemma {:induction false} NextDelivers(s: State, window: int, rounds: seq<Round>, events: seq<Timed>, works: bool)
    returns (k: nat, looked: State, i: nat, before: State)
    ensures Next(s, window, rounds, events, works).0 != NothingBatchable
    ensures s.messages <= looked.messages <= before.messages
    ensures Next(s, window, rounds, events, works).0.Delivered? ==>
              k < |rounds| && IsNext(rounds[k].gate, looked.messages, i)
              && var (o, after) := Next(s, window, rounds, events, works);
                 var first := looked.messages[i];
                 if window > 0 && IsBatchable(first)
                 then (Some(o.message), after) == Coalesce(before, first.channel, works)
                      && i < |before.messages| && InBatch(first.channel, before.messages[i])
                 else o.message == first && after.messages == Without(looked.messages, i)
    decreases |rounds|
  {
    hide Debounce, IsControlCommand, Kept, Batch;
    k, looked, i, before := 0, s, 0, s;
    if rounds != [] {
      var g := rounds[0].gate;
      SelectionIsByClass(g, s.messages);
      if NextIndex(g, s.messages).Some? {
        i := NextIndex(g, s.messages).value;
        var channel := s.messages[i].channel;
        if window > 0 && IsBatchable(s.messages[i]) {
          before := HeldBatchGrows(s, channel, events, works);
          assert InBatch(channel, before.messages[i]);
          BatchOf(before.messages, channel);
        }
      } else {
        match rounds[0].wake
        case Input(m, w) => k, looked, i, before := NextDelivers(Push(s, m, w), window, rounds[1..], events, works);
                            k := k + 1;
        case Woken => k, looked, i, before := NextDelivers(s, window, rounds[1..], events, works);
                      k := k + 1;
        case _ =>
      }
    }
  }
}
