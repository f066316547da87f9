/**
 The durable message queue of internal/queue/queue.go: what each operation does to the messages
 in memory and to the copy on disk, as functions, and the queue object proved against them. Each
 change and the write that follows it are one step; the write may fail.
 */
module Queue {
  import opened Base
  import opened Commands
  import opened CommandBatches

  datatype Source = User | Resume | Elsewhere(kind: string)

  datatype Message = Message(channel: string, text: string, source: Option<Source>)

  datatype Saved = Saved(messages: seq<Message>, interrupted: string)

  /** No channel is interrupted when the marker is empty; nothing was ever written when disk is None. */
  datatype State = State(messages: seq<Message>, interrupted: string, disk: Option<Saved>)

  const START := State([], "", None)

  // ---- Selection ------------------------------------------------------------------------------

  /** Which channels exist, under which names, and which of those are busy at the moment. */
  datatype Gate = Gate(names: map<string, string>, busy: set<string>)

  predicate IsUser(m: Message) { m.source.None? || m.source.value == User }

  predicate IsResume(m: Message) { m.source == Some(Resume) }

  function ChannelName(g: Gate, id: string): string { if id in g.names then g.names[id] else "" }

  /** A message whose channel is unknown or idle. */
  predicate Free(g: Gate, m: Message) {
    ChannelName(g, m.channel) == "" || ChannelName(g, m.channel) !in g.busy
  }

  /** The class of a message: user, resume, deliverable, or waiting for its channel. */
  function Rank(g: Gate, m: Message): nat {
    if IsUser(m) then 0 else if IsResume(m) then 1 else if Free(g, m) then 2 else 3
  }

  function FirstOfRank(g: Gate, q: seq<Message>, rank: nat, i: nat): (r: Option<nat>)
    requires i <= |q|
    ensures r.Some? ==> i <= r.value < |q| && Rank(g, q[r.value]) == rank
                        && forall j | i <= j < r.value :: Rank(g, q[j]) != rank
    ensures r.None? ==> forall j | i <= j < |q| :: Rank(g, q[j]) != rank
    decreases |q| - i
  {
    if i == |q| then None else if Rank(g, q[i]) == rank then Some(i) else FirstOfRank(g, q, rank, i + 1)
  }

  function NextIndex(g: Gate, q: seq<Message>): Option<nat> {
    match FirstOfRank(g, q, 0, 0)
    case Some(i) => Some(i)
    case None =>
      match FirstOfRank(g, q, 1, 0)
      case Some(i) => Some(i)
      case None => FirstOfRank(g, q, 2, 0)
  }

  // ---- Batches --------------------------------------------------------------------------------

  predicate IsBatchable(m: Message) { IsUser(m) && !IsControlCommand(m.text) }

  predicate InBatch(channel: string, m: Message) { m.channel == channel && IsBatchable(m) }

  function Batch(q: seq<Message>, channel: string): seq<Message> {
    if q == [] then []
    else Batch(q[..|q| - 1], channel) + if InBatch(channel, q[|q| - 1]) then [q[|q| - 1]] else []
  }

  function Kept(q: seq<Message>, channel: string): seq<Message> {
    if q == [] then []
    else Kept(q[..|q| - 1], channel) + if InBatch(channel, q[|q| - 1]) then [] else [q[|q| - 1]]
  }

  function Texts(q: seq<Message>): (r: seq<string>)
    ensures |r| == |q|
  {
    seq(|q|, i requires 0 <= i < |q| => q[i].text)
  }

  /** The single message a batch becomes. */
  function Joined(channel: string, batch: seq<Message>): Message
    requires batch != []
  {
    Message(channel, Join(Texts(batch)), batch[0].source)
  }

  function PeekBatchable(g: Gate, q: seq<Message>): Option<string> {
    match NextIndex(g, q)
    case None => None
    case Some(i) => if i < |q| && IsBatchable(q[i]) then Some(q[i].channel) else None
  }

  // ---- Steps ----------------------------------------------------------------------------------

  function Persist(s: State, works: bool): State {
    if works then s.(disk := Some(Saved(s.messages, s.interrupted))) else s
  }

  function Push(s: State, m: Message, works: bool): State {
    Persist(s.(messages := s.messages + [m]), works)
  }

  function Without(q: seq<Message>, i: nat): seq<Message>
    requires i < |q|
  {
    q[..i] + q[i + 1..]
  }

  function TryDequeue(s: State, g: Gate, works: bool): (r: (Option<Message>, State))
    ensures r.0.None? ==> r.1 == s
  {
    match NextIndex(g, s.messages)
    case Some(i) =>
      if i < |s.messages| then (Some(s.messages[i]), Persist(s.(messages := Without(s.messages, i)), works))
      else (None, s)
    case None => (None, s)
  }

  /** None is the "no batchable messages" error. */
  function Coalesce(s: State, channel: string, works: bool): (r: (Option<Message>, State)) {
    var batch := Batch(s.messages, channel);
    if batch == [] then (None, s)
    else (Some(Joined(channel, batch)), Persist(s.(messages := Kept(s.messages, channel)), works))
  }

  function SetInterrupted(s: State, channel: string, works: bool): State {
    Persist(s.(interrupted := channel), works)
  }

  /** LoadPersisted: nothing changes when the read fails or nothing was ever written. */
  function Load(s: State, works: bool): State {
    if works && s.disk.Some? then s.(messages := s.disk.value.messages, interrupted := s.disk.value.interrupted) else s
  }

  // ---- Debouncing -----------------------------------------------------------------------------

  /** What reaches a debouncing Next: a message on its input, a message the bridge pushes, the
      wake-up such a push sends, one of its two timers, the end of its input or of its context. */
  datatype Event =
    | Arrival(m: Message, works: bool) | PushedElsewhere(m: Message, works: bool) | Notified
    | Quiet | Cap | Closed | Cancelled

  datatype Timed = Timed(at: int, event: Event)

  datatype Outcome = Delivered(message: Message, at: int) | NothingBatchable | InputClosed | ContextDone | StillWaiting

  function Debounce(s: State, channel: string, events: seq<Timed>, works: bool): (Outcome, State)
    decreases |events|
  {
    if events == [] then (StillWaiting, s)
    else
      var rest := events[1..];
      match events[0].event
      case Arrival(m, w) => Debounce(Push(s, m, w), channel, rest, works)
      case PushedElsewhere(m, w) => Debounce(Push(s, m, w), channel, rest, works)
      case Notified => Debounce(s, channel, rest, works)
      case Closed => (InputClosed, s)
      case Cancelled => (ContextDone, s)
      case _ =>
        match Coalesce(s, channel, works)
        case (Some(m), after) => (Delivered(m, events[0].at), after)
        case (None, after) => (NothingBatchable, after)
  }

  // ---- Next -----------------------------------------------------------------------------------

  /** What Next's select receives while nothing can be dequeued. */
  datatype Wake = Input(m: Message, works: bool) | Woken | InputEnded | ContextEnded

  /** One turn of Next's loop: who is busy when it looks, and what wakes it if it finds nothing. */
  datatype Round = Round(gate: Gate, wake: Wake)

  function Next(s: State, window: int, rounds: seq<Round>, events: seq<Timed>, works: bool): (Outcome, State)
    decreases |rounds|
  {
    if rounds == [] then (StillWaiting, s)
    else
      var g, rest := rounds[0].gate, rounds[1..];
      match (if window > 0 then PeekBatchable(g, s.messages) else None)
      case Some(channel) => Debounce(s, channel, events, works)
      case None =>
        match TryDequeue(s, g, works)
        case (Some(m), after) => (Delivered(m, 0), after)
        case (None, _) =>
          match rounds[0].wake
          case Input(m, w) => Next(Push(s, m, w), window, rest, events, works)
          case Woken => Next(s, window, rest, events, works)
          case InputEnded => (InputClosed, s)
          case ContextEnded => (ContextDone, s)
  }

  // ---- The object -----------------------------------------------------------------------------

  class Queue {
    const window: int
    var messages: seq<Message>
    var interruptedChannel: string
    var disk: Option<Saved>

    constructor (disk: Option<Saved>, window: int)
      ensures View() == START.(disk := disk) && this.window == window
    {
      messages, interruptedChannel, this.disk := [], "", disk;
      this.window := window;
    }

    function View(): State
      reads this
    {
      State(messages, interruptedChannel, disk)
    }

    method WriteDown(works: bool)
      modifies this`disk
      ensures View() == Persist(old(View()), works)
    {
      if works { disk := Some(Saved(messages, interruptedChannel)); }
    }

    method LoadPersisted(works: bool)
      modifies this
      ensures View() == Load(old(View()), works)
    {
      if !works || disk.None? { return; }
      messages, interruptedChannel := disk.value.messages, disk.value.interrupted;
    }

    method PushMessage(m: Message, works: bool)
      modifies this
      ensures View() == Push(old(View()), m, works)
    {
      messages := messages + [m];
      WriteDown(works);
    }

    method DequeueIndex(g: Gate) returns (r: Option<nat>)
      ensures r == NextIndex(g, messages)
    {
      for i := 0 to |messages|
        invariant FirstOfRank(g, messages, 0, 0) == FirstOfRank(g, messages, 0, i)
      {
        if IsUser(messages[i]) { return Some(i); }
      }
      for i := 0 to |messages|
        invariant FirstOfRank(g, messages, 1, 0) == FirstOfRank(g, messages, 1, i)
      {
        if IsResume(messages[i]) { return Some(i); }
      }
      for i := 0 to |messages|
        invariant FirstOfRank(g, messages, 2, 0) == FirstOfRank(g, messages, 2, i)
      {
        var name := ChannelName(g, messages[i].channel);
        if name == "" || name !in g.busy { return Some(i); }
      }
      return None;
    }

    method Dequeue(g: Gate, works: bool) returns (m: Option<Message>)
      modifies this
      ensures (m, View()) == TryDequeue(old(View()), g, works)
    {
      var index := DequeueIndex(g);
      if index.None? { return None; }
      var i := index.value;
      m := Some(messages[i]);
      messages := messages[..i] + messages[i + 1..];
      WriteDown(works);
    }

    method PeekBatchableChannel(g: Gate) returns (channel: Option<string>)
      ensures channel == PeekBatchable(g, messages)
    {
      var index := DequeueIndex(g);
      if index.None? { return None; }
      var m := messages[index.value];
      if !IsBatchable(m) { return None; }
      return Some(m.channel);
    }

    method CoalesceBatch(channel: string, works: bool) returns (m: Option<Message>)
      modifies this
      ensures (m, View()) == Coalesce(old(View()), channel, works)
    {
      var texts: seq<string> := [];
      var source: Option<Source> := None;
      var kept: seq<Message> := [];
      for i := 0 to |messages|
        invariant kept == Kept(messages[..i], channel)
        invariant texts == Texts(Batch(messages[..i], channel))
        invariant texts != [] ==> source == Batch(messages[..i], channel)[0].source
      {
        assert messages[..i + 1][..i] == messages[..i];
        if messages[i].channel == channel && IsBatchable(messages[i]) {
          if texts == [] { source := messages[i].source; }
          texts := texts + [messages[i].text];
        } else {
          kept := kept + [messages[i]];
        }
      }
      assert messages[..|messages|] == messages;
      if texts == [] { return None; }
      messages := kept;
      WriteDown(works);
      return Some(Message(channel, Join(texts), source));
    }

    method DebounceAndCoalesce(channel: string, events: seq<Timed>, works: bool) returns (o: Outcome)
      modifies this
      ensures (o, View()) == Debounce(old(View()), channel, events, works)
    {
      var i := 0;
      assert events[0..] == events;
      while i < |events|
        invariant 0 <= i <= |events|
        invariant Debounce(old(View()), channel, events, works) == Debounce(View(), channel, events[i..], works)
      {
        assert events[i..][1..] == events[i + 1..] && events[i..][0] == events[i];
        match events[i].event {
          case Closed => return InputClosed;
          case Cancelled => return ContextDone;
          case Arrival(m, w) => PushMessage(m, w);
          case PushedElsewhere(m, w) => PushMessage(m, w);
          case Notified =>
          case _ =>
            var batch := CoalesceBatch(channel, works);
            return if batch.None? then NothingBatchable else Delivered(batch.value, events[i].at);
        }
        i := i + 1;
      }
      return StillWaiting;
    }

    method NextMessage(rounds: seq<Round>, events: seq<Timed>, works: bool) returns (o: Outcome)
      modifies this
      ensures (o, View()) == Next(old(View()), window, rounds, events, works)
    {
      var i := 0;
      assert rounds[0..] == rounds;
      while i < |rounds|
        invariant 0 <= i <= |rounds|
        invariant Next(old(View()), window, rounds, events, works) == Next(View(), window, rounds[i..], events, works)
      {
        assert rounds[i..][1..] == rounds[i + 1..] && rounds[i..][0] == rounds[i];
        var round := rounds[i];
        if window > 0 {
          var channel := PeekBatchableChannel(round.gate);
          if channel.Some? {
            o := DebounceAndCoalesce(channel.value, events, works);
            return;
          }
        }
        var m := Dequeue(round.gate, works);
        if m.Some? { return Delivered(m.value, 0); }
        match round.wake {
          case Input(m, w) => PushMessage(m, w);
          case Woken =>
          case InputEnded => return InputClosed;
          case ContextEnded => return ContextDone;
        }
        i := i + 1;
      }
      return StillWaiting;
    }

    method MarkInterrupted(channel: string, works: bool)
      modifies this
      ensures View() == SetInterrupted(old(View()), channel, works)
    {
      interruptedChannel := channel;
      WriteDown(works);
    }

    method ClearInterrupted(works: bool)
      modifies this
      ensures View() == SetInterrupted(old(View()), "", works)
    {
      interruptedChannel := "";
      WriteDown(works);
    }
  }
}
