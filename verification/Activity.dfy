/**
 One channel's activity, internal/channel/activity.go: whether it is busy, and the waiters told
 when it becomes idle. Times are milliseconds. A timer that fires may run its callback later, even
 once the timer has been stopped or replaced.
 */
module Activity {
  import opened Base

  const IDLE_TIMEOUT := 180000

  /** idleTimer: nil, set for an instant, or gone off but still held. */
  datatype Timer = NoTimer | Armed(due: int) | Fired

  /** A waiter's channel closed: which, when, and whether the activity was busy then. */
  datatype Close = Close(waiter: nat, at: int, busy: bool)

  datatype State = State(
    processing: bool, lastMessageAt: Option<int>, waiters: seq<nat>, timer: Timer,
    callbacks: nat,       // timers gone off whose callback has not run
    nextWaiter: nat, closed: seq<Close>)

  const UNUSED := State(false, None, [], NoTimer, 0, 0, [])

  predicate Busy(s: State, now: int) {
    s.processing || (s.lastMessageAt.Some? && now - s.lastMessageAt.value < IDLE_TIMEOUT)
  }

  function Closes(waiters: seq<nat>, at: int, busy: bool): seq<Close> {
    seq(|waiters|, i requires 0 <= i < |waiters| => Close(waiters[i], at, busy))
  }

  function Signal(s: State, now: int): State {
    s.(waiters := [], closed := s.closed + Closes(s.waiters, now, Busy(s, now)))
  }

  function ScheduleIdleCheck(s: State, now: int): State {
    var s' := s.(timer := NoTimer);
    if s.waiters == [] then s'
    else if s.lastMessageAt.Some? && now - s.lastMessageAt.value < IDLE_TIMEOUT then
      s'.(timer := Armed(s.lastMessageAt.value + IDLE_TIMEOUT))
    else Signal(s', now)
  }

  function MessageReceived(s: State, now: int): State {
    s.(lastMessageAt := Some(now), timer := NoTimer)
  }

  function TurnStarted(s: State): State {
    s.(processing := true, timer := NoTimer)
  }

  function TurnEnded(s: State, now: int): State {
    ScheduleIdleCheck(s.(processing := false), now)
  }

  /** The waiter is the number nextWaiter had. */
  function NotifyIdle(s: State, now: int): State {
    var w := s.nextWaiter;
    var s' := s.(nextWaiter := w + 1);
    if !Busy(s, now) then s'.(closed := s.closed + [Close(w, now, Busy(s, now))])
    else
      var s'' := s'.(waiters := s.waiters + [w]);
      if !s.processing && s.timer.NoTimer? then ScheduleIdleCheck(s'', now) else s''
  }

  function RunCallback(s: State, now: int): State
    requires s.callbacks > 0
  {
    var s' := s.(callbacks := s.callbacks - 1);
    if Busy(s, now) then s' else Signal(s', now)
  }

  // ---- The object -----------------------------------------------------------------------------

  class ChannelActivity {
    var processing: bool
    var lastMessageAt: Option<int>
    var idleWaiters: seq<nat>
    var idleTimer: Timer
    var callbacks: nat
    var nextWaiter: nat
    var closed: seq<Close>

    constructor ()
      ensures View() == UNUSED
    {
      processing, lastMessageAt, idleWaiters, idleTimer := false, None, [], NoTimer;
      callbacks, nextWaiter, closed := 0, 0, [];
    }

    function View(): State
      reads this
    {
      State(processing, lastMessageAt, idleWaiters, idleTimer, callbacks, nextWaiter, closed)
    }

    predicate IsBusy(now: int)
      reads this
    {
      processing || (lastMessageAt.Some? && now - lastMessageAt.value < IDLE_TIMEOUT)
    }

    method SignalWaiters(now: int)
      modifies this
      ensures View() == Signal(old(View()), now)
    {
      for i := 0 to |idleWaiters|
        invariant View() ==
                        old(View()).(closed := old(closed) + Closes(old(idleWaiters)[..i], now, Busy(old(View()), now)))
      {
        closed := closed + [Close(idleWaiters[i], now, IsBusy(now))];
        assert old(idleWaiters)[..i + 1] == old(idleWaiters)[..i] + [old(idleWaiters)[i]];
        assert Closes(old(idleWaiters)[..i + 1], now, Busy(old(View()), now))
            == Closes(old(idleWaiters)[..i], now, Busy(old(View()), now))
             + [Close(old(idleWaiters)[i], now, Busy(old(View()), now))];
      }
      assert old(idleWaiters)[..|old(idleWaiters)|] == old(idleWaiters);
      idleWaiters := [];
    }

    method ScheduleCheck(now: int)
      modifies this
      ensures View() == ScheduleIdleCheck(old(View()), now)
    {
      idleTimer := NoTimer;
      if idleWaiters == [] { return; }
      var remaining := if lastMessageAt.None? then 0 else IDLE_TIMEOUT - (now - lastMessageAt.value);
      if remaining <= 0 {
        SignalWaiters(now);
        return;
      }
      idleTimer := Armed(now + remaining);
    }

    method Receive(now: int)
      modifies this
      ensures View() == MessageReceived(old(View()), now)
    {
      lastMessageAt := Some(now);
      idleTimer := NoTimer;
    }

    method StartTurn()
      modifies this
      ensures View() == TurnStarted(old(View()))
    {
      processing := true;
      idleTimer := NoTimer;
    }

    method EndTurn(now: int)
      modifies this
      ensures View() == TurnEnded(old(View()), now)
    {
      processing := false;
      ScheduleCheck(now);
    }

    method Notify(now: int) returns (w: nat)
      modifies this
      ensures View() == NotifyIdle(old(View()), now) && w == old(nextWaiter)
    {
      w := nextWaiter;
      nextWaiter := w + 1;
      if !IsBusy(now) {
        closed := closed + [Close(w, now, IsBusy(now))];
        return;
      }
      idleWaiters := idleWaiters + [w];
      if !processing && idleTimer.NoTimer? { ScheduleCheck(now); }
    }

    method TimerCallback(now: int)
      requires callbacks > 0
      modifies this
      ensures View() == RunCallback(old(View()), now)
    {
      callbacks := callbacks - 1;
      if !IsBusy(now) { SignalWaiters(now); }
    }
  }

  // ---- Runs -----------------------------------------------------------------------------------

  datatype Event = Message | Start | End | Notice | Fire | Callback

  datatype Timed = Timed(at: int, event: Event)

  predicate Enabled(s: State, e: Timed) {
    && (e.event.Fire? ==> s.timer.Armed? && s.timer.due <= e.at)
    && (e.event.Callback? ==> s.callbacks > 0)
  }

  function Do(s: State, e: Timed): State
    requires Enabled(s, e)
  {
    match e.event
    case Message => MessageReceived(s, e.at)
    case Start => TurnStarted(s)
    case End => TurnEnded(s, e.at)
    case Notice => NotifyIdle(s, e.at)
    case Fire => s.(timer := Fired, callbacks := s.callbacks + 1)
    case Callback => RunCallback(s, e.at)
  }

  /** A run on a clock that does not go back. */
  ghost predicate Runs(s: State, now: int, events: seq<Timed>, end: State)
    decreases |events|
  {
    if events == [] then end == s
    else now <= events[0].at && Enabled(s, events[0]) && Runs(Do(s, events[0]), events[0].at, events[1..], end)
  }

  /** Waiters are told apart, and each is either waiting or closed. */
  ghost predicate Apart(s: State) {
    && (forall i | 0 <= i < |s.waiters| :: s.waiters[i] < s.nextWaiter)
    && (forall i | 0 <= i < |s.closed| :: s.closed[i].waiter < s.nextWaiter)
    && (forall i, j | 0 <= i < j < |s.waiters| :: s.waiters[i] != s.waiters[j])
    && (forall i, j | 0 <= i < j < |s.closed| :: s.closed[i].waiter != s.closed[j].waiter)
    && (forall i, j | 0 <= i < |s.waiters| && 0 <= j < |s.closed| :: s.waiters[i] != s.closed[j].waiter)
  }

  predicate ClosedWhenIdle(s: State) { forall i | 0 <= i < |s.closed| :: !s.closed[i].busy }

  /** A timer that is set is right: nothing is being processed and it is due when the cooldown of
      the last message ends. One that has gone off did so with that cooldown over. */
  predicate TimerRight(s: State, now: int) {
    match s.timer
    case NoTimer => true
    case Armed(due) => !s.processing && s.lastMessageAt == Some(due - IDLE_TIMEOUT)
    case Fired => !Busy(s, now)
  }

  ghost predicate Inv(s: State, now: int) { Apart(s) && ClosedWhenIdle(s) && TimerRight(s, now) }

  lemma SignalKeeps(s: State, now: int)
    requires Apart(s) && ClosedWhenIdle(s) && !Busy(s, now)
    ensures Apart(Signal(s, now)) && ClosedWhenIdle(Signal(s, now))
  {}

  lemma ScheduleKeeps(s: State, now: int)
    requires Apart(s) && ClosedWhenIdle(s) && !s.processing
    ensures var r := ScheduleIdleCheck(s, now); Apart(r) && ClosedWhenIdle(r) && TimerRight(r, now)
  {
    hide Apart, ClosedWhenIdle;
    SameWaiters(s, s.(timer := NoTimer));
    if !Busy(s, now) { SignalKeeps(s.(timer := NoTimer), now); }
    if s.lastMessageAt.Some? { SameWaiters(s, s.(timer := Armed(s.lastMessageAt.value + IDLE_TIMEOUT))); }
  }

  lemma SameWaiters(s: State, r: State)
    requires Apart(s) && ClosedWhenIdle(s)
             && r.waiters == s.waiters && r.closed == s.closed && r.nextWaiter == s.nextWaiter
    ensures Apart(r) && ClosedWhenIdle(r)
  {}

  lemma NewWaiter(s: State, now: int)
    requires Apart(s) && ClosedWhenIdle(s)
    ensures var r := s.(nextWaiter := s.nextWaiter + 1, waiters := s.waiters + [s.nextWaiter]);
            Apart(r) && ClosedWhenIdle(r)
    ensures var r := s.(nextWaiter := s.nextWaiter + 1, closed := s.closed + [Close(s.nextWaiter, now, false)]);
            Apart(r) && ClosedWhenIdle(r)
  {}

  lemma StepKeepsInv(s: State, now: int, e: Timed)
    requires Inv(s, now) && now <= e.at && Enabled(s, e)
    ensures Inv(Do(s, e), e.at)
  {
    hide Apart, ClosedWhenIdle;
    match e.event
    case End =>
      SameWaiters(s, s.(processing := false));
      ScheduleKeeps(s.(processing := false), e.at);
    case Notice =>
      NewWaiter(s, e.at);
      if Busy(s, e.at) && !s.processing && s.timer.NoTimer? {
        ScheduleKeeps(s.(nextWaiter := s.nextWaiter + 1, waiters := s.waiters + [s.nextWaiter]), e.at);
      }
    case Callback =>
      SameWaiters(s, s.(callbacks := s.callbacks - 1));
      if !Busy(s, e.at) { SignalKeeps(s.(callbacks := s.callbacks - 1), e.at); }
    case _ => SameWaiters(s, Do(s, e));
  }

  lemma {:induction false} RunKeepsInv(s: State, now: int, events: seq<Timed>, end: State) returns (last: int)
    requires Inv(s, now) && Runs(s, now, events, end)
    ensures now <= last && Inv(end, last)
    decreases |events|
  {
    last := now;
    if events != [] {
      hide Do, Inv;
      StepKeepsInv(s, now, events[0]);
      last := RunKeepsInv(Do(s, events[0]), events[0].at, events[1..], end);
    }
  }

  /** In every run each waiter is closed at most once, and only while the channel is not busy. */
  lemma WaitersClosedOnceWhenIdle(events: seq<Timed>, end: State)
    requires events != [] && Runs(UNUSED, events[0].at, events, end)
    ensures forall i, j | 0 <= i < j < |end.closed| :: end.closed[i].waiter != end.closed[j].waiter
    ensures forall i | 0 <= i < |end.closed| :: !end.closed[i].busy && end.closed[i].waiter !in end.waiters
  {
    var last := RunKeepsInv(UNUSED, events[0].at, events, end);
  }

  /** When a channel is busy: during a turn, and for three minutes after a message. */
  lemma BusyExactly(s: State, now: int)
    ensures Busy(s, now) <==> s.processing || exists at :: s.lastMessageAt == Some(at) && now < at + 180000
  {}

  /** What the end of a turn does for those who wait: nothing without any; a timer for the end of the
      cooldown while it lasts; and once it is over, they are told. */
  lemma EndExactly(s: State, now: int)
    ensures var e := TurnEnded(s, now);
            && !e.processing && e.lastMessageAt == s.lastMessageAt
            && e.nextWaiter == s.nextWaiter && e.callbacks == s.callbacks
            && if s.waiters == [] then e.timer == NoTimer && e.waiters == [] && e.closed == s.closed
               else if s.lastMessageAt.Some? && now < s.lastMessageAt.value + 180000 then
                 e.timer == Armed(s.lastMessageAt.value + 180000) && e.waiters == s.waiters && e.closed == s.closed
               else e.timer == NoTimer && e.waiters == [] && |e.closed| == |s.closed| + |s.waiters|
                    && (forall i | 0 <= i < |s.waiters| :: e.closed[|s.closed| + i] == Close(s.waiters[i], now, false))
                    && s.closed <= e.closed
  {}

  // ---- Whether waiters are told ---------------------------------------------------------------

  /** Someone waits, no turn runs, and no timer is set to tell them. */
  predicate Forgotten(s: State) { s.waiters != [] && !s.processing && !s.timer.Armed? }

  /** The end of a turn leaves no one forgotten; a new waiter leaves those forgotten before so exactly
      when the channel is idle, which it then learns alone. */
  lemma EndAndNotifyArm(s: State, now: int)
    requires Inv(s, now)
    ensures !Forgotten(TurnEnded(s, now))
    ensures Forgotten(NotifyIdle(s, now)) <==> Forgotten(s) && !Busy(s, now)
    ensures !Busy(s, now) ==> NotifyIdle(s, now).waiters == s.waiters
                              && NotifyIdle(s, now).closed == s.closed + [Close(s.nextWaiter, now, false)]
  {}

  /** A set timer left alone tells every waiter, however late its callback runs. */
  lemma TimerTellsAll(s: State, now: int, fire: int, run: int)
    requires Inv(s, now) && s.timer.Armed? && now <= s.timer.due <= fire <= run
    ensures var fired := Do(s, Timed(fire, Fire));
            var told := Do(fired, Timed(run, Callback));
            told.waiters == [] && |told.closed| == |s.closed| + |s.waiters|
            && forall i | 0 <= i < |s.waiters| :: told.closed[|s.closed| + i] == Close(s.waiters[i], run, false)
  {}

  /** A message that no turn follows does: it stops the timer. */
  lemma MessageForgets(s: State, now: int)
    ensures Forgotten(MessageReceived(s, now)) <==> s.waiters != [] && !s.processing
  {}

  /** Those forgotten stay so through any further messages, however much time passes. */
  lemma {:induction false} ForgottenStay(s: State, now: int, events: seq<Timed>, end: State)
    requires Forgotten(s) && s.callbacks == 0 && Runs(s, now, events, end)
    requires forall i | 0 <= i < |events| ::
               !events[i].event.Start? && !events[i].event.End? && !events[i].event.Notice?
    ensures Forgotten(end) && end.waiters == s.waiters && end.closed == s.closed
    decreases |events|
  {
    if events != [] {
      assert events[0].event.Message?;
      ForgottenStay(Do(s, events[0]), events[0].at, events[1..], end);
    }
  }

  /** It happens: a message, someone waiting for its cooldown to end, and another message. */
  lemma MessagesCanForget() returns (end: State)
    ensures Runs(UNUSED, 0, [Timed(0, Message), Timed(0, Notice), Timed(1, Message)], end)
    ensures Forgotten(end) && end.waiters == [0] && end.closed == []
  {
    var first := Do(UNUSED, Timed(0, Message));
    var second := Do(first, Timed(0, Notice));
    end := Do(second, Timed(1, Message));
    assert second.waiters == [0] && second.timer == Armed(IDLE_TIMEOUT);
    RunsCons(second, 0, Timed(1, Message), [], end);
    RunsCons(first, 0, Timed(0, Notice), [Timed(1, Message)], end);
    RunsCons(UNUSED, 0, Timed(0, Message), [Timed(0, Notice), Timed(1, Message)], end);
    assert [Timed(1, Message)] == [Timed(1, Message)] + [];
    assert [Timed(0, Notice), Timed(1, Message)] == [Timed(0, Notice)] + [Timed(1, Message)];
    assert [Timed(0, Message), Timed(0, Notice), Timed(1, Message)]
        == [Timed(0, Message)] + [Timed(0, Notice), Timed(1, Message)];
  }

  /** And so does a later waiter, told at once that the channel is idle, while the first is not. */
  lemma NoticesCanForget() returns (end: State)
    ensures Runs(UNUSED, 0, [Timed(0, Message), Timed(0, Notice), Timed(1, Message), Timed(200000, Notice)], end)
    ensures Forgotten(end) && !Busy(end, 200000)
    ensures end.waiters == [0] && end.closed == [Close(1, 200000, false)]
  {
    var before := MessagesCanForget();
    var first := [Timed(0, Message), Timed(0, Notice), Timed(1, Message)];
    assert Do(Do(Do(UNUSED, Timed(0, Message)), Timed(0, Notice)), Timed(1, Message)) == before;
    end := Do(before, Timed(200000, Notice));
    RunsSnoc(UNUSED, 0, first, before, Timed(200000, Notice));
  }

  lemma {:induction false} RunsSnoc(s: State, now: int, events: seq<Timed>, end: State, e: Timed)
    requires Runs(s, now, events, end) && Enabled(end, e)
    requires now <= e.at && forall i | 0 <= i < |events| :: events[i].at <= e.at
    ensures Runs(s, now, events + [e], Do(end, e))
    decreases |events|
  {
    if events == [] {
      RunsCons(s, now, e, [], Do(end, e));
      assert events + [e] == [e] + [];
    } else {
      RunsSnoc(Do(s, events[0]), events[0].at, events[1..], end, e);
      assert (events + [e])[1..] == events[1..] + [e];
    }
  }

  lemma RunsCons(s: State, now: int, e: Timed, rest: seq<Timed>, end: State)
    requires now <= e.at && Enabled(s, e) && Runs(Do(s, e), e.at, rest, end)
    ensures Runs(s, now, [e] + rest, end)
  {
    assert ([e] + rest)[1..] == rest;
  }
}
