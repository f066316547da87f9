/** What a fire pass leaves and sends, and when the scheduler wakes up. */
module SchedulerMeaning {
  import opened Base
  import opened Places
  import opened Scheduler

  /** The next run of an expression is after the instant given, when there is one. */
  ghost predicate Forward(next: Cron) {
    forall cron, t :: next(cron, t).Some? ==> t < next(cron, t).value
  }

  // ---- One pass -------------------------------------------------------------------------------

  /** What the pass leaves of each schedule, and what it sends for each. */
  function Left(list: seq<Schedule>, p: Pass, next: Cron): (parts: seq<seq<Schedule>>)
    ensures |parts| == |list|
    ensures forall k: nat | k < |list| :: parts[k] == FireOne(list[k], p, next)
  {
    if list == [] then []
    else Left(list[..|list| - 1], p, next) + [FireOne(list[|list| - 1], p, next)]
  }

  function Told(list: seq<Schedule>, p: Pass, next: Cron): (parts: seq<seq<Fired>>)
    ensures |parts| == |list|
    ensures forall k: nat | k < |list| :: parts[k] == Message(list[k], p, next)
  {
    if list == [] then []
    else Told(list[..|list| - 1], p, next) + [Message(list[|list| - 1], p, next)]
  }

  lemma {:induction false} LeftFrom(list: seq<Schedule>, p: Pass, next: Cron) returns (from: seq<nat>)
    ensures Comes(Left(list, p, next), from, FireAll(list, p, next))
    decreases |list|
  {
    hide FireOne;
    if list == [] {
      from := [];
    } else {
      var n := |list| - 1;
      var before := LeftFrom(list[..n], p, next);
      from := if FireOne(list[n], p, next) != [] then before + [n] else before;
      ComesOn(Left(list[..n], p, next), FireOne(list[n], p, next), before, FireAll(list[..n], p, next), from);
    }
  }

  lemma {:induction false} ToldFrom(list: seq<Schedule>, p: Pass, next: Cron) returns (told: seq<nat>)
    ensures Comes(Told(list, p, next), told, Messages(list, p, next))
    decreases |list|
  {
    hide Message;
    if list == [] {
      told := [];
    } else {
      var n := |list| - 1;
      var before := ToldFrom(list[..n], p, next);
      told := if Message(list[n], p, next) != [] then before + [n] else before;
      ComesOn(Told(list[..n], p, next), Message(list[n], p, next), before, Messages(list[..n], p, next), told);
    }
  }

  /** One pass, schedule by schedule: a due one-shot whose removal is written is gone, whether or not
      its channel was found, and nothing else goes; one not due is untouched; and a schedule is due
      afterwards exactly if it was due and its write failed or its expression has no next run.
      Each due schedule with a live channel sent one message, in list order, and only such a one
      has run. */
  lemma PassMakesProgress(list: seq<Schedule>, p: Pass, next: Cron) returns (from: seq<nat>, told: seq<nat>)
    requires Forward(next)
    ensures Comes(Left(list, p, next), from, FireAll(list, p, next))
    ensures forall k: nat | k < |list| ::
              k !in from <==> Due(list[k], p.now, next) && list[k].once && list[k].id in p.writable
    ensures forall j | 0 <= j < |from| && !Due(list[from[j]], p.now, next) :: FireAll(list, p, next)[j] == list[from[j]]
    ensures forall j | 0 <= j < |from| ::
              Due(FireAll(list, p, next)[j], p.now, next)
              <==> Due(list[from[j]], p.now, next)
                   && (list[from[j]].id !in p.writable || next(list[from[j]].cron, p.now).None?)
    ensures Comes(Told(list, p, next), told, Messages(list, p, next))
    ensures forall k: nat | k < |list| :: k in told <==> Due(list[k], p.now, next) && list[k].channelName in p.channels
    ensures forall j | 0 <= j < |told| ::
              list[told[j]].channelName in p.channels
              && Messages(list, p, next)[j]
                 == Fired(p.channels[list[told[j]].channelName], list[told[j]].prompt, list[told[j]].id)
    ensures forall j | 0 <= j < |from| ::
              var was, left := list[from[j]], FireAll(list, p, next)[j];
              left == was.(lastRunAt := left.lastRunAt, nextRunAt := left.nextRunAt)
              && left.lastRunAt == if from[j] in told && was.id in p.writable then Some(p.now) else was.lastRunAt
  {
    from := LeftFrom(list, p, next);
    told := ToldFrom(list, p, next);
    var r, sent := FireAll(list, p, next), Messages(list, p, next);
    forall k: nat | k < |list| ensures k in told <==> Due(list[k], p.now, next) && list[k].channelName in p.channels {
      assert k in told <==> Message(list[k], p, next) != [];
    }
    forall j | 0 <= j < |told|
      ensures list[told[j]].channelName in p.channels
           && sent[j] == Fired(p.channels[list[told[j]].channelName], list[told[j]].prompt, list[told[j]].id)
    {
      assert Message(list[told[j]], p, next) == [sent[j]];
    }
    forall j | 0 <= j < |from|
      ensures Due(r[j], p.now, next)
              <==> Due(list[from[j]], p.now, next)
                   && (list[from[j]].id !in p.writable || next(list[from[j]].cron, p.now).None?)
      ensures r[j] == list[from[j]].(lastRunAt := r[j].lastRunAt, nextRunAt := r[j].nextRunAt)
      ensures r[j].lastRunAt == if from[j] in told && list[from[j]].id in p.writable then Some(p.now)
                                else list[from[j]].lastRunAt
    {
      assert FireOne(list[from[j]], p, next) == [r[j]];
    }
  }

  /** It happens: a schedule whose last run has come fires, and is due again at any later instant, on
      and on. */
  lemma StaysDueAfterFiring(s: Schedule, p: Pass, next: Cron, later: int)
    requires s.active && !s.once && s.nextRunAt == Some(p.now) && s.channelName in p.channels && s.id in p.writable
    requires next(s.cron, p.now) == None && next(s.cron, later) == None
    ensures |Messages([s], p, next)| == 1
    ensures var left := FireAll([s], p, next);
            left == [s.(lastRunAt := Some(p.now), nextRunAt := None)] && Due(left[0], later, next)
  {
    assert [s][..0] == [];
  }

  /** Which schedules are due: the active ones whose next run has come, or that have none. */
  lemma DueExactly(s: Schedule, now: int, next: Cron)
    ensures Due(s, now, next)
        <==> s.active && (forall at: int :: s.nextRunAt == Some(at) ==> at <= now)
             && (s.nextRunAt == None ==> forall at: int :: next(s.cron, now) == Some(at) ==> at <= now)
  {}

  /** So a pass neither runs nor changes a paused schedule, nor one whose time has not come. */
  lemma PausedStays(list: seq<Schedule>, p: Pass, next: Cron, k: nat) returns (j: nat)
    requires Forward(next) && k < |list|
    requires !list[k].active || (list[k].nextRunAt.Some? && p.now < list[k].nextRunAt.value)
    ensures j < |FireAll(list, p, next)| && FireAll(list, p, next)[j] == list[k]
    ensures Message(list[k], p, next) == []
  {
    var from, told := PassMakesProgress(list, p, next);
    DueExactly(list[k], p.now, next);
    assert k in from;
    j :| 0 <= j < |from| && from[j] == k;
  }

  // ---- Waking up ------------------------------------------------------------------------------

  /** The earliest next run Run's loop arrives at; none is the zero time. */
  function Wake(list: seq<Schedule>, now: int, next: Cron): Option<int> {
    if list == [] then None
    else
      var w, s := Wake(list[..|list| - 1], now, next), list[|list| - 1];
      if !s.active then w
      else match (w, ComputeNextRun(s, now, next))
        case (None, at) => at
        case (Some(_), None) => None
        case (Some(e), Some(at)) => Some(if at < e then at else e)
  }

  method FindEarliest(list: seq<Schedule>, now: int, next: Cron) returns (earliest: Option<int>)
    ensures earliest == Wake(list, now, next)
  {
    earliest := None;
    for i := 0 to |list|
      invariant earliest == Wake(list[..i], now, next)
    {
      assert list[..i + 1][..i] == list[..i];
      if !list[i].active { continue; }
      var at := ComputeNextRun(list[i], now, next);
      if earliest.None? || at.None? || at.value < earliest.value { earliest := at; }
    }
    assert list[..|list|] == list;
  }

  /** The scheduler wakes at the earliest next run, if every active schedule has one. */
  lemma {:induction false} WakesForEarliest(list: seq<Schedule>, now: int, next: Cron)
    requires forall i | 0 <= i < |list| && list[i].active :: ComputeNextRun(list[i], now, next).Some?
    ensures Wake(list, now, next).None? <==> forall i | 0 <= i < |list| :: !list[i].active
    ensures Wake(list, now, next).Some? ==>
              var w := Wake(list, now, next).value;
              (exists i :: 0 <= i < |list| && list[i].active && ComputeNextRun(list[i], now, next) == Some(w))
              && forall i | 0 <= i < |list| && list[i].active :: w <= ComputeNextRun(list[i], now, next).value
    decreases |list|
  {
    if list != [] {
      var n := |list| - 1;
      var front := list[..n];
      assert forall i | 0 <= i < n :: front[i] == list[i];
      WakesForEarliest(front, now, next);
      if Wake(front, now, next).Some? {
        var i :| 0 <= i < n && front[i].active && ComputeNextRun(front[i], now, next) == Wake(front, now, next);
        assert list[i] == front[i];
      }
    }
  }

  predicate LastActive(list: seq<Schedule>, i: nat) {
    i < |list| && list[i].active && forall j | i < j < |list| :: !list[j].active
  }

  lemma LastActiveOn(list: seq<Schedule>, i: nat)
    requires list != []
    ensures var n := |list| - 1;
            LastActive(list, i) <==> if list[n].active then i == n else LastActive(list[..n], i)
  {
    var n := |list| - 1;
    if !list[n].active && LastActive(list[..n], i) {
      forall j | i < j < |list| ensures !list[j].active {
        if j < n { assert list[..n][j] == list[j]; }
      }
    }
    if LastActive(list, i) && i < n {
      forall j | i < j < n ensures !list[..n][j].active { assert list[..n][j] == list[j]; }
    }
  }

  /** It sleeps until told to reload exactly when the last active schedule in the list has no next
      run, or none is active, however overdue the others are. */
  lemma {:induction false} SleepsExactly(list: seq<Schedule>, now: int, next: Cron)
    ensures Wake(list, now, next).None?
        <==> forall i: nat :: LastActive(list, i) ==> ComputeNextRun(list[i], now, next).None?
    decreases |list|
  {
    if list != [] {
      hide LastActive;
      var n := |list| - 1;
      forall i: nat ensures LastActive(list, i) <==> if list[n].active then i == n else LastActive(list[..n], i) {
        LastActiveOn(list, i);
      }
      SleepsExactly(list[..n], now, next);
      forall i: nat ensures LastActive(list, i) ==> i < |list| { OnList(list, i); }
      forall i: nat ensures LastActive(list[..n], i) ==> i < n && list[..n][i] == list[i] { OnList(list[..n], i); }
    }
  }

  lemma OnList(list: seq<Schedule>, i: nat)
    ensures LastActive(list, i) ==> i < |list|
  {}

  /** It happens: one schedule is overdue, another has no next run and stands last. */
  lemma OverdueSleeps(due: Schedule, dateless: Schedule, now: int, next: Cron)
    requires due.active && due.nextRunAt == Some(now - 1)
    requires dateless.active && dateless.nextRunAt == None && next(dateless.cron, now) == None
    ensures Due(due, now, next) && Wake([due, dateless], now, next) == None
  {
    SleepsExactly([due, dateless], now, next);
    forall i: nat | LastActive([due, dateless], i) ensures ComputeNextRun([due, dateless][i], now, next).None? {
      assert i != 0 by { assert [due, dateless][1].active; }
    }
  }
}
