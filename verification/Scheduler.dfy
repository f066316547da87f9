/**
 The scheduler's fire pass and its wake-up time (internal/schedule/scheduler.go), over the schedule
 list of internal/schedule/schedule.go. The cron library is a function from an expression (with its
 time zone) and an instant to the next run; none stands for the zero time it gives when there is
 no next run.
 */
module Scheduler {
  import opened Base

  type Cron = (string, int) -> Option<int>

  datatype Schedule = Schedule(
    id: string, cron: string, prompt: string, channelName: string, active: bool, once: bool,
    lastRunAt: Option<int>, nextRunAt: Option<int>)

  datatype Fired = Fired(channel: string, text: string, schedule: string)

  // ---- The store ------------------------------------------------------------------------------

  function Updated(list: seq<Schedule>, id: string, f: Schedule -> Schedule): seq<Schedule> {
    if list == [] then []
    else if list[0].id == id then [f(list[0])] + list[1..]
    else [list[0]] + Updated(list[1..], id, f)
  }

  function Removed(list: seq<Schedule>, id: string): seq<Schedule> {
    if list == [] then []
    else (if list[0].id == id then [] else [list[0]]) + Removed(list[1..], id)
  }

  predicate Lacks(list: seq<Schedule>, id: string) { forall i | 0 <= i < |list| :: list[i].id != id }

  predicate UniqueIDs(list: seq<Schedule>) { forall i, j | 0 <= i < j < |list| :: list[i].id != list[j].id }

  class Store {
    var list: seq<Schedule>

    constructor ()
      ensures list == []
    {
      list := [];
    }

    method Add(s: Schedule, works: bool) returns (ok: bool)
      modifies this
      ensures ok == (Lacks(old(list), s.id) && works)
      ensures list == if ok then old(list) + [s] else old(list)
      ensures old(UniqueIDs(list)) ==> UniqueIDs(list)
    {
      for i := 0 to |list|
        invariant forall j | 0 <= j < i :: list[j].id != s.id
      {
        if list[i].id == s.id { return false; }
      }
      if works { list := list + [s]; }
      ok := works;
    }

    method Update(id: string, f: Schedule -> Schedule, works: bool) returns (ok: bool)
      modifies this
      ensures ok == (!Lacks(old(list), id) && works)
      ensures list == if ok then Updated(old(list), id, f) else old(list)
    {
      var schedules := list;
      var i := 0;
      assert schedules[..0] == [] && schedules[0..] == schedules;
      while i < |schedules| && schedules[i].id != id
        invariant 0 <= i <= |schedules| && list == schedules
        invariant forall j | 0 <= j < i :: schedules[j].id != id
        invariant Updated(schedules, id, f) == schedules[..i] + Updated(schedules[i..], id, f)
      {
        assert schedules[i..][1..] == schedules[i + 1..];
        assert schedules[..i + 1] == schedules[..i] + [schedules[i]];
        Associative(schedules[..i], [schedules[i]], Updated(schedules[i + 1..], id, f));
        i := i + 1;
      }
      if i == |schedules| {
        assert Lacks(schedules, id);
        return false;
      }
      assert schedules[i..][1..] == schedules[i + 1..];
      ok := works;
      if works { list := schedules[..i] + ([f(schedules[i])] + schedules[i + 1..]); }
    }

    method Remove(id: string, works: bool) returns (ok: bool)
      modifies this
      ensures ok == (!Lacks(old(list), id) && works)
      ensures list == if ok then Removed(old(list), id) else old(list)
    {
      var schedules := list;
      var found := false;
      var remaining: seq<Schedule> := [];
      assert schedules[0..] == schedules;
      for i := 0 to |schedules|
        invariant list == schedules
        invariant Removed(schedules, id) == remaining + Removed(schedules[i..], id)
        invariant found <==> !Lacks(schedules[..i], id)
      {
        assert schedules[i..][1..] == schedules[i + 1..];
        assert schedules[..i + 1] == schedules[..i] + [schedules[i]];
        if schedules[i].id == id {
          found := true;
          assert (schedules[..i + 1])[i].id == id;
          Unit(Removed(schedules[i + 1..], id));
        } else {
          LacksBoth(schedules[..i], schedules[i], id);
          Associative(remaining, [schedules[i]], Removed(schedules[i + 1..], id));
          remaining := remaining + [schedules[i]];
        }
      }
      assert schedules[..|schedules|] == schedules;
      Unit(remaining);
      if !found { return false; }
      ok := works;
      if works { list := remaining; }
    }
  }

  lemma LacksBoth(list: seq<Schedule>, s: Schedule, id: string)
    ensures Lacks(list + [s], id) <==> Lacks(list, id) && s.id != id
  {
    if Lacks(list + [s], id) {
      forall i | 0 <= i < |list| ensures list[i].id != id { assert (list + [s])[i] == list[i]; }
      assert (list + [s])[|list|] == s;
    }
  }

  // ---- One fire pass --------------------------------------------------------------------------

  function ComputeNextRun(s: Schedule, now: int, next: Cron): Option<int> {
    if s.nextRunAt.Some? then s.nextRunAt else next(s.cron, now)
  }

  /** Active, and its next run not after now; the zero time is before every other. */
  predicate Due(s: Schedule, now: int, next: Cron) {
    s.active && match ComputeNextRun(s, now, next)
                case None => true
                case Some(at) => at <= now
  }

  /** A pass: its instant, the live channels by name, and the schedules whose store writes work. */
  datatype Pass = Pass(now: int, channels: map<string, string>, writable: set<string>)

  /** A schedule's record after it has been found due. */
  function Advanced(s: Schedule, p: Pass, next: Cron): Schedule {
    if s.channelName in p.channels then s.(lastRunAt := Some(p.now), nextRunAt := next(s.cron, p.now))
    else s.(nextRunAt := next(s.cron, p.now))
  }

  /** What a pass leaves of a schedule. */
  function FireOne(s: Schedule, p: Pass, next: Cron): (r: seq<Schedule>)
    ensures |r| <= 1
  {
    if !Due(s, p.now, next) || s.id !in p.writable then [s] else if s.once then [] else [Advanced(s, p, next)]
  }

  function FireAll(list: seq<Schedule>, p: Pass, next: Cron): seq<Schedule> {
    if list == [] then []
    else FireAll(list[..|list| - 1], p, next) + FireOne(list[|list| - 1], p, next)
  }

  function Message(s: Schedule, p: Pass, next: Cron): (r: seq<Fired>)
    ensures |r| <= 1
  {
    if Due(s, p.now, next) && s.channelName in p.channels
    then [Fired(p.channels[s.channelName], s.prompt, s.id)] else []
  }

  function Messages(list: seq<Schedule>, p: Pass, next: Cron): seq<Fired> {
    if list == [] then [] else Messages(list[..|list| - 1], p, next) + Message(list[|list| - 1], p, next)
  }

  lemma {:induction false} UpdatedInPlace(a: seq<Schedule>, s: Schedule, b: seq<Schedule>, f: Schedule -> Schedule)
    requires Lacks(a, s.id)
    ensures Updated(a + ([s] + b), s.id, f) == a + ([f(s)] + b)
  {
    var list := a + ([s] + b);
    if a == [] {
      assert list == [s] + b && list[1..] == b;
      Unit([f(s)] + b);
    } else {
      assert list[0] == a[0] && list[1..] == a[1..] + ([s] + b);
      assert a[0].id != s.id;
      UpdatedInPlace(a[1..], s, b, f);
      assert a == [a[0]] + a[1..];
    }
  }

  lemma {:induction false} RemovedNone(list: seq<Schedule>, id: string)
    requires Lacks(list, id)
    ensures Removed(list, id) == list
  {
    if list != [] {
      assert list[0].id != id;
      RemovedNone(list[1..], id);
      assert list == [list[0]] + list[1..];
    }
  }

  lemma {:induction false} RemovedOf(a: seq<Schedule>, b: seq<Schedule>, id: string)
    ensures Removed(a + b, id) == Removed(a, id) + Removed(b, id)
  {
    if a == [] {
      Unit(b);
      Unit(Removed(b, id));
    } else {
      assert (a + b)[1..] == a[1..] + b;
      RemovedOf(a[1..], b, id);
    }
  }

  lemma {:induction false} FiredIDs(list: seq<Schedule>, p: Pass, next: Cron, id: string)
    requires Lacks(list, id)
    ensures Lacks(FireAll(list, p, next), id)
    decreases |list|
  {
    if list != [] {
      FiredIDs(list[..|list| - 1], p, next, id);
    }
  }

  /** The store in the middle of a pass: schedules passed, the one at hand, and those to come. */
  lemma PassStep(list: seq<Schedule>, i: nat, p: Pass, next: Cron, f: Schedule -> Schedule)
    requires UniqueIDs(list) && i < |list|
    ensures var done, s, rest := FireAll(list[..i], p, next), list[i], list[i + 1..];
            var store := done + ([s] + rest);
            done + list[i..] == store && !Lacks(store, s.id)
            && Updated(store, s.id, f) == done + ([f(s)] + rest) && Removed(store, s.id) == done + rest
            && FireAll(list[..i + 1], p, next) == done + FireOne(s, p, next)
            && Messages(list[..i + 1], p, next) == Messages(list[..i], p, next) + Message(s, p, next)
  {
    var done, s, rest := FireAll(list[..i], p, next), list[i], list[i + 1..];
    assert list[i..] == [s] + rest;
    assert (done + ([s] + rest))[|done|] == s;
    assert list[..i + 1][..i] == list[..i];
    FiredIDs(list[..i], p, next, s.id);
    UpdatedInPlace(done, s, rest, f);
    RemovedOf(done, [s] + rest, s.id);
    RemovedNone(done, s.id);
    RemovedNone(rest, s.id);
    assert ([s] + rest)[1..] == rest;
    Unit(rest);
  }

  /** fireReadySchedules: the store is read once and changed schedule by schedule, each before its
      message is sent. */
  method FireReadySchedules(store: Store, p: Pass, next: Cron) returns (sent: seq<Fired>)
    requires UniqueIDs(store.list)
    modifies store
    ensures store.list == FireAll(old(store.list), p, next)
    ensures sent == Messages(old(store.list), p, next)
  {
    var list := store.list;
    sent := [];
    assert list[0..] == list;
    Unit(list);
    for i := 0 to |list|
      invariant store.list == FireAll(list[..i], p, next) + list[i..]
      invariant sent == Messages(list[..i], p, next)
    {
      var s := list[i];
      ghost var done, rest := FireAll(list[..i], p, next), list[i + 1..];
      Associative(done, FireOne(s, p, next), rest);
      if !Due(s, p.now, next) {
        PassStep(list, i, p, next, x => x);
        Unit(sent);
        continue;
      }
      if s.once {
        PassStep(list, i, p, next, x => x);
        Unit(done);
        var _ := store.Remove(s.id, s.id in p.writable);
      } else {
        var live := s.channelName in p.channels;
        var f := (x: Schedule) => if live then x.(lastRunAt := Some(p.now), nextRunAt := next(x.cron, p.now))
                                  else x.(nextRunAt := next(x.cron, p.now));
        PassStep(list, i, p, next, f);
        var _ := store.Update(s.id, f, s.id in p.writable);
      }
      if s.channelName in p.channels {
        sent := sent + [Fired(p.channels[s.channelName], s.prompt, s.id)];
      } else {
        Unit(sent);
      }
    }
    assert list[..|list|] == list && list[|list|..] == [];
    Unit(FireAll(list, p, next));
  }
}
