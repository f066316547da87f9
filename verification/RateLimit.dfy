/** The fixed-window rate limiter of internal/oauth/ratelimit.go. Times are milliseconds. */
module RateLimit {
  import opened Base

  const REQUESTS := 20
  const WINDOW := 60000

  datatype Entry = Entry(count: nat, windowStart: int)

  predicate Expired(e: Entry, now: int) { now - e.windowStart > WINDOW }

  /** What one request does to its address's entry, and whether it is allowed. */
  function Count(e: Option<Entry>, now: int): (bool, Entry) {
    if e.None? || Expired(e.value, now) then (true, Entry(1, now))
    else (e.value.count + 1 <= REQUESTS, e.value.(count := e.value.count + 1))
  }

  function EntryOf(entries: map<string, Entry>, ip: string): Option<Entry> {
    if ip in entries then Some(entries[ip]) else None
  }

  function Collect(entries: map<string, Entry>, now: int): map<string, Entry> {
    map ip | ip in entries && !Expired(entries[ip], now) :: entries[ip]
  }

  class RateLimiter {
    var entries: map<string, Entry>

    constructor ()
      ensures entries == map[]
    {
      entries := map[];
    }

    method Allow(ip: string, now: int) returns (ok: bool)
      modifies this
      ensures (ok, entries) == (Count(EntryOf(old(entries), ip), now).0,
                                old(entries)[ip := Count(EntryOf(old(entries), ip), now).1])
    {
      if ip !in entries || now - entries[ip].windowStart > WINDOW {
        entries := entries[ip := Entry(1, now)];
        return true;
      }
      var counted := entries[ip].(count := entries[ip].count + 1);
      entries := entries[ip := counted];
      return counted.count <= REQUESTS;
    }

    method Gc(now: int)
      modifies this
      ensures entries == Collect(old(entries), now)
    {
      var left := entries.Keys;
      while left != {}
        invariant left <= entries.Keys <= old(entries).Keys
        invariant forall ip :: ip in entries ==>
                    entries[ip] == old(entries)[ip] && (ip in left || !Expired(entries[ip], now))
        invariant forall ip :: ip in old(entries) && !Expired(old(entries)[ip], now) ==> ip in entries
        decreases |left|
      {
        var ip :| ip in left;
        left := left - {ip};
        if now - entries[ip].windowStart > WINDOW { entries := entries - {ip}; }
      }
    }
  }

  // ---- Runs -----------------------------------------------------------------------------------

  datatype Event = Request(ip: string, at: int) | Gc(at: int)

  /** The answers to the requests from one address, in a run with others and with collections. */
  function Answers(entries: map<string, Entry>, events: seq<Event>, ip: string): seq<bool>
    decreases |events|
  {
    if events == [] then []
    else match events[0]
      case Gc(at) => Answers(Collect(entries, at), events[1..], ip)
      case Request(from, at) =>
        var (ok, e) := Count(EntryOf(entries, from), at);
        (if from == ip then [ok] else []) + Answers(entries[from := e], events[1..], ip)
  }

  /** The same from that address's requests alone. */
  function AloneAnswers(e: Option<Entry>, times: seq<int>): seq<bool>
    decreases |times|
  {
    if times == [] then []
    else
      var (ok, e') := Count(e, times[0]);
      [ok] + AloneAnswers(Some(e'), times[1..])
  }

  function TimesOf(events: seq<Event>, ip: string): seq<int> {
    if events == [] then []
    else (if events[0].Request? && events[0].ip == ip then [events[0].at] else []) + TimesOf(events[1..], ip)
  }

  /** A clock that does not go back. */
  predicate Ordered(now: int, events: seq<Event>)
    decreases |events|
  {
    events == [] || (now <= events[0].at && Ordered(events[0].at, events[1..]))
  }

  /** The same entry, or one of the two gone because it had expired. */
  predicate Alike(e: Option<Entry>, kept: Option<Entry>, now: int) {
    e == kept || (e.None? && Expired(kept.value, now))
  }

  lemma {:induction false} OnlyOwnRequestsCount(entries: map<string, Entry>, kept: Option<Entry>, now: int,
                                                events: seq<Event>, ip: string)
    requires Alike(EntryOf(entries, ip), kept, now) && Ordered(now, events)
    ensures Answers(entries, events, ip) == AloneAnswers(kept, TimesOf(events, ip))
    decreases |events|
  {
    if events != [] {
      match events[0]
      case Gc(at) =>
        Unit(TimesOf(events[1..], ip));
        OnlyOwnRequestsCount(Collect(entries, at), kept, at, events[1..], ip);
      case Request(from, at) =>
        var e := Count(EntryOf(entries, from), at).1;
        if from == ip {
          assert TimesOf(events, ip)[1..] == TimesOf(events[1..], ip);
          OnlyOwnRequestsCount(entries[from := e], Some(e), at, events[1..], ip);
        } else {
          Unit(TimesOf(events[1..], ip));
          Unit(Answers(entries[from := e], events[1..], ip));
          OnlyOwnRequestsCount(entries[from := e], kept, at, events[1..], ip);
        }
    }
  }

  /** Collections and other addresses never change an answer. */
  lemma CollectionsAndOthersDoNotMatter(now: int, events: seq<Event>, ip: string)
    requires Ordered(now, events)
    ensures Answers(map[], events, ip) == AloneAnswers(None, TimesOf(events, ip))
  {
    OnlyOwnRequestsCount(map[], None, now, events, ip);
  }

  // ---- How many are allowed -------------------------------------------------------------------

  predicate OrderedTimes(now: int, times: seq<int>)
    decreases |times|
  {
    times == [] || (now <= times[0] && OrderedTimes(times[0], times[1..]))
  }

  /** The requests allowed from a to a minute later, both included. */
  function AllowedWithin(e: Option<Entry>, times: seq<int>, a: int): nat
    decreases |times|
  {
    if times == [] then 0
    else
      var (ok, e') := Count(e, times[0]);
      (if ok && a <= times[0] <= a + 60000 then 1 else 0) + AllowedWithin(Some(e'), times[1..], a)
  }

  /** What is left to allow: of the current window, and of one more if that began before a. */
  function Left(e: Option<Entry>, now: int, a: int): nat {
    if now < a then 2 * REQUESTS - 1
    else if e.None? || Expired(e.value, now) then REQUESTS
    else (if e.value.count <= REQUESTS then REQUESTS - e.value.count else 0)
         + (if e.value.windowStart < a then REQUESTS else 0)
  }

  lemma {:induction false} NoMoreThanLeft(e: Option<Entry>, now: int, times: seq<int>, a: int)
    requires OrderedTimes(now, times) && (e.Some? ==> e.value.windowStart <= now && e.value.count >= 1)
    ensures AllowedWithin(e, times, a) <= Left(e, now, a)
    decreases |times|
  {
    if times != [] {
      var e' := Count(e, times[0]).1;
      if times[0] <= a + WINDOW {
        NoMoreThanLeft(Some(e'), times[0], times[1..], a);
      } else {
        NoneLater(Some(e'), times[0], times[1..], a);
      }
    }
  }

  lemma {:induction false} NoneLater(e: Option<Entry>, now: int, times: seq<int>, a: int)
    requires OrderedTimes(now, times) && a + WINDOW < now
    ensures AllowedWithin(e, times, a) == 0
    decreases |times|
  {
    if times != [] { NoneLater(Some(Count(e, times[0]).1), times[0], times[1..], a); }
  }

  /** The requests among these answered with yes from a to a minute later. */
  function Tally(answers: seq<bool>, times: seq<int>, a: int): nat
    requires |answers| == |times|
  {
    if times == [] then 0
    else (if answers[0] && a <= times[0] <= a + 60000 then 1 else 0) + Tally(answers[1..], times[1..], a)
  }

  lemma {:induction false} TallyIsAllowed(e: Option<Entry>, times: seq<int>, a: int)
    ensures |AloneAnswers(e, times)| == |times| && Tally(AloneAnswers(e, times), times, a) == AllowedWithin(e, times, a)
    decreases |times|
  {
    if times != [] {
      var e' := Count(e, times[0]).1;
      TallyIsAllowed(Some(e'), times[1..], a);
      assert AloneAnswers(e, times)[1..] == AloneAnswers(Some(e'), times[1..]);
    }
  }

  lemma {:induction false} TimesOrdered(now: int, events: seq<Event>, ip: string)
    requires Ordered(now, events)
    ensures OrderedTimes(now, TimesOf(events, ip))
    decreases |events|
  {
    if events != [] {
      var at, rest := events[0].at, TimesOf(events[1..], ip);
      TimesOrdered(at, events[1..], ip);
      if events[0].Request? && events[0].ip == ip {
        assert ([at] + rest)[1..] == rest;
      } else {
        Unit(rest);
      }
    }
  }

  /** At most 39 requests of an address are allowed in any stretch of one window's length: the first
      of an earlier window falls outside the stretch a later window shares with it. */
  lemma AtMostTwoWindows(now: int, events: seq<Event>, ip: string, a: int)
    requires Ordered(now, events)
    ensures |Answers(map[], events, ip)| == |TimesOf(events, ip)|
    ensures Tally(Answers(map[], events, ip), TimesOf(events, ip), a) <= 39
  {
    CollectionsAndOthersDoNotMatter(now, events, ip);
    TallyIsAllowed(None, TimesOf(events, ip), a);
    TimesOrdered(now, events, ip);
    NoMoreThanLeft(None, now, TimesOf(events, ip), a);
  }

  /** At most twenty are, in the stretch that begins with a request that opens a window. */
  lemma AtMostOneWindow(e: Option<Entry>, times: seq<int>)
    requires times != [] && OrderedTimes(times[0], times)
    requires e.Some? ==> e.value.windowStart <= times[0] && e.value.count >= 1 && Expired(e.value, times[0])
    ensures AllowedWithin(e, times, times[0]) <= 20
  {
    NoMoreThanLeft(e, times[0], times, times[0]);
  }

  function Burst(at: int, n: nat): seq<int> { if n == 0 then [] else [at] + Burst(at, n - 1) }

  lemma {:induction false} BurstAllowed(e: Entry, at: int, n: nat, rest: seq<int>, a: int)
    requires e.count + n <= REQUESTS && !Expired(e, at) && a <= at <= a + WINDOW
    ensures AllowedWithin(Some(e), Burst(at, n) + rest, a)
         == n + AllowedWithin(Some(e.(count := e.count + n)), rest, a)
    decreases n
  {
    if n == 0 {
      Unit(rest);
    } else {
      assert (Burst(at, n) + rest)[1..] == Burst(at, n - 1) + rest;
      BurstAllowed(e.(count := e.count + 1), at, n - 1, rest, a);
    }
  }

  /** And 39 can be: one request, the rest of its window's share as it ends, and a new window's. */
  lemma BoundIsReached()
    ensures var times := [0] + (Burst(WINDOW, REQUESTS - 1) + ([WINDOW + 1] + Burst(WINDOW + 1, REQUESTS - 1)));
            OrderedTimes(0, times) && AllowedWithin(None, times, WINDOW) == 39
  {
    var last := Burst(WINDOW + 1, REQUESTS - 1);
    var later := [WINDOW + 1] + last;
    var middle := Burst(WINDOW, REQUESTS - 1) + later;
    assert ([0] + middle)[1..] == middle && later[1..] == last;
    BurstAllowed(Entry(1, 0), WINDOW, REQUESTS - 1, later, WINDOW);
    BurstAllowed(Entry(1, WINDOW + 1), WINDOW + 1, REQUESTS - 1, [], WINDOW);
    Unit(last);
    BurstOrdered(WINDOW + 1, WINDOW + 1, REQUESTS - 1, []);
    BurstOrdered(0, WINDOW, REQUESTS - 1, later);
  }

  lemma {:induction false} BurstOrdered(now: int, at: int, n: nat, rest: seq<int>)
    requires now <= at && OrderedTimes(at, rest)
    ensures OrderedTimes(now, Burst(at, n) + rest)
    decreases n
  {
    if n == 0 {
      Unit(rest);
    } else {
      BurstOrdered(at, at, n - 1, rest);
      assert (Burst(at, n) + rest)[1..] == Burst(at, n - 1) + rest;
    }
  }
}
