/**
 Access tiers that expire: EffectiveAccess of internal/repo/repo.go, which treats an elapsed
 grant as gone, and the sweep of internal/router/repo_lifecycle.go, which withdraws it in the
 store. Times are instants on one clock.
 */
module RepoAccess {
  import opened Base

  /** A tier as the store holds it; anything the code does not know is Other. */
  datatype Access = Unset | ReadOnly | PullRequestsOnly | FullWrite | Other(name: string)

  /** Durations of zero switch their rule off. */
  datatype TrackedRepo = TrackedRepo(
    name: string, url: string, branch: string, credential: string,
    access: Access, dropToReadOnlyAt: Option<int>,
    dropCloneIfUnusedFor: int, fetchEvery: int,
    addedAt: Option<int>, lastUsedAt: Option<int>, lastSyncedAt: Option<int>)

  predicate AllowsPush(a: Access) { a == PullRequestsOnly || a == FullWrite }

  function EffectiveAccess(r: TrackedRepo, now: int): Access {
    if r.access == Unset then ReadOnly
    else if r.dropToReadOnlyAt.Some? && r.dropToReadOnlyAt.value < now then ReadOnly
    else r.access
  }

  // ---- The sweep ------------------------------------------------------------------------------

  /** Whether expireGrant withdraws the grant. */
  predicate Lapsed(r: TrackedRepo, now: int) {
    r.dropToReadOnlyAt.Some? && r.dropToReadOnlyAt.value <= now && AllowsPush(r.access)
  }

  /** Whether dropUnusedClone finds the clone unused for long enough. */
  predicate Unused(r: TrackedRepo, now: int) {
    var lastUsed := if r.lastUsedAt.Some? then r.lastUsedAt else r.addedAt;
    r.dropCloneIfUnusedFor > 0 && lastUsed.Some? && now - lastUsed.value >= r.dropCloneIfUnusedFor
  }

  predicate FetchDue(r: TrackedRepo, now: int) {
    r.fetchEvery > 0 && (r.lastSyncedAt.None? || now - r.lastSyncedAt.value >= r.fetchEvery)
  }

  /** One pass: its instant, the repos whose store writes work, and those whose clone can be removed
      or fetched. */
  datatype Pass = Pass(now: int, writable: set<string>, removable: set<string>, fetchable: set<string>)

  /** The tracked repos, and those with a clone on disk. */
  datatype Holdings = Holdings(repos: map<string, TrackedRepo>, clones: set<string>)

  predicate Expires(r: TrackedRepo, p: Pass) { Lapsed(r, p.now) && r.name in p.writable }

  predicate DropsClone(r: TrackedRepo, p: Pass) { !Expires(r, p) && Unused(r, p.now) && r.name in p.removable }

  /** What one pass leaves in the store for a repo that has a clone, or not. */
  function SweepOne(r: TrackedRepo, cloned: bool, p: Pass): TrackedRepo {
    if Expires(r, p) then r.(access := ReadOnly, dropToReadOnlyAt := None)
    else if FetchDue(r, p.now) && cloned && !DropsClone(r, p) && r.name in p.fetchable && r.name in p.writable
    then r.(lastSyncedAt := Some(p.now))
    else r
  }

  function Sweep(h: Holdings, p: Pass): Holdings {
    Holdings(map n | n in h.repos :: SweepOne(h.repos[n], n in h.clones, p),
             set n | n in h.clones && (n in h.repos ==> !DropsClone(h.repos[n], p)))
  }

  function SweepAll(h: Holdings, passes: seq<Pass>): Holdings
    decreases |passes|
  {
    if passes == [] then h else SweepAll(Sweep(h, passes[0]), passes[1..])
  }

  /** The store keeps each repo under its own name. */
  ghost predicate Named(repos: map<string, TrackedRepo>) {
    forall n :: n in repos ==> repos[n].name == n
  }

  /** repo.Store, with writes that may fail, and the clones. */
  class Store {
    var repos: map<string, TrackedRepo>
    var clones: set<string>

    constructor (h: Holdings)
      ensures View() == h
    {
      repos, clones := h.repos, h.clones;
    }

    function View(): Holdings
      reads this
    {
      Holdings(repos, clones)
    }

    method Put(r: TrackedRepo, works: bool) returns (ok: bool)
      modifies this`repos
      ensures ok == works && repos == if works then old(repos)[r.name := r] else old(repos)
    {
      ok := works;
      if works { repos := repos[r.name := r]; }
    }
  }

  method ExpireGrant(store: Store, tracked: TrackedRepo, p: Pass) returns (changed: bool)
    modifies store`repos
    ensures changed == Expires(tracked, p)
    ensures store.repos
         == if changed then old(store.repos)[tracked.name := tracked.(access := ReadOnly, dropToReadOnlyAt := None)]
            else old(store.repos)
  {
    if tracked.dropToReadOnlyAt.None? || p.now < tracked.dropToReadOnlyAt.value { return false; }
    if !AllowsPush(tracked.access) { return false; }
    changed := store.Put(tracked.(access := ReadOnly, dropToReadOnlyAt := None), tracked.name in p.writable);
  }

  method DropUnusedClone(store: Store, tracked: TrackedRepo, p: Pass)
    modifies store`clones
    ensures store.clones
         == if Unused(tracked, p.now) && tracked.name in p.removable then old(store.clones) - {tracked.name}
            else old(store.clones)
  {
    if tracked.dropCloneIfUnusedFor <= 0 { return; }
    var lastUsed := tracked.lastUsedAt;
    if lastUsed.None? { lastUsed := tracked.addedAt; }
    if lastUsed.None? || p.now - lastUsed.value < tracked.dropCloneIfUnusedFor { return; }
    if tracked.name !in store.clones || tracked.name !in p.removable { return; }
    store.clones := store.clones - {tracked.name};
  }

  method RefreshRepo(store: Store, tracked: TrackedRepo, p: Pass)
    modifies store`repos
    ensures store.repos
         == if FetchDue(tracked, p.now) && tracked.name in store.clones
               && tracked.name in p.fetchable && tracked.name in p.writable
            then old(store.repos)[tracked.name := tracked.(lastSyncedAt := Some(p.now))]
            else old(store.repos)
  {
    if tracked.fetchEvery <= 0 { return; }
    if tracked.lastSyncedAt.Some? && p.now - tracked.lastSyncedAt.value < tracked.fetchEvery { return; }
    if tracked.name !in store.clones || tracked.name !in p.fetchable { return; }
    var _ := store.Put(tracked.(lastSyncedAt := Some(p.now)), tracked.name in p.writable);
  }

  /** The body of the sweep's loop. */
  method SweepRepo(store: Store, tracked: TrackedRepo, p: Pass)
    requires tracked.name in store.repos && store.repos[tracked.name] == tracked
    modifies store
    ensures store.repos == old(store.repos)[tracked.name := SweepOne(tracked, tracked.name in old(store.clones), p)]
    ensures store.clones == if DropsClone(tracked, p) then old(store.clones) - {tracked.name} else old(store.clones)
  {
    var changed := ExpireGrant(store, tracked, p);
    if changed { return; }
    DropUnusedClone(store, tracked, p);
    RefreshRepo(store, tracked, p);
  }

  /** runRepoSweep: whatever order the map is walked in, every repo is swept once. */
  method RunRepoSweep(store: Store, p: Pass)
    requires Named(store.repos)
    modifies store
    ensures store.View() == Sweep(old(store.View()), p) && Named(store.repos)
  {
    hide SweepOne, DropsClone;
    var listed := store.repos;
    ghost var had := store.clones;
    var left := listed.Keys;
    while left != {}
      invariant left <= listed.Keys == store.repos.Keys
      invariant forall n :: n in left ==> store.repos[n] == listed[n]
      invariant forall n :: n in listed.Keys - left ==> store.repos[n] == SweepOne(listed[n], n in had, p)
      invariant forall n :: n in store.clones <==> n in had && (n in listed.Keys - left ==> !DropsClone(listed[n], p))
      decreases |left|
    {
      var n :| n in left;
      left := left - {n};
      SweepRepo(store, listed[n], p);
    }
    SweptNamed(old(store.View()), p);
    assert store.repos == Sweep(old(store.View()), p).repos;
    assert store.clones == Sweep(old(store.View()), p).clones;
  }

  lemma SweptNamed(h: Holdings, p: Pass)
    requires Named(h.repos)
    ensures Named(Sweep(h, p).repos)
  {}

  // ---- What a pass does -----------------------------------------------------------------------

  /** The tier in force: no more than the one stored, which pushes until its grant has ended. */
  lemma TierExactly(r: TrackedRepo, now: int)
    ensures EffectiveAccess(r, now)
         == if r.access == Unset || (r.dropToReadOnlyAt.Some? && now > r.dropToReadOnlyAt.value) then ReadOnly
            else r.access
    ensures EffectiveAccess(r, now).FullWrite? ==> r.access == FullWrite
    ensures EffectiveAccess(r, now).PullRequestsOnly? ==> r.access == PullRequestsOnly
  {}

  /** The last time a repo was used, or else added. */
  predicate IdleFor(r: TrackedRepo, now: int, long: int) {
    (r.lastUsedAt.Some? && now - r.lastUsedAt.value >= long)
    || (r.lastUsedAt.None? && r.addedAt.Some? && now - r.addedAt.value >= long)
  }

  /** One pass over all repos and clones. A push grant that has ended is withdrawn if that can be
      written, and then nothing else is done for the repo. Otherwise a clone not used for as long as
      its rule says, since it was last used or else added, goes if it can; and a clone that stays is
      fetched when its interval has passed since the last time. */
  lemma PassExactly(h: Holdings, p: Pass, n: string)
    requires Named(h.repos) && n in h.repos
    ensures var r, h' := h.repos[n], Sweep(h, p);
            var ended := n in p.writable && (r.access == PullRequestsOnly || r.access == FullWrite)
                         && r.dropToReadOnlyAt.Some? && r.dropToReadOnlyAt.value <= p.now;
            var drops := !ended && n in p.removable
                         && r.dropCloneIfUnusedFor > 0 && IdleFor(r, p.now, r.dropCloneIfUnusedFor);
            var fetched := !ended && !drops && n in h.clones && n in p.fetchable && n in p.writable && r.fetchEvery > 0
                           && (r.lastSyncedAt.Some? ==> p.now - r.lastSyncedAt.value >= r.fetchEvery);
            && h'.repos.Keys == h.repos.Keys
            && (n in h'.clones <==> n in h.clones && !drops)
            && h'.repos[n] == if ended then r.(access := ReadOnly, dropToReadOnlyAt := None)
                              else if fetched then r.(lastSyncedAt := Some(p.now)) else r
  {}

  // ---- Lazy and eager expiry agree ------------------------------------------------------------

  /** Sweeping at n changes the tier in force at no later instant, but for one: the instant the
      grant ends, swept at that very instant, when the grant still counts and the sweep ends it. */
  lemma SweepKeepsAccess(r: TrackedRepo, cloned: bool, p: Pass, t: int)
    requires p.now <= t
    ensures EffectiveAccess(SweepOne(r, cloned, p), t) == EffectiveAccess(r, t)
        <==> !(t == p.now && r.dropToReadOnlyAt == Some(t) && AllowsPush(r.access) && r.name in p.writable)
  {}

  /** Some pass at t could write the repo. */
  predicate SweptAt(passes: seq<Pass>, name: string, t: int) {
    exists i :: 0 <= i < |passes| && passes[i].now == t && name in passes[i].writable
  }

  /** Over any number of passes up to t, failed writes and background fetches among them. */
  lemma {:induction false} SweepsKeepAccess(h: Holdings, passes: seq<Pass>, n: string, t: int)
    requires Named(h.repos) && n in h.repos && forall i | 0 <= i < |passes| :: passes[i].now <= t
    ensures Named(SweepAll(h, passes).repos) && n in SweepAll(h, passes).repos
    ensures EffectiveAccess(SweepAll(h, passes).repos[n], t) == EffectiveAccess(h.repos[n], t)
        <==> !(h.repos[n].dropToReadOnlyAt == Some(t) && AllowsPush(h.repos[n].access) && SweptAt(passes, n, t))
    decreases |passes|
  {
    if passes != [] {
      var p, later := passes[0], passes[1..];
      SweepsKeepAccess(Sweep(h, p), later, n, t);
      SweptLater(passes, n, t);
    }
  }

  lemma SweptLater(passes: seq<Pass>, n: string, t: int)
    requires passes != []
    ensures SweptAt(passes, n, t) <==> (passes[0].now == t && n in passes[0].writable) || SweptAt(passes[1..], n, t)
  {
    if SweptAt(passes[1..], n, t) {
      var i :| 0 <= i < |passes[1..]| && passes[1..][i].now == t && n in passes[1..][i].writable;
      assert passes[i + 1] == passes[1..][i];
    }
    if SweptAt(passes, n, t) && !(passes[0].now == t && n in passes[0].writable) {
      var i :| 0 <= i < |passes| && passes[i].now == t && n in passes[i].writable;
      assert passes[1..][i - 1] == passes[i];
    }
  }

  lemma {:induction false} SweepsKeepNames(h: Holdings, passes: seq<Pass>)
    ensures SweepAll(h, passes).repos.Keys == h.repos.Keys && SweepAll(h, passes).clones <= h.clones
    decreases |passes|
  {
    if passes != [] { SweepsKeepNames(Sweep(h, passes[0]), passes[1..]); }
  }

  /** Nothing of a repo but the tier, its end and the time of the last fetch ever changes, and a
      clone without a rule to drop it stays. */
  lemma {:induction false} SweepsKeepTheRest(h: Holdings, passes: seq<Pass>, n: string)
    requires n in h.repos
    ensures n in SweepAll(h, passes).repos
    ensures var r := SweepAll(h, passes).repos[n];
            r == h.repos[n].(access := r.access, dropToReadOnlyAt := r.dropToReadOnlyAt, lastSyncedAt := r.lastSyncedAt)
    ensures n in h.clones && h.repos[n].dropCloneIfUnusedFor <= 0 ==> n in SweepAll(h, passes).clones
    decreases |passes|
  {
    if passes != [] {
      SweepsKeepTheRest(Sweep(h, passes[0]), passes[1..], n);
    }
  }

  /** It happens: a grant swept at the instant it ends is in force there unswept, and gone swept. */
  lemma SweptAtItsEnd(r: TrackedRepo, p: Pass)
    requires r.access == FullWrite && r.dropToReadOnlyAt == Some(p.now) && r.name in p.writable
    ensures EffectiveAccess(r, p.now) == FullWrite
    ensures var h := Holdings(map[r.name := r], {}); EffectiveAccess(Sweep(h, p).repos[r.name], p.now) == ReadOnly
  {}
}
