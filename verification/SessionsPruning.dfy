/**
 What pruning does to current sessions: exactly when it keeps one and when it brings one back, and
 runs in which sessions are set and records pruned in any order.
 */
module SessionsPruning {
  import opened Base
  import opened CodePoints
  import opened Commands
  import opened Sessions
  import opened SessionsMeaning

  // ---- What is kept ---------------------------------------------------------------------------

  /** The last record kept. */
  predicate IsLastKept(rs: seq<Record>, active: set<string>, cutoff: int, i: nat) {
    i < |rs| && Keeps(rs[i], active, cutoff) && forall j | i < j < |rs| :: !Keeps(rs[j], active, cutoff)
  }

  lemma {:induction false} KeptNone(rs: seq<Record>, active: set<string>, cutoff: int)
    requires forall i | 0 <= i < |rs| :: !Keeps(rs[i], active, cutoff)
    ensures KeptRecords(rs, active, cutoff) == []
    decreases |rs|
  {
    if rs != [] { KeptNone(rs[..|rs| - 1], active, cutoff); }
  }

  lemma {:induction false} KeptEndsWith(rs: seq<Record>, active: set<string>, cutoff: int, i: nat)
    requires IsLastKept(rs, active, cutoff, i)
    ensures var kept := KeptRecords(rs, active, cutoff); kept != [] && kept[|kept| - 1] == rs[i]
    decreases |rs|
  {
    var n := |rs| - 1;
    if i < n {
      assert forall j | 0 <= j < n :: rs[..n][j] == rs[j];
      KeptEndsWith(rs[..n], active, cutoff, i);
    }
  }

  lemma {:induction false} FindLastKept(rs: seq<Record>, active: set<string>, cutoff: int, k: nat) returns (i: nat)
    requires k < |rs| && Keeps(rs[k], active, cutoff)
    ensures k <= i && IsLastKept(rs, active, cutoff, i)
    decreases |rs| - k
  {
    i := k;
    if j :| k < j < |rs| && Keeps(rs[j], active, cutoff) {
      i := FindLastKept(rs, active, cutoff, j);
    }
  }

  lemma {:induction false} KeptAll(rs: seq<Record>, active: set<string>, cutoff: int)
    requires |KeptRecords(rs, active, cutoff)| == |rs|
    ensures KeptRecords(rs, active, cutoff) == rs
    decreases |rs|
  {
    if rs != [] {
      var n := |rs| - 1;
      KeptAll(rs[..n], active, cutoff);
      assert rs == rs[..n] + [rs[n]];
    }
  }

  // ---- One clean-up ---------------------------------------------------------------------------

  /** A channel's records as a clean-up finds them. */
  function Found(store: Backing, k: string, c: Cleanup): Option<seq<Record>> { Parsed(At(store, k), c.now) }

  predicate Prunes(c: Cleanup, k: string) { k in c.listable && k in c.writable }

  /** After a clean-up a channel's current session is that of the records kept. */
  lemma PrunedCurrent(store: Backing, c: Cleanup, k: string)
    requires k in store && Found(store, k, c).Some?
    ensures var rs := Found(store, k, c).value;
            && CurrentOf(rs) == Current(store, k)
            && Current(Prune(store, c), k)
               == if Prunes(c, k) then CurrentOf(KeptRecords(rs, ActiveIDs(store, c.readable), c.cutoff))
                  else CurrentOf(rs)
  {
    hide ValidSessionID, CurrentOf, KeptRecords;
    var rs, active := Found(store, k, c).value, ActiveIDs(store, c.readable);
    LoadedCurrent(store, k, c.now);
    TouchKeepsRecords(store[k], k, c.readable, c);
    PrunedRecords(Touch(store[k], k, c.readable, c), k, active, c);
    LoadedCurrent(Prune(store, c), k, c.now);
  }

  lemma TouchKeepsRecords(d: Stored, k: string, loads: set<string>, c: Cleanup)
    ensures Parsed(Some(Touch(d, k, loads, c)), c.now) == Parsed(Some(d), c.now)
  {
    hide ValidSessionID;
  }

  lemma PrunedRecords(d: Stored, k: string, active: set<string>, c: Cleanup)
    requires Parsed(Some(d), c.now).Some?
    ensures var rs := Parsed(Some(d), c.now).value;
            Parsed(Some(PrunedValue(d, k, active, c)), c.now)
            == Some(if Prunes(c, k) then KeptRecords(rs, active, c.cutoff) else rs)
  {
    hide ValidSessionID, KeptRecords;
    var rs := Parsed(Some(d), c.now).value;
    var kept := KeptRecords(rs, active, c.cutoff);
    TouchKeepsRecords(d, k, c.listable, c);
    EncodedReadsBack(kept, c.now);
    if |kept| == |rs| { KeptAll(rs, active, c.cutoff); }
  }

  /** Exactly when pruning keeps a current session, records being in order of time: the channel is
      not pruned, its session was collected as active, or it started after the cutoff. */
  lemma KeepsCurrentExactly(store: Backing, c: Cleanup, k: string)
    requires k in store && Current(store, k) != "" && Found(store, k, c).Some?
             && Chronological(Found(store, k, c).value)
    ensures var rs := Found(store, k, c).value;
            rs != []
            && (Current(Prune(store, c), k) == Current(store, k)
                <==> !Prunes(c, k) || Current(store, k) in ActiveIDs(store, c.readable)
                     || c.cutoff < rs[|rs| - 1].startedAt)
  {
    hide ValidSessionID, Current, Prune, ActiveIDs, Prunes, Found;
    var rs, active := Found(store, k, c).value, ActiveIDs(store, c.readable);
    PrunedCurrent(store, c, k);
    EmptyIsNoID();
    var n := |rs| - 1;
    if Keeps(rs[n], active, c.cutoff) {
      KeptEndsWith(rs, active, c.cutoff, n);
    } else if i :| 0 <= i < |rs| && Keeps(rs[i], active, c.cutoff) {
      var last := FindLastKept(rs, active, c.cutoff, i);
      KeptEndsWith(rs, active, c.cutoff, last);
    } else {
      KeptNone(rs, active, c.cutoff);
    }
  }

  /** A record that becomes the current session: not cleared, its id active, and nothing kept after it. */
  predicate ComesBack(rs: seq<Record>, active: set<string>, cutoff: int, i: nat) {
    && i < |rs| && !rs[i].cleared && ValidSessionID(rs[i].id) && rs[i].id in active
    && forall j | i < j < |rs| :: !Keeps(rs[j], active, cutoff)
  }

  /** Exactly when pruning brings a session back where none is current. */
  lemma BringsBackExactly(store: Backing, c: Cleanup, k: string)
    requires k in store && Current(store, k) == "" && Found(store, k, c).Some?
             && Chronological(Found(store, k, c).value)
    ensures Current(Prune(store, c), k) != ""
        <==> Prunes(c, k) && exists i: nat ::
               ComesBack(Found(store, k, c).value, ActiveIDs(store, c.readable), c.cutoff, i)
  {
    hide ValidSessionID, Current, Prune, ActiveIDs, Prunes, Found;
    var rs, active := Found(store, k, c).value, ActiveIDs(store, c.readable);
    PrunedCurrent(store, c, k);
    EmptyIsNoID();
    if i: nat :| ComesBack(rs, active, c.cutoff, i) {
      KeptEndsWith(rs, active, c.cutoff, i);
    } else if i :| 0 <= i < |rs| && Keeps(rs[i], active, c.cutoff) {
      var last := FindLastKept(rs, active, c.cutoff, i);
      KeptEndsWith(rs, active, c.cutoff, last);
      if rs[last].id !in active { NewestKept(rs, active, c.cutoff, last); }
      assert !ComesBack(rs, active, c.cutoff, last);
    } else {
      KeptNone(rs, active, c.cutoff);
    }
  }

  /** A record kept for being new is followed by records as new. */
  lemma NewestKept(rs: seq<Record>, active: set<string>, cutoff: int, i: nat)
    requires IsLastKept(rs, active, cutoff, i) && Chronological(rs) && cutoff < rs[i].startedAt
    ensures i == |rs| - 1
  {
    assert rs[i].startedAt <= rs[|rs| - 1].startedAt || i == |rs| - 1;
  }

  // ---- Corollaries ----------------------------------------------------------------------------

  /** No other channel's current session has the id of one of this channel's records. */
  predicate Unshared(store: Backing, k: string) {
    forall other <- store, i | other != k && k in store && store[k].Records? && 0 <= i < |store[k].records| ::
      Current(store, other) != store[k].records[i].id || Current(store, other) == ""
  }

  /** Pruning at any cutoff keeps the current session of a channel that could be read. */
  lemma PruningKeepsSession(store: Backing, c: Cleanup, k: string)
    requires k in store && k in c.readable && Current(store, k) != ""
    ensures Current(Prune(store, c), k) == Current(store, k)
  {
    hide ValidSessionID, Prune, ActiveIDs;
    LoadedCurrent(store, k, c.now);
    var rs, active := Found(store, k, c).value, ActiveIDs(store, c.readable);
    CollectedIsActive(store, c, k);
    EmptyIsNoID();
    PrunedCurrent(store, c, k);
    KeptEndsWith(rs, active, c.cutoff, |rs| - 1);
  }

  lemma CollectedIsActive(store: Backing, c: Cleanup, k: string)
    requires k in store && k in c.readable && Current(store, k) != ""
    ensures Current(store, k) in ActiveIDs(store, c.readable)
  {}

  /** And it brings none back, where records are in order of time and ids not shared between
      channels. */
  lemma PruningBringsNoneBack(store: Backing, c: Cleanup, k: string)
    requires k in store && Current(store, k) == ""
    requires store[k].Records? ==> Chronological(store[k].records) && Unshared(store, k)
    ensures Current(Prune(store, c), k) == ""
  {
    hide ValidSessionID, Prune;
    EmptyIsNoID();
    LoadedCurrent(store, k, c.now);
    if Found(store, k, c).Some? {
      BringsBackExactly(store, c, k);
    } else {
      DamagedStays(store, c, k);
    }
  }

  lemma DamagedStays(store: Backing, c: Cleanup, k: string)
    requires k in store && store[k] == Damaged
    ensures Current(Prune(store, c), k) == ""
  {}

  /** So pruning changes no channel's current session. */
  lemma PruningChangesNothing(store: Backing, c: Cleanup, k: string)
    requires k in store && k in c.readable
    requires store[k].Records? ==> Chronological(store[k].records) && Unshared(store, k)
    ensures Current(Prune(store, c), k) == Current(store, k)
  {
    if Current(store, k) == "" { PruningBringsNoneBack(store, c, k); } else { PruningKeepsSession(store, c, k); }
  }

  /** And the file of a session that a channel could be read to have current is never removed, nor any
      file newer than the cutoff; every other one that can be is. */
  lemma FilesStayExactly(store: Backing, files: map<string, int>, c: Cleanup, id: string)
    requires id in files
    ensures id in FilesLeft(files, ActiveIDs(store, c.readable), c)
        <==> (exists k :: k in store && k in c.readable && Current(store, k) == id && id != "")
             || c.cutoff < files[id] || id !in c.removable
  {
    hide ValidSessionID, Current;
  }

  /** A channel that a clean-up cannot read, or cannot write, it leaves as it is. */
  lemma UntouchedStays(store: Backing, c: Cleanup, k: string)
    requires k in store
    requires (k !in c.readable && k !in c.listable) || (k !in c.migratable && k !in c.writable)
    ensures Prune(store, c)[k] == store[k]
  {
    hide ValidSessionID;
  }

  /** A clean-up that reads a channel still holding a plain session id makes a record of it. */
  lemma PlainBecomesRecord(store: Backing, c: Cleanup, k: string, id: string)
    requires k in store && store[k] == Plain(id) && ValidSessionID(id) && k in c.readable && k in c.migratable
    ensures Prune(store, c)[k] == Records([Record(id, c.now, Some(c.now), false)])
  {
    CollectedIsActive(store, c, k);
    var rs := [Record(id, c.now, Some(c.now), false)];
    assert rs[..0] == [] && Keeps(rs[0], ActiveIDs(store, c.readable), c.cutoff);
  }

  // ---- Witnesses ------------------------------------------------------------------------------

  function Working(now: int, cutoff: int, readable: set<string>, keys: set<string>): Cleanup {
    Cleanup(now, cutoff, readable, keys, keys, keys, {})
  }

  /** A session whose id another channel has current comes back after a reset on top of it is pruned. */
  lemma SharedIDComesBack()
    ensures var first := Record("s", 0, None, false);
            var store: Backing := map["a" := Records([first, Record("t", 1, None, true)]), "b" := Records([first])];
            Current(store, "a") == "" && Current(Prune(store, Working(9, 5, {"a", "b"}, {"a", "b"})), "a") == "s"
  {
    var first, last := Record("s", 0, None, false), Record("t", 1, None, true);
    var store: Backing := map["a" := Records([first, last]), "b" := Records([first])];
    var c := Working(9, 5, {"a", "b"}, {"a", "b"});
    ShortIsID();
    assert Current(store, "b") == "s";
    CollectedIsActive(store, c, "b");
    assert ActiveIDs(store, c.readable) == {"s"};
    PrunedCurrent(store, c, "a");
    KeptEndsWith([first, last], {"s"}, 5, 0);
  }

  lemma ShortIsID()
    ensures ValidSessionID("s")
  {
    assert ByteLength("s") == 1 by { assert "s"[1..] == ""; }
  }

  /** A channel that cannot be read when the active sessions are collected can lose its own. */
  lemma UnreadSessionIsLost()
    ensures var store: Backing := map["a" := Records([Record("s", 0, None, false)])];
            Current(store, "a") == "s" && Current(Prune(store, Working(9, 5, {}, {"a"})), "a") == ""
  {
    var store: Backing := map["a" := Records([Record("s", 0, None, false)])];
    ShortIsID();
    assert ActiveIDs(store, {}) == {};
    PrunedCurrent(store, Working(9, 5, {}, {"a"}), "a");
    KeptNone([Record("s", 0, None, false)], {}, 5);
  }

  // ---- Runs -----------------------------------------------------------------------------------

  /** A session set, or a clean-up that can read every channel when it collects. */
  datatype Op = Set(call: Call) | Clean(c: Cleanup)

  function Do(store: Backing, op: Op): Backing {
    match op
    case Set(call) => SetCurrent(store, call.key, call.sid, call.now, WORKING)
    case Clean(c) => Prune(store, c.(readable := store.Keys))
  }

  function DoAll(ops: seq<Op>): Backing {
    if ops == [] then map[] else Do(DoAll(ops[..|ops| - 1]), ops[|ops| - 1])
  }

  function Calls(ops: seq<Op>): seq<Call> {
    if ops == [] then []
    else Calls(ops[..|ops| - 1]) + match ops[|ops| - 1] case Set(call) => [call] case Clean(_) => []
  }

  /** The clock does not go back, and each session id belongs to one channel. */
  predicate Orderly(ops: seq<Op>, owner: map<string, string>) {
    && (forall i, j | 0 <= i < j < |ops| && ops[i].Set? && ops[j].Set? :: ops[i].call.now <= ops[j].call.now)
    && (forall i | 0 <= i < |ops| && ops[i].Set? && ops[i].call.sid != "" ::
          ops[i].call.sid in owner && owner[ops[i].call.sid] == ops[i].call.key)
  }

  /** Records in order of time, begun by some instant, and all of the channel's own ids. */
  predicate Own(rs: seq<Record>, k: string, owner: map<string, string>, upTo: int) {
    && Chronological(rs)
    && forall i | 0 <= i < |rs| :: rs[i].startedAt <= upTo && rs[i].id in owner && owner[rs[i].id] == k
  }

  /** What such runs store: a channel's own records, or the text an empty list is stored as. */
  predicate Stores(store: Backing, owner: map<string, string>, upTo: int) {
    forall k <- store :: store[k] == Encoded([]) || (store[k].Records? && Own(store[k].records, k, owner, upTo))
  }

  lemma {:induction false} KeptOwn(rs: seq<Record>, active: set<string>, cutoff: int, k: string,
                                   owner: map<string, string>, upTo: int)
    requires Own(rs, k, owner, upTo)
    ensures Own(KeptRecords(rs, active, cutoff), k, owner, upTo)
    ensures forall i | 0 <= i < |KeptRecords(rs, active, cutoff)| && rs != [] ::
              KeptRecords(rs, active, cutoff)[i].startedAt <= rs[|rs| - 1].startedAt
    decreases |rs|
  {
    if rs != [] { KeptOwn(rs[..|rs| - 1], active, cutoff, k, owner, upTo); }
  }

  lemma CleanKeepsStores(store: Backing, c: Cleanup, owner: map<string, string>, upTo: int)
    requires Stores(store, owner, upTo)
    ensures Stores(Prune(store, c), owner, upTo)
  {
    hide ActiveIDs, Own, ValidSessionID;
    NullIsNoID();
    forall k | k in store
      ensures var d := Prune(store, c)[k]; d == Encoded([]) || (d.Records? && Own(d.records, k, owner, upTo))
    {
      if store[k].Records? {
        KeptOwn(store[k].records, ActiveIDs(store, c.readable), c.cutoff, k, owner, upTo);
      }
    }
  }

  lemma SetKeepsStores(store: Backing, call: Call, owner: map<string, string>, upTo: int)
    requires Stores(store, owner, upTo) && upTo <= call.now
    requires call.sid != "" ==> call.sid in owner && owner[call.sid] == call.key
    ensures Stores(SetCurrent(store, call.key, call.sid, call.now, WORKING), owner, call.now)
  {
    hide ValidSessionID;
    NullIsNoID();
    if call.key in store && store[call.key].Records? {
      var rs := store[call.key].records;
      ResetClears(rs);
      assert Own(Reset(rs), call.key, owner, call.now);
      if call.sid != "" { TouchedOwn(rs, call, owner, upTo); }
    }
  }

  lemma TouchedOwn(rs: seq<Record>, call: Call, owner: map<string, string>, upTo: int)
    requires Own(rs, call.key, owner, upTo) && upTo <= call.now
    requires call.sid in owner && owner[call.sid] == call.key
    ensures Own(Touched(rs, call.sid, call.now), call.key, owner, call.now)
  {}

  lemma NullIsNoID()
    ensures !ValidSessionID("null")
  {
    assert LowersToWord("null", "null");
  }

  lemma StoresUnshared(store: Backing, k: string, owner: map<string, string>, upTo: int)
    requires Stores(store, owner, upTo) && k in store
    ensures store[k].Records? ==> Chronological(store[k].records) && Unshared(store, k)
  {
    NullIsNoID();
    hide ValidSessionID;
    forall other <- store, i | other != k && store[k].Records? && 0 <= i < |store[k].records|
      ensures Current(store, other) != store[k].records[i].id || Current(store, other) == ""
    {
      assert owner[store[k].records[i].id] == k;
    }
  }

  lemma StoresLater(store: Backing, owner: map<string, string>, upTo: int, later: int)
    requires Stores(store, owner, upTo) && upTo <= later
    ensures Stores(store, owner, later)
  {}

  lemma CleanKeepsCurrent(store: Backing, c: Cleanup, k: string, owner: map<string, string>, upTo: int)
    requires Stores(store, owner, upTo)
    ensures Current(Prune(store, c.(readable := store.Keys)), k) == Current(store, k)
  {
    hide Prune, Current;
    if k in store {
      StoresUnshared(store, k, owner, upTo);
      PruningChangesNothing(store, c.(readable := store.Keys), k);
    } else {
      AbsentStays(store, c.(readable := store.Keys), k);
    }
  }

  lemma AbsentStays(store: Backing, c: Cleanup, k: string)
    requires k !in store
    ensures Current(Prune(store, c), k) == Current(store, k)
  {}

  lemma StoresUndamaged(store: Backing, owner: map<string, string>, upTo: int, k: string)
    requires Stores(store, owner, upTo)
    ensures At(store, k) != Some(Damaged)
  {}

  lemma {:induction false} Refines(ops: seq<Op>, owner: map<string, string>, k: string, upTo: int)
    requires Orderly(ops, owner) && forall i | 0 <= i < |ops| && ops[i].Set? :: ops[i].call.now <= upTo
    ensures Stores(DoAll(ops), owner, upTo) && Current(DoAll(ops), k) == LastSet(Calls(ops), k)
    decreases |ops|
  {
    hide SetCurrent, Prune, Current, Stores, Aim;
    if ops == [] {
      NothingStored(owner, k, upTo);
    } else {
      var n := |ops| - 1;
      var front, last := ops[..n], ops[n];
      var before := DoAll(front);
      match last
      case Set(call) =>
        Refines(front, owner, k, call.now);
        Refines(front, owner, call.key, call.now);
        StoresUndamaged(before, owner, call.now, call.key);
        SetCurrentSets(before, call.key, call.sid, call.now, k);
        SetKeepsStores(before, call, owner, call.now);
        StoresLater(DoAll(ops), owner, call.now, upTo);
        assert Calls(ops) == Calls(front) + [call];
        LastSetSnoc(Calls(front), call, k);
      case Clean(c) =>
        Refines(front, owner, k, upTo);
        CleanKeepsCurrent(before, c, k, owner, upTo);
        CleanKeepsStores(before, c.(readable := before.Keys), owner, upTo);
        Unit(Calls(front));
    }
  }

  lemma NothingStored(owner: map<string, string>, k: string, upTo: int)
    ensures Stores(map[], owner, upTo) && Current(map[], k) == ""
  {}

  lemma LastSetSnoc(calls: seq<Call>, call: Call, k: string)
    ensures LastSet(calls + [call], k) == if call.key == k then Aim(LastSet(calls, k), call.sid) else LastSet(calls, k)
  {
    assert (calls + [call])[..|calls|] == calls;
  }

  /** Over any sequence of sessions set and clean-ups at any cutoff, with a clock that does not go
      back and ids that are not shared, each channel answers as one variable would to the calls
      alone: no clean-up is ever seen. */
  lemma RefinesWithCleanUps(ops: seq<Op>, owner: map<string, string>, k: string)
    requires Orderly(ops, owner)
    ensures Current(DoAll(ops), k) == LastSet(Calls(ops), k)
  {
    Refines(ops, owner, k, Latest(ops));
  }

  /** An instant no session is set after. */
  function Latest(ops: seq<Op>): (t: int)
    ensures forall i | 0 <= i < |ops| && ops[i].Set? :: ops[i].call.now <= t
  {
    if ops == [] then 0
    else
      var n := |ops| - 1;
      var before := Latest(ops[..n]);
      assert forall i | 0 <= i < n :: ops[..n][i] == ops[i];
      if ops[n].Set? && before < ops[n].call.now then ops[n].call.now else before
  }
}
