/**
 Session history per channel (internal/channel/session_store.go) and its pruning
 (internal/router/session_cleanup.go). Instants are on one clock; a stored value is a list of
 records, the older plain session id, or damaged.
 */
module Sessions {
  import opened Base
  import opened CodePoints
  import opened Commands

  datatype Record = Record(id: string, startedAt: int, lastUsedAt: Option<int>, cleared: bool)

  datatype Stored = Records(records: seq<Record>) | Plain(text: string) | Damaged

  type Backing = map<string, Stored>

  /** Which reads and writes of the backing store work during one call. */
  datatype Access = Access(canRead: bool, canMigrate: bool, canWrite: bool)

  const WORKING := Access(true, true, true)

  // ---- Session ids ----------------------------------------------------------------------------

  predicate ValidSessionID(sid: string) {
    && sid != "" && ByteLength(sid) <= 256
    && !LowersToWord(sid, "null") && !LowersToWord(sid, "undefined")
    && !LowersToWord(sid, "<nil>") && !LowersToWord(sid, "nil")
    && forall i | 0 <= i < |sid| :: sid[i] as int >= 0x20 && sid[i] as int != 0x7F
  }

  // ---- Reading and writing --------------------------------------------------------------------

  /** The records of a stored value; None when it does not parse. */
  function Parsed(d: Option<Stored>, now: int): Option<seq<Record>> {
    match d
    case None => Some([])
    case Some(Records(rs)) => Some(rs)
    case Some(Plain(text)) => Some(if ValidSessionID(text) then [Record(text, now, Some(now), false)] else [])
    case Some(Damaged) => None
  }

  function At(store: Backing, key: string): Option<Stored> {
    if key in store then Some(store[key]) else None
  }

  /** An empty list is marshalled as null, which reads back as a plain text that is no session id. */
  function Encoded(rs: seq<Record>): Stored {
    if rs == [] then Plain("null") else Records(rs)
  }

  /** load: the records, and the store after a plain session id may have been migrated. */
  function Load(store: Backing, key: string, now: int, access: Access): (Option<seq<Record>>, Backing) {
    if !access.canRead then (None, store)
    else
      var rs := Parsed(At(store, key), now);
      match At(store, key)
      case Some(Plain(text)) =>
        (rs, if ValidSessionID(text) && access.canMigrate && rs.Some? then store[key := Encoded(rs.value)] else store)
      case _ => (rs, store)
  }

  function CurrentOf(rs: seq<Record>): string {
    if rs == [] || rs[|rs| - 1].cleared || !ValidSessionID(rs[|rs| - 1].id) then "" else rs[|rs| - 1].id
  }

  /** What Current answers when its read works. */
  function Current(store: Backing, key: string): string {
    match Parsed(At(store, key), 0)
    case None => ""
    case Some(rs) => CurrentOf(rs)
  }

  /** CurrentWithinDetailed: the current session unless it has been unused for too long, and whether
      that is why there is none. A maximum of zero is no limit. */
  function CurrentWithin(rs: seq<Record>, maxAge: nat, now: int): (string, bool) {
    if CurrentOf(rs) == "" then ("", false)
    else
      var last := rs[|rs| - 1];
      var used := if last.lastUsedAt.Some? then last.lastUsedAt.value else last.startedAt;
      if maxAge > 0 && now - used > maxAge then ("", true) else (last.id, false)
  }

  /** The records with the last one not cleared marked as cleared. */
  function Reset(rs: seq<Record>): (r: seq<Record>)
    ensures |r| == |rs|
    decreases |rs|
  {
    if rs == [] then []
    else
      var n := |rs| - 1;
      if rs[n].cleared then Reset(rs[..n]) + [rs[n]] else rs[..n] + [rs[n].(cleared := true)]
  }

  function Touched(rs: seq<Record>, sid: string, now: int): seq<Record> {
    var n := |rs| - 1;
    if rs != [] && rs[n].id == sid && !rs[n].cleared then rs[..n] + [rs[n].(lastUsedAt := Some(now))]
    else rs + [Record(sid, now, Some(now), false)]
  }

  function SetCurrent(store: Backing, key: string, sid: string, now: int, access: Access): Backing {
    if sid != "" && !ValidSessionID(sid) then store
    else
      var (rs, after) := Load(store, key, now, access);
      if rs.None? || !access.canWrite then after
      else after[key := Encoded(if sid == "" then Reset(rs.value) else Touched(rs.value, sid, now))]
  }

  method MarkCleared(records: seq<Record>) returns (r: seq<Record>)
    ensures r == Reset(records)
  {
    var i := |records| - 1;
    assert records[..i + 1] == records && records[i + 1..] == [];
    while i >= 0 && records[i].cleared
      invariant -1 <= i < |records|
      invariant Reset(records) == Reset(records[..i + 1]) + records[i + 1..]
    {
      assert records[..i + 1][..i] == records[..i];
      assert records[i..] == [records[i]] + records[i + 1..];
      Associative(Reset(records[..i]), [records[i]], records[i + 1..]);
      i := i - 1;
    }
    if i < 0 { return records; }
    assert records[..i + 1][..i] == records[..i];
    return records[i := records[i].(cleared := true)];
  }

  class SessionStore {
    var store: Backing

    constructor ()
      ensures store == map[]
    {
      store := map[];
    }

    method LoadRecords(key: string, now: int, access: Access) returns (rs: Option<seq<Record>>)
      modifies this
      ensures (rs, store) == Load(old(store), key, now, access)
    {
      if !access.canRead { return None; }
      if key !in store { return Some([]); }
      match store[key] {
        case Records(stored) => return Some(stored);
        case Damaged => return None;
        case Plain(text) =>
          if !ValidSessionID(text) { return Some([]); }
          var records := [Record(text, now, Some(now), false)];
          if access.canMigrate { store := store[key := Encoded(records)]; }
          return Some(records);
      }
    }

    method Set(key: string, sid: string, now: int, access: Access) returns (ok: bool)
      modifies this
      ensures store == SetCurrent(old(store), key, sid, now, access)
    {
      if sid != "" && !ValidSessionID(sid) { return true; }
      var loaded := LoadRecords(key, now, access);
      if loaded.None? { return false; }
      var records := loaded.value;
      if sid == "" {
        records := MarkCleared(records);
      } else {
        var n := |records| - 1;
        if n >= 0 && records[n].id == sid && !records[n].cleared {
          records := records[..n] + [records[n].(lastUsedAt := Some(now))];
        } else {
          records := records + [Record(sid, now, Some(now), false)];
        }
      }
      if access.canWrite { store := store[key := Encoded(records)]; }
      ok := access.canWrite;
    }
  }

  // ---- Pruning --------------------------------------------------------------------------------

  /** The current sessions of the channels whose store could be read. */
  function ActiveIDs(store: Backing, readable: set<string>): set<string> {
    set k | k in store && k in readable && Current(store, k) != "" :: Current(store, k)
  }

  predicate Keeps(r: Record, active: set<string>, cutoff: int) { r.id in active || cutoff < r.startedAt }

  function KeptRecords(rs: seq<Record>, active: set<string>, cutoff: int): (r: seq<Record>)
    ensures |r| <= |rs|
  {
    if rs == [] then []
    else
      var n := |rs| - 1;
      KeptRecords(rs[..n], active, cutoff) + if Keeps(rs[n], active, cutoff) then [rs[n]] else []
  }

  /** A stored value once it has been loaded: a plain session id becomes a record. */
  function Migrated(d: Stored, now: int): Stored {
    if d.Plain? && ValidSessionID(d.text) then Records([Record(d.text, now, Some(now), false)]) else d
  }

  /** One clean-up: its instant and cutoff, the channels that can be read when the active sessions
      are collected and when records are pruned, those whose migration can be written and those
      whose pruned records can, and the sessions whose file can be removed. */
  datatype Cleanup = Cleanup(
    now: int, cutoff: int, readable: set<string>, listable: set<string>, migratable: set<string>,
    writable: set<string>, removable: set<string>)

  /** A channel's stored value once it has been loaded, or not. */
  function Touch(d: Stored, k: string, loads: set<string>, c: Cleanup): Stored {
    if k in loads && k in c.migratable then Migrated(d, c.now) else d
  }

  /** What pruning a channel's records leaves of its stored value. */
  function PrunedValue(d: Stored, k: string, active: set<string>, c: Cleanup): Stored {
    match Parsed(Some(d), c.now)
    case None => d
    case Some(rs) =>
      var kept := KeptRecords(rs, active, c.cutoff);
      if k in c.listable && k in c.writable && |kept| < |rs| then Encoded(kept) else Touch(d, k, c.listable, c)
  }

  function PruneOne(d: Stored, k: string, active: set<string>, c: Cleanup): Stored {
    PrunedValue(Touch(d, k, c.readable, c), k, active, c)
  }

  function Prune(store: Backing, c: Cleanup): Backing {
    var active := ActiveIDs(store, c.readable);
    map k | k in store :: PruneOne(store[k], k, active, c)
  }

  method KeepRecords(rs: seq<Record>, active: set<string>, cutoff: int) returns (kept: seq<Record>)
    ensures kept == KeptRecords(rs, active, cutoff)
  {
    kept := [];
    for i := 0 to |rs|
      invariant kept == KeptRecords(rs[..i], active, cutoff)
    {
      assert rs[..i + 1][..i] == rs[..i];
      if rs[i].id in active || cutoff < rs[i].startedAt { kept := kept + [rs[i]]; }
    }
    assert rs[..|rs|] == rs;
  }

  /** Loading finds the current session, whenever it is done. */
  lemma LoadedCurrent(store: Backing, k: string, now: int)
    ensures match Parsed(At(store, k), now)
            case None => Current(store, k) == ""
            case Some(rs) => CurrentOf(rs) == Current(store, k)
  {
    hide ValidSessionID;
  }

  /** collectActiveSessionIDs: loading a channel may migrate it. */
  method CollectActive(s: SessionStore, c: Cleanup) returns (active: set<string>)
    modifies s
    ensures active == ActiveIDs(old(s.store), c.readable)
    ensures s.store == map k | k in old(s.store) :: Touch(old(s.store)[k], k, c.readable, c)
  {
    hide ValidSessionID, CurrentOf, Current;
    active := {};
    ghost var before := s.store;
    var left := s.store.Keys;
    while left != {}
      invariant left <= before.Keys == s.store.Keys
      invariant active == set k |
                          k in before && k !in left && k in c.readable && Current(before, k) != "" :: Current(before, k)
      invariant forall k :: k in left ==> s.store[k] == before[k]
      invariant forall k :: k in before.Keys - left ==> s.store[k] == Touch(before[k], k, c.readable, c)
      decreases |left|
    {
      var k :| k in left;
      left := left - {k};
      LoadedCurrent(before, k, c.now);
      var rs := s.LoadRecords(k, c.now, Access(k in c.readable, k in c.migratable, true));
      if rs.Some? && CurrentOf(rs.value) != "" { active := active + {CurrentOf(rs.value)}; }
    }
  }

  method PruneChannel(s: SessionStore, k: string, active: set<string>, c: Cleanup)
    requires k in s.store
    modifies s
    ensures s.store == old(s.store)[k := PrunedValue(old(s.store)[k], k, active, c)]
  {
    hide ValidSessionID;
    var rs := s.LoadRecords(k, c.now, Access(k in c.listable, k in c.migratable, true));
    if rs.None? { return; }
    var kept := KeepRecords(rs.value, active, c.cutoff);
    if |kept| < |rs.value| && k in c.writable { s.store := s.store[k := Encoded(kept)]; }
  }

  /** The CLI's own session files, by session id with the time each was last modified: those left. */
  function FilesLeft(files: map<string, int>, active: set<string>, c: Cleanup): map<string, int> {
    map id | id in files && (id in active || c.cutoff < files[id] || id !in c.removable) :: files[id]
  }

  method RemoveFiles(files: map<string, int>, active: set<string>, c: Cleanup) returns (left: map<string, int>)
    ensures left == FilesLeft(files, active, c)
  {
    left := files;
    var todo := files.Keys;
    while todo != {}
      invariant todo <= files.Keys && left.Keys <= files.Keys && forall id :: id in left ==> left[id] == files[id]
      invariant forall id :: id in files ==> (id in left <==> id in todo || id in FilesLeft(files, active, c))
      decreases |todo|
    {
      var id :| id in todo;
      todo := todo - {id};
      if id in active || c.cutoff < files[id] || id !in c.removable { continue; }
      left := left - {id};
    }
  }

  /** cleanupStaleSessions: nothing is done unless the directory of the session files can be read. */
  method CleanUp(s: SessionStore, files: Option<map<string, int>>, c: Cleanup) returns (left: Option<map<string, int>>)
    modifies s
    ensures s.store == if files.None? then old(s.store) else Prune(old(s.store), c)
    ensures left == if files.None? then None
                    else Some(FilesLeft(files.value, ActiveIDs(old(s.store), c.readable), c))
  {
    hide PrunedValue, Touch;
    if files.None? { return None; }
    ghost var before := s.store;
    var active := CollectActive(s, c);
    var kept := RemoveFiles(files.value, active, c);
    left := Some(kept);
    ghost var between := s.store;
    var todo := s.store.Keys;
    while todo != {}
      invariant todo <= before.Keys == s.store.Keys
      invariant forall k :: k in todo ==> s.store[k] == between[k]
      invariant forall k :: k in before.Keys - todo ==> s.store[k] == PruneOne(before[k], k, active, c)
      decreases |todo|
    {
      var k :| k in todo;
      todo := todo - {k};
      PruneChannel(s, k, active, c);
    }
  }
}
