/**
 The session store seen from outside: one optional current session per channel.
 */
module SessionsMeaning {
  import opened Base
  import opened CodePoints
  import opened Commands
  import opened Sessions

  // ---- Setting --------------------------------------------------------------------------------

  /** A reset clears the last record, or it was clear before. */
  lemma {:induction false} ResetClears(rs: seq<Record>)
    ensures CurrentOf(Reset(rs)) == ""
    ensures forall i | 0 <= i < |rs| :: Reset(rs)[i].id == rs[i].id && Reset(rs)[i].startedAt == rs[i].startedAt
    decreases |rs|
  {
    if rs != [] {
      var n := |rs| - 1;
      if rs[n].cleared { ResetClears(rs[..n]); }
    }
  }

  lemma EncodedReadsBack(rs: seq<Record>, now: int)
    ensures Parsed(Some(Encoded(rs)), now) == Some(rs)
  {
    assert LowersToWord("null", "null");
  }

  /** What a call that reads and writes successfully makes the current session. */
  function Aim(before: string, sid: string): string {
    if sid == "" then "" else if ValidSessionID(sid) then sid else before
  }

  /** SetCurrent sets, keeps, resets or ignores, and touches no other channel. */
  lemma SetCurrentSets(store: Backing, key: string, sid: string, now: int, k: string)
    requires At(store, key) != Some(Damaged)
    ensures var after := SetCurrent(store, key, sid, now, WORKING);
            Current(after, k) == (if k == key then Aim(Current(store, key), sid) else Current(store, k))
            && At(after, key) != Some(Damaged)
  {
    hide ValidSessionID;
    EmptyIsNoID();
    if k == key && (sid == "" || ValidSessionID(sid)) {
      var rs := Parsed(At(store, key), now).value;
      if sid == "" {
        ResetClears(rs);
        EncodedReadsBack(Reset(rs), 0);
      } else {
        EncodedReadsBack(Touched(rs, sid, now), 0);
      }
    }
  }

  lemma EmptyIsNoID()
    ensures !ValidSessionID("")
  {}

  datatype Call = Call(key: string, sid: string, now: int)

  function SetAll(store: Backing, calls: seq<Call>): Backing {
    if calls == [] then store
    else
      var n := |calls| - 1;
      SetCurrent(SetAll(store, calls[..n]), calls[n].key, calls[n].sid, calls[n].now, WORKING)
  }

  /** The last session set for a channel, a reset counting and an invalid id not. */
  function LastSet(calls: seq<Call>, k: string): string {
    if calls == [] then ""
    else
      var n := |calls| - 1;
      if calls[n].key == k then Aim(LastSet(calls[..n], k), calls[n].sid) else LastSet(calls[..n], k)
  }

  predicate Undamaged(store: Backing) { forall k <- store :: store[k] != Damaged }

  /** Over any calls on any channels the store answers as one variable per channel would. */
  lemma {:induction false} RefinesOneVariable(calls: seq<Call>, k: string)
    ensures Undamaged(SetAll(map[], calls)) && Current(SetAll(map[], calls), k) == LastSet(calls, k)
    decreases |calls|
  {
    hide ValidSessionID, Current, Aim;
    if calls == [] {
      NothingCurrent(k);
    } else {
      var n := |calls| - 1;
      var before := SetAll(map[], calls[..n]);
      RefinesOneVariable(calls[..n], k);
      RefinesOneVariable(calls[..n], calls[n].key);
      SetCurrentSets(before, calls[n].key, calls[n].sid, calls[n].now, k);
    }
  }

  lemma NothingCurrent(k: string)
    ensures Current(map[], k) == ""
  {}

  /** A session ages from the last call that set it: it is current at t exactly if no more than the
      maximum age has passed, and otherwise reported as timed out; a reset is not. */
  lemma SessionAges(store: Backing, key: string, sid: string, now: int, maxAge: nat, t: int)
    requires At(store, key) != Some(Damaged) && (sid == "" || ValidSessionID(sid))
    ensures var rs := Parsed(At(SetCurrent(store, key, sid, now, WORKING), key), t);
            rs.Some? && CurrentWithin(rs.value, maxAge, t)
                        == if sid == "" then ("", false)
                           else if maxAge > 0 && t - now > maxAge then ("", true)
                           else (sid, false)
  {
    hide ValidSessionID;
    EmptyIsNoID();
    var rs := Parsed(At(store, key), now).value;
    if sid == "" {
      ResetClears(rs);
      EncodedReadsBack(Reset(rs), t);
    } else {
      EncodedReadsBack(Touched(rs, sid, now), t);
    }
  }

  /** Whatever reads and writes fail, the ids and start times a channel has recorded stay, in order. */
  lemma HistoryGrows(store: Backing, key: string, sid: string, now: int, access: Access, k: string)
    requires k in store && store[k].Records?
    ensures var after := SetCurrent(store, key, sid, now, access);
            k in after && (after[k].Records? || store[k].records == [])
            && (store[k].records != [] ==>
                  |store[k].records| <= |after[k].records|
                  && forall i | 0 <= i < |store[k].records| ::
                       after[k].records[i].id == store[k].records[i].id
                       && after[k].records[i].startedAt == store[k].records[i].startedAt)
  {
    hide ValidSessionID;
    if k == key { ResetClears(store[k].records); }
  }

  /** What a call that reads and writes successfully leaves of a channel's records: an invalid id, or
      a reset with all cleared, changes nothing; a reset clears the last record not cleared; the
      current session set again is only used again; any other begins a record at the end. */
  lemma RecordsExactly(store: Backing, key: string, sid: string, now: int)
    requires key in store && store[key].Records? && store[key].records != []
    ensures var rs := store[key].records;
            var last := rs[|rs| - 1];
            var after := SetCurrent(store, key, sid, now, WORKING);
            && (forall k | k in store && k != key :: k in after && after[k] == store[k]) && key in after
            && (after[key] != store[key] ==> after[key].Records?)
            && if sid == "" then
                 (forall i: nat | LastUncleared(rs, i) :: after[key] == Records(rs[i := rs[i].(cleared := true)]))
                 && ((forall i: nat :: !LastUncleared(rs, i)) ==> after[key] == store[key])
               else if !ValidSessionID(sid) then after == store
               else if last.id == sid && !last.cleared then
                 after[key] == Records(rs[|rs| - 1 := last.(lastUsedAt := Some(now))])
               else after[key] == Records(rs + [Record(sid, now, Some(now), false)])
  {
    hide ValidSessionID, LastUncleared;
    EmptyIsNoID();
    ResetExactly(store[key].records);
  }

  lemma {:induction false} ResetExactly(rs: seq<Record>)
    ensures forall i: nat | LastUncleared(rs, i) :: Reset(rs) == rs[i := rs[i].(cleared := true)]
    ensures (forall i: nat :: !LastUncleared(rs, i)) ==> Reset(rs) == rs
    decreases |rs|
  {
    if rs != [] {
      var n := |rs| - 1;
      if rs[n].cleared {
        ResetExactly(rs[..n]);
        forall i: nat ensures LastUncleared(rs, i) <==> LastUncleared(rs[..n], i) {
          if LastUncleared(rs[..n], i) {
            forall j | i < j < |rs| ensures rs[j].cleared { if j < n { assert rs[..n][j] == rs[j]; } }
          }
        }
      } else {
        assert LastUncleared(rs, n);
        assert forall i: nat | LastUncleared(rs, i) :: i == n;
      }
    }
  }

  /** No record after place i is left to clear. */
  predicate LastUncleared(rs: seq<Record>, i: nat) {
    i < |rs| && !rs[i].cleared && forall j | i < j < |rs| :: rs[j].cleared
  }

  /** What an id may be: neither empty nor longer than 256 bytes, without control characters, and none
      of four words for no session, in any case. */
  lemma ValidExactly(sid: string)
    ensures ValidSessionID(sid)
        <==> 0 < ByteLength(sid) <= 256 && (forall i | 0 <= i < |sid| :: 31 < sid[i] as int && sid[i] as int != 127)
             && forall w | w in ["null", "undefined", "<nil>", "nil"] :: !LowersToWord(sid, w)
  {
    hide LowersToWord;
    var words := ["null", "undefined", "<nil>", "nil"];
    assert words[0] in words && words[1] in words && words[2] in words && words[3] in words;
  }

  /** What a call leaves where something fails: no other channel changes; without a read nothing does;
      without a write a plain id may at most have become a record. */
  lemma FailuresExactly(store: Backing, key: string, sid: string, now: int, access: Access)
    requires key in store && !(access.canRead && access.canWrite) && (sid == "" || ValidSessionID(sid))
    ensures SetCurrent(store, key, sid, now, access)
         == if access.canRead && access.canMigrate && store[key].Plain? && ValidSessionID(store[key].text)
            then store[key := Records([Record(store[key].text, now, Some(now), false)])] else store
  {
    hide ValidSessionID;
  }

  /** A damaged value is never written over. */
  lemma DamagedStaysDamaged(store: Backing, key: string, sid: string, now: int, access: Access)
    requires key in store && store[key] == Damaged
    ensures SetCurrent(store, key, sid, now, access) == store && Current(store, key) == ""
  {}

  // ---- Order ----------------------------------------------------------------------------------

  predicate Chronological(rs: seq<Record>) {
    forall i, j | 0 <= i < j < |rs| :: rs[i].startedAt <= rs[j].startedAt
  }

  /** SetCurrent keeps records in order of time while the clock does not go back. */
  lemma SettingKeepsOrder(store: Backing, key: string, sid: string, now: int, access: Access)
    requires key in store && store[key].Records? && Chronological(store[key].records)
    requires forall i | 0 <= i < |store[key].records| :: store[key].records[i].startedAt <= now
    ensures var d := SetCurrent(store, key, sid, now, access)[key]; d.Records? ==> Chronological(d.records)
  {
    hide ValidSessionID;
    ResetClears(store[key].records);
  }
}
