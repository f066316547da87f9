/** Lists made of parts that each hold one item or none: where their items come from. */
module Places {
  import opened Base

  predicate Increasing(places: seq<nat>, n: nat) {
    (forall i | 0 <= i < |places| :: places[i] < n) && forall i, j | 0 <= i < j < |places| :: places[i] < places[j]
  }

  lemma IncreasingOn(places: seq<nat>, n: nat)
    requires Increasing(places, n)
    ensures n !in places && Increasing(places, n + 1) && Increasing(places + [n], n + 1)
  {}

  /** r is what the parts hold, each at most one item, and from tells the place of each. */
  ghost predicate Comes<T>(parts: seq<seq<T>>, from: seq<nat>, r: seq<T>) {
    && Increasing(from, |parts|) && |r| == |from|
    && (forall j | 0 <= j < |from| :: parts[from[j]] == [r[j]])
    && (forall k: nat | k < |parts| :: k in from <==> parts[k] != [])
  }

  lemma ComesOn<T>(parts: seq<seq<T>>, part: seq<T>, before: seq<nat>, r: seq<T>, from: seq<nat>)
    requires Comes(parts, before, r) && |part| <= 1
    requires from == if part != [] then before + [|parts|] else before
    ensures Comes(parts + [part], from, r + part)
  {
    IncreasingOn(before, |parts|);
    forall j | 0 <= j < |from| ensures (parts + [part])[from[j]] == [(r + part)[j]] {}
    forall k: nat | k <= |parts| ensures k in from <==> (parts + [part])[k] != [] {}
  }

  /** What the parts hold, from the first on. */
  function Flat<T>(parts: seq<seq<T>>): seq<T> {
    if parts == [] then [] else parts[0] + Flat(parts[1..])
  }

  lemma {:induction false} FlatSnoc<T>(parts: seq<seq<T>>, part: seq<T>)
    ensures Flat(parts + [part]) == Flat(parts) + part
    decreases |parts|
  {
    if parts == [] {
      assert (parts + [part])[1..] == [];
      Unit(part);
    } else {
      assert (parts + [part])[1..] == parts[1..] + [part];
      FlatSnoc(parts[1..], part);
      Associative(parts[0], Flat(parts[1..]), part);
    }
  }

  lemma NothingComes<T>()
    ensures Comes<T>([], [], [])
  {}

  lemma {:induction false} FlatComes<T>(parts: seq<seq<T>>) returns (from: seq<nat>)
    requires forall k | 0 <= k < |parts| :: |parts[k]| <= 1
    ensures Comes(parts, from, Flat(parts))
    decreases |parts|
  {
    hide Comes;
    if parts == [] {
      from := [];
      NothingComes<T>();
    } else {
      var n := |parts| - 1;
      var before := FlatComes(parts[..n]);
      from := if parts[n] != [] then before + [n] else before;
      assert parts == parts[..n] + [parts[n]];
      FlatSnoc(parts[..n], parts[n]);
      ComesOn(parts[..n], parts[n], before, Flat(parts[..n]), from);
    }
  }
}
