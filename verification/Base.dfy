/** Shared vocabulary: optional values, the writes of a turn, and facts about sequences. */
module Base {
  datatype Option<+T> = None | Some(value: T)

  datatype Kind = Status | Reply

  /** One write of a turn, thinking already routed to the status. */
  datatype Write = Write(kind: Kind, text: string)

  /** All the texts of a list, end to end. */
  function Concat(texts: seq<string>): string {
    if texts == [] then "" else Concat(texts[..|texts| - 1]) + texts[|texts| - 1]
  }

  lemma ConcatSnoc(texts: seq<string>, t: string)
    ensures Concat(texts + [t]) == Concat(texts) + t
  {
    assert (texts + [t])[..|texts|] == texts;
  }

  lemma ConcatOne(t: string)
    ensures Concat([t]) == t
  {
    ConcatSnoc([], t);
    assert [] + [t] == [t] && "" + t == t;
  }

  lemma Associative<T>(a: seq<T>, b: seq<T>, c: seq<T>)
    ensures (a + b) + c == a + (b + c)
  {}

  lemma Unit<T>(a: seq<T>)
    ensures a + [] == a && [] + a == a
  {}

  lemma Split<T>(s: seq<T>, i: nat)
    requires i < |s|
    ensures s == (s[..i] + [s[i]]) + s[i + 1..]
  {}
}
