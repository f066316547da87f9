/** Looking for a character or a text in a text, and trimming newlines from its end. */
module Search {
  import opened Base

  /** The first index from i on that holds c, or the length of the text. */
  function Find(s: string, c: char, i: nat): (r: nat)
    requires i <= |s|
    ensures i <= r <= |s| && (r < |s| ==> s[r] == c) && forall j | i <= j < r :: s[j] != c
    decreases |s| - i
  {
    if i == |s| || s[i] == c then i else Find(s, c, i + 1)
  }

  predicate Occurs(s: string, sub: string, i: nat) {
    i + |sub| <= |s| && s[i..i + |sub|] == sub
  }

  /** The first place from i on where sub occurs. */
  function FindText(s: string, sub: string, i: nat): (r: Option<nat>)
    requires i <= |s|
    ensures r.Some? ==> i <= r.value && Occurs(s, sub, r.value) && forall j | i <= j < r.value :: !Occurs(s, sub, j)
    ensures r.None? ==> forall j | i <= j <= |s| :: !Occurs(s, sub, j)
    decreases |s| - i
  {
    if Occurs(s, sub, i) then Some(i) else if i == |s| then None else FindText(s, sub, i + 1)
  }

  lemma FirstOccurrence(u: string, sub: string, e: nat)
    requires Occurs(u, sub, e)
    ensures FindText(u, sub, 0).Some? && FindText(u, sub, 0).value <= e && Occurs(u, sub, FindText(u, sub, 0).value)
  {}

  /** The text without the newlines at its end. */
  function TrimNewlines(s: string): (t: string)
    ensures t <= s && (t == "" || t[|t| - 1] != '\n')
    ensures forall i | |t| <= i < |s| :: s[i] == '\n'
  {
    if s != "" && s[|s| - 1] == '\n' then TrimNewlines(s[..|s| - 1]) else s
  }
}
