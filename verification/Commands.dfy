/**
 The messages the agent handles itself: built-in commands (internal/agent/agent.go) and button
 presses (internal/channel/prompt.go). Here a text is a sequence of code points.
 */
module Commands {
  import opened Base
  import opened CodePoints
  import opened Search

  // ---- Trimming -------------------------------------------------------------------------------

  function TrimLeft(s: string): string {
    if s != "" && IsSpace(s[0]) then TrimLeft(s[1..]) else s
  }

  function TrimRight(s: string): string {
    if s != "" && IsSpace(s[|s| - 1]) then TrimRight(s[..|s| - 1]) else s
  }

  function TrimSpace(s: string): string { TrimRight(TrimLeft(s)) }

  // ---- Built-in commands ----------------------------------------------------------------------

  function Upper(w: char): char {
    if 'a' <= w <= 'z' then (w as int - 32) as char else w
  }

  /** Whether strings.EqualFold takes a code point for a lower-case ASCII letter: the long s and
      the Kelvin sign fold to letters too. */
  predicate FoldsTo(c: char, w: char) {
    c == w || c == Upper(w) || (w == 's' && c as int == 0x17F) || (w == 'k' && c as int == 0x212A)
  }

  predicate EqualFold(t: string, w: string) {
    |t| == |w| && forall i | 0 <= i < |w| :: FoldsTo(t[i], w[i])
  }

  /** Whether strings.ToLower makes a code point a lower-case ASCII letter. */
  predicate LowersTo(c: char, w: char) {
    c == w || c == Upper(w) || (w == 'i' && c as int == 0x130) || (w == 'k' && c as int == 0x212A)
  }

  predicate LowersToWord(t: string, w: string) {
    |t| == |w| && forall i | 0 <= i < |w| :: LowersTo(t[i], w[i])
  }

  predicate IsFreshSessionCommand(text: string) {
    var t := TrimSpace(text);
    LowersToWord(t, "new") || LowersToWord(t, "reset") || LowersToWord(t, "clear") || LowersToWord(t, "delete")
  }

  /** One of the word commands, in a text already trimmed. */
  predicate IsWordCommand(t: string) {
    || EqualFold(t, "stop") || EqualFold(t, "login") || EqualFold(t, "auth") || EqualFold(t, "compact")
    || EqualFold(t, "help") || IsFreshSessionCommand(t)
  }

  // ---- Button presses -------------------------------------------------------------------------

  datatype ButtonPress = ButtonPress(promptId: string, reply: string)

  const PREFIX: string := "\U{1F518} "
  const PROMPT: string := " (prompt "

  function ButtonPressText(p: ButtonPress): string {
    PREFIX + (p.reply + (PROMPT + (p.promptId + ")")))
  }

  function ParseButtonPress(text: string): Option<ButtonPress> {
    if PREFIX <= text then ParseAnswer(text[|PREFIX|..]) else None
  }

  function ParseAnswer(rest: string): Option<ButtonPress> {
    match FindText(rest, PROMPT, 0)
    case None => None
    case Some(i) =>
      var id := rest[i + |PROMPT|..];
      if id == "" || id[|id| - 1] != ')' then None else Some(ButtonPress(id[..|id| - 1], rest[..i]))
  }

  /** A message that must run on a turn of its own. */
  predicate IsControlCommand(text: string) {
    var t := TrimSpace(text);
    IsWordCommand(t) || ParseButtonPress(t).Some?
  }

  // ---- Words ----------------------------------------------------------------------------------

  /** The same letter in either case, by code point. */
  predicate SameLetter(c: char, w: char) { c == w || c as int + 32 == w as int }

  const ACTIONS := ["stop", "login", "auth", "compact", "help"]
  const RESETS := ["new", "reset", "clear", "delete"]

  /** A text spells a word in letters of any case, but that one code point may stand for a letter. */
  predicate SpellsWith(t: string, w: string, letter: char, other: int, also: char, another: int) {
    |t| == |w| && forall i | 0 <= i < |w| ::
      SameLetter(t[i], w[i]) || (w[i] == letter && t[i] as int == other) || (w[i] == also && t[i] as int == another)
  }

  predicate IsAction(t: string) {
    exists k :: 0 <= k < |ACTIONS| && SpellsWith(t, ACTIONS[k], 's', 0x17F, 'k', 0x212A)
  }

  predicate IsReset(t: string) {
    exists k :: 0 <= k < |RESETS| && SpellsWith(t, RESETS[k], 'i', 0x130, 'k', 0x212A)
  }

  lemma Folds(t: string, w: string)
    requires forall i | 0 <= i < |w| :: 'a' <= w[i] <= 'z'
    ensures EqualFold(t, w) <==> SpellsWith(t, w, 's', 0x17F, 'k', 0x212A)
    ensures LowersToWord(t, w) <==> SpellsWith(t, w, 'i', 0x130, 'k', 0x212A)
  {}

  /** The word commands, in any case of letters as Unicode folds it. */
  lemma WordsExactly(t: string)
    ensures IsWordCommand(t) <==> IsAction(t) || IsReset(TrimSpace(t))
  {
    hide EqualFold, LowersToWord, TrimSpace, SpellsWith;
    LettersOnly();
    forall k | 0 <= k < |ACTIONS|
      ensures EqualFold(t, ACTIONS[k]) <==> SpellsWith(t, ACTIONS[k], 's', 0x17F, 'k', 0x212A)
    {
      Folds(t, ACTIONS[k]);
    }
    forall k | 0 <= k < |RESETS|
      ensures LowersToWord(TrimSpace(t), RESETS[k]) <==> SpellsWith(TrimSpace(t), RESETS[k], 'i', 0x130, 'k', 0x212A)
    {
      Folds(TrimSpace(t), RESETS[k]);
    }
    assert IsWordCommand(t)
      <==> (exists k :: 0 <= k < |ACTIONS| && EqualFold(t, ACTIONS[k]))
           || exists k :: 0 <= k < |RESETS| && LowersToWord(TrimSpace(t), RESETS[k]) by {
      assert ACTIONS[0] == "stop" && ACTIONS[1] == "login" && ACTIONS[2] == "auth" && ACTIONS[3] == "compact"
          && ACTIONS[4] == "help";
      assert RESETS[0] == "new" && RESETS[1] == "reset" && RESETS[2] == "clear" && RESETS[3] == "delete";
    }
  }

  lemma LettersOnly()
    ensures forall k | 0 <= k < |ACTIONS| :: forall i | 0 <= i < |ACTIONS[k]| :: 'a' <= ACTIONS[k][i] <= 'z'
    ensures forall k | 0 <= k < |RESETS| :: forall i | 0 <= i < |RESETS[k]| :: 'a' <= RESETS[k][i] <= 'z'
  {}

  /** What a press reads as: the button's sign, the reply, the prompt's id. */
  lemma PressText(p: ButtonPress)
    ensures ButtonPressText(p) == "\U{1F518} " + p.reply + " (prompt " + p.promptId + ")"
  {
    assert PREFIX + (p.reply + (PROMPT + (p.promptId + ")"))) == PREFIX + p.reply + PROMPT + p.promptId + ")";
  }

  /** Button presses read back exactly when the reply does not itself begin the prompt's mark. */
  lemma PressReadsBackExactly(p: ButtonPress)
    ensures ParseButtonPress(ButtonPressText(p)) == Some(p)
        <==> forall j | 0 <= j < |p.reply| :: !Occurs(p.reply + " ", PROMPT, j)
  {
    hide ParseAnswer, FindText;
    var tail := p.promptId + ")";
    var rest := p.reply + (PROMPT + tail);
    assert ButtonPressText(p)[|PREFIX|..] == rest;
    AnswerReadsBack(p, rest);
    forall j | 0 <= j < |p.reply| ensures Occurs(rest, PROMPT, j) == Occurs(p.reply + " ", PROMPT, j) {
      MarkBefore(p.reply, tail, j);
    }
  }

  lemma AnswerReadsBack(p: ButtonPress, rest: string)
    requires rest == p.reply + (PROMPT + (p.promptId + ")"))
    ensures ParseAnswer(rest) == Some(p) <==> forall j | 0 <= j < |p.reply| :: !Occurs(rest, PROMPT, j)
  {
    var n := |p.reply|;
    assert rest[n..n + |PROMPT|] == PROMPT;
    FirstOccurrence(rest, PROMPT, n);
    var i := FindText(rest, PROMPT, 0).value;
    if i == n {
      assert rest[i + |PROMPT|..] == p.promptId + ")" && rest[..i] == p.reply;
    } else {
      assert Occurs(rest, PROMPT, i) && |rest[..i]| < n;
    }
  }

  /** The mark overlaps itself in one place only, its outer spaces. */
  lemma MarkBefore(reply: string, tail: string, j: nat)
    requires j < |reply|
    ensures Occurs(reply + (PROMPT + tail), PROMPT, j) == Occurs(reply + " ", PROMPT, j)
  {
    var s, k := reply + (PROMPT + tail), |PROMPT|;
    if j + k <= |reply| + 1 {
      assert s[j..j + k] == (reply + " ")[j..j + k];
    } else {
      assert s[j..j + k][|reply| - j] == s[|reply|] == ' ';
      assert PROMPT[|reply| - j] != ' ';
    }
  }
}
