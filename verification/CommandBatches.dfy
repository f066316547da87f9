/**
 What joining messages into one turn can make of them: never a word command, and a button press
 only with a line break inside its reply or its prompt id.
 */
module CommandBatches {
  import opened Base
  import opened CodePoints
  import opened Search
  import opened Commands

  const BREAK: string := "\n\n"

  /** strings.Join with a blank line. */
  function Join(texts: seq<string>): string
    requires texts != []
  {
    if |texts| == 1 then texts[0] else texts[0] + (BREAK + Join(texts[1..]))
  }

  predicate HasLineBreak(s: string) { exists i :: 0 <= i < |s| && s[i] == '\n' }

  // ---- Trimming a concatenation ---------------------------------------------------------------

  lemma {:induction false} TrimLeftOf(a: string, b: string)
    ensures TrimLeft(a + b) == if Blank(a) then TrimLeft(b) else TrimLeft(a) + b
  {
    if a == "" {
      assert a + b == b;
    } else if IsSpace(a[0]) {
      assert (a + b)[1..] == a[1..] + b;
      TrimLeftOf(a[1..], b);
      assert Blank(a) <==> Blank(a[1..]) by {
        if Blank(a[1..]) {
          forall i | 0 <= i < |a| ensures IsSpace(a[i]) {
            if i > 0 { assert a[1..][i - 1] == a[i]; }
          }
        }
      }
    }
  }

  lemma {:induction false} TrimRightOf(a: string, b: string)
    ensures TrimRight(a + b) == if Blank(b) then TrimRight(a) else a + TrimRight(b)
  {
    if b == "" {
      assert a + b == a;
    } else if IsSpace(b[|b| - 1]) {
      var front := b[..|b| - 1];
      assert (a + b)[..|a + b| - 1] == a + front;
      TrimRightOf(a, front);
      assert Blank(b) <==> Blank(front) by {
        if Blank(front) {
          forall i | 0 <= i < |b| ensures IsSpace(b[i]) {
            if i < |front| { assert front[i] == b[i]; }
          }
        }
      }
    }
  }

  lemma {:induction false} TrimLeftStarts(s: string)
    ensures Blank(s) <==> TrimLeft(s) == ""
    ensures TrimLeft(s) != "" ==> !IsSpace(TrimLeft(s)[0])
  {
    if s != "" && IsSpace(s[0]) {
      TrimLeftStarts(s[1..]);
      TrimLeftOf(s[..1], s[1..]);
      assert s == s[..1] + s[1..];
      if Blank(s[1..]) {
        forall i | 0 <= i < |s| ensures IsSpace(s[i]) {
          if i > 0 { assert s[1..][i - 1] == s[i]; }
        }
      }
    }
  }

  /** A text with white space on one side of the break is trimmed away with it. */
  lemma TrimJoined(a: string, b: string)
    ensures Blank(a) ==> TrimSpace(a + (BREAK + b)) == TrimSpace(b)
    ensures Blank(b) ==> TrimSpace(a + (BREAK + b)) == TrimSpace(a)
    ensures !Blank(a) && !Blank(b) ==> HasLineBreak(TrimSpace(a + (BREAK + b)))
  {
    TrimLeftOf(a, BREAK + b);
    TrimLeftOf(BREAK, b);
    TrimLeftStarts(a);
    TrimLeftStarts(b);
    if !Blank(a) {
      var t := TrimLeft(a);
      TrimRightOf(t, BREAK + b);
      TrimRightOf(BREAK, b);
      if Blank(b) {
        assert Blank(BREAK + b);
      } else {
        assert !Blank(BREAK + b) by {
          var i :| 0 <= i < |b| && !IsSpace(b[i]);
          assert (BREAK + b)[i + |BREAK|] == b[i];
        }
        assert (t + (BREAK + TrimRight(b)))[|t|] == '\n';
      }
    }
  }

  // ---- Word commands --------------------------------------------------------------------------

  /** A joined text, trimmed, is empty, one of the texts trimmed, or holds a line break. */
  lemma {:induction false} JoinTrims(texts: seq<string>) returns (i: nat)
    requires texts != []
    ensures i < |texts|
    ensures TrimSpace(Join(texts)) == "" || HasLineBreak(TrimSpace(Join(texts)))
         || TrimSpace(Join(texts)) == TrimSpace(texts[i])
    decreases |texts|
  {
    if |texts| == 1 {
      i := 0;
    } else {
      TrimJoined(texts[0], Join(texts[1..]));
      if Blank(texts[0]) {
        i := JoinTrims(texts[1..]);
        i := i + 1;
      } else {
        i := 0;
      }
    }
  }

  lemma {:induction false} TrimmedAgain(s: string)
    ensures TrimSpace(TrimSpace(s)) == TrimSpace(s)
  {
    TrimLeftStarts(s);
    TrimRightKeepsStart(TrimLeft(s));
  }

  lemma {:induction false} TrimRightKeepsStart(t: string)
    requires t != "" ==> !IsSpace(t[0])
    ensures TrimLeft(TrimRight(t)) == TrimRight(t) && TrimRight(TrimRight(t)) == TrimRight(t)
  {
    if t != "" && IsSpace(t[|t| - 1]) { TrimRightKeepsStart(t[..|t| - 1]); }
  }

  lemma LineBreakIsNoWord(t: string)
    requires HasLineBreak(t) && TrimSpace(t) == t
    ensures !IsWordCommand(t)
  {
    hide TrimSpace;
    var i :| 0 <= i < |t| && t[i] == '\n';
  }

  lemma EmptyIsNoWord()
    ensures !IsWordCommand("")
  {}

  /** Messages none of which is a control command never join into a word command. */
  lemma BatchIsNoWordCommand(texts: seq<string>)
    requires texts != [] && forall i | 0 <= i < |texts| :: !IsControlCommand(texts[i])
    ensures !IsWordCommand(TrimSpace(Join(texts)))
  {
    hide TrimSpace, IsWordCommand, Join, ParseButtonPress;
    var i := JoinTrims(texts);
    TrimmedAgain(Join(texts));
    EmptyIsNoWord();
    assert !IsControlCommand(texts[i]);
    if HasLineBreak(TrimSpace(Join(texts))) {
      LineBreakIsNoWord(TrimSpace(Join(texts)));
    }
  }

  // ---- Button presses -------------------------------------------------------------------------

  lemma JoinHasBreak(texts: seq<string>)
    requires |texts| > 1
    ensures HasLineBreak(Join(texts)) && Join(texts) != ""
  {
    assert Join(texts)[|texts[0]|] == '\n';
  }

  // ---- When a batch is a press ----------------------------------------------------------------

  predicate HasMark(s: string) { exists j :: 0 <= j <= |s| && Occurs(s, PROMPT, j) }

  predicate EndsPress(s: string) { s != "" && s[|s| - 1] == ')' }

  lemma MarkFound(s: string)
    ensures FindText(s, PROMPT, 0).Some? <==> HasMark(s)
  {}

  /** A text reads as a press exactly when it starts with the button's prefix, holds the prompt's
      mark after it, and ends with the bracket. */
  lemma ReadsAsPressExactly(t: string)
    ensures ParseButtonPress(t).Some? <==> PREFIX <= t && HasMark(t[|PREFIX|..]) && EndsPress(t)
  {
    if PREFIX <= t {
      var rest := t[|PREFIX|..];
      MarkFound(rest);
      if HasMark(rest) { AnswerEnds(rest); }
      assert rest != "" ==> rest[|rest| - 1] == t[|t| - 1];
    }
  }

  lemma AnswerEnds(rest: string)
    requires FindText(rest, PROMPT, 0).Some?
    ensures ParseAnswer(rest).Some? <==> EndsPress(rest)
  {
    var i := FindText(rest, PROMPT, 0).value;
    var id := rest[i + |PROMPT|..];
    if id == "" {
      assert rest[i..i + |PROMPT|][|PROMPT| - 1] == rest[|rest| - 1];
    } else {
      assert id[|id| - 1] == rest[|rest| - 1];
    }
  }

  /** The mark holds no line break, so it never spans the break between two texts. */
  lemma MarkInJoined(a: string, b: string)
    ensures HasMark(a + (BREAK + b)) <==> HasMark(a) || HasMark(b)
  {
    var s, k := a + (BREAK + b), |PROMPT|;
    if HasMark(a) {
      var j :| 0 <= j <= |a| && Occurs(a, PROMPT, j);
      assert s[j..j + k] == a[j..j + k];
      assert Occurs(s, PROMPT, j);
    }
    if HasMark(b) {
      var j :| 0 <= j <= |b| && Occurs(b, PROMPT, j);
      var shift := |a| + |BREAK|;
      assert s[shift..] == b && s[shift + j..shift + j + k] == s[shift..][j..j + k];
      assert Occurs(s, PROMPT, shift + j);
    }
    if HasMark(s) {
      var j :| 0 <= j <= |s| && Occurs(s, PROMPT, j);
      MarkOnOneSide(a, b, j);
    }
  }

  lemma MarkOnOneSide(a: string, b: string, j: nat)
    requires Occurs(a + (BREAK + b), PROMPT, j)
    ensures HasMark(a) || HasMark(b)
  {
    var s, k, shift := a + (BREAK + b), |PROMPT|, |a| + |BREAK|;
    assert s[|a|] == '\n' && s[|a| + 1] == '\n';
    assert forall d | 0 <= d < k :: s[j + d] == s[j..j + k][d] == PROMPT[d] != '\n';
    if j + k <= |a| {
      assert a[j..j + k] == s[j..j + k];
      assert Occurs(a, PROMPT, j);
    } else if shift <= j {
      assert s[shift..] == b && b[j - shift..j - shift + k] == s[j..j + k];
      assert Occurs(b, PROMPT, j - shift);
    }
  }

  predicate SomeMark(texts: seq<string>) { exists i :: 0 <= i < |texts| && HasMark(texts[i]) }

  lemma {:induction false} MarkInJoin(texts: seq<string>)
    requires texts != []
    ensures HasMark(Join(texts)) <==> SomeMark(texts)
    decreases |texts|
  {
    hide HasMark;
    if |texts| == 1 {
      assert Join(texts) == texts[0];
    } else {
      MarkInJoined(texts[0], Join(texts[1..]));
      MarkInJoin(texts[1..]);
      SomeMarkRest(texts);
    }
  }

  lemma SomeMarkRest(texts: seq<string>)
    requires texts != []
    ensures SomeMark(texts) <==> HasMark(texts[0]) || SomeMark(texts[1..])
  {
    hide HasMark;
    if SomeMark(texts[1..]) {
      var i :| 0 <= i < |texts[1..]| && HasMark(texts[1..][i]);
      assert texts[i + 1] == texts[1..][i];
    }
    if SomeMark(texts) && !HasMark(texts[0]) {
      var i :| 0 <= i < |texts| && HasMark(texts[i]);
      assert texts[1..][i - 1] == texts[i];
    }
  }

  lemma {:induction false} JoinEnds(texts: seq<string>)
    requires texts != []
    ensures EndsPress(Join(texts)) <==> EndsPress(texts[|texts| - 1])
    decreases |texts|
  {
    if |texts| > 1 {
      var rest := Join(texts[1..]);
      JoinEnds(texts[1..]);
      assert texts[1..][|texts| - 2] == texts[|texts| - 1];
      assert Join(texts) == texts[0] + (BREAK + rest);
      if rest == "" { assert Join(texts)[|Join(texts)| - 1] == '\n'; }
    }
  }

  /** What makes a list of texts a press once joined: the first starts like one, the last ends like
      one, and the mark stands in the first after the prefix or in any other. */
  predicate JoinsAsPress(texts: seq<string>)
    requires texts != []
  {
    && PREFIX <= texts[0] && EndsPress(texts[|texts| - 1])
    && (HasMark(texts[0][|PREFIX|..]) || SomeMark(texts[1..]))
  }

  lemma BatchIsPressExactly(texts: seq<string>)
    requires texts != []
    ensures ParseButtonPress(Join(texts)).Some? <==> JoinsAsPress(texts)
  {
    hide HasMark, SomeMark, EndsPress, ParseButtonPress;
    var t := Join(texts);
    ReadsAsPressExactly(t);
    JoinEnds(texts);
    if |texts| == 1 {
      NoTexts();
      assert texts[1..] == [];
    } else {
      var rest := Join(texts[1..]);
      MarkInJoin(texts[1..]);
      PrefixInJoined(texts[0], rest);
      if PREFIX <= texts[0] {
        assert t[|PREFIX|..] == texts[0][|PREFIX|..] + (BREAK + rest);
        MarkInJoined(texts[0][|PREFIX|..], rest);
      }
    }
  }

  lemma NoTexts()
    ensures !SomeMark([])
  {}

  /** The prefix holds no line break, so only the first text can bring it. */
  lemma PrefixInJoined(a: string, b: string)
    ensures PREFIX <= a + (BREAK + b) <==> PREFIX <= a
  {
    var s := a + (BREAK + b);
    assert s[|a|] == '\n';
    assert |a| < |PREFIX| ==> PREFIX[|a|] != '\n';
  }

  /** A command the agent takes a message for: a word, or a press. */
  predicate ReadsAsCommand(t: string) { IsWordCommand(TrimSpace(t)) || ParseButtonPress(t).Some? }

  /** Messages none of which is a control command join into a command exactly when they join into a
      press; a single one never does. */
  lemma BatchIsCommandExactly(texts: seq<string>)
    requires texts != [] && forall i | 0 <= i < |texts| :: !IsControlCommand(texts[i])
    ensures ReadsAsCommand(Join(texts)) <==> |texts| > 1 && JoinsAsPress(texts)
  {
    hide ParseButtonPress, TrimSpace, IsWordCommand, JoinsAsPress;
    BatchIsNoWordCommand(texts);
    BatchIsPressExactly(texts);
    if |texts| == 1 && ParseButtonPress(texts[0]).Some? {
      PressIsTrimmed(texts[0]);
    }
  }

  /** Joined messages that read as a press name a prompt, or a reply, with a line break in it. */
  lemma BatchedPressHasLineBreak(texts: seq<string>)
    requires texts != [] && forall i | 0 <= i < |texts| :: !IsControlCommand(texts[i])
    requires ParseButtonPress(Join(texts)).Some?
    ensures var p := ParseButtonPress(Join(texts)).value; HasLineBreak(p.reply) || HasLineBreak(p.promptId)
  {
    hide ParseButtonPress, TrimSpace, IsWordCommand, JoinsAsPress;
    BatchIsCommandExactly(texts);
    JoinHasBreak(texts);
    PressHasLineBreak(Join(texts));
  }

  lemma PressHasLineBreak(t: string)
    requires ParseButtonPress(t).Some? && HasLineBreak(t)
    ensures var p := ParseButtonPress(t).value; HasLineBreak(p.reply) || HasLineBreak(p.promptId)
  {
    hide ParseAnswer;
    PressParts(t[|PREFIX|..]);
    var p := ParseButtonPress(t).value;
    assert t == ButtonPressText(p);
    var i :| 0 <= i < |t| && t[i] == '\n';
    PartsHoldLineBreak(p, i);
  }

  lemma PartsHoldLineBreak(p: ButtonPress, i: nat)
    requires i < |ButtonPressText(p)| && ButtonPressText(p)[i] == '\n'
    ensures HasLineBreak(p.reply) || HasLineBreak(p.promptId)
  {
    var t, a, b := ButtonPressText(p), |PREFIX|, |p.reply|;
    assert a <= i;
    if i < a + b {
      assert p.reply[i - a] == t[i];
    } else {
      assert t[a + b..] == PROMPT + (p.promptId + ")");
      assert i >= a + b + |PROMPT|;
      assert p.promptId[i - a - b - |PROMPT|] == t[i];
    }
  }

  lemma PressParts(rest: string)
    requires ParseAnswer(rest).Some?
    ensures var p := ParseAnswer(rest).value; rest == p.reply + (PROMPT + (p.promptId + ")"))
  {
    var i := FindText(rest, PROMPT, 0).value;
    var id := rest[i + |PROMPT|..];
    assert id == id[..|id| - 1] + ")";
    assert rest == rest[..i] + (rest[i..i + |PROMPT|] + id);
  }

  /** A press starts and ends with characters that trimming leaves. */
  lemma PressIsTrimmed(t: string)
    requires ParseButtonPress(t).Some?
    ensures TrimSpace(t) == t
  {
    PressParts(t[|PREFIX|..]);
    assert t[0] == PREFIX[0] && t[|t| - 1] == ')';
  }

  /** It can happen: neither part is a press, joined they are. */
  lemma BatchCanReadAsPress()
    ensures var texts := [PREFIX + "yes (prompt AB", "CD)"];
            !IsControlCommand(texts[0]) && !IsControlCommand(texts[1])
            && ParseButtonPress(Join(texts)) == Some(ButtonPress("AB\n\nCD", "yes"))
  {
    var a, b := PREFIX + "yes (prompt AB", "CD)";
    JoinsToPress(a, b);
    NeitherIsControl(a);
    NeitherIsControl(b);
  }

  lemma JoinsToPress(a: string, b: string)
    requires a == PREFIX + "yes (prompt AB" && b == "CD)"
    ensures ParseButtonPress(Join([a, b])) == Some(ButtonPress("AB\n\nCD", "yes"))
  {
    hide ParseButtonPress;
    var p := ButtonPress("AB\n\nCD", "yes");
    assert Join([a, b]) == a + (BREAK + b);
    assert a + (BREAK + b) == ButtonPressText(p);
    PressReadsBackExactly(p);
  }

  lemma NeitherIsControl(t: string)
    requires t == PREFIX + "yes (prompt AB" || t == "CD)"
    ensures !IsControlCommand(t)
  {
    hide ParseAnswer;
    assert TrimSpace(t) == t;
    if ParseButtonPress(t).Some? { PressParts(t[|PREFIX|..]); }
  }
}
