/**
 What a reader of the chat sees. Whatever the edits, drafts and rotations of a turn do, the chat
 read from top to bottom holds every text that is not white space once, in the order written.
 */
module TurnWriterReading {
  import opened Base
  import opened CodePoints
  import opened TurnWriter

  /** One open tag, the texts, one close tag; or the texts alone when the channel has no wrap. */
  function Wrap(cfg: Config, text: string): string {
    if cfg.open == "" then text else cfg.open + text + cfg.close
  }

  /** The texts one message of the chat is made of. */
  datatype Entry = Entry(kind: Kind, texts: seq<string>)

  /** What a message made of these texts shows. */
  function Render(cfg: Config, e: Entry): string {
    match e.kind
    case Status => Truncate(Wrap(cfg, Concat(e.texts)))
    case Reply => Concat(e.texts)
  }

  /** The chat is made of these texts, message by message. */
  ghost predicate MadeOf(cfg: Config, log: seq<Message>, es: seq<Entry>) {
    && |es| == |log|
    && forall k | 0 <= k < |log| :: log[k] == Message(es[k].kind, Render(cfg, es[k]))
  }

  /** Which writes a reading is about: all of them, the reply alone, or none, which leaves only
      what holds however the transport answers. */
  datatype View = Everything | RepliesOnly | Nothing

  /** The write, if it is not white space and the view is about it. */
  function Kept(v: View, w: Write): seq<Write> {
    if !Blank(w.text) && (v.Everything? || (v.RepliesOnly? && w.kind == Reply)) then [w] else []
  }

  function Keep(v: View, ws: seq<Write>): seq<Write> {
    if ws == [] then [] else Keep(v, ws[..|ws| - 1]) + Kept(v, ws[|ws| - 1])
  }

  function KeepTexts(v: View, kind: Kind, texts: seq<string>): seq<Write> {
    if texts == [] then []
    else KeepTexts(v, kind, texts[..|texts| - 1]) + Kept(v, Write(kind, texts[|texts| - 1]))
  }

  /** The chat read from top to bottom. */
  function Read(v: View, es: seq<Entry>): seq<Write> {
    if es == [] then []
    else
      var last := es[|es| - 1];
      Read(v, es[..|es| - 1]) + KeepTexts(v, last.kind, last.texts)
  }

  lemma KeepSnoc(v: View, ws: seq<Write>, w: Write)
    ensures Keep(v, ws + [w]) == Keep(v, ws) + Kept(v, w)
  {
    assert (ws + [w])[..|ws|] == ws;
  }

  lemma KeepTextsSnoc(v: View, kind: Kind, texts: seq<string>, t: string)
    ensures KeepTexts(v, kind, texts + [t]) == KeepTexts(v, kind, texts) + Kept(v, Write(kind, t))
    ensures KeepTexts(v, kind, [t]) == Kept(v, Write(kind, t))
  {
    assert (texts + [t])[..|texts|] == texts;
    assert [t][..0] == [];
  }

  /** A message sent now is read after everything else. */
  lemma ReadSend(v: View, es: seq<Entry>, e: Entry)
    ensures Read(v, es + [e]) == Read(v, es) + KeepTexts(v, e.kind, e.texts)
  {
    assert (es + [e])[..|es|] == es;
  }

  lemma {:induction false} ReadConcat(v: View, a: seq<Entry>, b: seq<Entry>)
    ensures Read(v, a + b) == Read(v, a) + Read(v, b)
  {
    if b == [] {
      assert a + b == a;
    } else {
      var front, last := b[..|b| - 1], b[|b| - 1];
      assert (a + b)[..|a + b| - 1] == a + front && (a + b)[|a + b| - 1] == last;
      ReadConcat(v, a, front);
      Associative(Read(v, a), Read(v, front), KeepTexts(v, last.kind, last.texts));
    }
  }

  /** Message i is the last one to show anything the view keeps. */
  ghost predicate Lowest(v: View, es: seq<Entry>, i: nat) {
    i < |es| && Read(v, es[i + 1..]) == []
  }

  /** The chat with a text added to message i. */
  function AddText(es: seq<Entry>, i: nat, t: string): seq<Entry>
    requires i < |es|
  {
    es[i := Entry(es[i].kind, es[i].texts + [t])]
  }

  /** Text added to the lowest message is read last. */
  lemma ReadEdit(v: View, es: seq<Entry>, i: nat, t: string)
    requires Lowest(v, es, i)
    ensures Read(v, AddText(es, i, t)) == Read(v, es) + Kept(v, Write(es[i].kind, t))
    ensures Lowest(v, AddText(es, i, t), i)
  {
    var above, below, was := es[..i], es[i + 1..], es[i];
    var now := Entry(was.kind, was.texts + [t]);
    Split(es, i);
    Split(AddText(es, i, t), i);
    assert AddText(es, i, t)[..i] == above && AddText(es, i, t)[i + 1..] == below;
    ReadConcat(v, above + [was], below);
    ReadConcat(v, above + [now], below);
    ReadSend(v, above, was);
    ReadSend(v, above, now);
    KeepTextsSnoc(v, was.kind, was.texts, t);
    Unit(Read(v, above + [was]));
    Unit(Read(v, above + [now]));
    Associative(Read(v, above), KeepTexts(v, was.kind, was.texts), Kept(v, Write(was.kind, t)));
  }

  lemma {:induction false} BlankTexts(v: View, kind: Kind, texts: seq<string>)
    requires Blank(Concat(texts))
    ensures KeepTexts(v, kind, texts) == []
  {
    if texts != [] {
      var n := |texts| - 1;
      var front, last := Concat(texts[..n]), texts[n];
      assert forall i | 0 <= i < |front| :: front[i] == Concat(texts)[i];
      assert forall i | 0 <= i < |last| :: last[i] == Concat(texts)[|front| + i];
      BlankTexts(v, kind, texts[..n]);
    }
  }

  lemma BlankStatus(v: View, cfg: Config, texts: seq<string>)
    requires Blank(Render(cfg, Entry(Status, texts)))
    ensures KeepTexts(v, Status, texts) == []
  {
    var all, shown := Wrap(cfg, Concat(texts)), Render(cfg, Entry(Status, texts));
    if ByteLength(all) > TELEGRAM_TRUNCATE_LEN {
      assert shown[Fitting(all, TELEGRAM_TRUNCATE_LEN)] == TRUNCATION_NOTICE[0];
    }
    assert shown == all;
    assert forall i | 0 <= i < |Concat(texts)| ::
        Concat(texts)[i] == all[if cfg.open == "" then i else |cfg.open| + i];
    BlankTexts(v, Status, texts);
  }

  lemma {:induction false} StatusNotKept(v: View, texts: seq<string>)
    requires !v.Everything?
    ensures KeepTexts(v, Status, texts) == []
  {
    if texts != [] { StatusNotKept(v, texts[..|texts| - 1]); }
  }

  // ---- The invariant -------------------------------------------------------------------------

  /** The texts behind the state: of the chat, of the status buffer, and of the reply buffer. */
  datatype Texts = Texts(chat: seq<Entry>, status: seq<string>, reply: seq<string>)

  /** The status buffer holds its texts, and a live status message shows exactly the buffer. */
  ghost predicate StatusBuffer(cfg: Config, s: State, g: Texts) {
    && s.statusBuf == (if s.wrapOpen then cfg.open else "") + Concat(g.status)
    && (s.wrapOpen ==> cfg.open != "")
    && (cfg.open != "" && !s.wrapOpen ==> g.status == [] && s.statusID.None?)
    && (s.statusID.Some? ==> s.statusID.value < |g.chat| && g.chat[s.statusID.value] == Entry(Status, g.status))
  }

  ghost predicate ReplyBuffer(s: State, g: Texts) {
    && s.respBuf == Concat(g.reply)
    && (s.respID.Some? ==> s.respID.value < |g.chat| && g.chat[s.respID.value] == Entry(Reply, g.reply))
    && (s.draftLive || s.respID.Some? ==> !Blank(s.respBuf))
    && (s.draftLive ==> s.respID.None? && s.drafts)
    && (s.respSealed ==> s.respID.Some?)
  }

  /** A live message that is not sealed has nothing below it, so it is safe to edit, and a live
      unsealed status means that there is no current reply or that it is sealed. */
  ghost predicate Placement(v: View, s: State, g: Texts) {
    && (s.statusID.Some? && !s.statusSealed ==> Lowest(v, g.chat, s.statusID.value)
                                                && !s.draftLive && (s.respID.None? || s.respSealed))
    && (s.respID.Some? && !s.respSealed ==> Lowest(v, g.chat, s.respID.value))
  }

  /** A buffer without a live message holds nothing unshown, so it is safe to reset. */
  ghost predicate Unshown(v: View, s: State, g: Texts) {
    && (s.statusID.None? ==> KeepTexts(v, Status, g.status) == [])
    && (s.respID.None? && !s.draftLive ==> KeepTexts(v, Reply, g.reply) == [])
  }

  /** What the chat and the draft show together. */
  function Visible(v: View, s: State, g: Texts): seq<Write> {
    if s.draftLive then Read(v, g.chat) + KeepTexts(v, Reply, g.reply) else Read(v, g.chat)
  }

  ghost predicate Inv(cfg: Config, v: View, s: State, g: Texts, ws: seq<Write>) {
    && MadeOf(cfg, s.log, g.chat)
    && StatusBuffer(cfg, s, g)
    && ReplyBuffer(s, g)
    && Placement(v, s, g)
    && Unshown(v, s, g)
    && Visible(v, s, g) == Keep(v, ws)
  }

  // ---- Each operation keeps it ---------------------------------------------------------------

  /** A message sent now shows its texts, is read last, and is the lowest. */
  lemma SendEntry(cfg: Config, v: View, log: seq<Message>, es: seq<Entry>, e: Entry)
    requires MadeOf(cfg, log, es)
    ensures MadeOf(cfg, log + [Message(e.kind, Render(cfg, e))], es + [e])
    ensures Read(v, es + [e]) == Read(v, es) + KeepTexts(v, e.kind, e.texts)
    ensures Lowest(v, es + [e], |es|)
  {
    ReadSend(v, es, e);
    assert (es + [e])[|es| + 1..] == [];
  }

  /** A text added to the lowest message is read last. */
  lemma EditEntry(cfg: Config, v: View, log: seq<Message>, es: seq<Entry>, i: nat, t: string)
    requires MadeOf(cfg, log, es) && Lowest(v, es, i)
    ensures MadeOf(cfg, log[i := Message(es[i].kind, Render(cfg, AddText(es, i, t)[i]))], AddText(es, i, t))
    ensures Read(v, AddText(es, i, t)) == Read(v, es) + Kept(v, Write(es[i].kind, t))
    ensures Lowest(v, AddText(es, i, t), i)
  {
    ReadEdit(v, es, i, t);
  }

  /** A buffer's texts after a write: the text follows what was there, or starts it afresh. */
  predicate Follows(before: seq<string>, after: seq<string>, t: string) {
    after == before + [t] || after == [t]
  }

  lemma FlushKeeps(cfg: Config, v: View, s: State, g: Texts, ws: seq<Write>, ok: bool) returns (g': Texts)
    requires Inv(cfg, v, s, g, ws)
    requires !FlushDraft(s, ok).failed
    ensures Inv(cfg, v, FlushDraft(s, ok).state, g', ws)
    ensures !FlushDraft(s, ok).state.draftLive && g'.reply == g.reply && g'.status == g.status
  {
    g' := if s.draftLive then g.(chat := g.chat + [Entry(Reply, g.reply)]) else g;
    if s.draftLive { SendEntry(cfg, v, s.log, g.chat, Entry(Reply, g.reply)); }
    var s' := FlushDraft(s, ok).state;
    assert MadeOf(cfg, s'.log, g'.chat);
    assert StatusBuffer(cfg, s', g') && ReplyBuffer(s', g');
    assert Placement(v, s', g') && Unshown(v, s', g');
  }

  /** The transport's answers a reading of this view depends on. */
  predicate Answers(v: View, env: Env) {
    v.Everything? ==> env.flushOk && env.sendOk && env.recoveryOk
  }

  /** The state after sending the status message made of these texts, accepted or not. */
  ghost function StatusSent(cfg: Config, s: State, texts: seq<string>, accepted: bool, calls: seq<Call>): State {
    s.(statusBuf := cfg.open + Concat(texts), wrapOpen := cfg.open != "", calls := calls,
       statusID := if accepted then Some(|s.log|) else None,
       log := if accepted then s.log + [Message(Status, Render(cfg, Entry(Status, texts)))] else s.log,
       respSealed := s.respSealed || (accepted && s.respID.Some?))
  }

  lemma StatusSentKeeps(cfg: Config, v: View, s: State, g: Texts, ws: seq<Write>, t: string, texts: seq<string>,
                        accepted: bool, calls: seq<Call>)
    returns (g': Texts)
    requires Inv(cfg, v, s, g, ws) && !s.draftLive && !s.statusSealed
    requires KeepTexts(v, Status, texts) == Kept(v, Write(Status, t))
    requires accepted || KeepTexts(v, Status, texts) == []
    ensures Inv(cfg, v, StatusSent(cfg, s, texts, accepted, calls), g', ws + [Write(Status, t)])
    ensures g'.status == texts && g'.reply == g.reply
  {
    KeepSnoc(v, ws, Write(Status, t));
    g' := g.(status := texts);
    if accepted {
      g' := g'.(chat := g.chat + [Entry(Status, texts)]);
      SendEntry(cfg, v, s.log, g.chat, Entry(Status, texts));
    } else {
      Unit(Keep(v, ws));
    }
    var s' := StatusSent(cfg, s, texts, accepted, calls);
    assert MadeOf(cfg, s'.log, g'.chat);
    assert StatusBuffer(cfg, s', g') && ReplyBuffer(s', g');
    assert Placement(v, s', g') && Unshown(v, s', g');
  }

  lemma StatusSendOutcome(cfg: Config, v: View, texts: seq<string>, ok: bool)
    requires v.Everything? ==> ok
    ensures (ok && !Blank(Render(cfg, Entry(Status, texts)))) || KeepTexts(v, Status, texts) == []
  {
    if !v.Everything? { StatusNotKept(v, texts); }
    else if Blank(Render(cfg, Entry(Status, texts))) { BlankStatus(v, cfg, texts); }
  }

  /** The state after the live status message was edited to hold one more text. */
  ghost function StatusEdited(cfg: Config, s: State, texts: seq<string>, calls: seq<Call>): State
    requires s.statusID.Some? && s.statusID.value < |s.log|
  {
    s.(statusBuf := cfg.open + Concat(texts), wrapOpen := cfg.open != "", calls := calls,
       log := s.log[s.statusID.value := Message(Status, Render(cfg, Entry(Status, texts)))])
  }

  lemma StatusEditedKeeps(cfg: Config, v: View, s: State, g: Texts, ws: seq<Write>, t: string, calls: seq<Call>)
    returns (g': Texts)
    requires Inv(cfg, v, s, g, ws) && !s.draftLive && !s.statusSealed && s.statusID.Some?
    ensures Inv(cfg, v, StatusEdited(cfg, s, g.status + [t], calls), g', ws + [Write(Status, t)])
    ensures g'.status == g.status + [t] && g'.reply == g.reply
  {
    hide Render, Keep, Concat, Blank;
    KeepSnoc(v, ws, Write(Status, t));
    EditEntry(cfg, v, s.log, g.chat, s.statusID.value, t);
    g' := g.(chat := AddText(g.chat, s.statusID.value, t), status := g.status + [t]);
    var s' := StatusEdited(cfg, s, g.status + [t], calls);
    assert MadeOf(cfg, s'.log, g'.chat);
    assert StatusBuffer(cfg, s', g') && ReplyBuffer(s', g');
    assert Placement(v, s', g') && Unshown(v, s', g');
  }

  /** What the buffer holds, and what a message of it shows, once a text is appended. */
  lemma StatusContent(cfg: Config, s: State, g: Texts, t: string)
    requires StatusBuffer(cfg, s, g)
    ensures (s.statusBuf + if !s.wrapOpen && cfg.open != "" then cfg.open + t else t)
            == cfg.open + Concat(g.status + [t])
    ensures Suffix(cfg, cfg.open != "", cfg.open + Concat(g.status + [t])) == Wrap(cfg, Concat(g.status + [t]))
    ensures Prefix(cfg, t) == cfg.open + Concat([t])
    ensures Suffix(cfg, cfg.open != "", Prefix(cfg, t)) == Wrap(cfg, Concat([t]))
  {
    ConcatSnoc(g.status, t);
    ConcatSnoc([], t);
    Unit(t);
    Unit(Concat(g.status + [t]));
    Unit(cfg.open + Concat(g.status + [t]));
    Unit(cfg.open + t);
    Associative(cfg.open, Concat(g.status), t);
  }

  ghost function Appended(cfg: Config, s: State, texts: seq<string>): State {
    s.(wrapOpen := cfg.open != "", statusBuf := cfg.open + Concat(texts))
  }

  /** A status write in terms of its texts: the live message whole, or the new text alone. */
  lemma AppendStatusForm(cfg: Config, s: State, g: Texts, t: string, env: Env)
    requires StatusBuffer(cfg, s, g)
    ensures var all, one := Wrap(cfg, Concat(g.status + [t])), Wrap(cfg, Concat([t]));
            AppendStatus(cfg, s, t, env)
            == if s.statusID.None? then SendNewStatus(Appended(cfg, s, g.status + [t]), all, env.sendOk)
               else if ByteLength(all) > MAX_MESSAGE_LEN
               then SendNewStatus(Appended(cfg, s, [t]).(statusID := None), one, env.sendOk)
               else EditOrRecoverStatus(cfg, Appended(cfg, s, g.status + [t]), t, all, env)
  {
    StatusContent(cfg, s, g, t);
  }

  /** A status message sent, the writer having left the one before it. */
  lemma SendNewStatusForm(cfg: Config, s: State, s0: State, texts: seq<string>, ok: bool)
    requires s == Appended(cfg, s0, texts).(statusID := None)
    ensures var s' := SendNewStatus(s, Wrap(cfg, Concat(texts)), ok).state;
            s' == StatusSent(cfg, s0, texts, ok && !Blank(Render(cfg, Entry(Status, texts))), s'.calls)
  {}

  /** Whether the live status message takes these texts by an edit. */
  predicate StatusEdits(cfg: Config, s: State, texts: seq<string>, env: Env)
    requires s.statusID.Some?
  {
    env.editOk || Shown(s, s.statusID.value) == Truncate(Wrap(cfg, Concat(texts)))
  }

  lemma EditStatusForm(cfg: Config, s: State, texts: seq<string>, t: string, env: Env)
    requires s.statusID.Some? && s.statusID.value < |s.log| && s.log[s.statusID.value].kind == Status
    requires StatusEdits(cfg, s, texts, env)
    ensures var s' := EditOrRecoverStatus(cfg, Appended(cfg, s, texts), t, Wrap(cfg, Concat(texts)), env).state;
            s' == StatusEdited(cfg, s, texts, s'.calls)
  {
    var i := s.statusID.value;
    assert !env.editOk ==> s.log[i := Message(Status, Shown(s, i))] == s.log;
  }

  /** A refused edit sends the text alone in a new message. It need not seal the reply: a live
      unsealed status means there is no reply left to seal. */
  lemma RecoverStatusForm(cfg: Config, s: State, texts: seq<string>, t: string, env: Env)
    requires s.statusID.Some? && (s.respID.None? || s.respSealed)
    requires !StatusEdits(cfg, s, texts, env)
    requires Prefix(cfg, t) == cfg.open + Concat([t])
    requires Suffix(cfg, cfg.open != "", Prefix(cfg, t)) == Wrap(cfg, Concat([t]))
    ensures var s' := EditOrRecoverStatus(cfg, Appended(cfg, s, texts), t, Wrap(cfg, Concat(texts)), env).state;
            s' == StatusSent(cfg, s, [t], env.recoveryOk && !Blank(Render(cfg, Entry(Status, [t]))), s'.calls)
  {}

  lemma SendingKeeps(cfg: Config, v: View, s: State, g: Texts, ws: seq<Write>, t: string, texts: seq<string>,
                     ok: bool, s': State)
    returns (g': Texts)
    requires Inv(cfg, v, s, g, ws) && !s.draftLive && !s.statusSealed && (v.Everything? ==> ok)
    requires texts == [t] || (texts == g.status + [t] && s.statusID.None?)
    requires s' == StatusSent(cfg, s, texts, ok && !Blank(Render(cfg, Entry(Status, texts))), s'.calls)
    ensures Inv(cfg, v, s', g', ws + [Write(Status, t)])
    ensures g'.status == texts && g'.reply == g.reply
  {
    KeepTextsSnoc(v, Status, g.status, t);
    Unit(Kept(v, Write(Status, t)));
    StatusSendOutcome(cfg, v, texts, ok);
    g' := StatusSentKeeps(cfg, v, s, g, ws, t, texts, ok && !Blank(Render(cfg, Entry(Status, texts))), s'.calls);
  }

  lemma StatusKeeps(cfg: Config, v: View, s: State, g: Texts, ws: seq<Write>, t: string, env: Env)
    returns (g': Texts)
    requires Inv(cfg, v, s, g, ws) && !s.draftLive && !s.statusSealed && Answers(v, env)
    ensures Inv(cfg, v, AppendStatus(cfg, s, t, env).state, g', ws + [Write(Status, t)])
    ensures Follows(g.status, g'.status, t) && g'.reply == g.reply
  {
    hide ByteLength;
    var texts := g.status + [t];
    StatusContent(cfg, s, g, t);
    AppendStatusForm(cfg, s, g, t, env);
    var s' := AppendStatus(cfg, s, t, env).state;
    if s.statusID.None? {
      SendNewStatusForm(cfg, Appended(cfg, s, texts), s, texts, env.sendOk);
      g' := SendingKeeps(cfg, v, s, g, ws, t, texts, env.sendOk, s');
    } else if ByteLength(Wrap(cfg, Concat(texts))) > MAX_MESSAGE_LEN {
      SendNewStatusForm(cfg, Appended(cfg, s, [t]).(statusID := None), s, [t], env.sendOk);
      g' := SendingKeeps(cfg, v, s, g, ws, t, [t], env.sendOk, s');
    } else if StatusEdits(cfg, s, texts, env) {
      EditStatusForm(cfg, s, texts, t, env);
      g' := StatusEditedKeeps(cfg, v, s, g, ws, t, s'.calls);
    } else {
      RecoverStatusForm(cfg, s, texts, t, env);
      g' := SendingKeeps(cfg, v, s, g, ws, t, [t], env.recoveryOk, s');
    }
  }

  /** The status message above the reply is behind it: sealed, or never sent. */
  predicate StatusBehind(s: State) { s.statusSealed || s.statusID.None? }

  lemma StartReplyKeeps(cfg: Config, v: View, s: State, g: Texts, ws: seq<Write>) returns (g': Texts)
    requires Inv(cfg, v, s, g, ws)
    ensures var s' := StartReply(s); Inv(cfg, v, s', g', ws) && !s'.respSealed && StatusBehind(s')
    ensures g'.status == g.status && (g'.reply == g.reply || g'.reply == [])
  {
    g' := if s.respSealed then g.(reply := []) else g;
  }

  lemma RotateReplyKeeps(cfg: Config, v: View, s: State, g: Texts, ws: seq<Write>, t: string, ok: bool)
    returns (g': Texts)
    requires Inv(cfg, v, s, g, ws) && !s.respSealed && StatusBehind(s)
    requires !RotateReply(cfg, s, t, ok).failed
    ensures var s' := RotateReply(cfg, s, t, ok).state; Inv(cfg, v, s', g', ws) && !s'.respSealed && StatusBehind(s')
    ensures g'.status == g.status && (g'.reply == g.reply || g'.reply == [])
  {
    g' := g;
    if |s.respBuf| > 0 && ByteLength(s.respBuf) + ByteLength(t) > cfg.replyLimit {
      g' := FlushKeeps(cfg, v, s, g, ws, ok);
      g' := g'.(reply := []);
    }
    var s' := RotateReply(cfg, s, t, ok).state;
    assert MadeOf(cfg, s'.log, g'.chat);
    assert StatusBuffer(cfg, s', g') && ReplyBuffer(s', g');
    assert Placement(v, s', g') && Unshown(v, s', g');
  }

  /** The reply buffer holds these texts and the chat does not show them yet: what the chat
      shows, followed by them, is everything written. */
  ghost predicate Pending(v: View, s: State, g: Texts, texts: seq<string>, ws: seq<Write>) {
    Read(v, g.chat) + KeepTexts(v, Reply, texts) == Keep(v, ws)
  }

  lemma ReplyPending(cfg: Config, v: View, s: State, g: Texts, ws: seq<Write>, t: string)
    requires Inv(cfg, v, s, g, ws) && s.respID.None?
    ensures Pending(v, s, g, g.reply + [t], ws + [Write(Reply, t)])
  {
    KeepSnoc(v, ws, Write(Reply, t));
    KeepTextsSnoc(v, Reply, g.reply, t);
    Unit(Kept(v, Write(Reply, t)));
    Associative(Read(v, g.chat), KeepTexts(v, Reply, g.reply), Kept(v, Write(Reply, t)));
  }

  /** The state after the reply in hand was sent as a new message. */
  ghost function ReplySent(s: State, texts: seq<string>, s': State): State {
    s.(respBuf := Concat(texts), respID := Some(|s.log|), log := s.log + [Message(Reply, Concat(texts))],
       drafts := s'.drafts, draftLive := false, draftID := s'.draftID, lastDraft := s'.lastDraft, calls := s'.calls)
  }

  lemma ReplySentKeeps(cfg: Config, v: View, s: State, g: Texts, ws: seq<Write>, texts: seq<string>, s': State)
    returns (g': Texts)
    requires MadeOf(cfg, s.log, g.chat) && StatusBuffer(cfg, s, g) && StatusBehind(s) && !s.respSealed
    requires s.statusID.None? ==> KeepTexts(v, Status, g.status) == []
    requires Pending(v, s, g, texts, ws) && !Blank(Concat(texts))
    ensures Inv(cfg, v, ReplySent(s, texts, s'), g', ws) && g'.reply == texts && g'.status == g.status
  {
    g' := g.(chat := g.chat + [Entry(Reply, texts)], reply := texts);
    SendEntry(cfg, v, s.log, g.chat, Entry(Reply, texts));
    var sent := ReplySent(s, texts, s');
    assert MadeOf(cfg, sent.log, g'.chat);
    assert StatusBuffer(cfg, sent, g') && ReplyBuffer(sent, g');
    assert Placement(v, sent, g') && Unshown(v, sent, g');
  }

  /** The state in which the reply in hand is not a message: a draft, or too blank to show. */
  ghost function ReplyHeld(s: State, texts: seq<string>, live: bool, s': State): State {
    s.(respBuf := Concat(texts), respID := None, draftLive := live, drafts := s'.drafts, draftID := s'.draftID,
       lastDraft := s'.lastDraft, calls := s'.calls)
  }

  lemma ReplyHeldKeeps(cfg: Config, v: View, s: State, g: Texts, ws: seq<Write>, texts: seq<string>,
                       live: bool, s': State)
    returns (g': Texts)
    requires MadeOf(cfg, s.log, g.chat) && StatusBuffer(cfg, s, g) && StatusBehind(s) && !s.respSealed
    requires s.statusID.None? ==> KeepTexts(v, Status, g.status) == []
    requires Pending(v, s, g, texts, ws) && Blank(Concat(texts)) != live && (live ==> s'.drafts)
    ensures Inv(cfg, v, ReplyHeld(s, texts, live, s'), g', ws) && g'.reply == texts && g'.status == g.status
  {
    g' := g.(reply := texts);
    if !live {
      BlankTexts(v, Reply, texts);
      Unit(Read(v, g.chat));
    }
    var held := ReplyHeld(s, texts, live, s');
    assert MadeOf(cfg, held.log, g'.chat);
    assert StatusBuffer(cfg, held, g') && ReplyBuffer(held, g');
    assert Placement(v, held, g') && Unshown(v, held, g');
  }

  /** The state after the live reply message was edited to hold one more text. */
  ghost function ReplyEdited(s: State, texts: seq<string>, calls: seq<Call>): State
    requires s.respID.Some? && s.respID.value < |s.log|
  {
    s.(respBuf := Concat(texts), calls := calls, log := s.log[s.respID.value := Message(Reply, Concat(texts))])
  }

  lemma ReplyEditedKeeps(cfg: Config, v: View, s: State, g: Texts, ws: seq<Write>, t: string, calls: seq<Call>)
    returns (g': Texts)
    requires Inv(cfg, v, s, g, ws) && !s.respSealed && StatusBehind(s) && s.respID.Some?
    requires !Blank(Concat(g.reply + [t]))
    ensures Inv(cfg, v, ReplyEdited(s, g.reply + [t], calls), g', ws + [Write(Reply, t)])
    ensures g'.reply == g.reply + [t] && g'.status == g.status
  {
    KeepSnoc(v, ws, Write(Reply, t));
    EditEntry(cfg, v, s.log, g.chat, s.respID.value, t);
    g' := g.(chat := AddText(g.chat, s.respID.value, t), reply := g.reply + [t]);
    var s' := ReplyEdited(s, g.reply + [t], calls);
    assert MadeOf(cfg, s'.log, g'.chat);
    assert StatusBuffer(cfg, s', g') && ReplyBuffer(s', g');
    assert Placement(v, s', g') && Unshown(v, s', g');
  }

  /** Text added to a text that shows something still shows something. */
  lemma StillShown(a: string, b: string)
    requires !Blank(a)
    ensures !Blank(a + b)
  {
    var i :| 0 <= i < |a| && !IsSpace(a[i]);
    assert (a + b)[i] == a[i];
  }

  /** Whether the live reply message takes the buffer by an edit. */
  predicate ReplyEdits(s: State, content: string, env: Env)
    requires s.respID.Some?
  {
    env.editOk || Shown(s, s.respID.value) == content
  }

  lemma ReplyEditForm(s: State, texts: seq<string>, t: string, env: Env)
    requires s.respID.Some? && s.respID.value < |s.log| && s.log[s.respID.value].kind == Reply
    requires !Blank(s.respBuf) && s.respBuf == Concat(texts) && ReplyEdits(s, s.respBuf, env)
    ensures var o := ShowReply(s, t, env); !o.failed && o.state == ReplyEdited(s, texts, o.state.calls)
  {
    var i := s.respID.value;
    assert !env.editOk ==> s.log[i := Message(Reply, Shown(s, i))] == s.log;
  }

  lemma ReplyRecoverForm(s: State, t: string, env: Env)
    requires s.respID.Some? && !Blank(s.respBuf) && !ReplyEdits(s, s.respBuf, env) && Concat([t]) == t
    requires !s.draftLive
    ensures var o := ShowReply(s, t, env);
            if env.recoveryOk && !Blank(t) then !o.failed && o.state == ReplySent(s, [t], o.state)
            else o.failed && o.state == ReplyHeld(s, [t], false, o.state)
  {}

  lemma ReplyShownKeeps(cfg: Config, v: View, s: State, g: Texts, ws: seq<Write>, t: string, env: Env)
    returns (g': Texts)
    requires Inv(cfg, v, s, g, ws) && !s.respSealed && StatusBehind(s) && s.respID.Some?
    requires Answers(v, env)
    requires var o := ShowReply(s.(respBuf := s.respBuf + t), t, env); !v.Everything? ==> !o.failed
    ensures var o := ShowReply(s.(respBuf := s.respBuf + t), t, env);
            Inv(cfg, v, o.state, g', ws + [Write(Reply, t)])
    ensures Follows(g.reply, g'.reply, t) && g'.status == g.status
  {
    hide Read, Render, Keep;
    var added := s.(respBuf := s.respBuf + t);
    var o := ShowReply(added, t, env);
    ConcatSnoc(g.reply, t);
    StillShown(s.respBuf, t);
    if ReplyEdits(added, added.respBuf, env) {
      ReplyEditForm(added, g.reply + [t], t, env);
      g' := ReplyEditedKeeps(cfg, v, s, g, ws, t, o.state.calls);
    } else {
      ConcatSnoc([], t);
      Unit(t);
      ReplyRecoverForm(added, t, env);
      KeepSnoc(v, ws, Write(Reply, t));
      KeepTextsSnoc(v, Reply, [], t);
      if o.failed {
        g' := ReplyHeldKeeps(cfg, v, s, g, ws + [Write(Reply, t)], [t], false, o.state);
      } else {
        g' := ReplySentKeeps(cfg, v, s, g, ws + [Write(Reply, t)], [t], o.state);
      }
    }
  }

  /** A reply that is no message yet becomes one, or is held as a draft or as white space. */
  lemma UnshownOutcome(s: State, texts: seq<string>, t: string, env: Env)
    requires s.respID.None? && s.respBuf == Concat(texts) && (s.draftLive ==> s.drafts && !Blank(s.respBuf))
    ensures var o := ShowReply(s, t, env);
            || (!o.failed && !Blank(s.respBuf) && o.state == ReplySent(s, texts, o.state))
            || (!o.failed && o.state == ReplyHeld(s, texts, o.state.draftLive, o.state)
                && Blank(s.respBuf) != o.state.draftLive && (o.state.draftLive ==> o.state.drafts))
            || (o.failed && !env.sendOk)
  {
    hide StreamDraft, Blank, Concat;
  }

  lemma ReplyUnshownKeeps(cfg: Config, v: View, s: State, g: Texts, ws: seq<Write>, t: string, env: Env)
    returns (g': Texts)
    requires Inv(cfg, v, s, g, ws) && !s.respSealed && StatusBehind(s) && s.respID.None?
    requires Answers(v, env)
    requires var o := ShowReply(s.(respBuf := s.respBuf + t), t, env); !v.Everything? ==> !o.failed
    ensures var o := ShowReply(s.(respBuf := s.respBuf + t), t, env);
            Inv(cfg, v, o.state, g', ws + [Write(Reply, t)])
    ensures Follows(g.reply, g'.reply, t) && g'.status == g.status
  {
    var texts, ws' := g.reply + [t], ws + [Write(Reply, t)];
    var held := s.(respBuf := s.respBuf + t);
    var s' := ShowReply(held, t, env).state;
    ConcatSnoc(g.reply, t);
    ReplyPending(cfg, v, s, g, ws, t);
    if s.draftLive { StillShown(s.respBuf, t); }
    UnshownOutcome(held, texts, t, env);
    if s'.respID.Some? {
      g' := ReplySentKeeps(cfg, v, s, g, ws', texts, s');
    } else {
      g' := ReplyHeldKeeps(cfg, v, s, g, ws', texts, s'.draftLive, s');
    }
  }

  /** No answer of the transport that this view depends on is a refusal, except of an edit, of a
      draft, or of a text of white space. */
  predicate Answered(v: View, steps: seq<Step>) {
    forall i | 0 <= i < |steps| :: Answers(v, steps[i].env)
  }

  lemma StartStatusKeeps(cfg: Config, v: View, s: State, g: Texts, ws: seq<Write>) returns (g': Texts)
    requires Inv(cfg, v, s, g, ws) && !s.draftLive
    ensures Inv(cfg, v, StartStatus(s), g', ws) && !StartStatus(s).statusSealed && !StartStatus(s).draftLive
    ensures g'.reply == g.reply && (g'.status == g.status || g'.status == [])
  {
    g' := if s.statusSealed then g.(status := []) else g;
  }

  lemma StatusWriteKeeps(cfg: Config, v: View, s: State, g: Texts, ws: seq<Write>, t: string, env: Env)
    returns (g': Texts)
    requires Inv(cfg, v, s, g, ws) && Answers(v, env)
    requires !v.Everything? ==> !WriteStatus(cfg, s, t, env).failed
    ensures Inv(cfg, v, WriteStatus(cfg, s, t, env).state, g', ws + [Write(Status, t)])
    ensures Follows(g.status, g'.status, t) && g'.reply == g.reply
  {
    g' := FlushKeeps(cfg, v, s, g, ws, env.flushOk);
    var flushed := FlushDraft(s, env.flushOk).state;
    g' := StartStatusKeeps(cfg, v, flushed, g', ws);
    g' := StatusKeeps(cfg, v, StartStatus(flushed), g', ws, t, env);
  }

  lemma ReplyWriteKeeps(cfg: Config, v: View, s: State, g: Texts, ws: seq<Write>, t: string, env: Env)
    returns (g': Texts)
    requires Inv(cfg, v, s, g, ws) && Answers(v, env)
    requires !v.Everything? ==> !WriteReply(cfg, s, t, env).failed
    ensures Inv(cfg, v, WriteReply(cfg, s, t, env).state, g', ws + [Write(Reply, t)])
    ensures Follows(g.reply, g'.reply, t) && g'.status == g.status
  {
    g' := StartReplyKeeps(cfg, v, s, g, ws);
    g' := RotateReplyKeeps(cfg, v, StartReply(s), g', ws, t, env.flushOk);
    var s' := RotateReply(cfg, StartReply(s), t, env.flushOk).state;
    if s'.respID.Some? {
      g' := ReplyShownKeeps(cfg, v, s', g', ws, t, env);
    } else {
      g' := ReplyUnshownKeeps(cfg, v, s', g', ws, t, env);
    }
  }

  /** The texts written so far, status and reply apart. */
  function TextsOf(kind: Kind, ws: seq<Write>): seq<string> {
    if ws == [] then []
    else TextsOf(kind, ws[..|ws| - 1]) + if ws[|ws| - 1].kind == kind then [ws[|ws| - 1].text] else []
  }

  lemma TextsOfSnoc(kind: Kind, ws: seq<Write>, w: Write)
    ensures TextsOf(kind, ws + [w]) == if w.kind == kind then TextsOf(kind, ws) + [w.text] else TextsOf(kind, ws)
  {
    assert (ws + [w])[..|ws|] == ws;
    Unit(TextsOf(kind, ws));
  }

  /** The last texts of a history, as a buffer that was reset some writes ago holds them. */
  ghost predicate Ends(all: seq<string>, part: seq<string>) {
    |part| <= |all| && part == all[|all| - |part|..]
  }

  lemma EndsFollows(all: seq<string>, before: seq<string>, after: seq<string>, t: string)
    requires Ends(all, before) && Follows(before, after, t)
    ensures Ends(all + [t], after)
  {}

  /** The buffers hold the last texts written. */
  ghost predicate Recent(g: Texts, ws: seq<Write>) {
    Ends(TextsOf(Status, ws), g.status) && Ends(TextsOf(Reply, ws), g.reply)
  }

  lemma InitiallyHolds(cfg: Config, v: View)
    ensures Inv(cfg, v, Initial(cfg), Texts([], [], []), [])
  {}

  lemma WriteKeeps(cfg: Config, v: View, s: State, g: Texts, ws: seq<Write>, w: Write, env: Env)
    returns (g': Texts)
    requires Inv(cfg, v, s, g, ws) && Answers(v, env) && Recent(g, ws)
    requires !v.Everything? ==> !WriteSplit(cfg, s, w, env).failed
    ensures Inv(cfg, v, WriteSplit(cfg, s, w, env).state, g', ws + [w]) && Recent(g', ws + [w])
  {
    TextsOfSnoc(Status, ws, w);
    TextsOfSnoc(Reply, ws, w);
    match w
    case Write(Status, t) =>
      g' := StatusWriteKeeps(cfg, v, s, g, ws, t, env);
      EndsFollows(TextsOf(Status, ws), g.status, g'.status, t);
    case Write(Reply, t) =>
      g' := ReplyWriteKeeps(cfg, v, s, g, ws, t, env);
      EndsFollows(TextsOf(Reply, ws), g.reply, g'.reply, t);
  }

  lemma {:induction false} RunKeeps(cfg: Config, v: View, steps: seq<Step>) returns (g: Texts)
    requires Answered(v, steps)
    requires !v.Everything? ==> !Run(cfg, steps).failed
    ensures Inv(cfg, v, Run(cfg, steps).state, g, Run(cfg, steps).writes)
    ensures !Run(cfg, steps).failed ==> Recent(g, Run(cfg, steps).writes)
  {
    if steps == [] {
      InitiallyHolds(cfg, v);
      g := Texts([], [], []);
    } else {
      var front, step := steps[..|steps| - 1], steps[|steps| - 1];
      var t := Run(cfg, front);
      g := RunKeeps(cfg, v, front);
      if !t.failed { g := WriteKeeps(cfg, v, t.state, g, t.writes, step.write, step.env); }
    }
  }

  /** The chat is made of texts whose reading, white space aside, is exactly what was written. */
  ghost predicate ReadsAs(cfg: Config, v: View, log: seq<Message>, ws: seq<Write>) {
    exists es :: MadeOf(cfg, log, es) && Read(v, es) == Keep(v, ws)
  }

  lemma FinishReads(cfg: Config, v: View, t: Turn, g: Texts, ok: bool)
    requires Inv(cfg, v, t.state, g, t.writes) && !Finish(t, ok).failed
    ensures ReadsAs(cfg, v, Finish(t, ok).state.log, t.writes)
  {
    var g' := FlushKeeps(cfg, v, t.state, g, t.writes, ok);
    assert MadeOf(cfg, Finish(t, ok).state.log, g'.chat);
  }

  /** For every sequence of writes, with edits failing and drafts refused at any point, and with
      every send of a visible text accepted: after the final flush the chat, read top to bottom,
      holds every visible text done exactly once and in the order written. This also covers a turn
      that an error cut short. */
  lemma ChatReadsAsWritten(cfg: Config, steps: seq<Step>)
    requires Answered(Everything, steps)
    ensures var t := Run(cfg, steps);
            !Finish(t, true).failed && ReadsAs(cfg, Everything, Finish(t, true).state.log, t.writes)
  {
    var g := RunKeeps(cfg, Everything, steps);
    FinishReads(cfg, Everything, Run(cfg, steps), g, true);
  }

  /** Whatever happens to the status messages, sends included: a turn that returns no error shows
      the whole reply, exactly once and in order. */
  lemma ReplyReadsAsWritten(cfg: Config, steps: seq<Step>, ok: bool)
    requires var t := Run(cfg, steps); !t.failed && !Finish(t, ok).failed
    ensures var t := Run(cfg, steps); ReadsAs(cfg, RepliesOnly, Finish(t, ok).state.log, t.writes)
  {
    var g := RunKeeps(cfg, RepliesOnly, steps);
    FinishReads(cfg, RepliesOnly, Run(cfg, steps), g, ok);
  }

  // ---- When a turn fails ---------------------------------------------------------------------

  /** A separator appended to a reply on screen whose edit is refused: the code then sends the
      separator alone as a new message, and a message of white space cannot be sent. */
  predicate BareSeparatorRecovery(cfg: Config, s: State, w: Write, env: Env) {
    && w.kind == Reply && w.text != "" && Blank(w.text) && !env.editOk
    && s.respID.Some? && !s.respSealed && ByteLength(s.respBuf) + ByteLength(w.text) <= cfg.replyLimit
  }

  lemma ShownReplyFails(s: State, t: string, env: Env)
    requires s.respID.Some? && !Blank(s.respBuf) && Shown(s, s.respID.value) == s.respBuf && env.recoveryOk
    ensures ShowReply(s.(respBuf := s.respBuf + t), t, env).failed <==> t != "" && Blank(t) && !env.editOk
  {
    hide Replace, StreamDraft;
    StillShown(s.respBuf, t);
    assert |s.respBuf + t| == |s.respBuf| + |t|;
    if t == "" { Unit(s.respBuf); }
  }

  /** What is shown is not white space, and a live reply message shows its buffer. */
  predicate ShownReply(s: State) {
    && (s.draftLive || s.respID.Some? ==> !Blank(s.respBuf))
    && (s.draftLive ==> s.respID.None?)
    && (s.respID.Some? ==> Shown(s, s.respID.value) == s.respBuf)
  }

  lemma RunShowsReply(cfg: Config, steps: seq<Step>)
    requires Answered(Everything, steps)
    ensures ShownReply(Run(cfg, steps).state)
  {
    var g := RunKeeps(cfg, Everything, steps);
  }

  lemma StatusNeverFails(cfg: Config, s: State, t: string, env: Env)
    requires s.draftLive ==> env.flushOk && !Blank(s.respBuf)
    ensures !WriteStatus(cfg, s, t, env).failed
  {}

  lemma HeldReplyFails(s: State, t: string, env: Env)
    requires s.respID.None? && env.sendOk
    ensures !ShowReply(s.(respBuf := s.respBuf + t), t, env).failed
  {
    hide StreamDraft, Blank;
  }

  lemma ReplyFailsExactly(cfg: Config, s: State, t: string, env: Env)
    requires ShownReply(s) && Answers(Everything, env)
    ensures WriteReply(cfg, s, t, env).failed <==> BareSeparatorRecovery(cfg, s, Write(Reply, t), env)
  {
    hide EditOrRecoverReply;
    var rotated := RotateReply(cfg, StartReply(s), t, env.flushOk);
    assert !rotated.failed;
    if rotated.state.respID.Some? {
      assert rotated.state == StartReply(s);
      ShownReplyFails(s, t, env);
    } else {
      HeldReplyFails(rotated.state, t, env);
    }
  }

  /** With every send of a visible text accepted, a write of a running turn returns an error
      exactly when it is such a separator. */
  lemma FailsExactly(cfg: Config, steps: seq<Step>, w: Write, env: Env)
    requires Answered(Everything, steps) && Answers(Everything, env)
    requires !Run(cfg, steps).failed
    ensures var s := Run(cfg, steps).state;
            WriteSplit(cfg, s, w, env).failed <==> BareSeparatorRecovery(cfg, s, w, env)
  {
    var s := Run(cfg, steps).state;
    RunShowsReply(cfg, steps);
    match w
    case Write(Reply, text) => ReplyFailsExactly(cfg, s, text, env);
    case Write(Status, text) => StatusNeverFails(cfg, s, text, env);
  }

  const PLAIN := Config("", "", 3500, false)
  const FINE := Env(true, Accepted, true, true, true, 0)
  const SEPARATOR_TURN := [Step(Write(Reply, "A"), FINE), Step(Write(Reply, "\n\n"), FINE.(editOk := false))]

  /** Such a turn exists: one visible reply text, then a separator whose edit is refused. */
  lemma SeparatorCanFailTurn()
    ensures Answered(Everything, SEPARATOR_TURN) && Run(PLAIN, SEPARATOR_TURN).failed
  {
    var first := SEPARATOR_TURN[..1];
    assert first[..0] == [];
    assert Run(PLAIN, []) == Turn(Initial(PLAIN), [], false);
    assert !IsSpace("A"[0]);
    assert "" + "A" == "A";
    var t := Run(PLAIN, first);
    assert t.state.respID == Some(0) && t.state.respBuf == "A";
    FailsExactly(PLAIN, first, SEPARATOR_TURN[1].write, SEPARATOR_TURN[1].env);
  }
}
