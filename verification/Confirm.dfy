/**
 Confirmations the user is asked for (internal/router/done.go, internal/channel/runtime_state.go),
 and the agent's own prompts, mirrored for the router to see (internal/agent/flows.go).
 */
module Confirm {
  import opened Base
  import opened Commands
  import opened Queue

  datatype Kind = ChannelDone | RepoGrant | RuleWrite | UnknownKind

  datatype Pending = Pending(kind: Kind, expiresAt: Option<int>, promptId: string)

  predicate Expired(p: Pending, now: int) { p.expiresAt.Some? && p.expiresAt.value < now }

  /** ArmPendingAction; false is ErrPromptWaiting. */
  function Arm(s: Option<Pending>, p: Pending, now: int): (bool, Option<Pending>) {
    if s.Some? && !Expired(s.value, now) then (false, s) else (true, Some(p))
  }

  /** What becomes of a message: on to the agent, taken as a refusal, told to press a button, or
      taken as consent; and whether an action is performed for it. */
  datatype Verdict = Forward | Declined | PressInstead | Confirmed(p: Pending)

  /** Whether a text, lower-cased and trimmed, says yes. */
  predicate SaysYes(text: string) {
    LowersToWord(TrimSpace(text), "yes") || LowersToWord(TrimSpace(text), "y")
  }

  /** The circumstances of one message: the clock, whether one of the agent's prompts is open on the
      channel too, whether the channel has buttons, and whether clearing the action works. */
  datatype Setting = Setting(now: int, agentPromptOpen: bool, hasButtons: bool, works: bool)

  function Cleared(s: Option<Pending>, works: bool): Option<Pending> { if works then None else s }

  function Intercept(s: Option<Pending>, m: Message, at: Setting): (Verdict, Option<Pending>) {
    if s.None? || !IsUser(m) then (Forward, s)
    else
      var p := s.value;
      if Expired(p, at.now) then (Forward, Cleared(s, at.works))
      else match ParseButtonPress(m.text)
        case Some(press) =>
          if press.promptId != p.promptId then (Forward, s)
          else if press.reply != "yes" then (Declined, Cleared(s, at.works))
          else (if p.kind == UnknownKind then Forward else Confirmed(p), Cleared(s, at.works))
        case None =>
          if SaysYes(m.text) && at.agentPromptOpen && at.hasButtons then (PressInstead, s)
          else if !SaysYes(m.text) then (Forward, Cleared(s, at.works))
          else (if p.kind == UnknownKind then Forward else Confirmed(p), Cleared(s, at.works))
  }

  class RuntimeState {
    var pending: Option<Pending>

    constructor ()
      ensures pending == None
    {
      pending := None;
    }

    method ArmPendingAction(p: Pending, now: int) returns (ok: bool)
      modifies this
      ensures (ok, pending) == Arm(old(pending), p, now)
    {
      if pending.Some? && !Expired(pending.value, now) { return false; }
      pending := Some(p);
      ok := true;
    }

    method ClearPendingAction(works: bool)
      modifies this
      ensures pending == Cleared(old(pending), works)
    {
      if works { pending := None; }
    }

    method InterceptPendingConfirmation(m: Message, at: Setting) returns (v: Verdict)
      modifies this
      ensures (v, pending) == Intercept(old(pending), m, at)
    {
      if pending.None? { return Forward; }
      var p := pending.value;
      if m.source.Some? && m.source.value != User { return Forward; }
      if Expired(p, at.now) {
        ClearPendingAction(at.works);
        return Forward;
      }
      var yes := SaysYes(m.text);
      var press := ParseButtonPress(m.text);
      if press.Some? {
        if press.value.promptId != p.promptId { return Forward; }
        if press.value.reply != "yes" {
          ClearPendingAction(at.works);
          return Declined;
        }
        yes := true;
      }
      var bothOpen := press.None? && yes && at.agentPromptOpen;
      if bothOpen && at.hasButtons { return PressInstead; }
      ClearPendingAction(at.works);
      if !yes || p.kind == UnknownKind { return Forward; }
      return Confirmed(p);
    }
  }

  // ---- Verdicts -------------------------------------------------------------------------------

  /** yes or y in any case, white space around it aside. */
  predicate TypedYes(m: Message) { LowersToWord(TrimSpace(m.text), "yes") || LowersToWord(TrimSpace(m.text), "y") }

  /** A user's message to a question that has not expired. */
  predicate Answers(s: Option<Pending>, m: Message, at: Setting) {
    s.Some? && !(s.value.expiresAt.Some? && s.value.expiresAt.value < at.now)
    && (m.source.None? || m.source == Some(User))
  }

  predicate Pressed(m: Message, id: string, reply: string) { ParseButtonPress(m.text) == Some(ButtonPress(id, reply)) }

  /** What becomes of a message: another button of the question's prompt declines it; a typed yes is
      sent to the buttons where the agent's prompt is open too and there are buttons; its yes button
      or any other typed yes confirms it if its kind is known; everything else goes on to the
      agent, a typed refusal among it. */
  lemma VerdictExactly(s: Option<Pending>, m: Message, at: Setting)
    ensures Intercept(s, m, at).0 == Declined
        <==> Answers(s, m, at) && exists reply :: reply != "yes" && Pressed(m, s.value.promptId, reply)
    ensures Intercept(s, m, at).0 == PressInstead
        <==> Answers(s, m, at) && ParseButtonPress(m.text).None? && TypedYes(m) && at.agentPromptOpen && at.hasButtons
    ensures Intercept(s, m, at).0.Confirmed?
        <==> Answers(s, m, at) && s.value.kind != UnknownKind
             && (Pressed(m, s.value.promptId, "yes")
                 || (ParseButtonPress(m.text).None? && TypedYes(m) && !(at.agentPromptOpen && at.hasButtons)))
    ensures Intercept(s, m, at).0.Confirmed? ==> Intercept(s, m, at).0.p == s.value
  {
    hide ParseButtonPress, LowersToWord, TrimSpace;
    var press := ParseButtonPress(m.text);
    if s.Some? && press.Some? && press.value.promptId == s.value.promptId {
      assert Pressed(m, s.value.promptId, press.value.reply);
    }
  }

  /** What a message leaves open: nothing once an expired question, or one it answers, is cleared. */
  lemma ClearsExactly(s: Option<Pending>, m: Message, at: Setting)
    ensures Intercept(s, m, at).1 == s || Intercept(s, m, at).1 == None
    ensures s.Some? ==>
              (Intercept(s, m, at).1 == None
               <==> at.works && (m.source.None? || m.source == Some(User))
                    && (Answers(s, m, at) ==>
                          match ParseButtonPress(m.text)
                          case Some(press) => press.promptId == s.value.promptId
                          case None => !(TypedYes(m) && at.agentPromptOpen && at.hasButtons)))
  {
    hide ParseButtonPress, LowersToWord, TrimSpace;
  }

  // ---- Runs -----------------------------------------------------------------------------------

  datatype Step = Ask(p: Pending, now: int) | Receive(m: Message, at: Setting)

  datatype Act = Act(p: Pending, m: Message, at: Setting)

  datatype World = World(pending: Option<Pending>, asked: seq<string>, acts: seq<Act>)

  const FRESH := World(None, [], [])

  function Do(w: World, step: Step): World {
    match step
    case Ask(p, now) =>
      var (ok, after) := Arm(w.pending, p, now);
      World(after, w.asked + [p.promptId], w.acts)
    case Receive(m, at) =>
      var (v, after) := Intercept(w.pending, m, at);
      World(after, w.asked, if v.Confirmed? then w.acts + [Act(v.p, m, at)] else w.acts)
  }

  function Run(w: World, steps: seq<Step>): World
    decreases |steps|
  {
    if steps == [] then w else Run(Do(w, steps[0]), steps[1..])
  }

  /** Prompt ids are never used twice. */
  predicate Fresh(asked: seq<string>, steps: seq<Step>)
    decreases |steps|
  {
    steps == [] || match steps[0]
      case Ask(p, _) => p.promptId !in asked && Fresh(asked + [p.promptId], steps[1..])
      case Receive(_, _) => Fresh(asked, steps[1..])
  }

  predicate StoreWorks(steps: seq<Step>) { forall i | 0 <= i < |steps| :: steps[i].Receive? ==> steps[i].at.works }

  /** A user's own, timely answer to this prompt: its yes button, or yes typed where that cannot
      mean another prompt that could be told apart. */
  predicate Consents(a: Act) {
    && IsUser(a.m) && !Expired(a.p, a.at.now)
    && match ParseButtonPress(a.m.text)
       case Some(press) => press == ButtonPress(a.p.promptId, "yes")
       case None => SaysYes(a.m.text) && !(a.at.agentPromptOpen && a.at.hasButtons)
  }

  predicate AllConsented(acts: seq<Act>) { forall i | 0 <= i < |acts| :: Consents(acts[i]) }

  /** Whatever fails, nothing is done without the user's consent to it. */
  lemma {:induction false} OnlyByConsent(w: World, steps: seq<Step>)
    requires AllConsented(w.acts)
    ensures AllConsented(Run(w, steps).acts)
    decreases |steps|
  {
    hide ParseButtonPress, SaysYes;
    if steps != [] { OnlyByConsent(Do(w, steps[0]), steps[1..]); }
  }

  lemma {:induction false} ActsGrow(w: World, steps: seq<Step>)
    ensures w.acts <= Run(w, steps).acts
    decreases |steps|
  {
    hide Intercept, Arm;
    if steps != [] { ActsGrow(Do(w, steps[0]), steps[1..]); }
  }

  /** No question is acted on twice, and none that is still open has been. */
  ghost predicate Once(w: World) {
    && (w.pending.Some? ==> w.pending.value.promptId in w.asked)
    && (forall i | 0 <= i < |w.acts| :: w.acts[i].p.promptId in w.asked)
    && (forall i | 0 <= i < |w.acts| && w.pending.Some? :: w.acts[i].p.promptId != w.pending.value.promptId)
    && (forall i, j | 0 <= i < j < |w.acts| :: w.acts[i].p.promptId != w.acts[j].p.promptId)
  }

  /** A question acted on whose clearing is not written down. */
  predicate LeavesOpenAt(w: World, step: Step) {
    step.Receive? && !step.at.works && Intercept(w.pending, step.m, step.at).0.Confirmed?
  }

  lemma StepOnceExactly(w: World, step: Step)
    requires Once(w) && (step.Ask? ==> step.p.promptId !in w.asked)
    ensures Once(Do(w, step)) <==> !LeavesOpenAt(w, step)
  {
    hide ParseButtonPress, SaysYes;
    var after := Do(w, step);
    if LeavesOpenAt(w, step) {
      assert after.acts[|w.acts|].p == after.pending.value;
    }
  }

  ghost predicate AlwaysOnce(w: World, steps: seq<Step>)
    decreases |steps|
  {
    Once(w) && (steps == [] || AlwaysOnce(Do(w, steps[0]), steps[1..]))
  }

  predicate LeavesNoneOpen(w: World, steps: seq<Step>)
    decreases |steps|
  {
    steps == [] || (!LeavesOpenAt(w, steps[0]) && LeavesNoneOpen(Do(w, steps[0]), steps[1..]))
  }

  /** Over any run with fresh prompt ids: in every state no question has been acted on twice or is
      still open after it has, if and only if the clearing of each one acted on is written down. */
  lemma {:induction false} ActedOnOnceExactly(w: World, steps: seq<Step>)
    requires Once(w) && Fresh(w.asked, steps)
    ensures AlwaysOnce(w, steps) <==> LeavesNoneOpen(w, steps)
    ensures LeavesNoneOpen(w, steps) ==> Once(Run(w, steps))
    decreases |steps|
  {
    if steps != [] {
      hide Once, LeavesOpenAt, Intercept, Arm;
      StepOnceExactly(w, steps[0]);
      if !LeavesOpenAt(w, steps[0]) { ActedOnOnceExactly(Do(w, steps[0]), steps[1..]); }
    }
  }

  lemma {:induction false} WorkingLeavesNone(w: World, steps: seq<Step>)
    requires StoreWorks(steps)
    ensures LeavesNoneOpen(w, steps)
    decreases |steps|
  {
    if steps != [] { WorkingLeavesNone(Do(w, steps[0]), steps[1..]); }
  }

  /** So while the store works each confirmation is acted on at most once, and only on the user's
      consent to it. */
  lemma EachActedOnOnceByConsent(steps: seq<Step>)
    requires Fresh([], steps) && StoreWorks(steps)
    ensures var acts := Run(FRESH, steps).acts;
            (forall i | 0 <= i < |acts| :: Consents(acts[i]))
            && forall i, j | 0 <= i < j < |acts| :: acts[i].p.promptId != acts[j].p.promptId
  {
    hide Run, Consents, LeavesNoneOpen, Fresh;
    WorkingLeavesNone(FRESH, steps);
    ActedOnOnceExactly(FRESH, steps);
    OnlyByConsent(FRESH, steps);
  }

  // ---- How long a question stays open ---------------------------------------------------------

  /** What leaves an open question alone: automated traffic, another prompt's button, and a yes that
      could mean either of two prompts where buttons tell them apart. */
  predicate Ignores(p: Pending, m: Message, at: Setting) {
    !IsUser(m)
    || match ParseButtonPress(m.text)
       case Some(press) => press.promptId != p.promptId
       case None => SaysYes(m.text) && at.agentPromptOpen && at.hasButtons
  }

  lemma OpenQuestionStays(s: Option<Pending>, m: Message, at: Setting, p: Pending)
    requires s.Some? && !Expired(s.value, at.now)
    ensures Arm(s, p, at.now) == (false, s)
    ensures Intercept(s, m, at).1 == (if Ignores(s.value, m, at) || !at.works then s else None)
    ensures Ignores(s.value, m, at) ==> !Intercept(s, m, at).0.Confirmed?
  {}

  lemma ConsentIsActedOn(p: Pending, m: Message, at: Setting)
    requires !Expired(p, at.now)
    ensures Intercept(Some(p), m, at).0 == Confirmed(p) <==> p.kind != UnknownKind && Consents(Act(p, m, at))
    ensures Intercept(Some(p), m, at).0.Confirmed? ==> Intercept(Some(p), m, at).0 == Confirmed(p)
  {}

  /** Every step comes before the question expires. */
  predicate Timely(p: Pending, steps: seq<Step>) {
    forall i | 0 <= i < |steps| :: !Expired(p, if steps[i].Ask? then steps[i].now else steps[i].at.now)
  }

  predicate AllIgnored(p: Pending, steps: seq<Step>) {
    forall i | 0 <= i < |steps| :: steps[i].Receive? ==> Ignores(p, steps[i].m, steps[i].at)
  }

  predicate LeavesOpen(p: Pending, step: Step) {
    step.Receive? ==> Ignores(p, step.m, step.at) || !step.at.works
  }

  /** Each message is ignored, or what it clears is not written down. */
  predicate AllLeaveOpen(p: Pending, steps: seq<Step>) {
    forall i | 0 <= i < |steps| :: LeavesOpen(p, steps[i])
  }

  lemma RestOfRun(p: Pending, steps: seq<Step>)
    requires steps != []
    ensures AllLeaveOpen(p, steps) <==> LeavesOpen(p, steps[0]) && AllLeaveOpen(p, steps[1..])
    ensures AllIgnored(p, steps) ==>
              AllIgnored(p, steps[1..]) && AllLeaveOpen(p, steps)
              && (steps[0].Receive? ==> Ignores(p, steps[0].m, steps[0].at))
    ensures Timely(p, steps) ==>
              Timely(p, steps[1..]) && !Expired(p, if steps[0].Ask? then steps[0].now else steps[0].at.now)
  {
    hide Ignores, Expired;
    assert forall i | 0 <= i < |steps[1..]| :: steps[1..][i] == steps[i + 1];
    if LeavesOpen(p, steps[0]) && AllLeaveOpen(p, steps[1..]) {
      forall i | 0 <= i < |steps| ensures LeavesOpen(p, steps[i]) {
        if i > 0 { assert steps[1..][i - 1] == steps[i]; }
      }
    }
  }

  /** A question once gone does not come back. */
  lemma {:induction false} GoneStaysGone(w: World, id: string, steps: seq<Step>)
    requires w.pending.Some? ==> w.pending.value.promptId != id
    requires id in w.asked && Fresh(w.asked, steps)
    ensures var end := Run(w, steps).pending; end.Some? ==> end.value.promptId != id
    decreases |steps|
  {
    hide ParseButtonPress, SaysYes;
    if steps != [] { GoneStaysGone(Do(w, steps[0]), id, steps[1..]); }
  }

  /** Before it expires a question stays open, over any run of further questions and messages, exactly
      while every message received is one it ignores, or one whose clearing of it is not written
      down; and while all are ignored nothing is acted on. */
  lemma {:induction false} OpenExactlyWhileIgnored(w: World, p: Pending, steps: seq<Step>)
    requires w.pending == Some(p) && p.promptId in w.asked && Fresh(w.asked, steps) && Timely(p, steps)
    ensures Run(w, steps).pending == Some(p) <==> AllLeaveOpen(p, steps)
    ensures AllIgnored(p, steps) ==> AllLeaveOpen(p, steps) && Run(w, steps).acts == w.acts
    decreases |steps|
  {
    hide Intercept, Arm, Ignores, Timely, AllIgnored, AllLeaveOpen;
    if steps != [] {
      var next := Do(w, steps[0]);
      RestOfRun(p, steps);
      match steps[0]
      case Ask(q, now) =>
        OpenQuestionStays(w.pending, Message("", "", None), Setting(now, false, false, true), q);
        OpenExactlyWhileIgnored(next, p, steps[1..]);
      case Receive(m, at) =>
        OpenQuestionStays(w.pending, m, at, p);
        if Ignores(p, m, at) || !at.works {
          OpenExactlyWhileIgnored(next, p, steps[1..]);
        } else {
          GoneStaysGone(next, p.promptId, steps[1..]);
        }
    } else {
      NothingReceived(p);
    }
  }

  lemma NothingReceived(p: Pending)
    ensures AllLeaveOpen(p, [])
  {}

  /** So the first message that a question does not ignore decides it: it is acted on exactly if that
      message is the user's consent to it, and not otherwise. */
  lemma FirstAnswerDecides(w: World, p: Pending, steps: seq<Step>, m: Message, at: Setting)
    requires w.pending == Some(p) && p.promptId in w.asked && Fresh(w.asked, steps) && Timely(p, steps)
    requires AllIgnored(p, steps) && !Expired(p, at.now)
    ensures Do(Run(w, steps), Receive(m, at)).acts
         == if p.kind != UnknownKind && Consents(Act(p, m, at)) then w.acts + [Act(p, m, at)] else w.acts
  {
    hide Run, Intercept, Consents, AllIgnored, AllLeaveOpen, Timely;
    OpenExactlyWhileIgnored(w, p, steps);
    ConsentIsActedOn(p, m, at);
  }

  /** When the clearing is not written down, what was consented to is done again on the next consent
      to it, whatever is received between that is ignored or not written down either. */
  lemma UnwrittenConsentRepeats(w: World, p: Pending, m: Message, at: Setting, steps: seq<Step>,
                                again: Message, later: Setting)
    requires w.pending == Some(p) && p.promptId in w.asked && p.kind != UnknownKind
    requires Consents(Act(p, m, at)) && !at.works
    requires Fresh(w.asked, steps) && Timely(p, steps) && AllLeaveOpen(p, steps)
    requires Consents(Act(p, again, later))
    ensures var before := Run(Do(w, Receive(m, at)), steps).acts;
            w.acts + [Act(p, m, at)] <= before
            && Do(Run(Do(w, Receive(m, at)), steps), Receive(again, later)).acts == before + [Act(p, again, later)]
  {
    hide Run, Do, Consents, AllLeaveOpen, Timely;
    var once := Do(w, Receive(m, at));
    ConsentActs(w, p, m, at);
    OpenExactlyWhileIgnored(once, p, steps);
    ActsGrow(once, steps);
    ConsentActs(Run(once, steps), p, again, later);
  }

  lemma ConsentActs(w: World, p: Pending, m: Message, at: Setting)
    requires w.pending == Some(p) && p.kind != UnknownKind && Consents(Act(p, m, at))
    ensures Do(w, Receive(m, at)) == World(if at.works then None else Some(p), w.asked, w.acts + [Act(p, m, at)])
  {
    hide ParseButtonPress, SaysYes;
  }

  /** It happens: a question, a yes whose clearing fails, and the same yes. */
  lemma DoneTwice()
    ensures var p := Pending(RepoGrant, None, "p");
            var yes := Message("c", "yes", None);
            var failing := Setting(0, false, false, false);
            Run(FRESH, [Ask(p, 0), Receive(yes, failing), Receive(yes, failing)]).acts
            == [Act(p, yes, failing), Act(p, yes, failing)]
  {
    hide Consents, Intercept;
    var p := Pending(RepoGrant, None, "p");
    var yes := Message("c", "yes", None);
    var failing := Setting(0, false, false, false);
    PlainYesConsents(p, failing);
    var asked := Do(FRESH, Ask(p, 0));
    var once := Do(asked, Receive(yes, failing));
    ConsentActs(asked, p, yes, failing);
    ConsentActs(once, p, yes, failing);
    var steps := [Ask(p, 0), Receive(yes, failing), Receive(yes, failing)];
    var twice := Do(once, Receive(yes, failing));
    var rest := steps[1..];
    assert Run(twice, []) == twice;
    assert rest[1..] == [Receive(yes, failing)] && rest[1..][1..] == [] && rest[0] == rest[1..][0];
    assert Run(once, rest[1..]) == twice;
    assert Run(asked, rest) == twice;
    assert Run(FRESH, steps) == twice;
    assert twice.acts == [Act(p, yes, failing), Act(p, yes, failing)];
  }

  lemma PlainYesConsents(p: Pending, at: Setting)
    requires p.expiresAt.None? && !at.agentPromptOpen
    ensures Consents(Act(p, Message("c", "yes", None), at))
  {
    assert ParseButtonPress("yes").None?;
    assert TrimSpace("yes") == "yes";
  }

  // ---- The agent's own prompts ----------------------------------------------------------------

  /** channel.OpenPrompts */
  class OpenPrompts {
    var open: set<string>

    constructor ()
      ensures open == {}
    {
      open := {};
    }

    method Set(channel: string, on: bool)
      modifies this
      ensures open == if on then old(open) + {channel} else old(open) - {channel}
    {
      open := if on then open + {channel} else open - {channel};
    }
  }

  datatype Flow = AuthFlow(original: Message)
    | ToolApproval(original: Message, denied: seq<string>, session: string, promptId: string)

  class FlowManager {
    var flows: map<string, Flow>
    const prompts: OpenPrompts

    constructor (prompts: OpenPrompts)
      requires prompts.open == {}
      ensures flows == map[] && this.prompts == prompts && Mirrored()
    {
      flows := map[];
      this.prompts := prompts;
    }

    /** The router sees a prompt open on exactly the channels with a flow. */
    predicate Mirrored()
      reads this, prompts
    {
      prompts.open == flows.Keys
    }

    method Mirror(channel: string)
      modifies prompts
      ensures prompts.open == if channel in flows then old(prompts.open) + {channel} else old(prompts.open) - {channel}
    {
      prompts.Set(channel, channel in flows);
    }

    method Cancel(channel: string)
      requires Mirrored()
      modifies this, prompts
      ensures Mirrored() && flows == old(flows) - {channel}
    {
      if channel !in flows { return; }
      flows := flows - {channel};
      Mirror(channel);
    }

    method Complete(channel: string)
      requires Mirrored()
      modifies this, prompts
      ensures Mirrored() && flows == old(flows) - {channel}
    {
      flows := flows - {channel};
      Mirror(channel);
    }

    /** StartAuth and StartToolApproval: the new flow takes the place of any other. */
    method Begin(channel: string, flow: Flow)
      requires Mirrored()
      modifies this, prompts
      ensures Mirrored() && flows == old(flows)[channel := flow]
    {
      Cancel(channel);
      flows := flows[channel := flow];
      Mirror(channel);
    }
  }
}
