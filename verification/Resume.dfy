/**
 Resuming interrupted turns: the marker the agent sets when a turn begins and clears when it ends
 normally (internal/agent/agent.go), and what the router makes of it when the agent starts again
 (internal/router/resume.go and startup.go).
 */
module Resume {
  import opened Base
  import opened Queue

  /** Stands for the prompt that tells the model to go on. */
  const RESUME_TEXT: string := "resume"

  function ResumeMessage(channel: string): Message { Message(channel, RESUME_TEXT, Some(Source.Resume)) }

  /** A resume goes before all automated traffic, and alone. */
  lemma ResumeHasItsClass(g: Gate, channel: string)
    ensures Rank(g, ResumeMessage(channel)) == 1 && ResumeMessage(channel).channel == channel
    ensures !IsBatchable(ResumeMessage(channel))
  {}

  datatype Decision = Decision(startNow: bool, first: Option<Message>)

  /** determineStartupSignal, with checkAutoResume inside it. */
  function Startup(s: State, channels: set<string>, works: bool): (Decision, State) {
    if s.interrupted == "" then (Decision(s.messages != [], None), s)
    else
      var cleared := SetInterrupted(s, "", works);
      if s.interrupted in channels then (Decision(true, Some(ResumeMessage(s.interrupted))), cleared)
      else (Decision(s.messages != [], None), cleared)
  }

  method CheckAutoResume(q: Queue, channels: set<string>, works: bool) returns (resume: Option<Message>)
    modifies q
    ensures resume == if old(q.interruptedChannel) != "" && old(q.interruptedChannel) in channels
                      then Some(ResumeMessage(old(q.interruptedChannel))) else None
    ensures q.View() == if old(q.interruptedChannel) == "" then old(q.View())
                        else SetInterrupted(old(q.View()), "", works)
  {
    var interrupted := q.interruptedChannel;
    if interrupted == "" { return None; }
    if interrupted !in channels {
      q.ClearInterrupted(works);
      return None;
    }
    q.ClearInterrupted(works);
    return Some(ResumeMessage(interrupted));
  }

  method DetermineStartupSignal(q: Queue, channels: set<string>, works: bool) returns (d: Decision)
    modifies q
    ensures (d, q.View()) == Startup(old(q.View()), channels, works)
  {
    var resume := CheckAutoResume(q, channels, works);
    if resume.Some? { return Decision(true, resume); }
    return Decision(|q.messages| > 0, None);
  }

  // ---- Runs -----------------------------------------------------------------------------------

  /** Where the agent is: between iterations, loaded but not started, waiting, or in a turn. */
  datatype Phase = Stopped | Loaded | Waiting | InTurn

  datatype Step =
    | Begin(channel: string, works: bool)
    | EndNormally(works: bool)
    | Cut                                 // the turn's context was cancelled
    | Exit                                // the agent stops while waiting
    | IdleExit(works: bool)               // it stops because nothing came, and the router clears the marker
    | Reload(works: bool)
    | Restart(works: bool)
    | Start(channels: set<string>, works: bool)
    | PushStep(m: Message, works: bool)
    | DequeueStep(gate: Gate, works: bool)
    | CoalesceStep(channel: string, works: bool)

  /** What a run has to show: turns begun and ended, and starts with the channels live then. */
  datatype Entry = Began(channel: string) | Ended | Started(channels: set<string>, decision: Decision)

  datatype World = World(queue: State, phase: Phase, log: seq<Entry>)

  const FRESH := World(START, Stopped, [])

  predicate Enabled(w: World, step: Step) {
    match step
    case Begin(channel, _) => w.phase == Waiting && channel != ""
    case EndNormally(_) => w.phase == InTurn
    case Cut => w.phase == InTurn
    case Exit => w.phase == Waiting
    case IdleExit(_) => w.phase == Waiting
    case Reload(_) => w.phase == Stopped
    case Start(_, _) => w.phase == Loaded
    case _ => true
  }

  function Do(w: World, step: Step): World {
    match step
    case Begin(channel, works) =>
      World(SetInterrupted(w.queue, channel, works), InTurn, w.log + [Began(channel)])
    case EndNormally(works) => World(SetInterrupted(w.queue, "", works), Waiting, w.log + [Ended])
    case Cut => w.(phase := Stopped)
    case Exit => w.(phase := Stopped)
    case IdleExit(works) => w.(queue := SetInterrupted(w.queue, "", works), phase := Stopped)
    case Reload(works) => w.(queue := Load(w.queue, works), phase := Loaded)
    case Restart(works) => w.(queue := Load(START.(disk := w.queue.disk), works), phase := Loaded)
    case Start(channels, works) =>
      var (decision, after) := Startup(w.queue, channels, works);
      World(after, Waiting, w.log + [Started(channels, decision)])
    case PushStep(m, works) => w.(queue := Push(w.queue, m, works))
    case DequeueStep(g, works) => w.(queue := TryDequeue(w.queue, g, works).1)
    case CoalesceStep(channel, works) => w.(queue := Coalesce(w.queue, channel, works).1)
  }

  ghost predicate Runs(w: World, steps: seq<Step>, end: World)
    decreases |steps|
  {
    if steps == [] then end == w else Enabled(w, steps[0]) && Runs(Do(w, steps[0]), steps[1..], end)
  }

  /** The channel whose turn began last, if nothing has ended or resumed it since. */
  function Owed(log: seq<Entry>): string {
    if log != [] && log[|log| - 1].Began? then log[|log| - 1].channel else ""
  }

  predicate IsResumeEntry(e: Entry) { e.Started? && e.decision.first.Some? }

  /** A resume of the turn owed, on a channel still there. */
  predicate ResumesOwed(owed: string, e: Entry)
    requires IsResumeEntry(e)
  {
    owed != "" && owed in e.channels && e.decision.first == Some(ResumeMessage(owed))
  }

  /** Every resume message is for the turn that had just begun and not ended, on a channel that is
      still there. */
  predicate ResumesAreOwed(log: seq<Entry>) {
    forall i | 0 <= i < |log| && IsResumeEntry(log[i]) :: ResumesOwed(Owed(log[..i]), log[i])
  }

  /** The marker, in memory and on disk, names the owed channel or nothing; between turns there is
      none. */
  ghost predicate Sound(w: World) {
    && (w.queue.interrupted == "" || w.queue.interrupted == Owed(w.log))
    && (w.queue.disk.Some? ==> w.queue.disk.value.interrupted == "" || w.queue.disk.value.interrupted == Owed(w.log))
    && (w.queue.disk.Some? && w.queue.interrupted == "" ==> w.queue.disk.value.interrupted == "")
    && (w.phase == Waiting ==> w.queue.interrupted == "")
    && ResumesAreOwed(w.log)
  }

  /** The marker is exactly the owed channel, in memory and on disk. */
  ghost predicate Exact(w: World) {
    && w.queue.interrupted == Owed(w.log)
    && (w.queue.disk.Some? ==> w.queue.disk.value.interrupted == Owed(w.log))
    && (w.queue.disk.None? ==> Owed(w.log) == "")
    && (w.phase == Waiting ==> Owed(w.log) == "")
  }

  /** The writes that take the marker away work, and so does a new process's read of it. */
  predicate ClearsWork(step: Step) { step.EndNormally? || step.Start? || step.Restart? ==> step.works }

  lemma Logged(log: seq<Entry>, e: Entry)
    requires ResumesAreOwed(log)
    requires IsResumeEntry(e) ==> ResumesOwed(Owed(log), e)
    ensures ResumesAreOwed(log + [e])
    ensures Owed(log + [e]) == if e.Began? then e.channel else ""
  {
    var both := log + [e];
    assert both[..|log|] == log;
    forall i | 0 <= i < |both| && IsResumeEntry(both[i])
      ensures ResumesOwed(Owed(both[..i]), both[i])
    {
      if i < |log| { assert both[..i] == log[..i]; }
    }
  }

  lemma StepKeepsSound(w: World, step: Step)
    requires Sound(w) && Enabled(w, step) && ClearsWork(step)
    ensures Sound(Do(w, step))
  {
    hide ResumesAreOwed, TryDequeue, Coalesce;
    match step
    case Begin(channel, _) => Logged(w.log, Began(channel));
    case EndNormally(_) => Logged(w.log, Ended);
    case Start(channels, works) => Logged(w.log, Started(channels, Startup(w.queue, channels, works).0));
    case DequeueStep(g, works) => MarkerUntouched(w.queue, g, "", works);
    case CoalesceStep(channel, works) => MarkerUntouched(w.queue, Gate(map[], {}), channel, works);
    case _ =>
  }

  /** Delivering leaves the marker as it is, and writes down no other. */
  lemma MarkerUntouched(s: State, g: Gate, channel: string, works: bool)
    ensures var a := TryDequeue(s, g, works).1;
            a.interrupted == s.interrupted
            && (a.disk == s.disk || (a.disk.Some? && a.disk.value.interrupted == s.interrupted))
    ensures var b := Coalesce(s, channel, works).1;
            b.interrupted == s.interrupted
            && (b.disk == s.disk || (b.disk.Some? && b.disk.value.interrupted == s.interrupted))
  {}

  lemma {:induction false} RunKeepsSound(w: World, steps: seq<Step>, end: World)
    requires Sound(w) && Runs(w, steps, end) && forall i | 0 <= i < |steps| :: ClearsWork(steps[i])
    ensures Sound(end)
    decreases |steps|
  {
    hide Do, Sound, Enabled;
    if steps != [] {
      StepKeepsSound(w, steps[0]);
      RunKeepsSound(Do(w, steps[0]), steps[1..], end);
    }
  }

  /** Over any run whose marker-clearing writes and restarts work, every resume message directly
      follows the start of a turn on its channel, which is still there: no normal end and no other
      resume lies between. */
  lemma OnlyInterruptedTurnsResume(steps: seq<Step>, end: World)
    requires Runs(FRESH, steps, end) && forall i | 0 <= i < |steps| :: ClearsWork(steps[i])
    ensures ResumesAreOwed(end.log)
  {
    RunKeepsSound(FRESH, steps, end);
  }

  // ---- When the marker is right ---------------------------------------------------------------

  /** A step that takes the marker away: a turn's normal end, or a start. */
  predicate IsClear(step: Step) { step.EndNormally? || step.Start? }

  /** A marker set but not written down, an owed turn's taken away but not written down, or an owed
      turn's that a new process cannot read. */
  predicate SpoilsMarkerAt(w: World, step: Step) {
    match step
    case Begin(_, works) => !works
    case EndNormally(works) => !works && Owed(w.log) != ""
    case Start(_, works) => !works && Owed(w.log) != ""
    case Restart(works) => !works && Owed(w.log) != ""
    case _ => false
  }

  /** From a state whose marker is right everywhere only such a step leads to one where it is not. */
  lemma StepExactlyKeepsMarker(w: World, step: Step)
    requires Exact(w) && Enabled(w, step)
    ensures Exact(Do(w, step)) <==> !SpoilsMarkerAt(w, step)
  {
    hide TryDequeue, Coalesce;
    match step
    case DequeueStep(g, works) => MarkerUntouched(w.queue, g, "", works);
    case CoalesceStep(channel, works) => MarkerUntouched(w.queue, Gate(map[], {}), channel, works);
    case _ =>
  }

  /** The marker is right in every state of a run. */
  ghost predicate AlwaysExact(w: World, steps: seq<Step>)
    decreases |steps|
  {
    Exact(w) && (steps == [] || AlwaysExact(Do(w, steps[0]), steps[1..]))
  }

  /** No step of a run spoils the marker. */
  predicate SpoilsNone(w: World, steps: seq<Step>)
    decreases |steps|
  {
    steps == [] || (!SpoilsMarkerAt(w, steps[0]) && SpoilsNone(Do(w, steps[0]), steps[1..]))
  }

  lemma {:induction false} ExactUnlessSpoilt(w: World, steps: seq<Step>, end: World)
    requires Exact(w) && Runs(w, steps, end)
    ensures AlwaysExact(w, steps) <==> SpoilsNone(w, steps)
    ensures SpoilsNone(w, steps) ==> Exact(end)
    decreases |steps|
  {
    hide Do, Exact, Enabled, SpoilsMarkerAt;
    if steps != [] {
      StepExactlyKeepsMarker(w, steps[0]);
      if !SpoilsMarkerAt(w, steps[0]) { ExactUnlessSpoilt(Do(w, steps[0]), steps[1..], end); }
    }
  }

  /** Over any run the marker is the owed channel in every state, in memory and on disk, if and only
      if each marker set and each owed turn's taken away is written down, and no new process fails
      to read one. */
  lemma MarkerIsExactly(steps: seq<Step>, end: World)
    requires Runs(FRESH, steps, end)
    ensures AlwaysExact(FRESH, steps) <==> SpoilsNone(FRESH, steps)
  {
    ExactUnlessSpoilt(FRESH, steps, end);
  }

  /** After such a run the next start resumes the owed turn exactly if its channel is still there,
      and begins at once exactly if it resumes or the queue holds something. */
  lemma StartupIsExact(steps: seq<Step>, end: World, channels: set<string>, works: bool)
    requires Runs(FRESH, steps, end) && SpoilsNone(FRESH, steps)
    ensures var (d, after) := Startup(end.queue, channels, works);
            var owed := Owed(end.log);
            && (owed == "" ==> after == end.queue)
            && after.messages == end.queue.messages && after.interrupted == ""
            && d.first == (if owed != "" && owed in channels then Some(ResumeMessage(owed)) else None)
            && (d.startNow <==> d.first.Some? || end.queue.messages != [])
  {
    ExactUnlessSpoilt(FRESH, steps, end);
  }

  // ---- Clears that are not written ------------------------------------------------------------

  lemma {:induction false} ExactRunsResumeOwed(w: World, steps: seq<Step>, end: World)
    requires Exact(w) && ResumesAreOwed(w.log) && Runs(w, steps, end)
    requires SpoilsNone(w, steps)
    ensures Exact(end) && ResumesAreOwed(end.log)
    decreases |steps|
  {
    hide ResumesAreOwed, Enabled, SpoilsMarkerAt, TryDequeue, Coalesce, Owed;
    if steps != [] {
      StepExactlyKeepsMarker(w, steps[0]);
      match steps[0] {
        case Begin(channel, _) => Logged(w.log, Began(channel));
        case EndNormally(_) => Logged(w.log, Ended);
        case Start(channels, works) => Logged(w.log, Started(channels, Startup(w.queue, channels, works).0));
        case _ =>
      }
      ExactRunsResumeOwed(Do(w, steps[0]), steps[1..], end);
    }
  }

  /** A step between two iterations' starts that neither begins nor ends a turn, nor loads. */
  predicate IsQuiet(step: Step) {
    step.PushStep? || step.DequeueStep? || step.CoalesceStep? || step.Exit? || step.IdleExit?
  }

  /** Whether a quiet step writes the queue down. */
  predicate WritesDown(w: World, step: Step) {
    match step
    case PushStep(_, works) => works
    case DequeueStep(g, works) => works && TryDequeue(w.queue, g, works).0.Some?
    case CoalesceStep(channel, works) => works && Coalesce(w.queue, channel, works).0.Some?
    case IdleExit(works) => works
    case _ => false
  }

  predicate SomeWrite(w: World, steps: seq<Step>)
    decreases |steps|
  {
    steps != [] && (WritesDown(w, steps[0]) || SomeWrite(Do(w, steps[0]), steps[1..]))
  }

  lemma QuietStep(w: World, step: Step)
    requires IsQuiet(step) && w.queue.interrupted == "" && w.queue.disk.Some?
    ensures var after := Do(w, step);
            && after.log == w.log && after.queue.interrupted == "" && after.queue.disk.Some?
            && after.queue.disk.value.interrupted == if WritesDown(w, step) then "" else w.queue.disk.value.interrupted
  {
    hide Batch, Kept, NextIndex;
  }

  /** Through quiet steps the marker on disk stays until the queue is next written down. */
  lemma {:induction false} QuietSteps(w: World, steps: seq<Step>, end: World)
    requires Runs(w, steps, end) && forall i | 0 <= i < |steps| :: IsQuiet(steps[i])
    requires w.queue.interrupted == "" && w.queue.disk.Some?
    ensures end.log == w.log && end.queue.interrupted == "" && end.queue.disk.Some?
    ensures end.queue.disk.value.interrupted == if SomeWrite(w, steps) then "" else w.queue.disk.value.interrupted
    decreases |steps|
  {
    hide Do, WritesDown, Enabled;
    if steps != [] {
      QuietStep(w, steps[0]);
      QuietSteps(Do(w, steps[0]), steps[1..], end);
      if WritesDown(w, steps[0]) { StaysClear(Do(w, steps[0]), steps[1..], end); }
    }
  }

  lemma StaysClear(w: World, steps: seq<Step>, end: World)
    requires end.queue.disk.Some? && w.queue.disk.Some? && w.queue.disk.value.interrupted == ""
    requires end.queue.disk.value.interrupted == if SomeWrite(w, steps) then "" else w.queue.disk.value.interrupted
    ensures end.queue.disk.value.interrupted == ""
  {}

  lemma ClearedState(w: World, clear: Step)
    requires Exact(w) && Enabled(w, clear) && IsClear(clear) && Owed(w.log) != ""
    ensures var after := Do(w, clear);
            && Owed(after.log) == "" && after.queue.interrupted == "" && after.queue.disk.Some?
            && after.queue.disk.value.interrupted == if clear.works then "" else Owed(w.log)
  {}

  lemma FreshIsExact()
    ensures Exact(FRESH) && ResumesAreOwed(FRESH.log)
  {}

  lemma ClearsLogOwed(w: World, clear: Step)
    requires Exact(w) && Enabled(w, clear) && IsClear(clear) && ResumesAreOwed(w.log)
    ensures ResumesAreOwed(Do(w, clear).log)
  {
    hide ResumesAreOwed, Owed;
    match clear
    case EndNormally(_) => Logged(w.log, Ended);
    case Start(channels, works) => Logged(w.log, Started(channels, Startup(w.queue, channels, works).0));
  }

  /** With nothing owed, a resume is one too many. */
  lemma ResumeUnowed(log: seq<Entry>, e: Entry)
    requires ResumesAreOwed(log) && Owed(log) == ""
    ensures ResumesAreOwed(log + [e]) <==> !IsResumeEntry(e)
  {
    var both := log + [e];
    assert both[..|log|] == log && both[|log|] == e;
    if !IsResumeEntry(e) { Logged(log, e); }
  }

  /** The queue is loaded again, by a new process, or by the same one before the agent's next iteration. */
  predicate IsLoad(w: World, load: Step) { load.Restart? || (load.Reload? && w.phase == Stopped) }

  /** With nothing owed, a load that works and a start resume whatever channel the disk still names. */
  lemma MarkerBack(w: World, load: Step, channels: set<string>, works: bool)
    requires w.queue.disk.Some? && w.queue.interrupted == "" && Owed(w.log) == "" && ResumesAreOwed(w.log)
    requires IsLoad(w, load)
    ensures var back := Do(w, load);
            var marked := w.queue.disk.value.interrupted;
            var again := load.works && marked != "" && marked in channels;
            && Startup(back.queue, channels, works).0.first == (if again then Some(ResumeMessage(marked)) else None)
            && (ResumesAreOwed(Do(back, Start(channels, works)).log) <==> !again)
  {
    hide Owed, ResumesAreOwed;
    var back := Do(w, load);
    ResumeUnowed(back.log, Started(channels, Startup(back.queue, channels, works).0));
  }

  /** When a turn that ended, or was resumed already, is resumed: after any run that was right so
      far, a clear of its marker, quiet steps and a load of the queue in the same process or a new
      one, the next start resumes it if and only if the clear was not written down, nothing was
      written down since, the load works and its channel is there. */
  lemma ClearedTurnResumesExactly(steps: seq<Step>, w: World, clear: Step, quiet: seq<Step>, end: World,
                                  load: Step, channels: set<string>, works: bool)
    requires Runs(FRESH, steps, w) && SpoilsNone(FRESH, steps)
    requires Enabled(w, clear) && IsClear(clear) && Owed(w.log) != ""
    requires Runs(Do(w, clear), quiet, end) && forall i | 0 <= i < |quiet| :: IsQuiet(quiet[i])
    requires IsLoad(end, load)
    ensures var back := Do(end, load);
            var again := !clear.works && !SomeWrite(Do(w, clear), quiet) && load.works && Owed(w.log) in channels;
            && Startup(back.queue, channels, works).0.first
               == (if again then Some(ResumeMessage(Owed(w.log))) else None)
            && (ResumesAreOwed(Do(back, Start(channels, works)).log) <==> !again)
  {
    hide Do, Runs, Exact, Owed, SpoilsNone, SomeWrite, ResumesAreOwed, Enabled, Startup;
    FreshIsExact();
    ExactRunsResumeOwed(FRESH, steps, w);
    ClearedState(w, clear);
    ClearsLogOwed(w, clear);
    QuietSteps(Do(w, clear), quiet, end);
    MarkerBack(end, load, channels, works);
  }

  // ---- A witness ------------------------------------------------------------------------------

  lemma RunsCons(w: World, step: Step, rest: seq<Step>, end: World)
    requires Enabled(w, step) && Runs(Do(w, step), rest, end)
    ensures Runs(w, [step] + rest, end)
  {
    assert ([step] + rest)[1..] == rest;
  }

  /** A turn whose normal end is not written down is resumed by the next start, after a restart or in
      the same process. */
  lemma FailedClearResumes(channel: string) returns (end: World, same: World)
    requires channel != ""
    ensures Runs(FRESH, [Reload(true), Start({}, true), Begin(channel, true), EndNormally(false), Restart(true)], end)
    ensures Runs(FRESH, [Reload(true), Start({}, true), Begin(channel, true), EndNormally(false), Exit, Reload(true)],
                 same)
    ensures Owed(end.log) == "" && Startup(end.queue, {channel}, true).0.first == Some(ResumeMessage(channel))
    ensures Owed(same.log) == "" && Startup(same.queue, {channel}, true).0.first == Some(ResumeMessage(channel))
  {
    var w2 := Do(Do(FRESH, Reload(true)), Start({}, true));
    var w4 := Do(Do(w2, Begin(channel, true)), EndNormally(false));
    assert w4 == World(State([], "", Some(Saved([], channel))), Waiting, w4.log) && Owed(w4.log) == "";
    end, same := Do(w4, Restart(true)), Do(Do(w4, Exit), Reload(true));
    var turn := [Reload(true), Start({}, true), Begin(channel, true), EndNormally(false)];
    assert turn + [Restart(true)]
        == [Reload(true), Start({}, true), Begin(channel, true), EndNormally(false), Restart(true)];
    assert turn + [Exit, Reload(true)]
        == [Reload(true), Start({}, true), Begin(channel, true), EndNormally(false), Exit, Reload(true)];
    assert [Restart(true)][1..] == [] && [Exit, Reload(true)][1..] == [Reload(true)];
    UnwrittenEnd(channel, [Restart(true)], end);
    UnwrittenEnd(channel, [Exit, Reload(true)], same);
  }

  lemma UnwrittenEnd(channel: string, rest: seq<Step>, end: World)
    requires channel != ""
    requires var turn := Do(Do(Do(FRESH, Reload(true)), Start({}, true)), Begin(channel, true));
             Runs(Do(turn, EndNormally(false)), rest, end)
    ensures Runs(FRESH, [Reload(true), Start({}, true), Begin(channel, true), EndNormally(false)] + rest, end)
  {
    var w1 := Do(FRESH, Reload(true));
    var w2 := Do(w1, Start({}, true));
    var w3 := Do(w2, Begin(channel, true));
    var s3 := [EndNormally(false)] + rest;
    var s2 := [Begin(channel, true)] + s3;
    var s1 := [Start({}, true)] + s2;
    RunsCons(w3, EndNormally(false), rest, end);
    RunsCons(w2, Begin(channel, true), s3, end);
    RunsCons(w1, Start({}, true), s2, end);
    RunsCons(FRESH, Reload(true), s1, end);
    assert [Reload(true)] + s1 == [Reload(true), Start({}, true), Begin(channel, true), EndNormally(false)] + rest;
  }
}
