/** A whole turn: the CLI's events folded into writes, and the writes shown in the chat. */
module TurnEndToEnd {
  import opened Base
  import Fold = StreamFold
  import Writer = TurnWriter
  import Reading = TurnWriterReading

  /** Writes, each with the transport's answers to it. */
  function Steps(writes: seq<Write>, answers: seq<Writer.Env>): (r: seq<Writer.Step>)
    requires |writes| == |answers|
    ensures |r| == |writes|
  {
    seq(|writes|, i requires 0 <= i < |writes| => Writer.Step(writes[i], answers[i]))
  }

  /** A turn has done its writes up to the first that failed, and all of them if none did. */
  lemma {:induction false} WrittenSoFar(cfg: Writer.Config, writes: seq<Write>, answers: seq<Writer.Env>)
    requires |writes| == |answers|
    ensures var t := Writer.Run(cfg, Steps(writes, answers));
            t.writes <= writes && (!t.failed ==> t.writes == writes)
    decreases |writes|
  {
    hide Writer.WriteSplit;
    if writes != [] {
      var n := |writes| - 1;
      assert Steps(writes, answers)[..n] == Steps(writes[..n], answers[..n]);
      WrittenSoFar(cfg, writes[..n], answers[..n]);
      assert writes == writes[..n] + [writes[n]];
    }
  }

  /** The status text handle writes before the stream, and what the stream then writes. */
  function TurnWrites(f: Fold.Format, opening: string, events: seq<Fold.Event>): seq<Write> {
    [Write(Status, opening)] + Fold.Run(f, Fold.START, events).out
  }

  /** Whatever events a turn streams, and however the stream ends: the chat ends up reading as the
      visible writes done, once and in order, however the transport answers edits and drafts. These
      are all the turn's writes, or those up to the first that failed. */
  lemma StreamReachesChat(f: Fold.Format, opening: string, events: seq<Fold.Event>, cfg: Writer.Config,
                          answers: seq<Writer.Env>)
    requires |answers| == |TurnWrites(f, opening, events)|
    requires Reading.Answered(Reading.Everything, Steps(TurnWrites(f, opening, events), answers))
    ensures var writes := TurnWrites(f, opening, events);
            var t := Writer.Run(cfg, Steps(writes, answers));
            var end := Writer.Finish(t, true);
            && t.writes <= writes && (!t.failed ==> t.writes == writes)
            && !end.failed && Reading.ReadsAs(cfg, Reading.Everything, end.state.log, t.writes)
  {
    var writes := TurnWrites(f, opening, events);
    WrittenSoFar(cfg, writes, answers);
    Reading.ChatReadsAsWritten(cfg, Steps(writes, answers));
  }
}
