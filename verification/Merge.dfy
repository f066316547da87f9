/**
 The durable half of internal/router/merge.go: messages pulled from the static stream are handed
 to the agent, and one still in hand when the iteration is cancelled goes back to the queue.
 */
module Merge {
  import opened Base
  import opened Queue

  /** One turn of the forwarding loop. */
  datatype Turn = Handed(m: Message) | CancelledHolding(m: Message, works: bool) | CancelledIdle | InputEnded

  /** The messages taken from the stream before the loop ends. */
  function Pulled(turns: seq<Turn>): seq<Message> {
    if turns == [] then []
    else match turns[0]
      case Handed(m) => [m] + Pulled(turns[1..])
      case CancelledHolding(m, _) => [m]
      case _ => []
  }

  /** The message in hand at a cancellation, and whether its push could be written. */
  function InHand(turns: seq<Turn>): Option<(Message, bool)> {
    if turns == [] then None
    else match turns[0]
      case Handed(_) => InHand(turns[1..])
      case CancelledHolding(m, works) => Some((m, works))
      case _ => None
  }

  /** Every message pulled is handed over, in order, but for the one in hand at a cancellation, and
      that one is pushed. */
  method ForwardStatic(q: Queue, turns: seq<Turn>) returns (out: seq<Message>)
    modifies q
    ensures match InHand(turns)
            case None => Pulled(turns) == out && q.View() == old(q.View())
            case Some(last) => Pulled(turns) == out + [last.0] && q.View() == Push(old(q.View()), last.0, last.1)
  {
    out := [];
    for i := 0 to |turns|
      invariant q.View() == old(q.View())
      invariant Pulled(turns) == out + Pulled(turns[i..]) && InHand(turns) == InHand(turns[i..])
    {
      assert turns[i..][1..] == turns[i + 1..];
      match turns[i] {
        case Handed(m) => out := out + [m];
        case CancelledHolding(m, works) =>
          q.PushMessage(m, works);
          return;
        case _ => return;
      }
    }
  }

  predicate IsHanded(t: Turn) { t.Handed? }

  /** Of the turns up to the first that hands nothing over, every message is pulled, in order; and one
      held at a cancellation, and no other, is in hand. */
  lemma {:induction false} PulledExactly(turns: seq<Turn>, k: nat)
    requires k <= |turns| && (forall i | 0 <= i < k :: IsHanded(turns[i])) && (k < |turns| ==> !IsHanded(turns[k]))
    ensures var held := k < |turns| && turns[k].CancelledHolding?;
            && |Pulled(turns)| == (if held then k + 1 else k)
            && (forall i | 0 <= i < k :: IsHanded(turns[i]) && Pulled(turns)[i] == turns[i].m)
            && (held ==> Pulled(turns)[k] == turns[k].m)
            && (held ==> InHand(turns) == Some((turns[k].m, turns[k].works))) && (!held ==> InHand(turns) == None)
    decreases k
  {
    if k > 0 { PulledExactly(turns[1..], k - 1); }
  }
}
