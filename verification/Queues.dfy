/** Looking into the two bus queues: where a call is, and what the signals behind it will say. */
module Queues {
  import opened Base
  import opened Values
  import opened CacheModel
  import opened Protocol

  /** The request of call `id` for `p`, if it is still on its way to the daemon. */
  function FindRequest(requests: seq<Request>, p: Name, id: nat): Option<Variant> {
    if requests == [] then None
    else if requests[0].name == p && requests[0].id == id then Some(requests[0].variant)
    else FindRequest(requests[1..], p, id)
  }

  predicate IsReplyTo(m: Message, p: Name, id: nat) {
    m.Reply? && m.name == p && m.id == id
  }

  /** The outcome carried by the reply to call `id`, if it is on its way to the client. */
  function FindReply(inbox: seq<Message>, p: Name, id: nat): Option<bool> {
    if inbox == [] then None
    else if IsReplyTo(inbox[0], p, id) then Some(inbox[0].ok)
    else FindReply(inbox[1..], p, id)
  }

  /** The messages behind that reply. */
  function Behind(inbox: seq<Message>, p: Name, id: nat): seq<Message> {
    if inbox == [] then []
    else if IsReplyTo(inbox[0], p, id) then inbox[1..]
    else Behind(inbox[1..], p, id)
  }

  /** What the last signal about `p` among `msgs` says, if there is one. */
  function LastSignal(msgs: seq<Message>, p: Name): Option<Option<Value>> {
    if msgs == [] then None
    else
      var m := msgs[|msgs| - 1];
      if m.PropertyChanged? && m.name == p then Some(Some(FromVariant(m.variant)))
      else if m.PropertyRemoved? && m.name == p then Some(None)
      else LastSignal(msgs[..|msgs| - 1], p)
  }

  predicate SignalAbout(m: Message, p: Name) {
    !m.Reply? && m.name == p
  }

  lemma {:induction false} FindRequestAppend(requests: seq<Request>, q: Request, p: Name, id: nat)
    ensures FindRequest(requests + [q], p, id) ==
      if FindRequest(requests, p, id).Some? then FindRequest(requests, p, id)
      else if q.name == p && q.id == id then Some(q.variant) else None
  {
    if requests != [] {
      assert (requests + [q])[1..] == requests[1..] + [q];
      FindRequestAppend(requests[1..], q, p, id);
    }
  }

  lemma {:induction false} FindRequestNeedsId(requests: seq<Request>, p: Name, id: nat)
    requires forall i :: 0 <= i < |requests| ==> requests[i].id != id
    ensures FindRequest(requests, p, id) == None
  {
    if requests != [] {
      FindRequestNeedsId(requests[1..], p, id);
    }
  }

  lemma {:induction false} ReplyAppend(inbox: seq<Message>, m: Message, p: Name, id: nat)
    ensures FindReply(inbox + [m], p, id) ==
      if FindReply(inbox, p, id).Some? then FindReply(inbox, p, id)
      else if IsReplyTo(m, p, id) then Some(m.ok) else None
    ensures FindReply(inbox, p, id).Some? ==> Behind(inbox + [m], p, id) == Behind(inbox, p, id) + [m]
    ensures FindReply(inbox, p, id).None? && IsReplyTo(m, p, id) ==> Behind(inbox + [m], p, id) == []
  {
    if inbox != [] {
      assert (inbox + [m])[1..] == inbox[1..] + [m];
      ReplyAppend(inbox[1..], m, p, id);
    }
  }

  lemma {:induction false} FindReplyNeedsId(inbox: seq<Message>, p: Name, id: nat)
    requires forall m :: m in inbox && m.Reply? ==> m.id != id
    ensures FindReply(inbox, p, id) == None
  {
    if inbox != [] {
      FindReplyNeedsId(inbox[1..], p, id);
    }
  }

  lemma LastSignalAppend(msgs: seq<Message>, m: Message, p: Name)
    ensures LastSignal(msgs + [m], p) ==
      match m
      case Reply(_, _, _) => LastSignal(msgs, p)
      case PropertyChanged(q, variant) => if q == p then Some(Some(FromVariant(variant))) else LastSignal(msgs, p)
      case PropertyRemoved(q) => if q == p then Some(None) else LastSignal(msgs, p)
  {
    assert (msgs + [m])[..|msgs|] == msgs;
  }

  /** Taking the oldest message away changes the last signal about `p` only if it was the only one. */
  lemma {:induction false} LastSignalPop(msgs: seq<Message>, p: Name)
    requires msgs != []
    ensures LastSignal(msgs[1..], p).Some? ==> LastSignal(msgs, p) == LastSignal(msgs[1..], p)
    ensures LastSignal(msgs[1..], p).None? ==> LastSignal(msgs, p) == LastSignal([msgs[0]], p)
  {
    if |msgs| == 1 {
      assert msgs == [msgs[0]];
    } else {
      var n := |msgs| - 1;
      assert msgs[1..][..n - 1] == msgs[..n][1..];
      LastSignalPop(msgs[..n], p);
    }
  }
}
