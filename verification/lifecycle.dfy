/**
 * One request from arrival to its last write: the dispatcher's replies are
 * delivered, in order, through `respond`. The source keeps no record of an
 * earlier answer, so every reply becomes a write attempt.
 */
module Lifecycle {
  import opened Results
  import opened Http
  import Js
  import Utf8
  import Paths
  import Responder
  import Dispatcher

  /** The actions that call `respond`, in their order. */
  function ReplyActions(actions: seq<Dispatcher.Action>): (r: seq<Dispatcher.Action>)
    ensures |r| <= |actions|
    ensures forall k :: 0 <= k < |r| ==> r[k].Reply?
  {
    if actions == [] then []
    else (if actions[0].Reply? then [actions[0]] else []) + ReplyActions(actions[1..])
  }

  /** The write `respond` makes for a reply: status 200, shaped headers, serialised body. */
  function WriteOf(a: Dispatcher.Action, stringify: Js.Value -> Option<string>): (w: Responder.Write)
    requires a.Reply?
    ensures w.status == Responder.WIRE_STATUS
    ensures w.body == Responder.Serialize(a.payload, stringify)
    ensures w.headers == Responder.Shape(Some(a.status), a.payload, None, stringify).headers
  {
    var shaped := Responder.Shape(Some(a.status), a.payload, None, stringify);
    Responder.Write(Responder.WIRE_STATUS, shaped.headers, shaped.body)
  }

  /** The access entry `respond` logs for a reply: the status it asked for, or 200. */
  function LogOf(req: Request, a: Dispatcher.Action, stringify: Js.Value -> Option<string>): (rec: Responder.LogRecord)
    requires a.Reply?
    ensures rec.Access? && rec.entry.status == Responder.LoggedStatus(Some(a.status))
  {
    Responder.Access(Responder.Entry(req, Responder.Shape(Some(a.status), a.payload, None, stringify)))
  }

  predicate AllReplies(rs: seq<Dispatcher.Action>) {
    forall k :: 0 <= k < |rs| ==> rs[k].Reply?
  }

  /** The writes for a run of replies, one each, in order. */
  function WritesOf(rs: seq<Dispatcher.Action>, stringify: Js.Value -> Option<string>): (w: seq<Responder.Write>)
    requires AllReplies(rs)
    ensures |w| == |rs| && forall k :: 0 <= k < |rs| ==> w[k] == WriteOf(rs[k], stringify)
  {
    if rs == [] then [] else [WriteOf(rs[0], stringify)] + WritesOf(rs[1..], stringify)
  }

  /** The access entries for a run of replies, one each, in order. */
  function LogsOf(req: Request, rs: seq<Dispatcher.Action>, stringify: Js.Value -> Option<string>): (l: seq<Responder.LogRecord>)
    requires AllReplies(rs)
    ensures |l| == |rs| && forall k :: 0 <= k < |rs| ==> l[k] == LogOf(req, rs[k], stringify)
  {
    if rs == [] then [] else [LogOf(req, rs[0], stringify)] + LogsOf(req, rs[1..], stringify)
  }

  /** One action: a Reply is a call of `respond` without caller headers. */
  function Step(ex: Responder.Exchange, req: Request, a: Dispatcher.Action,
                stringify: Js.Value -> Option<string>): (r: Responder.Exchange)
    ensures !a.Reply? ==> r == ex
    ensures a.Reply? ==> && r.writes == ex.writes + [WriteOf(a, stringify)]
                         && r.log == ex.log + [LogOf(req, a, stringify)]
                         && r.timer != Responder.Armed
  {
    match a
    case Reply(status, payload) => Responder.Respond(ex, req, Some(status), payload, None, stringify)
    case _ => ex
  }

  /**
   * Runs each Reply through `respond` with no caller headers; invocations and
   * the abort leave the exchange as it is (handlers answer later on their own).
   */
  function Deliver(ex: Responder.Exchange, req: Request, actions: seq<Dispatcher.Action>,
                   stringify: Js.Value -> Option<string>): (r: Responder.Exchange)
    ensures ReplyActions(actions) == [] ==> r == ex
    ensures ReplyActions(actions) != [] ==> r.timer != Responder.Armed
    decreases |actions|
  {
    if actions == [] then ex
    else Deliver(Step(ex, req, actions[0], stringify), req, actions[1..], stringify)
  }

  /** The k-th reply becomes the k-th new write, after the earlier writes. */
  lemma {:induction false} DeliverWrites(ex: Responder.Exchange, req: Request, actions: seq<Dispatcher.Action>,
                                         stringify: Js.Value -> Option<string>)
    ensures Deliver(ex, req, actions, stringify).writes == ex.writes + WritesOf(ReplyActions(actions), stringify)
    decreases |actions|
  {
    if actions != [] {
      var next := Step(ex, req, actions[0], stringify);
      var tail := ReplyActions(actions[1..]);
      DeliverWrites(next, req, actions[1..], stringify);
      if actions[0].Reply? {
        var w := WriteOf(actions[0], stringify);
        assert ReplyActions(actions) == [actions[0]] + tail;
        WritesOfCons(actions[0], tail, stringify);
        AppendAssociates(ex.writes, [w], WritesOf(tail, stringify));
      } else {
        assert ReplyActions(actions) == tail;
      }
    }
  }

  /** The k-th reply becomes the k-th new access entry, after the earlier entries. */
  lemma {:induction false} DeliverLog(ex: Responder.Exchange, req: Request, actions: seq<Dispatcher.Action>,
                                      stringify: Js.Value -> Option<string>)
    ensures Deliver(ex, req, actions, stringify).log == ex.log + LogsOf(req, ReplyActions(actions), stringify)
    decreases |actions|
  {
    if actions != [] {
      var next := Step(ex, req, actions[0], stringify);
      var tail := ReplyActions(actions[1..]);
      DeliverLog(next, req, actions[1..], stringify);
      if actions[0].Reply? {
        var l := LogOf(req, actions[0], stringify);
        assert ReplyActions(actions) == [actions[0]] + tail;
        LogsOfCons(req, actions[0], tail, stringify);
        AppendAssociates(ex.log, [l], LogsOf(req, tail, stringify));
      } else {
        assert ReplyActions(actions) == tail;
      }
    }
  }

  lemma AppendAssociates<T>(a: seq<T>, b: seq<T>, c: seq<T>)
    ensures (a + b) + c == a + (b + c)
  {
  }

  lemma WritesOfCons(a: Dispatcher.Action, tail: seq<Dispatcher.Action>, stringify: Js.Value -> Option<string>)
    requires a.Reply? && AllReplies(tail)
    ensures AllReplies([a] + tail)
    ensures WritesOf([a] + tail, stringify) == [WriteOf(a, stringify)] + WritesOf(tail, stringify)
  {
    assert ([a] + tail)[1..] == tail;
  }

  lemma LogsOfCons(req: Request, a: Dispatcher.Action, tail: seq<Dispatcher.Action>, stringify: Js.Value -> Option<string>)
    requires a.Reply? && AllReplies(tail)
    ensures AllReplies([a] + tail)
    ensures LogsOf(req, [a] + tail, stringify) == [LogOf(req, a, stringify)] + LogsOf(req, tail, stringify)
  {
    assert ([a] + tail)[1..] == tail;
  }

  /** An action is among the replies exactly when it occurs and is a Reply. */
  lemma {:induction false} ReplyActionsMembers(actions: seq<Dispatcher.Action>)
    ensures forall a :: a in ReplyActions(actions) <==> a in actions && a.Reply?
  {
    if actions != [] {
      ReplyActionsMembers(actions[1..]);
      assert actions == [actions[0]] + actions[1..];
    }
  }

  lemma {:induction false} ReplyActionsSplit(a: seq<Dispatcher.Action>, b: seq<Dispatcher.Action>)
    ensures ReplyActions(a + b) == ReplyActions(a) + ReplyActions(b)
  {
    if a == [] {
      assert a + b == b;
    } else {
      assert (a + b)[1..] == a[1..] + b;
      ReplyActionsSplit(a[1..], b);
    }
  }

  /**
   * The k-th reply among the actions becomes the k-th new write (status 200,
   * the headers and body `respond` shapes for it) and the k-th new access
   * entry (its status, or 200); earlier writes and entries stay in front.
   */
  lemma DeliverPairs(ex: Responder.Exchange, req: Request, actions: seq<Dispatcher.Action>,
                     stringify: Js.Value -> Option<string>)
    ensures var r, rs := Deliver(ex, req, actions, stringify), ReplyActions(actions);
            && |r.writes| == |ex.writes| + |rs| && r.writes[..|ex.writes|] == ex.writes
            && |r.log| == |ex.log| + |rs| && r.log[..|ex.log|] == ex.log
            && forall k :: 0 <= k < |rs| ==>
                 && r.writes[|ex.writes| + k] == Responder.Write(Responder.WIRE_STATUS,
                      Responder.Shape(Some(rs[k].status), rs[k].payload, None, stringify).headers,
                      Responder.Serialize(rs[k].payload, stringify))
                 && r.log[|ex.log| + k].Access?
                 && r.log[|ex.log| + k].entry.status == Responder.LoggedStatus(Some(rs[k].status))
  {
    DeliverWrites(ex, req, actions, stringify);
    DeliverLog(ex, req, actions, stringify);
  }

  /** Counts and statuses only: each reply is one write with status 200 and one entry with its logged status. */
  lemma DeliverStatuses(ex: Responder.Exchange, req: Request, actions: seq<Dispatcher.Action>,
                        stringify: Js.Value -> Option<string>)
    ensures var r, rs := Deliver(ex, req, actions, stringify), ReplyActions(actions);
            && |r.writes| == |ex.writes| + |rs| && |r.log| == |ex.log| + |rs|
            && forall k :: 0 <= k < |rs| ==>
                 && r.writes[|ex.writes| + k].status == Responder.WIRE_STATUS
                 && r.log[|ex.log| + k].Access?
                 && r.log[|ex.log| + k].entry.status == Responder.LoggedStatus(Some(rs[k].status))
  {
    DeliverWrites(ex, req, actions, stringify);
    DeliverLog(ex, req, actions, stringify);
  }

  /** The replies of an oversize POST to an unknown segment: 422 first, 404 last. */
  lemma OversizedUnknownPostReplies(req: Request, chunks: seq<seq<Utf8.byte>>, c: Dispatcher.Collaborators)
    requires req.verb == "POST" && Dispatcher.TotalSize(chunks) > Dispatcher.POST_SIZE_LIMIT
    requires Dispatcher.PostRoute(Paths.Segment(req.pathname)).None?
    ensures var rs := ReplyActions(Dispatcher.Handle(req, chunks, true, c));
            |rs| >= 2 && rs[0] == Dispatcher.OVERSIZE && rs[|rs| - 1] == Dispatcher.NOT_FOUND
  {
    var actions := Dispatcher.Handle(req, chunks, true, c);
    Dispatcher.OversizeIffOverLimit(chunks);
    var data := Dispatcher.DataActions(chunks);
    assert actions == data + [Dispatcher.NOT_FOUND];
    ReplyActionsSplit(data[..2], data[2..]);
    assert data[..2] + data[2..] == data;
    assert ReplyActions(data[..2]) == [Dispatcher.OVERSIZE] by {
      assert data[..2][1..] == [Dispatcher.OVERSIZE];
      assert data[..2][1..][1..] == [];
    }
    ReplyActionsSplit(data, [Dispatcher.NOT_FOUND]);
    assert ReplyActions([Dispatcher.NOT_FOUND]) == [Dispatcher.NOT_FOUND] by {
      assert [Dispatcher.NOT_FOUND][1..] == [];
    }
  }

  /**
   * An upload over 10 MiB to an unknown segment whose `end` event still
   * arrives is answered at least twice: first logged 422 while receiving,
   * last logged 404 at the end.
   */
  lemma OversizedUnknownPostWritesTwice(req: Request, chunks: seq<seq<Utf8.byte>>, c: Dispatcher.Collaborators,
                                        stringify: Js.Value -> Option<string>)
    requires req.verb == "POST" && Dispatcher.TotalSize(chunks) > Dispatcher.POST_SIZE_LIMIT
    requires Dispatcher.PostRoute(Paths.Segment(req.pathname)).None?
    ensures var r := Deliver(Responder.Start(), req, Dispatcher.Handle(req, chunks, true, c), stringify);
            && |r.writes| >= 2 && |r.log| == |r.writes|
            && r.log[0].Access? && r.log[0].entry.status == 422
            && r.log[|r.log| - 1].Access? && r.log[|r.log| - 1].entry.status == 404
  {
    var actions := Dispatcher.Handle(req, chunks, true, c);
    OversizedUnknownPostReplies(req, chunks, c);
    DeliverStatuses(Responder.Start(), req, actions, stringify);
  }

  /** The replies of a GET whose handler throws: 500, then 404. */
  lemma GetFaultReplies(req: Request, c: Dispatcher.Collaborators, err: string)
    requires req.verb == "GET" && Dispatcher.GetRoute(Paths.Segment(req.pathname)).Some?
    requires c.run(Dispatcher.GetRoute(Paths.Segment(req.pathname)).value, Dispatcher.NoBody) == Some(err)
    ensures ReplyActions(Dispatcher.Handle(req, [], false, c)) == [Dispatcher.Fault(err), Dispatcher.NOT_FOUND]
  {
    var h := Dispatcher.GetRoute(Paths.Segment(req.pathname)).value;
    var actions := Dispatcher.Handle(req, [], false, c);
    assert actions == [Dispatcher.Invoke(h, Dispatcher.NoBody), Dispatcher.Fault(err), Dispatcher.NOT_FOUND];
    assert actions[1..][1..][1..] == [];
    assert ReplyActions(actions[1..][1..]) == [Dispatcher.NOT_FOUND];
    assert ReplyActions(actions[1..]) == [Dispatcher.Fault(err), Dispatcher.NOT_FOUND];
  }

  /**
   * A GET whose handler throws gets two writes, both with status 200 on the
   * wire, logged as 500 and then 404.
   */
  lemma GetFaultWritesTwice(req: Request, c: Dispatcher.Collaborators, err: string,
                            stringify: Js.Value -> Option<string>)
    requires req.verb == "GET" && Dispatcher.GetRoute(Paths.Segment(req.pathname)).Some?
    requires c.run(Dispatcher.GetRoute(Paths.Segment(req.pathname)).value, Dispatcher.NoBody) == Some(err)
    ensures var r := Deliver(Responder.Start(), req, Dispatcher.Handle(req, [], false, c), stringify);
            && |r.writes| == 2 && r.writes[0].status == 200 && r.writes[1].status == 200
            && |r.log| == 2 && r.log[0].Access? && r.log[1].Access?
            && r.log[0].entry.status == 500 && r.log[1].entry.status == 404
  {
    GetFaultReplies(req, c, err);
    DeliverStatuses(Responder.Start(), req, Dispatcher.Handle(req, [], false, c), stringify);
  }

  /**
   * A handler that answers after the timeout finds the timer already fired;
   * its `respond` still writes, after the 503.
   */
  lemma LateAnswerAfterTimeout(req: Request, statusCode: Option<int>, body: Js.Value,
                               stringify: Js.Value -> Option<string>)
    ensures var fired := Responder.Expire(Responder.Start(), req);
            var r := Responder.Respond(fired, req, statusCode, body, None, stringify);
            && fired.writes == [Responder.Write(503, map[], None)]
            && r.writes[0] == fired.writes[0] && |r.writes| == 2 && r.writes[1].status == 200
  {
  }

  /** A handler that answers with no explicit status is logged as 200. */
  lemma DefaultStatusLogged(req: Request, body: Js.Value, stringify: Js.Value -> Option<string>)
    ensures Responder.Respond(Responder.Start(), req, None, body, None, stringify).log[0].entry.status == 200
  {
  }
}
