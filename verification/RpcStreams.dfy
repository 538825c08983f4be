/** The response stream of a request: how a handler produces it, and how the terminal router and the
    leaf router of the frontend carry it back. */
module RpcStreams {
  import opened Basics
  import opened WshRouters

  /** Messages that all answer request r, of which only the last may be final. */
  predicate PartialStream(r: ReqId, msgs: seq<Msg>) {
    forall i :: 0 <= i < |msgs| ==> IsResponse(msgs[i]) && msgs[i].resId == r && (i < |msgs| - 1 ==> msgs[i].cont)
  }

  predicate EndsFinal(msgs: seq<Msg>) {
    msgs != [] && !msgs[|msgs| - 1].cont
  }

  // ----- the producer -----

  function DataResponse(r: ReqId, data: string, final: bool): Msg {
    Msg("", "", r, "", "", !final, "", data)
  }

  function FailureResponse(r: ReqId, err: string): Msg {
    Msg("", "", r, "", "", false, err, "")
  }

  /** A response to r that carries the data and no error. */
  predicate CarriesData(m: Msg, r: ReqId, data: string, final: bool) {
    && m.command == "" && m.reqId == "" && m.resId == r && m.route == "" && m.source == ""
    && m.payload == data && m.error == "" && m.cont == !final
  }

  /** A final response to r that carries the error and no data. */
  predicate CarriesError(m: Msg, r: ReqId, err: string) {
    && m.command == "" && m.reqId == "" && m.resId == r && m.route == "" && m.source == ""
    && m.payload == "" && m.error == err && !m.cont
  }

  /** How a send ends: written, not encodable, or a panic because the channel is closed. */
  datatype Io = Written | Unencodable | ChannelClosed

  /** What a command handler may do with its response handler, in any order and number. */
  datatype Call = Respond(data: string, final: bool, io: Io) | Fail(err: string, io: Io) | Finish(io: Io)

  class RpcResponseHandler {
    const reqId: ReqId
    var done: bool
    var out: seq<Msg>        // what this handler has written to OutputCh
    ghost var lost: bool     // a final message, or the channel, was lost

    ghost predicate Valid()
      reads this
    {
      && PartialStream(reqId, out)
      && (reqId == "" ==> out == [])
      && (EndsFinal(out) ==> done)
      && (done ==> lost || EndsFinal(out))
      && (lost ==> done)
    }

    constructor (reqId: ReqId)
      ensures Valid() && this.reqId == reqId && !done && !lost && out == []
    {
      this.reqId := reqId;
      done, out, lost := false, [], false;
    }

    /** SendResponse */
    method SendResponse(data: string, final: bool, io: Io) returns (ok: bool)
      requires Valid()
      modifies this
      ensures Valid()
      ensures reqId == "" || old(done) ==> out == old(out) && done == old(done) && lost == old(lost)
      ensures reqId != "" && !old(done) ==>
                && out == (if io == Written then old(out) + [DataResponse(reqId, data, final)] else old(out))
                && done == (final || io == ChannelClosed)
                && lost == (io != Written && done)
      ensures reqId != "" && !old(done) && io == Written ==>
                && |out| == |old(out)| + 1 && out[..|old(out)|] == old(out)
                && CarriesData(out[|old(out)|], reqId, data, final)
      ensures ok <==> reqId == "" || (!old(done) && io != Unencodable)
    {
      if reqId == "" {
        return true;
      }
      if done {
        return false;
      }
      if io == Unencodable {
        if final {
          done, lost := true, true;
        }
        return false;
      }
      if io == ChannelClosed {
        done, lost := true, true;
        return true;
      }
      out := out + [DataResponse(reqId, data, final)];
      if final {
        done := true;
      }
      return true;
    }

    /** SendResponseError */
    method SendResponseError(err: string, io: Io)
      requires Valid() && io != Unencodable
      modifies this
      ensures Valid()
      ensures reqId == "" || old(done) ==> out == old(out) && done == old(done) && lost == old(lost)
      ensures reqId != "" && !old(done) ==>
                && out == (if io == Written then old(out) + [FailureResponse(reqId, err)] else old(out))
                && done && lost == (io != Written)
      ensures reqId != "" && !old(done) && io == Written ==>
                && |out| == |old(out)| + 1 && out[..|old(out)|] == old(out)
                && CarriesError(out[|old(out)|], reqId, err)
    {
      if reqId == "" || done {
        return;
      }
      if io == Written {
        out := out + [FailureResponse(reqId, err)];
      } else {
        lost := true;
      }
      done := true;
    }

    /** Finalize */
    method Finalize(io: Io)
      requires Valid()
      modifies this
      ensures Valid()
      ensures reqId != "" ==> done
      ensures reqId == "" || old(done) ==> out == old(out) && done == old(done) && lost == old(lost)
      ensures reqId != "" && !old(done) ==>
                && out == (if io == Written then old(out) + [DataResponse(reqId, "", true)] else old(out))
                && lost == (io != Written)
    {
      if reqId == "" || done {
        return;
      }
      var _ := SendResponse("", true, io);
      assert done;
    }

    method Perform(call: Call)
      requires Valid() && (call.Fail? ==> call.io != Unencodable)
      modifies this
      ensures Valid()
      ensures reqId != "" && call.io == Written && !old(lost) ==> !lost
      ensures reqId != "" && call.io == Written && !old(lost) ==>
                if old(done) then done && out == old(out)
                else out == old(out) + [Asked(reqId, call)] && done == !Asked(reqId, call).cont
    {
      match call
      case Respond(data, final, io) =>
        var _ := SendResponse(data, final, io);
      case Fail(err, io) =>
        SendResponseError(err, io);
      case Finish(io) =>
        Finalize(io);
    }

    /** handleRequest around a command handler that makes these calls: a stream with at most one final
        message, at its end; and exactly the stream that the calls ask for when nothing is lost. */
    method HandleRequest(calls: seq<Call>, io: Io)
      requires Valid() && !done && !lost && out == []
      requires forall c :: c in calls && c.Fail? ==> c.io != Unencodable
      modifies this
      ensures Valid() && (reqId != "" ==> done)
      ensures reqId != "" && io == Written && (forall c :: c in calls ==> c.io == Written) ==>
                  out == Emitted(reqId, calls) && AnswersCalls(reqId, calls, out)
    {
      hide Valid, PartialStream, EndsFinal, Asked, Emitted, AnswersCalls;
      ghost var allWritten := forall c :: c in calls ==> c.io == Written;
      for i := 0 to |calls|
        invariant Valid()
        invariant reqId != "" && allWritten ==>
                    && !lost
                    && Emitted(reqId, calls) == if done then out else out + Emitted(reqId, calls[i..])
      {
        EmittedStep(reqId, calls, i);
        ghost var before := out;
        Perform(calls[i]);
        if reqId != "" && allWritten && out != before {
          Assoc(before, [Asked(reqId, calls[i])], Emitted(reqId, calls[i + 1..]));
        }
      }
      EmittedEnd(reqId, calls);
      EmittedAnswers(reqId, calls);
      Finalize(io);
    }
  }

  /** The message that a call asks for. */
  function Asked(r: ReqId, call: Call): Msg {
    match call
    case Respond(data, final, _) => DataResponse(r, data, final)
    case Fail(err, _) => FailureResponse(r, err)
    case Finish(_) => DataResponse(r, "", true)
  }

  /** What a call hands to its caller, field by field. */
  predicate CarriesCall(m: Msg, r: ReqId, call: Call) {
    match call
    case Respond(data, final, _) => CarriesData(m, r, data, final)
    case Fail(err, _) => CarriesError(m, r, err)
    case Finish(_) => CarriesData(m, r, "", true)
  }

  predicate IsFinal(call: Call) {
    call.Respond? ==> call.final
  }

  /** The messages are the answers that the calls give, one for each call up to the first final one; if
      there is none, an empty final answer follows them. */
  predicate AnswersCalls(r: ReqId, calls: seq<Call>, msgs: seq<Msg>) {
    && 0 < |msgs| <= |calls| + 1
    && (forall i :: 0 <= i < |msgs| && i < |calls| ==> CarriesCall(msgs[i], r, calls[i]))
    && (forall i :: 0 <= i < |msgs| - 1 ==> !IsFinal(calls[i]))
    && if |msgs| == |calls| + 1 then CarriesData(msgs[|calls|], r, "", true) else IsFinal(calls[|msgs| - 1])
  }

  lemma {:induction false} EmittedAnswers(r: ReqId, calls: seq<Call>)
    ensures AnswersCalls(r, calls, Emitted(r, calls))
    decreases |calls|
  {
    if calls != [] && Asked(r, calls[0]).cont {
      EmittedAnswers(r, calls[1..]);
      var msgs, rest := Emitted(r, calls), Emitted(r, calls[1..]);
      assert forall i :: 0 < i < |msgs| ==> msgs[i] == rest[i - 1];
      assert forall i :: 0 < i < |calls| ==> calls[i] == calls[1..][i - 1];
    }
  }

  /** The stream that the calls ask for: up to the first final one, closed by Finalize if there is none. */
  function Emitted(r: ReqId, calls: seq<Call>): seq<Msg>
    decreases |calls|
  {
    if calls == [] then [DataResponse(r, "", true)]
    else [Asked(r, calls[0])] + if Asked(r, calls[0]).cont then Emitted(r, calls[1..]) else []
  }

  lemma EmittedStep(r: ReqId, calls: seq<Call>, i: nat)
    requires i < |calls|
    ensures Emitted(r, calls[i..]) ==
              [Asked(r, calls[i])] + if Asked(r, calls[i]).cont then Emitted(r, calls[i + 1..]) else []
    ensures calls[0..] == calls
  {
    assert calls[i..][1..] == calls[i + 1..];
  }

  lemma EmittedEnd(r: ReqId, calls: seq<Call>)
    ensures Emitted(r, calls[|calls|..]) == [DataResponse(r, "", true)] && calls[0..] == calls
  {
  }

  /** It is a complete stream. */
  lemma {:induction false} EmittedIsComplete(r: ReqId, calls: seq<Call>)
    requires r != ""
    ensures PartialStream(r, Emitted(r, calls)) && EndsFinal(Emitted(r, calls))
    decreases |calls|
  {
    if calls != [] && Asked(r, calls[0]).cont {
      EmittedIsComplete(r, calls[1..]);
    }
  }

  // ----- the leaf router of the frontend -----

  const CMD_EVENT := "eventrecv"

  /** recvRpcMessage: what is sent on, and the new request table. A leaf always has an upstream. */
  function LeafHandle(msg: Msg, rpcMap: map<ReqId, RouteInfo>, to: RouteId -> Client)
    : (seq<Send>, map<ReqId, RouteInfo>)
  {
    if IsControl(msg) || msg.command == CMD_EVENT then ([], rpcMap)
    else if msg.command != "" then
      ([Send(msg, msg.route, Some(to(msg.route)))],
       if msg.reqId == "" then rpcMap else rpcMap[msg.reqId := RouteInfo(msg.source, msg.route)])
    else if msg.reqId != "" then
      if msg.reqId !in rpcMap then ([], rpcMap)
      else ([Send(msg, rpcMap[msg.reqId].dest, Some(to(rpcMap[msg.reqId].dest)))], rpcMap)
    else if msg.resId != "" && msg.resId in rpcMap then
      var source := rpcMap[msg.resId].source;
      ([Send(msg, source, Some(to(source)))], if msg.cont then rpcMap else rpcMap - {msg.resId})
    else ([], rpcMap)
  }

  function LeafResolve(routeMap: map<RouteId, Client>, upstream: Client, route: RouteId): Client {
    if route in routeMap then routeMap[route] else upstream
  }

  class LeafRouter {
    var routeMap: map<RouteId, Client>
    var upstreamClient: Client
    var rpcMap: map<ReqId, RouteInfo>
    var sent: seq<(Client, Msg)>
    var events: seq<Msg>   // what handleWaveEvent has been called with

    constructor (upstream: Client)
      ensures routeMap == map[] && rpcMap == map[] && sent == [] && events == [] && upstreamClient == upstream
    {
      routeMap, rpcMap, sent, events, upstreamClient := map[], map[], [], [], upstream;
    }

    /** _sendRoutedMessage */
    method SendRoutedMessage(msg: Msg, destRouteId: RouteId)
      modifies this`sent
      ensures sent == old(sent) + [(LeafResolve(routeMap, upstreamClient, destRouteId), msg)]
    {
      if destRouteId in routeMap {
        sent := sent + [(routeMap[destRouteId], msg)];
        return;
      }
      sent := sent + [(upstreamClient, msg)];
    }

    /** recvRpcMessage; unlike the terminal router it registers a command before it sends it. */
    method RecvRpcMessage(msg: Msg)
      modifies this`rpcMap, this`sent, this`events
      ensures var (sends, table) := LeafHandle(msg, old(rpcMap),
                  r => LeafResolve(old(routeMap), old(upstreamClient), r));
              sent == old(sent) + Taken(sends) && rpcMap == table
      ensures events == old(events) + if msg.command == CMD_EVENT then [msg] else []
    {
      if IsControl(msg) {
        return;
      }
      if msg.command == CMD_EVENT {
        events := events + [msg];
        return;
      }
      if msg.command != "" {
        if msg.reqId != "" {
          rpcMap := rpcMap[msg.reqId := RouteInfo(msg.source, msg.route)];
        }
        SendRoutedMessage(msg, msg.route);
        return;
      }
      if msg.reqId != "" {
        if msg.reqId in rpcMap {
          SendRoutedMessage(msg, rpcMap[msg.reqId].dest);
        }
        return;
      }
      if msg.resId != "" && msg.resId in rpcMap {
        SendRoutedMessage(msg, rpcMap[msg.resId].source);
        if !msg.cont {
          rpcMap := rpcMap - {msg.resId};
        }
      }
    }

    /** registerRoute; the reserved name is refused. */
    method RegisterRoute(routeId: RouteId, client: Client) returns (ok: bool)
      modifies this`routeMap, this`sent
      ensures ok <==> routeId != SYS_ROUTE
      ensures routeMap == if ok then old(routeMap)[routeId := client] else old(routeMap)
      ensures sent == old(sent) +
                      if ok then [(upstreamClient, Msg(CMD_ANNOUNCE, "", "", "", routeId, false, "", routeId))] else []
    {
      if routeId == SYS_ROUTE {
        return false;
      }
      sent := sent + [(upstreamClient, Msg(CMD_ANNOUNCE, "", "", "", routeId, false, "", routeId))];
      routeMap := routeMap[routeId := client];
      return true;
    }

    /** unregisterRoute */
    method UnregisterRoute(routeId: RouteId)
      modifies this`routeMap, this`sent
      ensures routeMap == old(routeMap) - {routeId}
      ensures sent == old(sent) + [(upstreamClient, Msg(CMD_UNANNOUNCE, "", "", "", routeId, false, "", routeId))]
    {
      sent := sent + [(upstreamClient, Msg(CMD_UNANNOUNCE, "", "", "", routeId, false, "", routeId))];
      routeMap := routeMap - {routeId};
    }
  }

  /** A client enters the leaf: once the terminal router has handled what the leaf sends it over their
      link, both lead to the client, the leaf itself and the terminal router through the link. */
  method RegisterThroughLink(leaf: LeafRouter, terminal: WshRouter, link: RouteId, route: RouteId, client: Client)
    requires terminal.Valid() && terminal.inputCh == [] && terminal.upstreamClient == None
    requires link in terminal.routeMap && route !in terminal.routeMap && route != link && route != ""
    requires route != SYS_ROUTE
    modifies leaf, terminal
    ensures terminal.Valid() && terminal.inputCh == [] && terminal.routeMap == old(terminal.routeMap)
    ensures LeafResolve(leaf.routeMap, leaf.upstreamClient, route) == client
    ensures Resolve(terminal.TablesNow(), route) == Some(terminal.routeMap[link])
  {
    var _ := leaf.RegisterRoute(route, client);
    terminal.RecvFromClient(link, Some(leaf.sent[|leaf.sent| - 1].1));
    DrainedOne(terminal.StateNow());
    var _ := terminal.RunServer();
  }

  /** And it leaves again: the leaf sends its messages upstream, the terminal router reaches nobody. */
  method WithdrawThroughLink(leaf: LeafRouter, terminal: WshRouter, link: RouteId, route: RouteId)
    requires terminal.Valid() && terminal.inputCh == [] && terminal.upstreamClient == None
    requires link in terminal.routeMap && route !in terminal.routeMap && route != "" && "" !in terminal.routeMap
    modifies leaf, terminal
    ensures terminal.Valid() && terminal.inputCh == [] && terminal.routeMap == old(terminal.routeMap)
    ensures LeafResolve(leaf.routeMap, leaf.upstreamClient, route) == leaf.upstreamClient
    ensures Resolve(terminal.TablesNow(), route) == None
  {
    leaf.UnregisterRoute(route);
    terminal.RecvFromClient(link, Some(leaf.sent[|leaf.sent| - 1].1));
    DrainedOne(terminal.StateNow());
    var _ := terminal.RunServer();
  }

  /** A client of a router that has an upstream: once the terminal router has handled the announcement
      that comes over their link, it reaches the client through the link, and the lower router directly. */
  method RegisterBelow(lower: WshRouter, terminal: WshRouter, link: RouteId, route: RouteId, client: Client)
    requires lower != terminal && lower.upstreamClient.Some?
    requires terminal.Valid() && terminal.inputCh == [] && terminal.upstreamClient == None
    requires link in terminal.routeMap && route !in terminal.routeMap && route != link && route != ""
    requires route != SYS_ROUTE
    modifies lower, terminal
    ensures terminal.Valid() && terminal.inputCh == [] && terminal.routeMap == old(terminal.routeMap)
    ensures Resolve(lower.TablesNow(), route) == Some(client)
    ensures Resolve(terminal.TablesNow(), route) == Some(terminal.routeMap[link])
  {
    lower.RegisterRoute(route, client);
    lower.AnnounceRoute(route);
    terminal.RecvFromClient(link, Some(lower.sent[|lower.sent| - 1].1));
    DrainedOne(terminal.StateNow());
    var _ := terminal.RunServer();
  }

  lemma DrainedOne(s: RouterState)
    requires |s.queue| == 1 && s.queue[0].msg.Some? && IsControl(s.queue[0].msg.value)
    ensures Drained(s) == After(s.(queue := []), s.queue[0])
  {
    assert s.queue[1..] == [];
    assert After(s.(queue := []), s.queue[0]).queue == [];
  }

  // ----- many messages through a router -----

  /** What the terminal router sends for a list of messages, and its table afterwards. */
  function TerminalRun(inputs: seq<Input>, rpcMap: map<ReqId, RouteInfo>, to: RouteId -> Option<Client>)
    : (seq<Send>, map<ReqId, RouteInfo>)
    decreases |inputs|
  {
    if inputs == [] then ([], rpcMap)
    else
      var h := Handle(inputs[0], rpcMap, to);
      var (sends, table) := TerminalRun(inputs[1..], Settle(h, rpcMap), to);
      (h.sends + sends, table)
  }

  function LeafRun(msgs: seq<Msg>, rpcMap: map<ReqId, RouteInfo>, to: RouteId -> Client)
    : (seq<Send>, map<ReqId, RouteInfo>)
    decreases |msgs|
  {
    if msgs == [] then ([], rpcMap)
    else
      var (sends, next) := LeafHandle(msgs[0], rpcMap, to);
      var (more, table) := LeafRun(msgs[1..], next, to);
      (sends + more, table)
  }

  predicate Answers(msg: Msg, r: ReqId) {
    IsResponse(msg) && msg.resId == r
  }

  /** The responses to r among the messages. */
  function ResponsesTo(r: ReqId, msgs: seq<Msg>): seq<Msg>
    decreases |msgs|
  {
    if msgs == [] then []
    else (if Answers(msgs[0], r) then [msgs[0]] else []) + ResponsesTo(r, msgs[1..])
  }

  /** The messages that decode. */
  function Messages(inputs: seq<Input>): seq<Msg>
    decreases |inputs|
  {
    if inputs == [] then []
    else (if inputs[0].msg.Some? then [inputs[0].msg.value] else []) + Messages(inputs[1..])
  }

  /** The responses to r among the sends. */
  function SentFor(r: ReqId, sends: seq<Send>): seq<Send>
    decreases |sends|
  {
    if sends == [] then []
    else (if Answers(sends[0].msg, r) then [sends[0]] else []) + SentFor(r, sends[1..])
  }

  lemma {:induction false} SentForAppend(r: ReqId, a: seq<Send>, b: seq<Send>)
    ensures SentFor(r, a + b) == SentFor(r, a) + SentFor(r, b)
    decreases |a|
  {
    if a == [] {
      assert a + b == b;
    } else {
      assert (a + b)[1..] == a[1..] + b && (a + b)[0] == a[0];
      SentForAppend(r, a[1..], b);
      Assoc(if Answers(a[0].msg, r) then [a[0]] else [], SentFor(r, a[1..]), SentFor(r, b));
    }
  }

  /** The messages up to the first final one, each sent along the route to the client. */
  function UpToFinal(msgs: seq<Msg>, route: RouteId, to: Option<Client>): seq<Send>
    decreases |msgs|
  {
    if msgs == [] then []
    else [Send(msgs[0], route, to)] + if msgs[0].cont then UpToFinal(msgs[1..], route, to) else []
  }

  predicate HasFinal(msgs: seq<Msg>) {
    exists i :: 0 <= i < |msgs| && !msgs[i].cont
  }

  predicate NoCommand(r: ReqId, msg: Msg) {
    !(msg.command != "" && msg.reqId == r)
  }

  /** What is to be sent for the responses to r, given the entry for r. */
  ghost predicate Carried(r: ReqId, responses: seq<Msg>, sends: seq<Send>, entry: map<ReqId, RouteInfo>,
                          table: map<ReqId, RouteInfo>,
                          to: RouteId -> Option<Client>)
  {
    if r !in entry then SentFor(r, sends) == [] && r !in table
    else
      && SentFor(r, sends) == UpToFinal(responses, entry[r].source, to(entry[r].source))
      && (r in table <==> !HasFinal(responses))
      && (r in table ==> table[r] == entry[r])
  }

  /** Some messages first, then the rest. */
  lemma CarriedStep(r: ReqId, a: seq<Msg>, b: seq<Msg>, sends: seq<Send>, more: seq<Send>, entry: map<ReqId, RouteInfo>,
                    next: map<ReqId, RouteInfo>, table: map<ReqId, RouteInfo>, to: RouteId -> Option<Client>)
    requires Carried(r, a, sends, entry, next, to) && Carried(r, b, more, next, table, to)
    ensures Carried(r, a + b, sends + more, entry, table, to)
  {
    SentForAppend(r, sends, more);
    if r in entry {
      UpToFinalAppend(a, b, entry[r].source, to(entry[r].source));
    }
  }

  lemma {:induction false} UpToFinalAppend(a: seq<Msg>, b: seq<Msg>, route: RouteId, to: Option<Client>)
    ensures UpToFinal(a + b, route, to) == UpToFinal(a, route, to) + if HasFinal(a) then [] else UpToFinal(b, route, to)
    ensures HasFinal(a + b) <==> HasFinal(a) || HasFinal(b)
    decreases |a|
  {
    HasFinalAppend(a, b);
    if a == [] {
      assert a + b == b;
    } else {
      assert (a + b)[1..] == a[1..] + b;
      UpToFinalAppend(a[1..], b, route, to);
      HasFinalStep(a[0], a[1..]);
      assert a == [a[0]] + a[1..];
      hide HasFinal;
      var rest := if HasFinal(a[1..]) then [] else UpToFinal(b, route, to);
      var head := [Send(a[0], route, to)];
      if a[0].cont {
        assert head + (UpToFinal(a[1..], route, to) + rest) == head + UpToFinal(a[1..], route, to) + rest;
      } else {
        assert UpToFinal(a, route, to) == head + [];
      }
    }
  }

  lemma HasFinalAppend(a: seq<Msg>, b: seq<Msg>)
    ensures HasFinal(a + b) <==> HasFinal(a) || HasFinal(b)
  {
    if HasFinal(a) {
      var i :| 0 <= i < |a| && !a[i].cont;
      assert !(a + b)[i].cont;
    }
    if HasFinal(b) {
      var i :| 0 <= i < |b| && !b[i].cont;
      assert !(a + b)[|a| + i].cont;
    }
    if HasFinal(a + b) {
      var i :| 0 <= i < |a + b| && !(a + b)[i].cont;
      assert if i < |a| then !a[i].cont else !b[i - |a|].cont;
    }
  }

  lemma {:induction false} ResponsesToAppend(r: ReqId, a: seq<Msg>, b: seq<Msg>)
    ensures ResponsesTo(r, a + b) == ResponsesTo(r, a) + ResponsesTo(r, b)
    decreases |a|
  {
    if a == [] {
      assert a + b == b;
    } else {
      assert (a + b)[1..] == a[1..] + b && (a + b)[0] == a[0];
      ResponsesToAppend(r, a[1..], b);
      Assoc(if Answers(a[0], r) then [a[0]] else [], ResponsesTo(r, a[1..]), ResponsesTo(r, b));
    }
  }

  /** The terminal router carries the responses to an open request, interleaved with any other
      traffic, to the recorded source up to the final one, in order and unchanged; it keeps the entry
      exactly as long as no final response has come. */
  lemma {:induction false} TerminalCarries(inputs: seq<Input>, rpcMap: map<ReqId, RouteInfo>,
                                           to: RouteId -> Option<Client>, r: ReqId)
    requires r != "" && forall i :: 0 <= i < |inputs| && inputs[i].msg.Some? ==> NoCommand(r, inputs[i].msg.value)
    ensures
      var (sends, table) := TerminalRun(inputs, rpcMap, to);
      Carried(r, ResponsesTo(r, Messages(inputs)), sends, rpcMap, table, to)
    decreases |inputs|
  {
    if inputs != [] {
      hide Carried, Handle, Settle, ResponsesTo;
      var h := Handle(inputs[0], rpcMap, to);
      var next := Settle(h, rpcMap);
      TerminalCarries(inputs[1..], next, to, r);
      TerminalCarriesOne(r, inputs[0], rpcMap, to);
      var first, rest := if inputs[0].msg.Some? then [inputs[0].msg.value] else [], Messages(inputs[1..]);
      ResponsesToAppend(r, first, rest);
      CarriedStep(r, ResponsesTo(r, first), ResponsesTo(r, rest), h.sends,
                  TerminalRun(inputs[1..], next, to).0, rpcMap, next, TerminalRun(inputs[1..], next, to).1, to);
    } else {
      assert SentFor(r, []) == [] && !HasFinal([]);
    }
  }

  lemma TerminalCarriesOne(r: ReqId, input: Input, rpcMap: map<ReqId, RouteInfo>, to: RouteId -> Option<Client>)
    requires r != "" && (input.msg.Some? ==> NoCommand(r, input.msg.value))
    ensures
      var h := Handle(input, rpcMap, to);
      Carried(r, ResponsesTo(r, if input.msg.Some? then [input.msg.value] else []), h.sends, rpcMap, Settle(h, rpcMap),
          to)
  {
    OneSent(r, input, rpcMap, to);
    if input.msg.Some? {
      OneResponse(r, input.msg.value);
    }
  }

  lemma OneResponse(r: ReqId, msg: Msg)
    ensures ResponsesTo(r, [msg]) == if Answers(msg, r) then [msg] else []
    ensures HasFinal([msg]) <==> !msg.cont
  {
    assert [msg][1..] == [];
    HasFinalStep(msg, []);
    assert [msg] + [] == [msg];
  }

  lemma HasFinalStep(msg: Msg, rest: seq<Msg>)
    ensures HasFinal([msg] + rest) <==> !msg.cont || HasFinal(rest)
  {
    if !msg.cont {
      assert !([msg] + rest)[0].cont;
    }
    if HasFinal(rest) {
      var i :| 0 <= i < |rest| && !rest[i].cont;
      assert !([msg] + rest)[i + 1].cont;
    }
  }

  lemma OneSent(r: ReqId, input: Input, rpcMap: map<ReqId, RouteInfo>, to: RouteId -> Option<Client>)
    requires r != "" && (input.msg.Some? ==> NoCommand(r, input.msg.value))
    ensures
      var h := Handle(input, rpcMap, to);
      && (input.msg.Some? && Answers(input.msg.value, r) && r in rpcMap ==>
            SentFor(r, h.sends) == [Send(input.msg.value, rpcMap[r].source, to(rpcMap[r].source))])
      && (input.msg.None? || !Answers(input.msg.value, r) || r !in rpcMap ==> SentFor(r, h.sends) == [])
  {
    var sends := Handle(input, rpcMap, to).sends;
    assert |sends| <= 2;
    if |sends| == 2 {
      assert sends == [sends[0]] + [sends[1]];
      SentForAppend(r, [sends[0]], [sends[1]]);
    }
    forall s: Send
      ensures SentFor(r, [s]) == if Answers(s.msg, r) then [s] else []
    {
      assert [s][1..] == [];
    }
    if |sends| == 1 {
      assert sends == [sends[0]];
    }
  }

  lemma {:induction false} LeafCarries(msgs: seq<Msg>, rpcMap: map<ReqId, RouteInfo>, to: RouteId -> Client, r: ReqId)
    requires r != "" && forall i :: 0 <= i < |msgs| ==> NoCommand(r, msgs[i])
    ensures
      var (sends, table) := LeafRun(msgs, rpcMap, to);
      Carried(r, ResponsesTo(r, msgs), sends, rpcMap, table, route => Some(to(route)))
    decreases |msgs|
  {
    if msgs == [] {
      assert SentFor(r, []) == [] && !HasFinal([]);
    } else {
      hide Carried, LeafHandle, ResponsesTo;
      var (sends, next) := LeafHandle(msgs[0], rpcMap, to);
      var (more, table) := LeafRun(msgs[1..], next, to);
      LeafCarries(msgs[1..], next, to, r);
      LeafCarriesOne(r, msgs[0], rpcMap, to);
      assert msgs == [msgs[0]] + msgs[1..];
      ResponsesToAppend(r, [msgs[0]], msgs[1..]);
      CarriedStep(r, ResponsesTo(r, [msgs[0]]), ResponsesTo(r, msgs[1..]), sends, more, rpcMap, next, table,
          route => Some(to(route)));
    }
  }

  lemma LeafCarriesOne(r: ReqId, msg: Msg, rpcMap: map<ReqId, RouteInfo>, to: RouteId -> Client)
    requires r != "" && NoCommand(r, msg)
    ensures
      var (sends, table) := LeafHandle(msg, rpcMap, to);
      Carried(r, ResponsesTo(r, [msg]), sends, rpcMap, table, route => Some(to(route)))
  {
    OneResponse(r, msg);
    var sends := LeafHandle(msg, rpcMap, to).0;
    if sends != [] {
      assert sends == [sends[0]] && sends[1..] == [];
    }
  }

  /** The leaf sends a command along its route and, until the final response, whatever else comes for the
      request along the same route; a command without an id leaves no entry. */
  lemma LeafFollowsRequest(cmd: Msg, rpcMap: map<ReqId, RouteInfo>, to: RouteId -> Client, follow: Msg, resp: Msg)
    requires IsCommand(cmd) && cmd.command != CMD_EVENT
    requires follow.command == "" && follow.reqId != "" && IsResponse(resp)
    ensures
      var (sends, table) := LeafHandle(cmd, rpcMap, to);
      && sends == [Send(cmd, cmd.route, Some(to(cmd.route)))]
      && (cmd.reqId == "" ==> table == rpcMap)
      && (cmd.reqId != "" && follow.reqId == cmd.reqId ==>
            LeafHandle(follow, table, to) == ([Send(follow, cmd.route, Some(to(cmd.route)))], table))
      && (cmd.reqId != "" && resp.resId == cmd.reqId ==>
            && LeafHandle(resp, table, to).0 == [Send(resp, cmd.source, Some(to(cmd.source)))]
            && (resp.cont ==> LeafHandle(resp, table, to).1 == table)
            && (!resp.cont && follow.reqId == cmd.reqId ==>
                  LeafHandle(follow, LeafHandle(resp, table, to).1, to).0 == []))
      && (follow.reqId !in table ==> LeafHandle(follow, table, to) == ([], table))
  {
  }

  /** A response for which the leaf has no entry, an event and an announcement go nowhere. */
  lemma LeafDrops(msg: Msg, rpcMap: map<ReqId, RouteInfo>, to: RouteId -> Client)
    requires msg.command == CMD_EVENT || IsControl(msg) || (IsResponse(msg) && msg.resId !in rpcMap)
    ensures LeafHandle(msg, rpcMap, to) == ([], rpcMap)
  {
  }

  // ----- end to end -----

  function MsgsOf(sends: seq<Send>): seq<Msg> {
    seq(|sends|, i requires 0 <= i < |sends| => sends[i].msg)
  }

  lemma {:induction false} CompleteGoesThrough(r: ReqId, msgs: seq<Msg>, route: RouteId, to: Option<Client>)
    requires PartialStream(r, msgs) && EndsFinal(msgs)
    ensures MsgsOf(UpToFinal(msgs, route, to)) == msgs && HasFinal(msgs)
    ensures forall s :: s in UpToFinal(msgs, route, to) ==> s.route == route && s.to == to
    decreases |msgs|
  {
    assert !msgs[|msgs| - 1].cont;
    if |msgs| > 1 {
      assert msgs[1..][|msgs| - 2] == msgs[|msgs| - 1];
      CompleteGoesThrough(r, msgs[1..], route, to);
      assert msgs == [msgs[0]] + msgs[1..];
    } else {
      assert msgs == [msgs[0]] && !msgs[0].cont;
    }
  }

  /** A request from a client of the leaf, all the way and back. The leaf passes the command up and the
      terminal router to the server; what the server's handler then emits for it reaches the client of
      the leaf, complete, in order and unchanged, whatever other traffic the two routers carry; and
      afterwards neither holds an entry for the request. */
  lemma RequestRoundTrip(cmd: Msg, link: RouteId, linkClient: Client, server: Client, client: Client, calls: seq<Call>,
                         terminal: map<ReqId, RouteInfo>, terminalTo: RouteId -> Option<Client>, inputs: seq<Input>,
                         leaf: map<ReqId, RouteInfo>, leafTo: RouteId -> Client, down: seq<Msg>)
    requires IsCommand(cmd) && cmd.command != CMD_EVENT && cmd.reqId != ""
    requires terminalTo(cmd.route) == Some(server)        // the server is registered there
    requires terminalTo(cmd.source) == Some(linkClient)   // the source was announced over the link
    requires leafTo(cmd.source) == client                 // and is registered at the leaf
    requires forall i :: 0 <= i < |inputs| && inputs[i].msg.Some? ==> NoCommand(cmd.reqId, inputs[i].msg.value)
    requires forall i :: 0 <= i < |down| ==> NoCommand(cmd.reqId, down[i])
    // the terminal router receives what the handler emits, the leaf what the terminal router sends for it
    requires ResponsesTo(cmd.reqId, Messages(inputs)) == Emitted(cmd.reqId, calls)
    requires var h := Handle(Input(Some(cmd), link), terminal, terminalTo);
             ResponsesTo(cmd.reqId, down) ==
                 MsgsOf(SentFor(cmd.reqId, TerminalRun(inputs, Settle(h, terminal), terminalTo).0))
    ensures
      var r := cmd.reqId;
      var (up, leaf1) := LeafHandle(cmd, leaf, leafTo);
      var h := Handle(Input(Some(cmd), link), terminal, terminalTo);
      var (sends, terminal2) := TerminalRun(inputs, Settle(h, terminal), terminalTo);
      var (delivered, leaf2) := LeafRun(down, leaf1, leafTo);
      && up == [Send(cmd, cmd.route, Some(leafTo(cmd.route)))]
      && h.sends == [Send(cmd, cmd.route, Some(server))]
      && (forall s :: s in SentFor(r, sends) ==> s.to == Some(linkClient))
      && (forall s :: s in SentFor(r, delivered) ==> s.to == Some(client))
      && MsgsOf(SentFor(r, delivered)) == Emitted(r, calls)
      && AnswersCalls(r, calls, MsgsOf(SentFor(r, delivered)))
      && r !in terminal2 && r !in leaf2
  {
    var r := cmd.reqId;
    var leaf1 := LeafHandle(cmd, leaf, leafTo).1;
    var terminal1 := Settle(Handle(Input(Some(cmd), link), terminal, terminalTo), terminal);
    assert terminal1[r] == RouteInfo(cmd.source, cmd.route) && leaf1[r] == RouteInfo(cmd.source, cmd.route);
    hide Handle, Settle, LeafHandle, LeafRun, TerminalRun, Emitted, SentFor, UpToFinal, ResponsesTo, MsgsOf;
    hide AnswersCalls;
    EmittedAnswers(r, calls);
    TerminalCarries(inputs, terminal1, terminalTo, r);
    EmittedIsComplete(r, calls);
    CompleteGoesThrough(r, Emitted(r, calls), cmd.source, Some(linkClient));
    LeafCarries(down, leaf1, leafTo, r);
    CompleteGoesThrough(r, Emitted(r, calls), cmd.source, Some(client));
  }
}
