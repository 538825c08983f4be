/** The RPC router: a switch with one consumer that forwards commands by route and responses by
    request id. Messages are modelled decoded; forwarding bytes is forwarding the message. */
module WshRouters {
  import opened Basics

  type RouteId = string
  type ReqId = string
  type Client = nat

  const SYS_ROUTE: RouteId := "sys"
  const DEFAULT_ROUTE: RouteId := "wavesrv"
  const CMD_ANNOUNCE := "routeannounce"
  const CMD_UNANNOUNCE := "routeunannounce"
  const CMD_MESSAGE := "message"

  /** RpcMessage, with the fields a router never looks at as one payload. */
  datatype Msg = Msg(command: string, reqId: ReqId, resId: ReqId, route: RouteId, source: RouteId, cont: bool,
                     error: string, payload: string)

  /** msgAndRoute; None is a message that does not decode. */
  datatype Input = Input(msg: Option<Msg>, from: RouteId)

  datatype RouteInfo = RouteInfo(source: RouteId, dest: RouteId)

  /** A call of sendRoutedMessage and the client that took the message, if any. */
  datatype Send = Send(msg: Msg, route: RouteId, to: Option<Client>)

  function NoRouteErr(route: RouteId): string {
    if route == "" then "no default route" else "no route for \"" + route + "\""
  }

  function Notice(msg: Msg): Msg {
    Msg(CMD_MESSAGE, "", "", msg.source, "", false, "", NoRouteErr(msg.route))
  }

  function ErrorResponse(msg: Msg): Msg {
    Msg("", "", msg.reqId, "", "", false, NoRouteErr(msg.route), "")
  }

  predicate HoldsAt(text: string, i: nat, route: RouteId) {
    i + |route| <= |text| && text[i..i + |route|] == route
  }

  /** The text holds the name of the route. */
  ghost predicate Names(text: string, route: RouteId) {
    exists i :: HoldsAt(text, i, route)
  }

  /** A final response to the command that carries an error about its route, and nothing else. */
  ghost predicate TellsNoRoute(m: Msg, msg: Msg) {
    && m.command == "" && m.reqId == "" && m.resId == msg.reqId && !m.cont
    && m.error != "" && Names(m.error, msg.route)
    && m.route == "" && m.source == "" && m.payload == ""
  }

  /** A message to the source of the command about its route, without ids and so without an answer. */
  ghost predicate NotifiesNoRoute(m: Msg, msg: Msg) {
    && m.command == CMD_MESSAGE && m.route == msg.source && m.reqId == "" && m.resId == "" && !m.cont
    && m.payload != "" && Names(m.payload, msg.route)
    && m.source == "" && m.error == ""
  }

  lemma NoRouteTexts(msg: Msg)
    ensures TellsNoRoute(ErrorResponse(msg), msg) && NotifiesNoRoute(Notice(msg), msg)
  {
    var text, n := NoRouteErr(msg.route), |"no route for \""|;
    if msg.route == "" {
      assert HoldsAt(text, 0, msg.route);
    } else {
      assert HoldsAt(text, n, msg.route);
    }
  }

  predicate IsControl(msg: Msg) {
    msg.command == CMD_ANNOUNCE || msg.command == CMD_UNANNOUNCE
  }

  predicate IsCommand(msg: Msg) {
    msg.command != "" && !IsControl(msg)
  }

  predicate IsResponse(msg: Msg) {
    msg.command == "" && msg.reqId == "" && msg.resId != ""
  }

  // ----- one message -----

  /** What handling one message does: the sends, the notices put back into the input, and then the
      change of the request table, which comes after the sends. */
  datatype Handling = Handling(sends: seq<Send>, notices: seq<Input>, register: Option<(ReqId, RouteInfo)>,
                               forget: Option<ReqId>)

  const NOTHING := Handling([], [], None, None)

  /** `to` tells which client a route leads to at the moment of the send. */
  function Handle(input: Input, rpcMap: map<ReqId, RouteInfo>, to: RouteId -> Option<Client>): Handling {
    if input.msg.None? then NOTHING
    else
      var msg := input.msg.value;
      if IsControl(msg) then NOTHING
      else if msg.command != "" then
        var sent := Send(msg, msg.route, to(msg.route));
        if sent.to.Some? then
          Handling([sent], [], if msg.reqId == "" then None else Some((msg.reqId, RouteInfo(msg.source, msg.route))),
                   None)
        else if msg.reqId != "" then
          Handling([sent, Send(ErrorResponse(msg), msg.source, to(msg.source))], [], None, None)
        else
          Handling([sent], if msg.command == CMD_MESSAGE then [] else [Input(Some(Notice(msg)), SYS_ROUTE)], None, None)
      else if msg.reqId != "" then
        if msg.reqId !in rpcMap then NOTHING
        else
          var dest := rpcMap[msg.reqId].dest;
          Handling([Send(msg, dest, to(dest))], [], None, None)
      else if msg.resId != "" && msg.resId in rpcMap then
        var source := rpcMap[msg.resId].source;
        Handling([Send(msg, source, to(source))], [], None, if msg.cont then None else Some(msg.resId))
      else NOTHING
  }

  /** The request table after the message is done with. */
  function Settle(h: Handling, rpcMap: map<ReqId, RouteInfo>): map<ReqId, RouteInfo> {
    if h.register.Some? then rpcMap[h.register.value.0 := h.register.value.1]
    else if h.forget.Some? then rpcMap - {h.forget.value}
    else rpcMap
  }

  // ----- routes -----

  datatype Tables = Tables(routeMap: map<RouteId, Client>, upstream: Option<Client>, announced: map<RouteId, RouteId>)

  /** Where sendRoutedMessage delivers: a local route, else upstream, else the local route that the
      route was announced through. */
  function Resolve(t: Tables, route: RouteId): Option<Client> {
    if route in t.routeMap then Some(t.routeMap[route])
    else if t.upstream.Some? then t.upstream
    else
      var via := if route in t.announced then t.announced[route] else "";
      if via in t.routeMap then Some(t.routeMap[via]) else None
  }

  /** What the sends of one message hand to clients, in order. */
  function Taken(sends: seq<Send>): seq<(Client, Msg)>
    decreases |sends|
  {
    if sends == [] then []
    else (if sends[0].to.Some? then [(sends[0].to.value, sends[0].msg)] else []) + Taken(sends[1..])
  }

  /** How many more inputs an input can put into the queue, counting itself. */
  function Weight(input: Input): nat {
    if input.msg.Some? && IsCommand(input.msg.value) && input.msg.value.command != CMD_MESSAGE then 2 else 1
  }

  function QueueWeight(queue: seq<Input>): nat
    decreases |queue|
  {
    if queue == [] then 0 else Weight(queue[0]) + QueueWeight(queue[1..])
  }

  lemma {:induction false} QueueWeightAppend(a: seq<Input>, b: seq<Input>)
    ensures QueueWeight(a + b) == QueueWeight(a) + QueueWeight(b)
    decreases |a|
  {
    if a == [] {
      assert a + b == b;
    } else {
      assert (a + b)[1..] == a[1..] + b;
      QueueWeightAppend(a[1..], b);
    }
  }

  /** A notice weighs less than the message that caused it, so notices cannot breed. */
  lemma NoticesWeighLess(input: Input, rpcMap: map<ReqId, RouteInfo>, to: RouteId -> Option<Client>)
    ensures QueueWeight(Handle(input, rpcMap, to).notices) < Weight(input)
  {
    var notices := Handle(input, rpcMap, to).notices;
    if notices != [] {
      assert notices[1..] == [];
      assert Weight(notices[0]) == 1;
    }
  }

  // ----- the whole router -----

  datatype RouterState = RouterState(tables: Tables, rpcMap: map<ReqId, RouteInfo>, queue: seq<Input>,
                                     sent: seq<(Client, Msg)>)

  /** Announcements change the routes of a terminal router, and only they. */
  function TablesAfter(t: Tables, input: Input): Tables {
    if input.msg.None? then t
    else
      var msg := input.msg.value;
      if msg.command == CMD_ANNOUNCE && t.upstream == None && msg.source != input.from then
        t.(announced := t.announced[msg.source := input.from])
      else if msg.command == CMD_UNANNOUNCE then t.(announced := t.announced - {msg.source})
      else t
  }

  /** What goes to clients for a message: with an upstream, announcements go there. */
  function Outgoing(t: Tables, input: Input, h: Handling): seq<(Client, Msg)> {
    if input.msg.Some? && input.msg.value.command == CMD_ANNOUNCE && t.upstream.Some? then
      [(t.upstream.value, input.msg.value)]
    else Taken(h.sends)
  }

  /** The router after a message that it has taken from the channel. */
  function After(s: RouterState, input: Input): RouterState {
    var h := Handle(input, s.rpcMap, r => Resolve(s.tables, r));
    RouterState(TablesAfter(s.tables, input), Settle(h, s.rpcMap), s.queue + h.notices,
        s.sent + Outgoing(s.tables, input, h))
  }

  lemma AfterCommand(s: RouterState, input: Input, msg: Msg)
    requires input.msg == Some(msg) && IsCommand(msg)
    ensures
      var to, back := Resolve(s.tables, msg.route), Resolve(s.tables, msg.source);
      After(s, input) ==
      if to.Some? then
        s.(rpcMap := if msg.reqId == "" then s.rpcMap else s.rpcMap[msg.reqId := RouteInfo(msg.source, msg.route)],
           sent := s.sent + Taken([Send(msg, msg.route, to)]))
      else if msg.reqId != "" then
        s.(sent := s.sent + Taken([Send(msg, msg.route, None), Send(ErrorResponse(msg), msg.source, back)]))
      else
        s.(queue := s.queue + (if msg.command == CMD_MESSAGE then [] else [Input(Some(Notice(msg)), SYS_ROUTE)]),
           sent := s.sent + Taken([Send(msg, msg.route, None)]))
  {
    hide Taken, Resolve, Notice, ErrorResponse;
  }

  lemma AfterWeighsLess(s: RouterState)
    requires s.queue != []
    ensures QueueWeight(After(s.(queue := s.queue[1..]), s.queue[0]).queue) < QueueWeight(s.queue)
  {
    var h := Handle(s.queue[0], s.rpcMap, r => Resolve(s.tables, r));
    NoticesWeighLess(s.queue[0], s.rpcMap, r => Resolve(s.tables, r));
    QueueWeightAppend(s.queue[1..], h.notices);
  }

  /** The router once its channel is empty, if nobody sends any more. */
  function Drained(s: RouterState): RouterState
    decreases QueueWeight(s.queue)
  {
    if s.queue == [] then s
    else
      AfterWeighsLess(s);
      Drained(After(s.(queue := s.queue[1..]), s.queue[0]))
  }

  class WshRouter {
    var routeMap: map<RouteId, Client>
    var upstreamClient: Option<Client>
    var announcedRoutes: map<RouteId, RouteId>
    var rpcMap: map<ReqId, RouteInfo>
    var inputCh: seq<Input>
    var sent: seq<(Client, Msg)>   // the calls of SendRpcMessage

    /** No route is announced through itself. */
    ghost predicate Valid()
      reads this
    {
      forall r :: r in announcedRoutes ==> announcedRoutes[r] != r
    }

    function TablesNow(): Tables
      reads this
    {
      Tables(routeMap, upstreamClient, announcedRoutes)
    }

    function StateNow(): RouterState
      reads this
    {
      RouterState(TablesNow(), rpcMap, inputCh, sent)
    }

    constructor ()
      ensures Valid() && routeMap == map[] && upstreamClient == None && announcedRoutes == map[]
      ensures rpcMap == map[] && inputCh == [] && sent == []
    {
      routeMap, upstreamClient, announcedRoutes, rpcMap, inputCh, sent := map[], None, map[], map[], [], [];
    }

    method SendRpcMessage(client: Client, msg: Msg)
      modifies this`sent
      ensures sent == old(sent) + [(client, msg)]
    {
      sent := sent + [(client, msg)];
    }

    /** sendRoutedMessage */
    method SendRoutedMessage(msg: Msg, routeId: RouteId) returns (ok: bool)
      modifies this`sent
      ensures ok == Resolve(TablesNow(), routeId).Some?
      ensures sent == old(sent) + Taken([Send(msg, routeId, Resolve(TablesNow(), routeId))])
    {
      if routeId in routeMap {
        SendRpcMessage(routeMap[routeId], msg);
        return true;
      }
      if upstreamClient.Some? {
        SendRpcMessage(upstreamClient.value, msg);
        return true;
      }
      var localRouteId := if routeId in announcedRoutes then announcedRoutes[routeId] else "";
      if localRouteId !in routeMap {
        return false;
      }
      SendRpcMessage(routeMap[localRouteId], msg);
      return true;
    }

    /** handleNoRoute */
    method HandleNoRoute(msg: Msg)
      modifies this`sent, this`inputCh
      ensures inputCh == old(inputCh) +
                         if msg.reqId != "" || msg.command == CMD_MESSAGE then []
                         else [Input(Some(Notice(msg)), SYS_ROUTE)]
      ensures sent == old(sent) +
                      if msg.reqId == "" then []
                      else Taken([Send(ErrorResponse(msg), msg.source, Resolve(TablesNow(), msg.source))])
      ensures
        var back := Resolve(TablesNow(), msg.source);
        if msg.reqId != "" && back.Some? then
          |sent| == |old(sent)| + 1 && sent[|old(sent)|].0 == back.value && TellsNoRoute(sent[|old(sent)|].1, msg)
        else sent == old(sent)
      ensures
        if msg.reqId == "" && msg.command != CMD_MESSAGE then
          && |inputCh| == |old(inputCh)| + 1 && inputCh[|old(inputCh)|].from == SYS_ROUTE
          && inputCh[|old(inputCh)|].msg.Some? && NotifiesNoRoute(inputCh[|old(inputCh)|].msg.value, msg)
        else inputCh == old(inputCh)
    {
      NoRouteTexts(msg);
      TakenOne(Send(ErrorResponse(msg), msg.source, Resolve(TablesNow(), msg.source)));
      hide NoRouteErr, TellsNoRoute, NotifiesNoRoute, Resolve, Taken;
      if msg.reqId == "" {
        if msg.command == CMD_MESSAGE {
          return;
        }
        inputCh := inputCh + [Input(Some(Notice(msg)), SYS_ROUTE)];
        return;
      }
      var _ := SendRoutedMessage(ErrorResponse(msg), msg.source);
    }

    /** registerRouteInfo */
    method RegisterRouteInfo(rpcId: ReqId, source: RouteId, dest: RouteId)
      modifies this`rpcMap
      ensures rpcMap == if rpcId == "" then old(rpcMap) else old(rpcMap)[rpcId := RouteInfo(source, dest)]
    {
      if rpcId == "" {
        return;
      }
      rpcMap := rpcMap[rpcId := RouteInfo(source, dest)];
    }

    /** handleAnnounceMessage: pass the announcement on, or remember which local route it came through. */
    method HandleAnnounce(msg: Msg, input: Input)
      requires Valid()
      modifies this`sent, this`announcedRoutes
      ensures Valid()
      ensures sent == old(sent) + if upstreamClient.Some? then [(upstreamClient.value, msg)] else []
      ensures announcedRoutes == if upstreamClient.Some? || msg.source == input.from then old(announcedRoutes)
                                 else old(announcedRoutes)[msg.source := input.from]
    {
      if upstreamClient.Some? {
        SendRpcMessage(upstreamClient.value, msg);
        return;
      }
      if msg.source == input.from {
        return;
      }
      announcedRoutes := announcedRoutes[msg.source := input.from];
    }

    /** The part of runServer for a new command. */
    method HandleCommand(msg: Msg, input: Input)
      requires input.msg == Some(msg) && IsCommand(msg)
      modifies this`sent, this`rpcMap, this`inputCh
      ensures StateNow() == After(old(StateNow()), input)
    {
      hide Taken, Resolve, Notice, ErrorResponse, TellsNoRoute, NotifiesNoRoute, After;
      AfterCommand(StateNow(), input, msg);
      NoneTaken();
      var ok := SendRoutedMessage(msg, msg.route);
      if !ok {
        HandleNoRoute(msg);
        TakenTwo(Send(msg, msg.route, None), Send(ErrorResponse(msg), msg.source, Resolve(TablesNow(), msg.source)));
        return;
      }
      RegisterRouteInfo(msg.reqId, msg.source, msg.route);
    }

    /** One round of runServer on a message that it has taken from the channel. */
    method HandleInput(input: Input)
      requires Valid()
      modifies this`sent, this`announcedRoutes, this`rpcMap, this`inputCh
      ensures Valid() && StateNow() == After(old(StateNow()), input)
    {
      hide Taken, Resolve, Notice, ErrorResponse;
      NoneTaken();
      if input.msg.None? {
        return;
      }
      var msg := input.msg.value;
      if msg.command == CMD_ANNOUNCE {
        HandleAnnounce(msg, input);
        return;
      }
      if msg.command == CMD_UNANNOUNCE {
        announcedRoutes := announcedRoutes - {msg.source};
        return;
      }
      if msg.command != "" {
        HandleCommand(msg, input);
        return;
      }
      if msg.reqId != "" {
        if msg.reqId !in rpcMap {
          return;
        }
        var _ := SendRoutedMessage(msg, rpcMap[msg.reqId].dest);
      } else if msg.resId != "" {
        if msg.resId !in rpcMap {
          return;
        }
        var _ := SendRoutedMessage(msg, rpcMap[msg.resId].source);
        if !msg.cont {
          rpcMap := rpcMap - {msg.resId};
        }
      }
    }

    /** runServer until the channel is empty. With nobody else sending, it comes to an end: each
        message puts at most one notice into the channel and a notice none. */
    method RunServer() returns (handled: nat)
      requires Valid()
      modifies this`sent, this`announcedRoutes, this`rpcMap, this`inputCh
      ensures Valid() && inputCh == [] && StateNow() == Drained(old(StateNow()))
      ensures handled <= QueueWeight(old(inputCh)) <= 2 * |old(inputCh)|
    {
      hide After;
      handled := 0;
      QueueWeightBound(inputCh);
      while inputCh != []
        invariant Valid() && Drained(StateNow()) == Drained(old(StateNow()))
        invariant handled + QueueWeight(inputCh) <= QueueWeight(old(inputCh))
        decreases QueueWeight(inputCh)
      {
        AfterWeighsLess(StateNow());
        var input := inputCh[0];
        inputCh := inputCh[1..];
        HandleInput(input);
        handled := handled + 1;
      }
    }

    /** RegisterRoute, up to its goroutine */
    method RegisterRoute(routeId: RouteId, rpc: Client)
      modifies this`routeMap
      ensures routeMap == if routeId == SYS_ROUTE then old(routeMap) else old(routeMap)[routeId := rpc]
    {
      if routeId == SYS_ROUTE {
        return;
      }
      routeMap := routeMap[routeId := rpc];
    }

    /** The head of the goroutine of RegisterRoute: a router that is not the terminal one announces its
        new route. */
    method AnnounceRoute(routeId: RouteId)
      modifies this`sent
      ensures upstreamClient == None ==> sent == old(sent)
      ensures upstreamClient.Some? ==>
                sent == old(sent) + [(upstreamClient.value, Msg(CMD_ANNOUNCE, "", "", "", routeId, false, "", ""))]
    {
      if upstreamClient.Some? {
        SendRpcMessage(upstreamClient.value, Msg(CMD_ANNOUNCE, "", "", "", routeId, false, "", ""));
      }
    }

    /** One message that the goroutine of RegisterRoute reads from its client. */
    method RecvFromClient(routeId: RouteId, msg: Option<Msg>)
      modifies this`inputCh
      ensures inputCh == old(inputCh) + if msg.None? then [] else [Input(Some(Stamped(msg.value, routeId)), routeId)]
      ensures msg.Some? ==>
                && |inputCh| == |old(inputCh)| + 1
                && var x := inputCh[|old(inputCh)|];
                   && x.from == routeId && x.msg.Some? && x.msg.value == msg.value.(source := x.msg.value.source,
                                                                                    route := x.msg.value.route)
                   && (msg.value.command == "" || msg.value.source != "" ==> x.msg.value.source == msg.value.source)
                   && (msg.value.command == "" || msg.value.route != "" ==> x.msg.value.route == msg.value.route)
                   && (msg.value.command != "" && msg.value.source == "" ==> x.msg.value.source == routeId)
                   && (msg.value.command != "" && msg.value.route == "" ==> x.msg.value.route == DEFAULT_ROUTE)
    {
      if msg.None? {
        return;
      }
      inputCh := inputCh + [Input(Some(Stamped(msg.value, routeId)), routeId)];
    }

    /** UnregisterRoute. The loop variable that walks over the announced routes shadows the
        parameter, so what goes are the routes announced through themselves. There are none: nothing
        is cleared. */
    method UnregisterRoute(routeId: RouteId)
      modifies this`routeMap, this`announcedRoutes
      ensures routeMap == old(routeMap) - {routeId}
      ensures forall r :: r in announcedRoutes <==> r in old(announcedRoutes) && old(announcedRoutes)[r] != r
      ensures old(Valid()) ==> Valid() && announcedRoutes == old(announcedRoutes)
    {
      routeMap := routeMap - {routeId};
      ghost var gone := routeId;
      var left := announcedRoutes.Keys;
      while left != {}
        invariant left <= announcedRoutes.Keys <= old(announcedRoutes).Keys
        invariant routeMap == old(routeMap) - {gone}
        invariant forall r :: r in announcedRoutes <==>
                      r in old(announcedRoutes) && (r in left || old(announcedRoutes)[r] != r)
        invariant forall r :: r in announcedRoutes ==> announcedRoutes[r] == old(announcedRoutes)[r]
        decreases |left|
      {
        var routeId :| routeId in left;
        left := left - {routeId};
        var localRouteId := announcedRoutes[routeId];
        if localRouteId == routeId {
          announcedRoutes := announcedRoutes - {routeId};
        }
      }
      if old(Valid()) {
        assert announcedRoutes.Keys == old(announcedRoutes).Keys;
      }
    }
  }

  lemma NoneTaken()
    ensures Taken([]) == [] && forall msg, route :: Taken([Send(msg, route, None)]) == []
  {
    forall msg, route
      ensures Taken([Send(msg, route, None)]) == []
    {
      assert [Send(msg, route, None)][1..] == [];
    }
  }

  lemma TakenOne(s: Send)
    ensures Taken([s]) == if s.to.Some? then [(s.to.value, s.msg)] else []
  {
    assert [s][1..] == [];
  }

  lemma TakenTwo(a: Send, b: Send)
    ensures Taken([a, b]) == Taken([a]) + Taken([b])
  {
    assert [a, b][1..] == [b];
    assert [a][1..] == [] && [b][1..] == [];
  }

  lemma {:induction false} QueueWeightBound(queue: seq<Input>)
    ensures |queue| <= QueueWeight(queue) <= 2 * |queue|
    decreases |queue|
  {
    if queue != [] {
      QueueWeightBound(queue[1..]);
    }
  }

  /** What a client's forwarder fills in before a message enters the channel. */
  function Stamped(msg: Msg, routeId: RouteId): Msg {
    if msg.command == "" then msg
    else msg.(source := if msg.source == "" then routeId else msg.source,
              route := if msg.route == "" then DEFAULT_ROUTE else msg.route)
  }

  /** A client's command that names no source is answered to that client: with an error if nobody
      takes the command, and else with whatever response comes for it. */
  lemma AnswersComeBack(t: Tables, rpcMap: map<ReqId, RouteInfo>, routeId: RouteId, msg: Msg, resp: Msg, from: RouteId)
    requires routeId in t.routeMap && routeId != "" && IsCommand(msg) && msg.reqId != "" && msg.source == ""
    requires IsResponse(resp) && resp.resId == msg.reqId
    ensures
      var m, to := Stamped(msg, routeId), (r: RouteId) => Resolve(t, r);
      var h := Handle(Input(Some(m), routeId), rpcMap, to);
      var back := Some(t.routeMap[routeId]);
      && m == msg.(source := routeId, route := m.route)
      && m.route != "" && (msg.route != "" ==> m.route == msg.route)
      && |h.sends| > 0 && h.sends[0] == Send(m, m.route, Resolve(t, m.route))
      && if Resolve(t, m.route).None? then
           && |h.sends| == 2 && h.sends[1].route == routeId && h.sends[1].to == back
           && TellsNoRoute(h.sends[1].msg, m)
         else Handle(Input(Some(resp), from), Settle(h, rpcMap), to).sends == [Send(resp, routeId, back)]
  {
    NoRouteTexts(Stamped(msg, routeId));
    hide TellsNoRoute, NotifiesNoRoute, ErrorResponse, Notice;
  }

  /** A command without an id leaves no trace in the request table. If nobody takes it, its client hears
      so by a message that needs no answer, and that message breeds no other. */
  lemma NoticeComesBack(t: Tables, rpcMap: map<ReqId, RouteInfo>, routeId: RouteId, msg: Msg)
    requires routeId in t.routeMap && IsCommand(msg) && msg.reqId == "" && msg.source == routeId
    requires msg.command != CMD_MESSAGE
    ensures
      var to := (r: RouteId) => Resolve(t, r);
      var h := Handle(Input(Some(msg), routeId), rpcMap, to);
      && h.sends == [Send(msg, msg.route, Resolve(t, msg.route))] && Settle(h, rpcMap) == rpcMap
      && if Resolve(t, msg.route).Some? then h.notices == []
         else
           && |h.notices| == 1 && h.notices[0].msg.Some? && NotifiesNoRoute(h.notices[0].msg.value, msg)
           && var next := Handle(h.notices[0], rpcMap, to);
              && next.sends == [Send(h.notices[0].msg.value, routeId, Some(t.routeMap[routeId]))]
              && next.notices == [] && Settle(next, rpcMap) == rpcMap
  {
    NoRouteTexts(msg);
  }

  /** With an upstream nothing is ever without a route: what is not for a local client goes up, whatever
      has been announced, and no error or notice is made. */
  lemma UpstreamTakesTheRest(t: Tables, input: Input, rpcMap: map<ReqId, RouteInfo>)
    requires t.upstream.Some?
    ensures
      var h := Handle(input, rpcMap, r => Resolve(t, r));
      && h.notices == [] && |h.sends| <= 1
      && forall s :: s in h.sends ==>
           input.msg == Some(s.msg) &&
           s.to == if s.route in t.routeMap then Some(t.routeMap[s.route]) else t.upstream
  {
  }

  /** Once a route has been announced through a local one, a terminal router reaches it there, and
      after the unannouncement no longer. */
  lemma AnnouncedIsReachable(t: Tables, route: RouteId, via: RouteId)
    requires t.upstream == None && via in t.routeMap && route !in t.routeMap && "" !in t.routeMap
    ensures Resolve(t.(announced := t.announced[route := via]), route) == Some(t.routeMap[via])
    ensures Resolve(t.(announced := t.announced[route := via] - {route}), route) == None
  {
  }

  /** After UnregisterRoute a route announced through the gone one still leads there as soon as
      somebody registers under that name again. */
  lemma StaleAnnouncement(t: Tables, route: RouteId, via: RouteId, newcomer: Client)
    requires route in t.announced && t.announced[route] == via && via != route
    requires t.upstream == None && route !in t.routeMap
    ensures Resolve(t.(routeMap := t.routeMap - {via}), route) == None
    ensures Resolve(t.(routeMap := (t.routeMap - {via})[via := newcomer]), route) == Some(newcomer)
  {
  }
}
