/** The router among its clients, as a state machine: the server loop's send and its change of the
    request table are separate steps, and clients may do anything in between. */
module RouterProtocol {
  import opened Basics
  import opened WshRouters

  /** A message that the loop has taken from the channel, and what it sent for it. */
  datatype Handled = Handled(input: Input, sends: seq<Send>, notices: seq<Input>)

  /** `pending` is set between the sends for a message and the change of the table. */
  datatype State = State(queue: seq<Input>, pending: Option<Handling>, rpcMap: map<ReqId, RouteInfo>,
                         log: seq<Handled>, issued: set<ReqId>)

  datatype Action =
    | Enqueue(input: Input)                  // a client's forwarder
    | Dequeue(to: RouteId -> Option<Client>) // `to`: where routes lead at this moment
    | Finish

  const Init := State([], None, map[], [], {})

  predicate IsCommandWithId(input: Input) {
    input.msg.Some? && IsCommand(input.msg.value) && input.msg.value.reqId != ""
  }

  predicate IsResponseTo(input: Input, r: ReqId) {
    input.msg.Some? && IsResponse(input.msg.value) && input.msg.value.resId == r
  }

  // ----- what the log says -----

  /** The requests whose command a client has taken, with the routes it named. */
  function Forwarded(log: seq<Handled>): map<ReqId, RouteInfo>
    decreases |log|
  {
    if log == [] then map[]
    else
      var before, x := Forwarded(log[..|log| - 1]), log[|log| - 1];
      if IsCommandWithId(x.input) && x.sends != [] && x.sends[0].to.Some? then
        before[x.input.msg.value.reqId := RouteInfo(x.input.msg.value.source, x.input.msg.value.route)]
      else before
  }

  /** The requests whose final response has been passed on. */
  function Finished(log: seq<Handled>): set<ReqId>
    decreases |log|
  {
    if log == [] then {}
    else
      var before, x := Finished(log[..|log| - 1]), log[|log| - 1];
      if x.input.msg.Some? && IsResponse(x.input.msg.value) && !x.input.msg.value.cont && x.sends != [] then
        before + {x.input.msg.value.resId}
      else before
  }

  /** The requests whose command has been taken from the channel. */
  function Seen(log: seq<Handled>): set<ReqId>
    decreases |log|
  {
    if log == [] then {}
    else
      var before, x := Seen(log[..|log| - 1]), log[|log| - 1];
      if IsCommandWithId(x.input) then before + {x.input.msg.value.reqId} else before
  }

  /** The requests that are still open. */
  function Live(log: seq<Handled>): map<ReqId, RouteInfo> {
    Forwarded(log) - Finished(log)
  }

  // ----- steps -----

  /** Clients use every request id for one command, and answer only commands that one of them has taken. */
  ghost predicate MayEnqueue(s: State, input: Input) {
    && (IsCommandWithId(input) ==> input.msg.value.reqId !in s.issued)
    && (input.msg.Some? && IsResponse(input.msg.value) ==> input.msg.value.resId in Forwarded(s.log))
  }

  ghost predicate Next(s: State, a: Action, s': State) {
    match a
    case Enqueue(input) =>
      && MayEnqueue(s, input)
      && s' == s.(queue := s.queue + [input],
                  issued := if IsCommandWithId(input) then s.issued + {input.msg.value.reqId} else s.issued)
    case Dequeue(to) =>
      && s.pending == None && s.queue != []
      && var h := Handle(s.queue[0], s.rpcMap, to);
         s' == s.(queue := s.queue[1..] + h.notices, pending := Some(h),
                  log := s.log + [Handled(s.queue[0], h.sends, h.notices)])
    case Finish =>
      && s.pending.Some?
      && s' == s.(pending := None, rpcMap := Settle(s.pending.value, s.rpcMap))
  }

  ghost predicate IsRun(states: seq<State>, actions: seq<Action>) {
    && |states| == |actions| + 1
    && states[0] == Init
    && forall i :: 0 <= i < |actions| ==> Next(states[i], actions[i], states[i + 1])
  }

  // ----- the invariant -----

  /** A handled command was offered to its route unchanged. If a client took it, that is all; if none
      did, its source is told so: by a final error response if it has an id, and else by a message,
      unless it is such a message itself. */
  ghost predicate CommandAnswered(x: Handled) {
    x.input.msg.Some? && IsCommand(x.input.msg.value) ==>
      var msg := x.input.msg.value;
      && x.sends != []
      && x.sends[0].msg == msg && x.sends[0].route == msg.route
      && if x.sends[0].to.Some? then |x.sends| == 1 && x.notices == []
         else if msg.reqId != "" then
           |x.sends| == 2 && x.notices == [] && x.sends[1].route == msg.source && TellsNoRoute(x.sends[1].msg, msg)
         else
           && |x.sends| == 1 && |x.notices| == (if msg.command == CMD_MESSAGE then 0 else 1)
           && forall n :: n in x.notices ==> n.msg.Some? && NotifiesNoRoute(n.msg.value, msg)
  }

  /** A response is passed on unchanged to the source of its command, and never after the final one. */
  ghost predicate ResponseSent(before: seq<Handled>, x: Handled) {
    x.input.msg.Some? && IsResponse(x.input.msg.value) && x.sends != [] ==>
      var msg := x.input.msg.value;
      && msg.resId in Forwarded(before) && msg.resId !in Finished(before)
      && |x.sends| == 1 && x.sends[0].msg == msg && x.sends[0].route == Forwarded(before)[msg.resId].source
  }

  /** A response is dropped only after the final one. */
  ghost predicate ResponseDropped(before: seq<Handled>, x: Handled) {
    x.input.msg.Some? && IsResponse(x.input.msg.value) && x.sends == [] ==> x.input.msg.value.resId in Finished(before)
  }

  /** Further messages of a request go unchanged to the route that its command named, as long as the
      request is open. */
  ghost predicate FollowUpSent(before: seq<Handled>, x: Handled) {
    x.input.msg.Some? && x.input.msg.value.command == "" && x.input.msg.value.reqId != "" ==>
      var msg := x.input.msg.value;
      if msg.reqId in Live(before) then
        |x.sends| == 1 && x.sends[0].msg == msg && x.sends[0].route == Live(before)[msg.reqId].dest
      else x.sends == []
  }

  ghost predicate LogOk(log: seq<Handled>) {
    forall k :: 0 <= k < |log| ==>
                  && CommandAnswered(log[k]) && FollowUpSent(log[..k], log[k])
                  && ResponseSent(log[..k], log[k]) && ResponseDropped(log[..k], log[k])
  }

  /** The request table, once a pending change is made, holds exactly the open requests. */
  ghost predicate TableExact(s: State) {
    Settle(if s.pending.Some? then s.pending.value else NOTHING, s.rpcMap) == Live(s.log)
  }

  ghost predicate IdsUnique(s: State) {
    && Finished(s.log) <= Forwarded(s.log).Keys <= Seen(s.log) <= s.issued
    && (forall i :: 0 <= i < |s.queue| && IsCommandWithId(s.queue[i]) ==>
          s.queue[i].msg.value.reqId in s.issued && s.queue[i].msg.value.reqId !in Seen(s.log))
    && (forall i, j :: 0 <= i < j < |s.queue| && IsCommandWithId(s.queue[i]) && IsCommandWithId(s.queue[j]) ==>
          s.queue[i].msg.value.reqId != s.queue[j].msg.value.reqId)
  }

  ghost predicate ResponsesFollow(s: State) {
    forall i :: 0 <= i < |s.queue| && s.queue[i].msg.Some? && IsResponse(s.queue[i].msg.value) ==>
                  s.queue[i].msg.value.resId in Forwarded(s.log)
  }

  ghost predicate Inv(s: State) {
    TableExact(s) && IdsUnique(s) && ResponsesFollow(s) && LogOk(s.log)
  }

  lemma LogGrows(log: seq<Handled>, x: Handled)
    ensures
      var log' := log + [x];
      && Forwarded(log') == (if IsCommandWithId(x.input) && x.sends != [] && x.sends[0].to.Some?
                             then
                               var msg := x.input.msg.value;
                               Forwarded(log)[msg.reqId := RouteInfo(msg.source, msg.route)]
                             else Forwarded(log))
      && Finished(log') == (if && x.input.msg.Some? && IsResponse(x.input.msg.value) && !x.input.msg.value.cont
                               && x.sends != []
                            then Finished(log) + {x.input.msg.value.resId} else Finished(log))
      && Seen(log') == (if IsCommandWithId(x.input) then Seen(log) + {x.input.msg.value.reqId} else Seen(log))
  {
    assert (log + [x])[..|log|] == log;
  }

  lemma NoticesHaveNoId(input: Input, rpcMap: map<ReqId, RouteInfo>, to: RouteId -> Option<Client>)
    ensures forall n :: n in Handle(input, rpcMap, to).notices ==>
                          !IsCommandWithId(n) && n.msg.Some? && !IsResponse(n.msg.value)
  {
  }

  /** The record of a message handled with the exact table. */
  lemma RecordOk(s: State, to: RouteId -> Option<Client>)
    requires Inv(s) && s.pending == None && s.queue != []
    ensures
      var h := Handle(s.queue[0], s.rpcMap, to);
      var x := Handled(s.queue[0], h.sends, h.notices);
      CommandAnswered(x) && FollowUpSent(s.log, x) && ResponseSent(s.log, x) && ResponseDropped(s.log, x)
  {
    if s.queue[0].msg.Some? {
      NoRouteTexts(s.queue[0].msg.value);
    }
    hide Forwarded, Finished, Seen, TellsNoRoute, NotifiesNoRoute, NoRouteErr;
  }

  lemma TableSettles(s: State, to: RouteId -> Option<Client>)
    requires Inv(s) && s.pending == None && s.queue != []
    ensures
      var h := Handle(s.queue[0], s.rpcMap, to);
      Settle(h, s.rpcMap) == Live(s.log + [Handled(s.queue[0], h.sends, h.notices)])
  {
    hide Forwarded, Finished, Seen;
    var h := Handle(s.queue[0], s.rpcMap, to);
    LogGrows(s.log, Handled(s.queue[0], h.sends, h.notices));
  }

  lemma DequeueKeepsIds(s: State, to: RouteId -> Option<Client>, s': State)
    requires Inv(s) && Next(s, Dequeue(to), s')
    ensures IdsUnique(s') && ResponsesFollow(s')
  {
    hide Forwarded, Finished, Seen, Settle, LogOk;
    var h := Handle(s.queue[0], s.rpcMap, to);
    LogGrows(s.log, Handled(s.queue[0], h.sends, h.notices));
    NoticesHaveNoId(s.queue[0], s.rpcMap, to);
    var n := |s.queue| - 1;
    assert forall i :: 0 <= i < n ==> s'.queue[i] == s.queue[i + 1];
    assert forall i :: n <= i < |s'.queue| ==> s'.queue[i] in h.notices;
    assert Finished(s'.log) <= Forwarded(s'.log).Keys by {
      var x := s.queue[0];
      if x.msg.Some? && IsResponse(x.msg.value) {
        assert x.msg.value.resId in Forwarded(s.log);
      }
    }
  }

  lemma DequeueKeepsLog(s: State, to: RouteId -> Option<Client>, s': State)
    requires Inv(s) && Next(s, Dequeue(to), s')
    ensures LogOk(s'.log)
  {
    RecordOk(s, to);
    hide CommandAnswered, FollowUpSent, ResponseSent, ResponseDropped;
    hide Handle, Settle, TableExact, IdsUnique, ResponsesFollow;
    forall k | 0 <= k < |s'.log|
      ensures CommandAnswered(s'.log[k]) && FollowUpSent(s'.log[..k], s'.log[k])
      ensures ResponseSent(s'.log[..k], s'.log[k]) && ResponseDropped(s'.log[..k], s'.log[k])
    {
      assert s'.log[..k] == s.log[..k];
      assert s.log[..|s.log|] == s.log;
    }
  }

  /** Every step keeps the invariant, however client and server steps interleave. */
  lemma NextKeepsInv(s: State, a: Action, s': State)
    requires Inv(s) && Next(s, a, s')
    ensures Inv(s')
  {
    match a
    case Enqueue(input) =>
      hide Forwarded, Finished, Seen, Settle, LogOk;
    case Dequeue(to) =>
      DequeueKeepsIds(s, to, s');
      DequeueKeepsLog(s, to, s');
      TableSettles(s, to);
    case Finish =>
      hide Forwarded, Finished, Seen, LogOk;
      assert Settle(NOTHING, s'.rpcMap) == s'.rpcMap;
  }

  lemma {:induction false} RunInv(states: seq<State>, actions: seq<Action>, i: nat)
    requires IsRun(states, actions) && i <= |actions|
    ensures Inv(states[i])
  {
    if i == 0 {
      assert Live([]) == map[];
    } else {
      RunInv(states, actions, i - 1);
      NextKeepsInv(states[i - 1], actions[i - 1], states[i]);
    }
  }

  // ----- what it means -----

  /** In every run, whenever the loop is about to take a response, its request is either in the table,
      with the routes of its command, or already finished: no response is ever taken before its
      registration, although registration follows the send. */
  lemma ResponseNeverEarly(states: seq<State>, actions: seq<Action>, i: nat, r: ReqId)
    requires IsRun(states, actions) && i <= |actions|
    requires states[i].pending == None && states[i].queue != [] && IsResponseTo(states[i].queue[0], r)
    ensures
      var s := states[i];
      && r in Forwarded(s.log)
      && (r in Finished(s.log) <==> r !in s.rpcMap)
      && (r in s.rpcMap ==> s.rpcMap[r] == Forwarded(s.log)[r])
  {
    RunInv(states, actions, i);
    hide Forwarded, Finished;
  }

  /** In every run, every command that was taken from the channel reached a client, or its source got an
      error response or, for a command without an id, a message; its follow-ups went to the route it
      named; every response that was passed on went, unchanged, to the source that its command named,
      and not after a final one; and one that was not came after a final one. */
  lemma LogAlwaysOk(states: seq<State>, actions: seq<Action>, i: nat)
    requires IsRun(states, actions) && i <= |actions|
    ensures LogOk(states[i].log)
  {
    RunInv(states, actions, i);
  }

  /** Between messages the table holds exactly the requests that were forwarded and not finished. */
  lemma TableIsOpenRequests(states: seq<State>, actions: seq<Action>, i: nat)
    requires IsRun(states, actions) && i <= |actions| && states[i].pending == None
    ensures states[i].rpcMap == Forwarded(states[i].log) - Finished(states[i].log)
  {
    RunInv(states, actions, i);
  }

  /** With a request id used twice the guarantee is lost: the second command takes over the entry, and
      the answer to the first one goes to the second one's source. */
  lemma ReusedIdMisroutes(a: RouteId, b: RouteId, d: RouteId, c: Client)
    requires a != b
    ensures
      var cmdA := Msg("cmd", "r", "", d, a, false, "", "");
      var cmdB := cmdA.(source := b);
      var resp := Msg("", "", "r", "", "", false, "", "for A");
      var to := (x: RouteId) => Some(c);
      var t1 := Settle(Handle(Input(Some(cmdA), a), map[], to), map[]);
      var t2 := Settle(Handle(Input(Some(cmdB), b), t1, to), t1);
      Handle(Input(Some(resp), d), t2, to).sends == [Send(resp, b, Some(c))]
  {
  }
}
