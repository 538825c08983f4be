/** The publish/subscribe broker: per event, which routes are subscribed to which scopes. */
module Brokers {
  import opened Basics
  import opened Slices
  import opened StarScopes

  type RouteId = string
  type EventName = string
  type Scope = string

  const REMAKE_THRESHOLD := 10 * 1024

  datatype WaveEvent = WaveEvent(event: EventName, scopes: seq<Scope>, persist: int, payload: string)

  datatype SubscriptionRequest = SubscriptionRequest(event: EventName, scopes: seq<Scope>, allScopes: bool)

  type ScopeMap = map<Scope, seq<RouteId>>

  datatype Subscription = Subscription(allSubs: seq<RouteId>, scopeSubs: ScopeMap, starSubs: ScopeMap)

  const NO_SUBS := Subscription([], map[], map[])

  predicate IsEmpty(bs: Subscription) {
    |bs.allSubs| == 0 && |bs.scopeSubs| == 0 && |bs.starSubs| == 0
  }

  // ----- the simple form: the latest request of every route for every event -----

  type Requests = map<(RouteId, EventName), SubscriptionRequest>

  /** Whether a request asks for an event: all scopes, or one that matches one of the event's. */
  ghost predicate Wants(sub: SubscriptionRequest, event: WaveEvent) {
    || sub.allScopes
    || exists i, j :: 0 <= i < |sub.scopes| && 0 <= j < |event.scopes| && Matches(sub.scopes[i], event.scopes[j])
  }

  // ----- how the slices represent it -----

  ghost predicate ListsOk(m: ScopeMap) {
    forall sc :: sc in m ==> NoDups(m[sc]) && m[sc] != []
  }

  predicate Listed(m: ScopeMap, sc: Scope, r: RouteId) {
    sc in m && r in m[sc]
  }

  /** The subscription holds exactly the live requests for the event, each scope in the map it belongs to. */
  ghost predicate Represents(bs: Subscription, e: EventName, live: Requests) {
    && NoDups(bs.allSubs) && ListsOk(bs.scopeSubs) && ListsOk(bs.starSubs)
    && (forall r :: r in bs.allSubs <==> (r, e) in live && live[(r, e)].allScopes)
    && (forall sc, r :: Listed(bs.scopeSubs, sc, r) <==>
                          (r, e) in live && !live[(r, e)].allScopes && sc in live[(r, e)].scopes && !HasStar(sc))
    && (forall sc, r :: Listed(bs.starSubs, sc, r) <==>
                          (r, e) in live && !live[(r, e)].allScopes && sc in live[(r, e)].scopes && HasStar(sc))
  }

  function SubsFor(subMap: map<EventName, Subscription>, e: EventName): Subscription {
    if e in subMap then subMap[e] else NO_SUBS
  }

  ghost predicate Reflects(subMap: map<EventName, Subscription>, live: Requests) {
    forall e :: Represents(SubsFor(subMap, e), e, live)
  }

  // ----- scope maps -----

  /** The map with the route taken out of every list, and empty lists gone. */
  ghost predicate Without(m: ScopeMap, m': ScopeMap, routeId: RouteId) {
    && ListsOk(m')
    && (forall sc, r :: Listed(m', sc, r) <==> Listed(m, sc, r) && r != routeId)
  }

  /** removeStrFromScopeMap */
  method RemoveStrFromScopeMap(scopeMap: ScopeMap, scope: Scope, routeId: RouteId) returns (m: ScopeMap)
    requires ListsOk(scopeMap)
    ensures ListsOk(m)
    ensures forall sc, r :: Listed(m, sc, r) <==> Listed(scopeMap, sc, r) && !(sc == scope && r == routeId)
  {
    var scopeSubs := if scope in scopeMap then scopeMap[scope] else [];
    RemoveElemWorks(scopeSubs, routeId);
    scopeSubs := RemoveElem(scopeSubs, routeId);
    if |scopeSubs| == 0 {
      m := scopeMap - {scope};
    } else {
      m := scopeMap[scope := scopeSubs];
    }
  }

  /** removeStrFromScopeMapAll, and the loops of unsubscribe_nolock */
  method RemoveStrFromScopeMapAll(scopeMap: ScopeMap, routeId: RouteId) returns (m: ScopeMap)
    requires ListsOk(scopeMap)
    ensures Without(scopeMap, m, routeId)
  {
    m := scopeMap;
    var left := scopeMap.Keys;
    while left != {}
      invariant left <= scopeMap.Keys && ListsOk(m)
      invariant forall sc, r :: Listed(m, sc, r) <==> Listed(scopeMap, sc, r) && !(r == routeId && sc !in left)
      decreases |left|
    {
      var scope :| scope in left;
      left := left - {scope};
      m := RemoveStrFromScopeMap(m, scope, routeId);
    }
  }

  /** addStrToScopeMap */
  method AddStrToScopeMap(scopeMap: ScopeMap, scope: Scope, routeId: RouteId) returns (m: ScopeMap)
    requires ListsOk(scopeMap)
    ensures ListsOk(m)
    ensures forall sc, r :: Listed(m, sc, r) <==> Listed(scopeMap, sc, r) || (sc == scope && r == routeId)
  {
    var scopeSubs := if scope in scopeMap then scopeMap[scope] else [];
    AddUniqWorks(scopeSubs, routeId);
    m := scopeMap[scope := AddUniq(scopeSubs, routeId)];
  }

  /** One subscription without a route. */
  method RemoveRoute(bs: Subscription, routeId: RouteId, ghost e: EventName, ghost live: Requests)
    returns (out: Subscription)
    requires Represents(bs, e, live)
    ensures Represents(out, e, live - {(routeId, e)})
  {
    RemoveElemWorks(bs.allSubs, routeId);
    var scopeSubs := RemoveStrFromScopeMapAll(bs.scopeSubs, routeId);
    var starSubs := RemoveStrFromScopeMapAll(bs.starSubs, routeId);
    out := Subscription(RemoveElem(bs.allSubs, routeId), scopeSubs, starSubs);
  }

  lemma EmptyIsNoSubs(bs: Subscription)
    requires IsEmpty(bs)
    ensures bs == NO_SUBS
  {
  }

  /** Requests for other events do not matter. */
  lemma OtherEvents(bs: Subscription, e: EventName, live: Requests, live': Requests)
    requires Represents(bs, e, live)
    requires forall r :: ((r, e) in live <==> (r, e) in live') && ((r, e) in live ==> live[(r, e)] == live'[(r, e)])
    ensures Represents(bs, e, live')
  {
  }

  /** An event that nobody is listed for stays so when requests go. */
  lemma NobodyStays(e: EventName, live: Requests, live': Requests)
    requires Represents(NO_SUBS, e, live)
    requires forall k :: k in live' ==> k in live && live'[k] == live[k]
    ensures Represents(NO_SUBS, e, live')
  {
    forall r
      ensures r in NO_SUBS.allSubs <==> (r, e) in live' && live'[(r, e)].allScopes
    {
      assert r !in NO_SUBS.allSubs;
    }
    forall sc, r
      ensures !Listed(NO_SUBS.scopeSubs, sc, r) && !Listed(NO_SUBS.starSubs, sc, r)
      ensures !((r, e) in live' && !live'[(r, e)].allScopes && sc in live'[(r, e)].scopes)
    {
      assert !Listed(NO_SUBS.scopeSubs, sc, r) && !Listed(NO_SUBS.starSubs, sc, r);
    }
  }

  /** The requests of all routes but one. */
  function Except(live: Requests, routeId: RouteId): Requests {
    map k | k in live && k.0 != routeId :: live[k]
  }

  /** The scopes of a request, added one by one. */
  method AddRequest(bs: Subscription, routeId: RouteId, sub: SubscriptionRequest, ghost live: Requests)
    returns (out: Subscription)
    requires Represents(bs, sub.event, live) && (routeId, sub.event) !in live
    ensures Represents(out, sub.event, live[(routeId, sub.event) := sub])
  {
    if sub.allScopes {
      AddUniqWorks(bs.allSubs, routeId);
      out := bs.(allSubs := AddUniq(bs.allSubs, routeId));
      return;
    }
    var scopeSubs, starSubs := bs.scopeSubs, bs.starSubs;
    for i := 0 to |sub.scopes|
      invariant ListsOk(scopeSubs) && ListsOk(starSubs)
      invariant forall sc, r :: Listed(scopeSubs, sc, r) <==>
                                  Listed(bs.scopeSubs, sc, r) || (r == routeId && sc in sub.scopes[..i] && !HasStar(sc))
      invariant forall sc, r :: Listed(starSubs, sc, r) <==>
                                  Listed(bs.starSubs, sc, r) || (r == routeId && sc in sub.scopes[..i] && HasStar(sc))
    {
      var scope := sub.scopes[i];
      assert sub.scopes[..i + 1] == sub.scopes[..i] + [scope];
      var starMatch := ScopeHasStarMatch(scope);
      if starMatch {
        starSubs := AddStrToScopeMap(starSubs, scope, routeId);
      } else {
        scopeSubs := AddStrToScopeMap(scopeSubs, scope, routeId);
      }
    }
    assert sub.scopes[..|sub.scopes|] == sub.scopes;
    out := Subscription(bs.allSubs, scopeSubs, starSubs);
  }

  // ----- history -----

  /** The persisted events of one name and scope; the scope "" stands for every event of the name. */
  function History(published: seq<WaveEvent>, e: EventName, scope: Scope): seq<WaveEvent>
    decreases |published|
  {
    if published == [] then []
    else
      var x := published[|published| - 1];
      History(published[..|published| - 1], e, scope)
      + if x.event == e && (scope == "" || scope in x.scopes) then [x] else []
  }

  datatype PersistWrap = PersistWrap(arrTotalAdds: nat, events: seq<WaveEvent>)

  type PersistMap = map<(EventName, Scope), PersistWrap>

  function EventsFor(m: PersistMap, e: EventName, scope: Scope): seq<WaveEvent> {
    if (e, scope) in m then m[(e, scope)].events else []
  }

  ghost predicate KeepsHistory(m: PersistMap, published: seq<WaveEvent>) {
    forall e, sc :: EventsFor(m, e, sc) == History(published, e, sc)
  }

  lemma HistoryGrows(published: seq<WaveEvent>, event: WaveEvent)
    ensures forall e, sc :: History(published + [event], e, sc) ==
                              History(published, e, sc) +
                              if event.event == e && (sc == "" || sc in event.scopes) then [event] else []
  {
    assert (published + [event])[..|published|] == published;
  }

  /** The loop of persistEvent over the scopes. */
  method AddToHistories(before: PersistMap, event: WaveEvent, scopes: set<Scope>) returns (m: PersistMap)
    ensures forall e, sc :: EventsFor(m, e, sc) ==
                              EventsFor(before, e, sc) + if e == event.event && sc in scopes then [event] else []
  {
    m := before;
    var left := scopes;
    while left != {}
      invariant left <= scopes
      invariant forall e, sc :: EventsFor(m, e, sc) ==
                                  EventsFor(before, e, sc) +
                                  if e == event.event && sc in scopes && sc !in left then [event] else []
      decreases |left|
    {
      var scope :| scope in left;
      left := left - {scope};
      var key := (event.event, scope);
      var pe := if key in m then m[key] else PersistWrap(0, []);
      pe := PersistWrap(pe.arrTotalAdds + 1, pe.events + [event]);
      if pe.arrTotalAdds > REMAKE_THRESHOLD {
        pe := pe.(arrTotalAdds := |pe.events|);
      }
      m := m[key := pe];
    }
  }

  function LastOf<T>(s: seq<T>, n: int): seq<T> {
    if n <= 0 then [] else if n >= |s| then s else s[|s| - n..]
  }

  // ----- the broker -----

  class Broker {
    var subMap: map<EventName, Subscription>
    var persistMap: PersistMap
    var hasClient: bool
    var sent: seq<(RouteId, WaveEvent)>   // the calls of the client's SendEvent
    ghost var live: Requests
    ghost var published: seq<WaveEvent>   // the events that asked to be persisted

    ghost predicate Valid()
      reads this
    {
      Reflects(subMap, live) && KeepsHistory(persistMap, published)
    }

    constructor (hasClient: bool)
      ensures Valid() && live == map[] && published == [] && sent == []
      ensures this.hasClient == hasClient
    {
      subMap, persistMap, this.hasClient, sent, live, published := map[], map[], hasClient, [], map[], [];
    }

    /** Stores a subscription, or drops the event when nobody is listed any more. */
    method StoreOrDrop(e: EventName, bs: Subscription)
      modifies this`subMap
      ensures SubsFor(subMap, e) == bs
      ensures forall e' :: e' != e ==> SubsFor(subMap, e') == SubsFor(old(subMap), e')
      ensures old(subMap).Keys - {e} <= subMap.Keys
      ensures e in subMap <==> bs.allSubs != [] || bs.scopeSubs != map[] || bs.starSubs != map[]
    {
      if IsEmpty(bs) {
        EmptyIsNoSubs(bs);
        subMap := subMap - {e};
      } else {
        subMap := subMap[e := bs];
      }
    }

    /** unsubscribe_nolock */
    method UnsubscribeNolock(subRouteId: RouteId, eventName: EventName)
      requires Valid()
      modifies this`subMap, this`live
      ensures Valid()
      ensures live == old(live) - {(subRouteId, eventName)}
    {
      hide Represents;
      live := live - {(subRouteId, eventName)};
      if eventName in subMap {
        assert Represents(SubsFor(subMap, eventName), eventName, old(live));
        var bs := RemoveRoute(subMap[eventName], subRouteId, eventName, old(live));
        StoreOrDrop(eventName, bs);
      } else {
        assert Represents(SubsFor(subMap, eventName), eventName, old(live));
        NobodyStays(eventName, old(live), live);
      }
      forall e
        ensures Represents(SubsFor(subMap, e), e, live)
      {
        if e != eventName {
          assert Represents(SubsFor(old(subMap), e), e, old(live));
          OtherEvents(SubsFor(subMap, e), e, old(live), live);
        }
      }
    }

    /** Subscribe: a new request replaces the route's old one for the event. */
    method Subscribe(subRouteId: RouteId, sub: SubscriptionRequest)
      requires Valid()
      modifies this`subMap, this`live
      ensures Valid()
      ensures live == if sub.event == "" then old(live) else old(live)[(subRouteId, sub.event) := sub]
    {
      hide Represents;
      if sub.event == "" {
        return;
      }
      UnsubscribeNolock(subRouteId, sub.event);
      ghost var before, subs := live, subMap;
      live := live[(subRouteId, sub.event) := sub];
      assert Represents(SubsFor(subMap, sub.event), sub.event, before);
      var bs := AddRequest(SubsFor(subMap, sub.event), subRouteId, sub, before);
      subMap := subMap[sub.event := bs];
      forall e
        ensures Represents(SubsFor(subMap, e), e, live)
      {
        if e != sub.event {
          assert Represents(SubsFor(subs, e), e, before);
          OtherEvents(SubsFor(subMap, e), e, before, live);
        }
      }
    }

    /** Unsubscribe */
    method Unsubscribe(subRouteId: RouteId, eventName: EventName)
      requires Valid()
      modifies this`subMap, this`live
      ensures Valid()
      ensures live == old(live) - {(subRouteId, eventName)}
    {
      UnsubscribeNolock(subRouteId, eventName);
    }

    /** UnsubscribeAll: one event after the other. */
    method UnsubscribeAll(subRouteId: RouteId)
      requires Valid()
      modifies this`subMap, this`live
      ensures Valid()
      ensures live == Except(old(live), subRouteId)
    {
      hide Represents;
      live := Except(live, subRouteId);
      var left := subMap.Keys;
      forall e | e !in left
        ensures Represents(SubsFor(subMap, e), e, live)
      {
        assert Represents(SubsFor(subMap, e), e, old(live));
        NobodyStays(e, old(live), live);
      }
      while left != {}
        invariant left <= subMap.Keys && live == Except(old(live), subRouteId)
        invariant forall e :: e !in left ==> Represents(SubsFor(subMap, e), e, live)
        invariant forall e :: e in left ==> Represents(SubsFor(subMap, e), e, old(live))
        decreases |left|
      {
        var eventType :| eventType in left;
        var bs := RemoveRoute(subMap[eventType], subRouteId, eventType, old(live));
        OtherEvents(bs, eventType, old(live) - {(subRouteId, eventType)}, live);
        left := left - {eventType};
        ghost var subs := subMap;
        StoreOrDrop(eventType, bs);
        assert forall e :: e in left ==> SubsFor(subMap, e) == SubsFor(subs, e);
      }
    }

    /** getMatchingRouteIds: exactly the routes whose latest request asks for the event, each once. */
    method GetMatchingRouteIds(event: WaveEvent) returns (rtn: seq<RouteId>)
      requires Valid()
      ensures NoDups(rtn)
      ensures forall r :: r in rtn <==> (r, event.event) in live && Wants(live[(r, event.event)], event)
    {
      hide Reflects, KeepsHistory, Matches, HasStar, Wants;
      assert Represents(SubsFor(subMap, event.event), event.event, live) by {
        ValidRepresents(event.event);
      }
      if event.event !in subMap {
        MatchingIsWanted(NO_SUBS, event, live);
        return [];
      }
      var bs := subMap[event.event];
      MatchingIsWanted(bs, event, live);
      var routeIds: set<RouteId> := set r | r in bs.allSubs;
      for i := 0 to |event.scopes|
        invariant forall r :: r in routeIds <==> r in bs.allSubs || ListedFor(bs, event.scopes[..i], r)
      {
        var scope := event.scopes[i];
        var more := RoutesForScope(bs, scope);
        ListedForStep(bs, event.scopes, i);
        routeIds := routeIds + more;
      }
      assert event.scopes[..|event.scopes|] == event.scopes;
      rtn := KeysOf(routeIds);
    }

    lemma ValidRepresents(e: EventName)
      requires Valid()
      ensures Represents(SubsFor(subMap, e), e, live)
    {
    }

    /** persistEvent: the event goes to the history of each of its scopes and of the scope "". The
        number of events asked for only decides whether it is kept: no history is ever trimmed. */
    method PersistEvent(event: WaveEvent)
      requires Valid()
      modifies this`persistMap, this`published
      ensures Valid()
      ensures published == old(published) + if event.persist <= 0 then [] else [event]
    {
      hide Reflects, History;
      if event.persist <= 0 {
        return;
      }
      HistoryGrows(published, event);
      var scopeMap := (set i | 0 <= i < |event.scopes| :: event.scopes[i]) + {""};
      persistMap := AddToHistories(persistMap, event, scopeMap);
      published := published + [event];
      forall e, sc
        ensures EventsFor(persistMap, e, sc) == History(published, e, sc)
      {
        assert EventsFor(old(persistMap), e, sc) == History(old(published), e, sc);
        assert sc in scopeMap <==> sc == "" || sc in event.scopes;
      }
    }

    /** ReadEventHistory: the last events of the scope that were persisted, in the order of publishing. */
    method ReadEventHistory(eventType: EventName, scope: Scope, maxItems: int) returns (rtn: seq<WaveEvent>)
      requires Valid()
      ensures rtn == LastOf(History(published, eventType, scope), maxItems)
      ensures
        var all := History(published, eventType, scope);
        |rtn| == Min(Max(maxItems, 0), |all|) && rtn == all[|all| - |rtn|..]
    {
      assert EventsFor(persistMap, eventType, scope) == History(published, eventType, scope);
      var maxItems := maxItems;
      if maxItems <= 0 {
        return [];
      }
      var key := (eventType, scope);
      if key !in persistMap || |persistMap[key].events| == 0 {
        return [];
      }
      var events := persistMap[key].events;
      if maxItems > |events| {
        maxItems := |events|;
      }
      return events[|events| - maxItems..];
    }

    /** Publish: the event reaches each route that wants it exactly once. */
    method Publish(event: WaveEvent) returns (ghost routes: seq<RouteId>)
      requires Valid()
      modifies this`persistMap, this`published, this`sent
      ensures Valid()
      ensures published == old(published) + if event.persist <= 0 then [] else [event]
      ensures sent == old(sent) + seq(|routes|, i requires 0 <= i < |routes| => (routes[i], event))
      ensures NoDups(routes)
      ensures !hasClient ==> routes == []
      ensures hasClient ==> forall r :: r in routes <==>
                  (r, event.event) in live && Wants(live[(r, event.event)], event)
    {
      hide Wants, History, Reflects, KeepsHistory;
      if event.persist > 0 {
        PersistEvent(event);
      }
      ghost var kept := published;
      if !hasClient {
        return [];
      }
      var routeIds := GetMatchingRouteIds(event);
      for i := 0 to |routeIds|
        invariant Valid() && published == kept && unchanged(`subMap) && unchanged(`live) && unchanged(`hasClient)
        invariant sent == old(sent) + seq(i, k requires 0 <= k < i => (routeIds[k], event))
      {
        sent := sent + [(routeIds[i], event)];
      }
      return routeIds;
    }
  }

  // ----- matching -----

  /** Listed under one of these scopes, exactly or by star. */
  ghost predicate ListedFor(bs: Subscription, scopes: seq<Scope>, r: RouteId) {
    exists j :: 0 <= j < |scopes| && ListedForScope(bs, scopes[j], r)
  }

  ghost predicate ListedForScope(bs: Subscription, scope: Scope, r: RouteId) {
    Listed(bs.scopeSubs, scope, r) || exists star :: Listed(bs.starSubs, star, r) && Matches(star, scope)
  }

  lemma ListedForStep(bs: Subscription, scopes: seq<Scope>, i: nat)
    requires i < |scopes|
    ensures forall r :: ListedFor(bs, scopes[..i + 1], r) <==>
                ListedFor(bs, scopes[..i], r) || ListedForScope(bs, scopes[i], r)
  {
    hide ListedForScope;
    forall r
      ensures ListedFor(bs, scopes[..i + 1], r) <==> ListedFor(bs, scopes[..i], r) || ListedForScope(bs, scopes[i], r)
    {
      if ListedFor(bs, scopes[..i], r) {
        var j :| 0 <= j < i && ListedForScope(bs, scopes[..i][j], r);
        assert ListedForScope(bs, scopes[..i + 1][j], r);
      }
      if ListedForScope(bs, scopes[i], r) {
        assert ListedForScope(bs, scopes[..i + 1][i], r);
      }
      if ListedFor(bs, scopes[..i + 1], r) {
        var j :| 0 <= j < i + 1 && ListedForScope(bs, scopes[..i + 1][j], r);
        if j < i {
          assert ListedForScope(bs, scopes[..i][j], r);
        }
      }
    }
  }

  /** The inner loops of getMatchingRouteIds. */
  method RoutesForScope(bs: Subscription, scope: Scope) returns (routeIds: set<RouteId>)
    ensures forall r :: r in routeIds <==> ListedForScope(bs, scope, r)
  {
    routeIds := {};
    if scope in bs.scopeSubs {
      routeIds := set r | r in bs.scopeSubs[scope];
    }
    var left := bs.starSubs.Keys;
    while left != {}
      invariant left <= bs.starSubs.Keys
      invariant forall r :: r in routeIds <==> Listed(bs.scopeSubs, scope, r)
                                               || exists star :: && star !in left && Matches(star, scope)
                                                                 && Listed(bs.starSubs, star, r)
      decreases |left|
    {
      hide Matches;
      var starScope :| starScope in left;
      ghost var was := left;
      left := left - {starScope};
      var matches := StarMatchString(starScope, scope);
      if matches {
        routeIds := routeIds + set r | r in bs.starSubs[starScope];
      }
    }
  }

  /** A set as a list without duplicates, in some order. */
  method KeysOf(s: set<string>) returns (rtn: seq<string>)
    ensures NoDups(rtn) && forall x :: x in rtn <==> x in s
  {
    rtn := [];
    var left := s;
    while left != {}
      invariant left <= s && NoDups(rtn) && forall x :: x in rtn <==> x in s && x !in left
      decreases |left|
    {
      var x :| x in left;
      left := left - {x};
      rtn := rtn + [x];
    }
  }

  /** The lists find a route exactly when its latest request wants the event: a scope without stars
      is looked up, one with stars is matched, and both come to the same. */
  lemma MatchingIsWanted(bs: Subscription, event: WaveEvent, live: Requests)
    requires Represents(bs, event.event, live)
    ensures forall r :: r in bs.allSubs || ListedFor(bs, event.scopes, r) <==>
                          (r, event.event) in live && Wants(live[(r, event.event)], event)
  {
    forall r
      ensures r in bs.allSubs || ListedFor(bs, event.scopes, r) <==>
              (r, event.event) in live && Wants(live[(r, event.event)], event)
    {
      OneIsWanted(bs, event, live, r);
    }
  }

  lemma OneIsWanted(bs: Subscription, event: WaveEvent, live: Requests, r: RouteId)
    requires Represents(bs, event.event, live)
    ensures r in bs.allSubs || ListedFor(bs, event.scopes, r) <==>
            (r, event.event) in live && Wants(live[(r, event.event)], event)
  {
    hide Matches, HasStar;
    if ListedFor(bs, event.scopes, r) {
      var j :| 0 <= j < |event.scopes| && ListedForScope(bs, event.scopes[j], r);
      var scope := event.scopes[j];
      var sub := live[(r, event.event)];
      if Listed(bs.scopeSubs, scope, r) {
        PlainMatchesItself(scope, scope);
        var i :| 0 <= i < |sub.scopes| && sub.scopes[i] == scope;
        assert Matches(sub.scopes[i], event.scopes[j]);
      } else {
        var star :| Listed(bs.starSubs, star, r) && Matches(star, scope);
        var i :| 0 <= i < |sub.scopes| && sub.scopes[i] == star;
        assert Matches(sub.scopes[i], event.scopes[j]);
      }
    }
    if (r, event.event) in live && Wants(live[(r, event.event)], event) && r !in bs.allSubs {
      var sub := live[(r, event.event)];
      var i, j :| 0 <= i < |sub.scopes| && 0 <= j < |event.scopes| && Matches(sub.scopes[i], event.scopes[j]);
      var sc, scope := sub.scopes[i], event.scopes[j];
      if HasStar(sc) {
        assert Listed(bs.starSubs, sc, r);
      } else {
        PlainMatchesItself(sc, scope);
        assert Listed(bs.scopeSubs, sc, r);
      }
      assert ListedForScope(bs, event.scopes[j], r);
    }
  }

  // ----- runs -----

  datatype Op =
    | Sub(routeId: RouteId, sub: SubscriptionRequest)
    | Unsub(routeId: RouteId, event: EventName)
    | UnsubAll(routeId: RouteId)
    | Pub(waveEvent: WaveEvent)

  /** The latest request of every route after these operations. */
  function LatestRequests(ops: seq<Op>): Requests
    decreases |ops|
  {
    if ops == [] then map[]
    else
      var before := LatestRequests(ops[..|ops| - 1]);
      match ops[|ops| - 1]
      case Sub(r, sub) => if sub.event == "" then before else before[(r, sub.event) := sub]
      case Unsub(r, e) => before - {(r, e)}
      case UnsubAll(r) => Except(before, r)
      case Pub(_) => before
  }

  function Persisted(ops: seq<Op>): seq<WaveEvent>
    decreases |ops|
  {
    if ops == [] then []
    else
      var x := ops[|ops| - 1];
      Persisted(ops[..|ops| - 1]) + if x.Pub? && x.waveEvent.persist > 0 then [x.waveEvent] else []
  }

  /** After any run of operations the broker answers as the latest requests and the persisted events
      alone say. */
  method Run(ops: seq<Op>, event: WaveEvent, e: EventName, scope: Scope, n: int)
    returns (matching: seq<RouteId>, history: seq<WaveEvent>)
    ensures NoDups(matching)
    ensures var live := LatestRequests(ops);
            forall r :: r in matching <==> (r, event.event) in live && Wants(live[(r, event.event)], event)
    ensures
      var all := History(Persisted(ops), e, scope);
      |history| == Min(Max(n, 0), |all|) && history == all[|all| - |history|..]
  {
    hide Wants, History;
    var b := new Broker(true);
    for i := 0 to |ops|
      invariant b.Valid() && fresh(b)
      invariant b.live == LatestRequests(ops[..i]) && b.published == Persisted(ops[..i])
    {
      assert ops[..i + 1][..i] == ops[..i];
      match ops[i]
      case Sub(r, sub) => b.Subscribe(r, sub);
      case Unsub(r, ev) => b.Unsubscribe(r, ev);
      case UnsubAll(r) => b.UnsubscribeAll(r);
      case Pub(ev) =>
        var _ := b.Publish(ev);
    }
    assert ops[..|ops|] == ops;
    matching := b.GetMatchingRouteIds(event);
    history := b.ReadEventHistory(e, scope, n);
  }
}
