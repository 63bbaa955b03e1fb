/**
 * The WebSocket store: one connection, reconnection with backoff, a buffer of events.
 *
 * The methods are the store's actions and the handlers of its sockets and timer; the
 * browser's side (socket states, attached handlers, pending timers) is kept beside it.
 */
module SocketStore {
  import opened Wrappers
  import opened Backoff

  datatype ReadyState = Connecting | Open | Closing | Closed

  // A socket and whether its handlers are still attached.
  datatype Socket = Socket(ready: ReadyState, onopen: bool, onmessage: bool, onerror: bool, onclose: bool)

  datatype Problem = NotAuthenticated | ConnectionError | SocketError | Unauthorized | MaxAttemptsReached

  datatype Message = Acknowledged | FlowControl | AuthError | Unparsable | Event(content: int)

  // What components see.
  datatype View = View(ws: Option<nat>, isConnected: bool, isConnecting: bool, error: Option<Problem>,
                       reconnectAttempt: nat, events: seq<int>)

  const BUFFER_SIZE: nat := 100
  const UNAUTHORIZED: nat := 4001

  predicate Live(s: Socket) {
    s.ready == Connecting || s.ready == Open
  }

  // close(): a socket that is connecting or open starts closing.
  function Close(s: Socket): Socket {
    if Live(s) then s.(ready := Closing) else s
  }

  function Detached(s: Socket): Socket {
    s.(onopen := false, onmessage := false, onerror := false, onclose := false)
  }

  // The newest events first, at most a hundred of them.
  function Newest(accepted: seq<int>): (r: seq<int>)
    ensures |r| == if |accepted| < 100 then |accepted| else 100
    ensures forall i :: 0 <= i < |r| ==> r[i] == accepted[|accepted| - 1 - i]
  {
    var n := if |accepted| < BUFFER_SIZE then |accepted| else BUFFER_SIZE;
    seq(n, i requires 0 <= i < n => accepted[|accepted| - 1 - i])
  }

  function Truncated(events: seq<int>): seq<int> {
    if |events| <= BUFFER_SIZE then events else events[..BUFFER_SIZE]
  }

  lemma PushKeepsNewest(accepted: seq<int>, e: int)
    ensures Truncated([e] + Newest(accepted)) == Newest(accepted + [e])
  {
  }

  class Store {
    const config: Config
    var view: View
    var reconnectTimeout: Option<nat>

    var sockets: seq<Socket>
    var pending: set<nat>
    var timersMade: nat

    // since the last open or disconnect: the delays of the timers armed
    ghost var armed: seq<nat>
    // since the last clear or disconnect: the messages accepted
    ghost var accepted: seq<int>

    ghost predicate Valid()
      reads this
    {
      && (view.ws.Some? ==> view.ws.value < |sockets|)
      // a socket that can still call back about its end, or carry traffic, is the stored one
      && (forall i :: 0 <= i < |sockets| && sockets[i].ready != Closed && sockets[i].onclose ==> view.ws == Some(i))
      && (forall i :: 0 <= i < |sockets| && Live(sockets[i]) ==> view.ws == Some(i) && sockets[i].onclose && sockets[i].onopen)
      && (view.isConnecting || view.isConnected ==> view.ws.Some?)
      // an open socket is shown as connected
      && (forall i :: 0 <= i < |sockets| && sockets[i].ready == Open ==> view.isConnected)
      // at most one timer, and none while there is a socket
      && (forall t :: t in pending ==> reconnectTimeout == Some(t) && t < timersMade)
      && (pending != {} ==> view.ws == None && !view.isConnecting)
      // backoff
      && IsBackoff(armed, config) && view.reconnectAttempt == |armed|
      // buffer
      && view.events == Newest(accepted)
    }

    // Nothing will happen until the next connect.
    ghost predicate Quiet()
      reads this
    {
      view.ws == None && pending == {}
    }

    // Marked as connecting with nothing left that could end it.
    ghost predicate Stuck()
      reads this
    {
      && view.isConnecting && pending == {} && view.ws.Some? && view.ws.value < |sockets|
      && !Live(sockets[view.ws.value]) && !sockets[view.ws.value].onclose
    }

    // Shown as connected although the stored socket is not open.
    ghost predicate Stale()
      reads this
    {
      view.isConnected && !(view.ws.Some? && view.ws.value < |sockets| && sockets[view.ws.value].ready == Open)
    }

    constructor (c: Config)
      ensures Valid() && Quiet() && config == c
      ensures view == View(None, false, false, None, 0, [])
    {
      config := c;
      view := View(None, false, false, None, 0, []);
      reconnectTimeout, sockets, pending, timersMade := None, [], {}, 0;
      armed, accepted := [], [];
    }

    // throws: the WebSocket constructor raised.
    method Connect(isAuthenticated: bool, throws: bool)
      requires Valid()
      modifies this
      ensures Valid()
      ensures !isAuthenticated ==>
        && view == old(view).(isConnecting := false, error := Some(NotAuthenticated))
        && sockets == old(sockets) && pending == old(pending)
      ensures isAuthenticated ==> pending == {} && |sockets| >= |old(sockets)|
      ensures isAuthenticated && old(view).ws.Some? ==>
        var before, after := old(sockets)[old(view).ws.value], sockets[old(view).ws.value];
        && after == Close(before.(onclose := false))
        && after.ready == (if before.ready == Connecting || before.ready == Open then Closing else before.ready)
        && after == before.(onclose := false, ready := after.ready)
      ensures forall i :: 0 <= i < |old(sockets)| && Some(i) != old(view).ws ==> sockets[i] == old(sockets)[i]
      ensures isAuthenticated && old(view).isConnecting ==> view == old(view) && |sockets| == |old(sockets)|
      ensures isAuthenticated && !old(view).isConnecting && throws ==>
        view == old(view).(error := Some(ConnectionError)) && |sockets| == |old(sockets)|
      ensures isAuthenticated && !old(view).isConnecting && !throws ==>
        && view == old(view).(ws := Some(|old(sockets)|), isConnecting := true, error := None)
        && |sockets| == |old(sockets)| + 1
        && sockets[|old(sockets)|] == Socket(Connecting, true, true, true, true)
      ensures armed == old(armed) && accepted == old(accepted)
      // A second connect while the first is under way leaves the store stuck ...
      // and nothing else does.
      ensures Stuck() <==> isAuthenticated && old(view).isConnecting
    {
      if !isAuthenticated {
        view := view.(isConnecting := false, error := Some(NotAuthenticated));
        return;
      }
      DropConnection();
      if view.isConnecting {
        return;
      }
      view := view.(isConnecting := true, error := None);
      if throws {
        view := view.(isConnecting := false, error := Some(ConnectionError));
      } else {
        sockets := sockets + [Socket(Connecting, true, true, true, true)];
        view := view.(ws := Some(|sockets| - 1));
      }
    }

    // The first half of connect: close what is there, cancel the timer.
    method DropConnection()
      requires Valid()
      modifies this`sockets, this`pending, this`reconnectTimeout
      ensures Valid() && pending == {} && |sockets| == |old(sockets)|
      ensures forall i :: 0 <= i < |sockets| ==> !Live(sockets[i]) && (sockets[i].ready != Closed ==> !sockets[i].onclose)
      ensures forall i :: 0 <= i < |sockets| ==>
        sockets[i] == if view.ws == Some(i) then Close(old(sockets)[i].(onclose := false)) else old(sockets)[i]
    {
      if view.ws.Some? {
        var i := view.ws.value;
        sockets := sockets[i := Close(sockets[i].(onclose := false))];
      }
      if reconnectTimeout.Some? {
        pending := pending - {reconnectTimeout.value};
        reconnectTimeout := None;
      }
    }

    method Disconnect()
      requires Valid()
      modifies this
      ensures Valid() && Quiet() && view == View(None, false, false, None, 0, [])
      ensures |sockets| == |old(sockets)|
      ensures forall i :: 0 <= i < |sockets| ==>
        sockets[i] == if old(view).ws == Some(i) then Close(Detached(old(sockets)[i])) else old(sockets)[i]
      ensures old(view).ws.Some? ==>
        var before, after := old(sockets)[old(view).ws.value], sockets[old(view).ws.value];
        && after.ready == (if before.ready == Connecting || before.ready == Open then Closing else before.ready)
        && !after.onopen && !after.onmessage && !after.onerror && !after.onclose
      ensures armed == [] && accepted == []
    {
      if reconnectTimeout.Some? {
        pending := pending - {reconnectTimeout.value};
        reconnectTimeout := None;
      }
      if view.ws.Some? {
        var i := view.ws.value;
        sockets := sockets[i := Close(Detached(sockets[i]))];
      }
      view := View(None, false, false, None, 0, []);
      armed, accepted := [], [];
    }

    // The browser reports that socket i has opened.
    method OnOpen(i: nat)
      requires Valid() && i < |sockets| && sockets[i].ready == Connecting
      modifies this
      ensures Valid() && !old(Quiet()) && (Stuck() <==> old(Stuck()))
      ensures sockets == old(sockets)[i := old(sockets)[i].(ready := Open)] && pending == old(pending)
      ensures accepted == old(accepted)
      ensures old(sockets)[i].onopen ==>
        && view == old(view).(isConnected := true, isConnecting := false, error := None, reconnectAttempt := 0)
        && armed == []
      ensures !old(sockets)[i].onopen ==> view == old(view) && armed == old(armed)
    {
      sockets := sockets[i := sockets[i].(ready := Open)];
      if sockets[i].onopen {
        view := view.(isConnected := true, isConnecting := false, error := None, reconnectAttempt := 0);
        armed := [];
      }
    }

    method OnMessage(i: nat, m: Message)
      requires Valid() && i < |sockets| && sockets[i].ready == Open
      modifies this
      ensures Valid() && !old(Quiet()) && (Stuck() <==> old(Stuck()))
      ensures armed == old(armed) && pending == old(pending)
      ensures accepted == if old(sockets)[i].onmessage && m.Event? then old(accepted) + [m.content] else old(accepted)
      ensures view == old(view).(events := Newest(accepted))
      ensures sockets == if old(sockets)[i].onmessage && m == AuthError then old(sockets)[i := Close(old(sockets)[i])] else old(sockets)
    {
      if sockets[i].onmessage {
        match m {
          case Acknowledged =>
          case FlowControl =>
          case AuthError => sockets := sockets[i := Close(sockets[i])];
          case Event(e) =>
            PushKeepsNewest(accepted, e);
            view := view.(events := Truncated([e] + view.events));
            accepted := accepted + [e];
          case Unparsable =>
        }
      }
    }

    method OnError(i: nat)
      requires Valid() && i < |sockets| && sockets[i].ready != Closed
      modifies this
      ensures Valid() && (old(Quiet()) ==> Quiet()) && (Stuck() <==> old(Stuck()))
      ensures view == if old(sockets)[i].onerror then old(view).(error := Some(SocketError)) else old(view)
      ensures sockets == old(sockets) && pending == old(pending) && armed == old(armed) && accepted == old(accepted)
    {
      if sockets[i].onerror {
        view := view.(error := Some(SocketError));
      }
    }

    // The browser reports that socket i is closed.
    method OnClose(i: nat, code: nat)
      requires Valid() && i < |sockets| && sockets[i].ready != Closed
      modifies this
      ensures Valid() && (old(Quiet()) ==> Quiet()) && (Stuck() <==> old(Stuck()))
      ensures sockets == old(sockets)[i := old(sockets)[i].(ready := Closed)] && accepted == old(accepted)
      ensures !old(sockets)[i].onclose ==> view == old(view) && pending == old(pending) && armed == old(armed)
      ensures old(sockets)[i].onclose ==> old(view).ws == Some(i)
      // Unauthorized: no socket and no timer until somebody connects again.
      ensures old(sockets)[i].onclose && code == 4001 ==>
        && view == old(view).(ws := None, isConnected := false, isConnecting := false, error := Some(Unauthorized))
        && Quiet() && armed == old(armed)
      // Out of attempts: likewise.
      ensures old(sockets)[i].onclose && code != 4001 && old(view).reconnectAttempt >= config.reconnectAttempts ==>
        && view == old(view).(ws := None, isConnected := false, isConnecting := false, error := Some(MaxAttemptsReached))
        && Quiet() && armed == old(armed)
      // Otherwise one timer, with the delay of this attempt.
      ensures old(sockets)[i].onclose && code != 4001 && old(view).reconnectAttempt < config.reconnectAttempts ==>
        && view == old(view).(ws := None, isConnected := false, isConnecting := false,
                              reconnectAttempt := old(view).reconnectAttempt + 1)
        && |pending| == 1 && pending !! old(pending)
        && armed == old(armed) + [ReconnectDelay(old(view).reconnectAttempt, config)]
    {
      sockets := sockets[i := sockets[i].(ready := Closed)];
      if sockets[i].onclose {
        view := view.(ws := None, isConnected := false, isConnecting := false);
        if code == UNAUTHORIZED {
          view := view.(error := Some(Unauthorized));
          return;
        }
        if view.reconnectAttempt < config.reconnectAttempts {
          ArmTimer();
        } else {
          view := view.(error := Some(MaxAttemptsReached));
        }
      }
    }

    // The last part of the close handler: count the attempt and schedule it.
    method ArmTimer()
      requires Valid() && view.ws == None && !view.isConnecting && view.reconnectAttempt < config.reconnectAttempts
      modifies this`view, this`reconnectTimeout, this`pending, this`timersMade, this`armed
      ensures Valid() && pending == {old(timersMade)}
      ensures view == old(view).(reconnectAttempt := old(view).reconnectAttempt + 1)
      ensures armed == old(armed) + [ReconnectDelay(old(view).reconnectAttempt, config)]
    {
      var delay := ReconnectDelay(view.reconnectAttempt, config);
      OneMoreArmed(armed, config);
      view := view.(reconnectAttempt := view.reconnectAttempt + 1);
      if reconnectTimeout.Some? {
        pending := pending - {reconnectTimeout.value};
      }
      reconnectTimeout := Some(timersMade);
      pending := pending + {timersMade};
      timersMade := timersMade + 1;
      armed := armed + [delay];
    }

    // The timer fires; the handle in reconnectTimeout stays behind.
    method OnTimer(t: nat, isStillAuthenticated: bool, throws: bool)
      requires Valid() && t in pending
      modifies this
      ensures Valid() && !old(Quiet()) && !old(Stuck()) && !Stuck() && pending == {}
      ensures armed == old(armed) && accepted == old(accepted)
      ensures !isStillAuthenticated ==> view == old(view) && sockets == old(sockets) && Quiet()
      ensures isStillAuthenticated && !throws ==>
        && view == old(view).(ws := Some(|old(sockets)|), isConnecting := true, error := None)
        && sockets == old(sockets) + [Socket(Connecting, true, true, true, true)]
      ensures isStillAuthenticated && throws ==>
        view == old(view).(error := Some(ConnectionError)) && sockets == old(sockets) && Quiet()
    {
      pending := pending - {t};
      if isStillAuthenticated {
        Connect(true, throws);
      }
    }

    method ClearEvents()
      requires Valid()
      modifies this
      ensures Valid() && (old(Quiet()) ==> Quiet()) && (Stuck() <==> old(Stuck()))
      ensures view == old(view).(events := []) && accepted == []
      ensures sockets == old(sockets) && pending == old(pending) && armed == old(armed)
    {
      view := view.(events := []);
      accepted := [];
    }

    // ---- Whole runs -----------------------------------------------------------

    predicate Possible(a: Action)
      reads this
    {
      match a
      case OpenSocket(i) => i < |sockets| && sockets[i].ready == Connecting
      case Receive(i, _) => i < |sockets| && sockets[i].ready == Open
      case Fault(i) => i < |sockets| && sockets[i].ready != Closed
      case CloseSocket(i, _) => i < |sockets| && sockets[i].ready != Closed
      case FireTimer(t, _, _) => t in pending
      case _ => true
    }

    // An authenticated connect of a store shown as connected, or an authentication error.
    predicate Misleads(a: Action)
      requires Possible(a)
      reads this
    {
      match a
      case CallConnect(authenticated, _) => authenticated && view.isConnected
      case Receive(i, m) => m == AuthError && sockets[i].onmessage
      case _ => false
    }

    // A socket opening, the stored one reporting its end, or a disconnect.
    predicate SetsRight(a: Action)
      requires Possible(a)
      reads this
    {
      match a
      case OpenSocket(_) => true
      case CloseSocket(i, _) => sockets[i].onclose
      case CallDisconnect => true
      case _ => false
    }

    // One action. The store is stuck afterwards exactly when it jams it or finds it stuck and does
    // not free it; and shows a connection it does not have exactly when the action misleads it or
    // finds it so and does not set it right.
    method Perform(a: Action)
      requires Valid() && Possible(a)
      modifies this
      ensures Valid()
      ensures old(Quiet()) && !a.CallConnect? ==> Quiet()
      ensures Stuck() <==> Jams(a, old(view)) || (old(Stuck()) && !Frees(a))
      ensures Stale() <==> old(Misleads(a)) || (old(Stale()) && !old(SetsRight(a)))
      ensures a.CallDisconnect? ==> view == View(None, false, false, None, 0, []) && pending == {}
      ensures a.CallClear? ==> view == old(view).(events := [])
      // A connect or a timer, and what the browser and the session say to it.
      ensures a.CallConnect? && !a.authenticated ==>
        view == old(view).(isConnecting := false, error := Some(NotAuthenticated)) && pending == old(pending)
      ensures a.CallConnect? && a.authenticated && !old(view).isConnecting ==>
        view == if a.throws then old(view).(error := Some(ConnectionError))
                else old(view).(ws := Some(|old(sockets)|), isConnecting := true, error := None)
      ensures a.FireTimer? ==>
        view == if !a.authenticated then old(view)
                else if a.throws then old(view).(error := Some(ConnectionError))
                else old(view).(ws := Some(|old(sockets)|), isConnecting := true, error := None)
      // A socket's event reaches its handler while it is attached, and only then.
      ensures a.OpenSocket? ==>
        view == if old(sockets)[a.i].onopen
                then old(view).(isConnected := true, isConnecting := false, error := None, reconnectAttempt := 0) else old(view)
      ensures a.Fault? ==> view == if old(sockets)[a.i].onerror then old(view).(error := Some(SocketError)) else old(view)
      ensures a.Receive? ==>
        && accepted == (if old(sockets)[a.i].onmessage && a.m.Event? then old(accepted) + [a.m.content] else old(accepted))
        && view == old(view).(events := Newest(accepted))
        && (old(sockets)[a.i].onmessage && a.m == AuthError ==> sockets[a.i].ready == Closing)
      // The close code decides between giving up and trying again.
      ensures a.CloseSocket? && !old(sockets)[a.i].onclose ==> view == old(view) && pending == old(pending)
      ensures a.CloseSocket? && old(sockets)[a.i].onclose ==>
        var next := old(view).(ws := None, isConnected := false, isConnecting := false);
        if a.code == 4001 then view == next.(error := Some(Unauthorized)) && pending == {}
        else if old(view).reconnectAttempt < config.reconnectAttempts
        then view == next.(reconnectAttempt := old(view).reconnectAttempt + 1) && |pending| == 1
        else view == next.(error := Some(MaxAttemptsReached)) && pending == {}
    {
      match a {
        case CallConnect(authenticated, throws) => Connect(authenticated, throws);
        case CallDisconnect => Disconnect();
        case CallClear => ClearEvents();
        case OpenSocket(i) => OnOpen(i);
        case Receive(i, m) => OnMessage(i, m);
        case Fault(i) => OnError(i);
        case CloseSocket(i, code) => OnClose(i, code);
        case FireTimer(t, authenticated, throws) => OnTimer(t, authenticated, throws);
      }
    }

    // Any sequence of actions, those that cannot happen being skipped: the store stays valid and
    // a quiet store stays quiet without a connect. It is stuck in the end exactly when it was
    // stuck or an authenticated connect met a connection under way, and no disconnect or
    // unauthenticated connect came later. views[k] is what components saw before action k.
    method Run(actions: seq<Action>) returns (ghost views: seq<View>)
      requires Valid()
      modifies this
      ensures Valid() && Sum(armed) <= config.reconnectAttempts * config.maxReconnectDelay
      ensures config == DEFAULT_CONFIG ==> Sum(armed) <= 181000
      ensures old(Quiet()) && (forall a :: a in actions ==> !a.CallConnect?) ==> Quiet()
      ensures |views| == |actions| + 1 && views[0] == old(view) && views[|actions|] == view
      ensures Stuck() <==> StuckAfter(actions, views, |actions|, old(Stuck()))
    {
      views := [view];
      for k := 0 to |actions|
        invariant Valid()
        invariant old(Quiet()) && (forall a :: a in actions ==> !a.CallConnect?) ==> Quiet()
        invariant |views| == k + 1 && views[0] == old(view) && views[k] == view
        invariant Stuck() <==> StuckAfter(actions, views, k, old(Stuck()))
      {
        assert actions[k] in actions;
        if Possible(actions[k]) {
          Perform(actions[k]);
        }
        StuckOneMore(actions, views, view, k, old(Stuck()));
        views := views + [view];
      }
      ArmedBound(armed, config);
    }
  }

  // An authenticated connect while a connection is under way.
  predicate Jams(a: Action, before: View) {
    a.CallConnect? && a.authenticated && before.isConnecting
  }

  predicate Frees(a: Action) {
    a.CallDisconnect? || (a.CallConnect? && !a.authenticated)
  }

  predicate NeverFreed(actions: seq<Action>, from: nat, n: nat)
    requires from <= n <= |actions|
  {
    forall l :: from <= l < n ==> !Frees(actions[l])
  }

  ghost predicate JammedBy(actions: seq<Action>, views: seq<View>, n: nat)
    requires n <= |actions| && n <= |views|
  {
    exists k :: 0 <= k < n && Jams(actions[k], views[k]) && NeverFreed(actions, k + 1, n)
  }

  // Jammed by one of the first n actions, or stuck from the beginning, and not freed since.
  ghost predicate StuckAfter(actions: seq<Action>, views: seq<View>, n: nat, initially: bool)
    requires n <= |actions| && n <= |views|
  {
    JammedBy(actions, views, n) || (initially && NeverFreed(actions, 0, n))
  }

  lemma StuckOneMore(actions: seq<Action>, views: seq<View>, after: View, n: nat, initially: bool)
    requires n < |actions| && |views| == n + 1
    ensures StuckAfter(actions, views + [after], n + 1, initially)
            <==> Jams(actions[n], views[n]) || (StuckAfter(actions, views, n, initially) && !Frees(actions[n]))
  {
    JammedOneMore(actions, views, after, n);
    assert NeverFreed(actions, 0, n + 1) <==> NeverFreed(actions, 0, n) && !Frees(actions[n]);
  }

  lemma JammedOneMore(actions: seq<Action>, views: seq<View>, after: View, n: nat)
    requires n < |actions| && |views| == n + 1
    ensures JammedBy(actions, views + [after], n + 1)
            <==> Jams(actions[n], views[n]) || (JammedBy(actions, views, n) && !Frees(actions[n]))
  {
    var more := views + [after];
    if Jams(actions[n], views[n]) {
      assert Jams(actions[n], more[n]) && NeverFreed(actions, n + 1, n + 1);
    }
    if JammedBy(actions, views, n) && !Frees(actions[n]) {
      var k :| 0 <= k < n && Jams(actions[k], views[k]) && NeverFreed(actions, k + 1, n);
      assert Jams(actions[k], more[k]) && NeverFreed(actions, k + 1, n + 1);
    }
    if JammedBy(actions, more, n + 1) {
      var k :| 0 <= k < n + 1 && Jams(actions[k], more[k]) && NeverFreed(actions, k + 1, n + 1);
      if k < n {
        assert Jams(actions[k], views[k]) && NeverFreed(actions, k + 1, n) && !Frees(actions[n]);
      }
    }
  }

  datatype Action =
    | CallConnect(authenticated: bool, throws: bool)
    | CallDisconnect
    | CallClear
    | OpenSocket(i: nat)
    | Receive(i: nat, m: Message)
    | Fault(i: nat)
    | CloseSocket(i: nat, code: nat)
    | FireTimer(t: nat, authenticated: bool, throws: bool)

  lemma {:induction false} TotalBound(delays: seq<nat>, c: Config, n: nat)
    requires IsBackoff(delays, c) && n <= |delays|
    ensures Sum(delays[..n]) <= n * c.maxReconnectDelay
  {
    if n > 0 {
      TotalBound(delays, c, n - 1);
      DelaysNeverDecrease(n - 1, n - 1, c);
      assert delays[..n][..n - 1] == delays[..n - 1];
      OneMoreDelay(n - 1, c.maxReconnectDelay);
    }
  }

  lemma OneMoreDelay(n: nat, max: nat)
    ensures (n + 1) * max == n * max + max
  {
  }

  lemma ArmedBound(armed: seq<nat>, c: Config)
    requires IsBackoff(armed, c)
    ensures Sum(armed) <= c.reconnectAttempts * c.maxReconnectDelay
    ensures c == DEFAULT_CONFIG ==> Sum(armed) <= 181000
  {
    TotalBound(armed, c, |armed|);
    AttemptsBound(|armed|, c.reconnectAttempts, c.maxReconnectDelay);
    assert armed[..|armed|] == armed;
    if c == DEFAULT_CONFIG {
      DefaultTotals(armed);
    }
  }

  lemma AttemptsBound(n: nat, attempts: nat, max: nat)
    requires n <= attempts
    ensures n * max <= attempts * max
  {
  }
}
