/** The client's socket helper (client/web/src/net/ws.js) and its meeting with the server. */
module WsClients {
  import opened Common
  import opened Messages
  import opened Handshakes

  datatype ConnState = Idle | Connecting | Authenticating | Connected | Closed

  /** How the promise of `connect` is settled by one event. */
  datatype Settled = Pending | Resolved | Rejected

  datatype ClientV = ClientV(
    state: ConnState, uid: Option<string>, hasSocket: bool, lastError: string,
    intentionalClose: bool, reconnectAttempts: nat)

  function Message(v: ClientV, env: Envelope): ClientV {
    if v.state.Authenticating? && env.kind.AUTH_RESPONSE? && env.body.AuthResponseBody? then
      if env.body.ok then v.(uid := Some(env.body.uid), state := Connected, reconnectAttempts := 0)
      else v.(lastError := if env.body.error != "" then env.body.error else "auth rejected", state := Closed)
    else v
  }

  function SocketStarted(v: ClientV): ClientV {
    v.(intentionalClose := false, state := Connecting, hasSocket := true)
  }

  /** A close event: reconnecting is scheduled only from 'connected', and not when asked to close. */
  function SocketClosed(v: ClientV): ClientV {
    v.(state := Closed, hasSocket := false,
       reconnectAttempts := v.reconnectAttempts + if v.state.Connected? && !v.intentionalClose then 1 else 0)
  }

  class WsClient {
    var state: ConnState
    var uid: Option<string>
    var hasSocket: bool
    var lastError: string
    var intentionalClose: bool
    var reconnectAttempts: nat

    ghost function View(): ClientV
      reads this
    {
      ClientV(state, uid, hasSocket, lastError, intentionalClose, reconnectAttempts)
    }

    constructor ()
      ensures View() == ClientV(Idle, None, false, "", false, 0)
    {
      state, uid, hasSocket, lastError, intentionalClose, reconnectAttempts := Idle, None, false, "", false, 0;
    }

    /** False: not signed in. */
    method Connect(token: string) returns (ok: bool)
      modifies this
      ensures ok <==> token != ""
      ensures View() == if ok then SocketStarted(old(View()))
                        else old(View()).(intentionalClose := false)
      ensures ok ==> state == Connecting && hasSocket && !intentionalClose && uid == old(uid)
    {
      intentionalClose := false;
      if token == "" {
        return false;
      }
      state := Connecting;
      hasSocket := true;
      return true;
    }

    method OnOpen(token: string) returns (send: Envelope)
      modifies this`state
      ensures state == Authenticating
      ensures IsAuthRequest(Binary(Some(send))) && send.kind == AUTH_REQUEST && send.body == AuthRequestBody(token)
    {
      state := Authenticating;
      return Envelope(AUTH_REQUEST, "", AuthRequestBody(token));
    }

    method OnMessage(env: Envelope) returns (settled: Settled)
      requires env.kind.AUTH_RESPONSE? ==> env.body.AuthResponseBody?
      modifies this
      ensures View() == Message(old(View()), env)
      ensures settled.Resolved? ==>
                env.kind == AUTH_RESPONSE && env.body.ok && uid == Some(env.body.uid) && reconnectAttempts == 0
      ensures settled.Rejected? ==>
                && env.kind == AUTH_RESPONSE && !env.body.ok && uid == old(uid)
                && lastError == if env.body.error != "" then env.body.error else "auth rejected"
      ensures settled.Pending? <==> old(state) != Authenticating || env.kind != AUTH_RESPONSE
      ensures settled.Pending? ==> View() == old(View())
      ensures settled.Resolved? <==> old(state) != Connected && state == Connected
      ensures settled.Rejected? <==> old(state) == Authenticating && state == Closed
    {
      if state == Authenticating && env.kind == AUTH_RESPONSE {
        if !env.body.ok {
          lastError := if env.body.error != "" then env.body.error else "auth rejected";
          state := Closed;
          return Rejected;
        }
        uid := Some(env.body.uid);
        state := Connected;
        reconnectAttempts := 0;
        return Resolved;
      }
      return Pending;
    }

    method OnError()
      modifies this`lastError
      ensures lastError == "socket error"
    {
      lastError := "socket error";
    }

    /** The state is overwritten before it is compared with 'connecting', so that branch is
        never taken: closing never rejects the promise, whatever the state was. */
    method OnClose() returns (settled: Settled, reconnect: bool)
      modifies this
      ensures settled == Pending
      ensures reconnect <==> old(state) == Connected && !intentionalClose
      ensures View() == SocketClosed(old(View()))
      ensures state == Closed && !hasSocket && uid == old(uid)
      ensures reconnectAttempts == old(reconnectAttempts) + if reconnect then 1 else 0
    {
      var wasConnected := state == Connected;
      state := Closed;
      hasSocket := false;
      if intentionalClose {
        return Pending, false;
      }
      if wasConnected {
        reconnectAttempts := reconnectAttempts + 1;
        return Pending, true;
      } else if state == Connecting {
        return Rejected, false;
      }
      return Pending, false;
    }

    method Close()
      modifies this`intentionalClose
      ensures intentionalClose
    {
      intentionalClose := true;
    }
  }

  // ----- one client and the server, one socket at a time, FIFO both ways

  datatype ServerPhase = NoSocket | Waiting | Serving(uid: string) | Refused

  datatype Net = Net(
    client: ClientV,
    token: string,                         // token of the current socket
    server: ServerPhase,                   // server side of the current socket
    up: seq<Frame>, down: seq<Envelope>,   // frames in flight on the current socket
    accepted: Option<(string, string)>)    // (token, uid) the server accepted on the current socket

  datatype Step =
    | ClientConnects(token: string)
    | ClientOpens
    | ClientSends(frame: Frame)
    | ClientReceives
    | ClientErrs
    | SocketCloses
    | ClientCloses
    | ServerHandshakes(verdict: Verdict)
    | ServerReads
    | ServerSends(env: Envelope)

  /** `connect` is called when no socket is open, as the reconnect timer does. After the
      handshake the server sends dispatch responses and forwarded frames, never AUTH_RESPONSE. */
  ghost function NextNet(n: Net, x: Step): Option<Net> {
    match x
    case ClientConnects(token) =>
      if n.client.hasSocket || token == "" then None
      else Some(Net(SocketStarted(n.client),
                    token, Waiting, [], [], None))
    case ClientOpens =>
      if !n.client.hasSocket || !n.client.state.Connecting? then None
      else Some(n.(client := n.client.(state := Authenticating),
                   up := n.up + [Binary(Some(Envelope(AUTH_REQUEST, "", AuthRequestBody(n.token))))]))
    case ClientSends(frame) =>
      if !n.client.hasSocket || n.client.state.Connecting? then None
      else Some(n.(up := n.up + [frame]))
    case ClientReceives =>
      if !n.client.hasSocket || n.down == [] then None
      else Some(n.(client := Message(n.client, n.down[0]), down := n.down[1..]))
    case ClientErrs => Some(n.(client := n.client.(lastError := "socket error")))
    case SocketCloses =>
      if !n.client.hasSocket then None
      else Some(n.(client := SocketClosed(n.client), up := [], down := [], server := NoSocket))
    case ClientCloses => Some(n.(client := n.client.(intentionalClose := true)))
    case ServerHandshakes(verdict) =>
      if !n.server.Waiting? || n.up == [] then None
      else if !IsAuthRequest(n.up[0]) then Some(n.(up := n.up[1..], server := Refused))
      else
        var token := n.up[0].env.value.body.idToken;
        Some(n.(up := n.up[1..], down := n.down + [BuildAuthResponse(n.up[0].env.value.requestId, verdict)],
                server := if verdict.ok then Serving(verdict.claims.uid) else Refused,
                accepted := if verdict.ok then Some((token, verdict.claims.uid)) else None))
    case ServerReads =>
      if !n.server.Serving? || n.up == [] then None else Some(n.(up := n.up[1..]))
    case ServerSends(env) =>
      if !n.server.Serving? || env.kind.AUTH_RESPONSE? then None else Some(n.(down := n.down + [env]))
  }

  ghost function RunNet(xs: seq<Step>): Option<Net> {
    if xs == [] then Some(Net(ClientV(Idle, None, false, "", false, 0), "", NoSocket, [], [], None))
    else
      var before := RunNet(xs[..|xs| - 1]);
      if before.None? then None else NextNet(before.value, xs[|xs| - 1])
  }

  /** An accepting AUTH_RESPONSE on the way down tells what the server accepted. */
  ghost predicate DownSound(n: Net) {
    forall i :: 0 <= i < |n.down| && n.down[i].kind.AUTH_RESPONSE? ==>
      n.down[i].body.AuthResponseBody? && (n.down[i].body.ok ==> n.accepted == Some((n.token, n.down[i].body.uid)))
  }

  ghost predicate NetInv(n: Net) {
    && DownSound(n)
    && (n.client.state.Connecting? ==> n.client.hasSocket && n.up == [] && n.down == [] && n.server.Waiting?)
    && (n.client.hasSocket && n.server.Waiting? && n.up != [] && !n.client.state.Connecting? ==>
          IsAuthRequest(n.up[0]) && n.up[0].env.value.body.idToken == n.token)
    && (n.client.hasSocket && n.server.Waiting? && !n.client.state.Connecting? ==> n.up != [])
    && (n.server.Waiting? ==> n.client.hasSocket && n.down == [] && n.accepted.None?)
    && (n.client.state.Connected? ==> n.client.uid.Some? && n.client.hasSocket
                                      && n.accepted == Some((n.token, n.client.uid.value)))
  }

  lemma NextKeepsDownSound(n: Net, x: Step)
    requires NetInv(n) && NextNet(n, x).Some?
    ensures DownSound(NextNet(n, x).value)
  {
  }

  lemma NextKeepsNetInv(n: Net, x: Step)
    requires NetInv(n) && NextNet(n, x).Some?
    ensures NetInv(NextNet(n, x).value)
  {
    NextKeepsDownSound(n, x);
  }

  lemma {:induction false} RunKeepsNetInv(xs: seq<Step>)
    requires RunNet(xs).Some?
    ensures NetInv(RunNet(xs).value)
  {
    if xs != [] {
      RunKeepsNetInv(xs[..|xs| - 1]);
      NextKeepsNetInv(RunNet(xs[..|xs| - 1]).value, xs[|xs| - 1]);
    }
  }

  /** In every run, a client that has just connected a socket can go on: it opens, the server
      handshakes, the client receives. Accepted, it is then 'connected' with the accepted uid;
      refused, it is 'closed' with the server's reason. */
  lemma HandshakeSettles(xs: seq<Step>, verdict: Verdict)
    requires RunNet(xs).Some? && RunNet(xs).value.client.state.Connecting?
    ensures var tr := xs + [ClientOpens] + [ServerHandshakes(verdict)] + [ClientReceives];
      && RunNet(tr).Some?
      && var c := RunNet(tr).value.client;
         if verdict.ok then c.state == Connected && c.uid == Some(verdict.claims.uid) && c.hasSocket
         else c.state == Closed && c.lastError == "invalid_token"
  {
    RunKeepsNetInv(xs);
    var n := RunNet(xs).value;
    NetSnoc(xs, ClientOpens);
    var n1 := NextNet(n, ClientOpens).value;
    assert n1.up == [Binary(Some(Envelope(AUTH_REQUEST, "", AuthRequestBody(n.token))))];
    NetSnoc(xs + [ClientOpens], ServerHandshakes(verdict));
    var n2 := NextNet(n1, ServerHandshakes(verdict)).value;
    assert n2.down == [BuildAuthResponse("", verdict)] && n2.client.state == Authenticating;
    NetSnoc(xs + [ClientOpens] + [ServerHandshakes(verdict)], ClientReceives);
  }

  lemma NetSnoc(xs: seq<Step>, x: Step)
    requires RunNet(xs).Some?
    ensures RunNet(xs + [x]) == NextNet(RunNet(xs).value, x)
  {
    assert (xs + [x])[..|xs|] == xs;
  }

  /** In every run, a client that is 'connected' with uid u holds a socket whose own token the
      server accepted for u. */
  lemma ConnectedWasAccepted(xs: seq<Step>)
    requires RunNet(xs).Some? && RunNet(xs).value.client.state.Connected?
    ensures var n := RunNet(xs).value;
      n.client.uid.Some? && n.accepted == Some((n.token, n.client.uid.value))
    ensures exists k :: 0 <= k < |xs| && xs[k].ServerHandshakes? && xs[k].verdict.ok
                        && xs[k].verdict.claims.uid == RunNet(xs).value.client.uid.value
  {
    RunKeepsNetInv(xs);
    AcceptedByVerdict(xs);
  }

  lemma {:induction false} AcceptedByVerdict(xs: seq<Step>)
    requires RunNet(xs).Some? && RunNet(xs).value.accepted.Some?
    ensures exists k :: 0 <= k < |xs| && xs[k].ServerHandshakes? && xs[k].verdict.ok
                        && xs[k].verdict.claims.uid == RunNet(xs).value.accepted.value.1
  {
    var n := |xs| - 1;
    if xs[n].ServerHandshakes? && RunNet(xs[..n]).value.accepted != RunNet(xs).value.accepted {
      assert xs[n].verdict.ok;
    } else {
      AcceptedByVerdict(xs[..n]);
      var k :| 0 <= k < n && xs[..n][k].ServerHandshakes? && xs[..n][k].verdict.ok
               && xs[..n][k].verdict.claims.uid == RunNet(xs[..n]).value.accepted.value.1;
      assert xs[k] == xs[..n][k];
    }
  }
}
