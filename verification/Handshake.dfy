/** The AUTH handshake of one socket (server/internal/ws/handshake.go, conn.go:51-107). */
module Handshakes {
  import opened Common
  import opened Messages

  datatype Claims = Claims(uid: string)

  datatype HandshakeError = ReadFailed | Malformed | WrongType | InvalidToken

  /** A verdict of the token verifier. The claims of a refusal are whatever came back with it. */
  datatype Verdict = Verdict(claims: Claims, ok: bool)

  /** Token verification is not part of this model; it is any function of the token. */
  type Verifier = string -> Verdict

  function BuildAuthResponse(requestId: string, v: Verdict): Envelope {
    Envelope(AUTH_RESPONSE, requestId, AuthResponseBody(v.ok, v.claims.uid, if v.ok then "" else "invalid_token"))
  }

  /** The frame is a decodable AUTH_REQUEST. */
  predicate IsAuthRequest(f: Frame) {
    f.Binary? && f.env.Some? && f.env.value.kind.AUTH_REQUEST? && f.env.value.body.AuthRequestBody?
  }

  predicate Authenticates(f: Frame, verify: Verifier) {
    IsAuthRequest(f) && verify(f.env.value.body.idToken).ok
  }

  /** What one socket does, in order. */
  datatype ServerEvent =
    | Sent(env: Envelope)
    | Registered(uid: string)
    | Dispatched(env: Envelope)
    | Unregistered
    | ClosedWith(code: int)

  const CLOSE_UNAUTHENTICATED: int := 4001

  /** `first` is the frame read, or None when the read fails or times out. */
  method PerformHandshake(first: Option<Frame>, verify: Verifier)
    returns (r: Result<Claims, HandshakeError>, sent: seq<ServerEvent>)
    ensures r.Ok? <==> first.Some? && Authenticates(first.value, verify)
    ensures r.Ok? ==> r.value == verify(first.value.env.value.body.idToken).claims
    ensures first.None? ==> r == Err(ReadFailed) && sent == []
    ensures first == Some(Text) || first == Some(Binary(None)) ==> r == Err(Malformed) && sent == []
    ensures first.Some? && first.value.Binary? && first.value.env.Some? ==>
              var env := first.value.env.value;
              if env.kind != AUTH_REQUEST then r == Err(WrongType) && sent == []
              else if !env.body.AuthRequestBody? then r == Err(Malformed) && sent == []
              else
                var v := verify(env.body.idToken);
                if v.ok then
                  r == Ok(v.claims)
                  && sent == [Sent(Envelope(AUTH_RESPONSE, env.requestId, AuthResponseBody(true, v.claims.uid, "")))]
                else
                  r == Err(InvalidToken)
                  && sent == [Sent(Envelope(AUTH_RESPONSE, env.requestId,
                                            AuthResponseBody(false, v.claims.uid, "invalid_token")))]
    ensures sent
         == if first.Some? && IsAuthRequest(first.value)
            then [Sent(BuildAuthResponse(first.value.env.value.requestId, verify(first.value.env.value.body.idToken)))]
            else []
  {
    if first.None? {
      return Err(ReadFailed), [];
    }
    if first.value.Text? || first.value.env.None? {
      return Err(Malformed), [];
    }
    var env := first.value.env.value;
    if env.kind != AUTH_REQUEST {
      return Err(WrongType), [];
    }
    if !env.body.AuthRequestBody? {
      return Err(Malformed), [];
    }
    var v := verify(env.body.idToken);
    sent := [Sent(BuildAuthResponse(env.requestId, v))];
    if !v.ok {
      return Err(InvalidToken), sent;
    }
    return Ok(v.claims), sent;
  }

  predicate IsService(e: ServerEvent) {
    e.Registered? || e.Dispatched? || e.Unregistered?
  }

  /** The envelopes a read loop dispatches: the decodable binary frames up to the first one
      that does not decode or is refused. Text frames are passed over. */
  function Dispatches(frames: seq<Frame>, refuse: Envelope -> bool): seq<ServerEvent> {
    if frames == [] then []
    else if frames[0].Text? then Dispatches(frames[1..], refuse)
    else if frames[0].env.None? then []
    else [Dispatched(frames[0].env.value)]
         + if refuse(frames[0].env.value) then [] else Dispatches(frames[1..], refuse)
  }

  lemma DispatchesFrom(frames: seq<Frame>, i: nat, refuse: Envelope -> bool)
    requires i < |frames|
    ensures var rest := Dispatches(frames[i + 1..], refuse);
      Dispatches(frames[i..], refuse)
      == if frames[i].Text? then rest
         else if frames[i].env.None? then []
         else if refuse(frames[i].env.value) then [Dispatched(frames[i].env.value)]
         else [Dispatched(frames[i].env.value)] + rest
  {
    assert frames[i..][0] == frames[i] && frames[i..][1..] == frames[i + 1..];
  }

  /** The read loop: `refuse` says which envelopes make dispatch fail. */
  method ReadLoop(frames: seq<Frame>, refuse: Envelope -> bool) returns (log: seq<ServerEvent>)
    ensures log == Dispatches(frames, refuse)
  {
    log := [];
    var i := 0;
    while i < |frames|
      invariant i <= |frames|
      invariant log + Dispatches(frames[i..], refuse) == Dispatches(frames, refuse)
    {
      DispatchesFrom(frames, i, refuse);
      if frames[i].Binary? {
        if frames[i].env.None? {
          return;
        }
        var env := frames[i].env.value;
        log := log + [Dispatched(env)];
        if refuse(env) {
          return;
        }
      }
      i := i + 1;
    }
  }

  /** The life of one socket whose inbound frames are `frames`. Without a verifier it
      registers at once. */
  method UpgradeHandler(frames: seq<Frame>, verifier: Option<Verifier>, refuse: Envelope -> bool)
    returns (log: seq<ServerEvent>)
    ensures verifier.Some? && (frames == [] || !Authenticates(frames[0], verifier.value)) ==>
              0 < |log| <= 2 && log[|log| - 1] == ClosedWith(4001)
              && forall i :: 0 <= i < |log| ==> !IsService(log[i])
    ensures verifier.Some? && frames != [] && Authenticates(frames[0], verifier.value) ==>
              var v := verifier.value(frames[0].env.value.body.idToken);
              log == [Sent(BuildAuthResponse(frames[0].env.value.requestId, v)), Registered(v.claims.uid)]
                     + Dispatches(frames[1..], refuse) + [Unregistered]
    ensures verifier.None? ==> log == [Registered("")] + Dispatches(frames, refuse) + [Unregistered]
  {
    var uid, rest := "", frames;
    log := [];
    if verifier.Some? {
      var first := if frames == [] then None else Some(frames[0]);
      var claims, sent := PerformHandshake(first, verifier.value);
      log := sent;
      if claims.Err? {
        log := log + [ClosedWith(CLOSE_UNAUTHENTICATED)];
        return;
      }
      uid, rest := claims.value.uid, frames[1..];
    }
    log := log + [Registered(uid)];
    var served := ReadLoop(rest, refuse);
    log := log + served + [Unregistered];
  }

  lemma {:induction false} DispatchesOnly(frames: seq<Frame>, refuse: Envelope -> bool)
    ensures forall e :: e in Dispatches(frames, refuse) ==> e.Dispatched? && Binary(Some(e.env)) in frames
  {
    if frames != [] {
      DispatchesOnly(frames[1..], refuse);
      assert frames == [frames[0]] + frames[1..];
    }
  }

  /** What each kind of frame does to the read loop, and that what follows it is read next. */
  lemma DispatchesLaws(rest: seq<Frame>, env: Envelope, refuse: Envelope -> bool)
    ensures Dispatches([], refuse) == []
    ensures Dispatches([Text] + rest, refuse) == Dispatches(rest, refuse)
    ensures Dispatches([Binary(None)] + rest, refuse) == []
    ensures !refuse(env) ==>
              Dispatches([Binary(Some(env))] + rest, refuse) == [Dispatched(env)] + Dispatches(rest, refuse)
    ensures refuse(env) ==> Dispatches([Binary(Some(env))] + rest, refuse) == [Dispatched(env)]
  {
    assert ([Text] + rest)[1..] == rest && ([Binary(None)] + rest)[1..] == rest;
    assert ([Binary(Some(env))] + rest)[1..] == rest;
  }
}
