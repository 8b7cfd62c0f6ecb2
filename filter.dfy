/**
 * ClientCertificateRestrictionFilter: the per-connection read filter that
 * holds a new TLS connection until an external service has authorized the
 * peer certificate, and closes the connection without flushing when it has
 * not.
 *
 * Each handler is specified by a function from the filter's state before
 * the call to its state after it; the class's methods are proved to match
 * these functions. The filter's side effects on the connection and on the
 * HTTP async client are recorded, in order, as a log of effects.
 */
module ClientCertificateRestriction {
  import opened Wrappers
  import opened FilterConfig
  import opened PeerIdentity
  import opened AuthorizeJson
  import opened AuthorizeRequest

  datatype Status = Idle | Calling | Complete

  /** What a read-filter callback tells the filter chain. */
  datatype FilterStatus = Continue | StopIteration

  datatype ConnectionEvent = RemoteClose | LocalClose | Connected

  datatype CloseType = FlushWrite | NoFlush

  /** Why the async client gave up on a request; the filter does not look at it. */
  datatype FailureReason = Reset

  /**
   * A response from the authorization service: its status code and its
   * body buffer, None when the reply carried headers only and the async
   * client never allocated a body.
   */
  datatype ResponseMessage = ResponseMessage(statusCode: nat, body: Option<string>)

  /** What the async client delivers for a request: a response or a failure. */
  datatype Answer = Answered(response: ResponseMessage) | Failed(reason: FailureReason)

  /** A side effect of the filter, in the order it happens. */
  datatype Effect =
    | Close(closeType: CloseType)
    | ContinueReading
    | Send(cluster: string, request: RequestMessage, timeoutMs: int)

  datatype FilterState = FilterState(status: Status, authorized: bool, effects: seq<Effect>)

  const Initial := FilterState(Idle, false, [])

  /** A caller identity the filter is prepared to send: both parts nonempty. */
  datatype Identity = Identity(uriSan: string, serial: string)

  /**
   * The identity read from the connection's TLS session, None when there is
   * no TLS session, no URI SAN, or no serial text.
   */
  function ExtractIdentity(ssl: Option<SslConnection>): (id: Option<Identity>)
    ensures id.None? <==>
      || ssl.None?
      || ssl.value.uriSan == ""
      || !ssl.value.isSslSocket
      || ssl.value.peerCertificate.None?
      || ssl.value.peerCertificate.value.serial.None?
    ensures id.Some? ==> id.value.uriSan == ssl.value.uriSan
    ensures id.Some? ==> id.value.serial != "" && SerialHex.ParseSerial(id.value.serial) == ssl.value.peerCertificate.value.serial
    ensures id.Some? ==> id.value.serial == SerialHex.BnToHex(ssl.value.peerCertificate.value.serial.value)
  {
    if ssl.None? then None
    else
      var uriSan := ssl.value.uriSan;
      var serial := ConnectionSerialNumber(ssl.value);
      if uriSan == [] || serial == [] then None else Some(Identity(uriSan, serial))
  }

  /**
   * The request sent for `id`: to the configured cluster, with the
   * configured timeout, built by getRequest around a payload that decodes to
   * the configured target and the identity's URI SAN and serial.
   */
  function AuthorizeSend(config: Config, id: Identity): (e: Effect)
    ensures e.Send? && e.cluster == config.authorizeClusterName && e.timeoutMs == config.requestTimeoutMs
    ensures e.request == GetRequest(config.authorizeHostname, e.request.body)
    ensures DecodePayload(e.request.body) == Some(AuthorizePayload(config.target, id.uriSan, id.serial))
  {
    Send(
      config.authorizeClusterName,
      GetRequest(config.authorizeHostname, GetPayload(config.target, id.uriSan, id.serial)),
      config.requestTimeoutMs)
  }

  /** closeConnection: close without flushing. */
  function CloseStep(s: FilterState): (t: FilterState)
    ensures t.status == s.status && t.authorized == s.authorized
    ensures t.effects == s.effects + [Close(NoFlush)]
  {
    s.(effects := s.effects + [Close(NoFlush)])
  }

  /** onData: data passes exactly when the filter has been authorized. */
  function DataStatus(s: FilterState): (r: FilterStatus)
    ensures r == Continue <==> s.authorized
  {
    if s.authorized then Continue else StopIteration
  }

  /**
   * The Connected path once an identity has been read, with the status set
   * to Calling before any answer can arrive: Calling while the request is
   * outstanding, and whatever the answer makes of it once it comes, whether
   * the async client delivers it during send() (`inline`) or later.
   */
  function ConnectedStep(config: Config, s: FilterState, id: Identity, inline: Option<Answer>): (t: FilterState)
    ensures t.status == Calling <==> inline.None?
    ensures inline.None? ==> t.effects == s.effects + [AuthorizeSend(config, id)]
    ensures inline.Some? ==>
      |t.effects| == |s.effects| + 2 && t.effects[..|s.effects| + 1] == s.effects + [AuthorizeSend(config, id)]
    ensures inline.Some? ==> t.status == Complete
    ensures inline.Some? ==>
      t.effects[|s.effects| + 1]
        == (if inline.value.Answered? && DecodeResponse(BodyText(inline.value.response)) == Some(true)
            then ContinueReading else Close(NoFlush))
    ensures t.authorized <==>
      s.authorized || (inline.Some? && inline.value.Answered? && DecodeResponse(BodyText(inline.value.response)) == Some(true))
  {
    var calling := s.(status := Calling, effects := s.effects + [AuthorizeSend(config, id)]);
    if inline.None? then calling else AnswerStep(calling, inline.value)
  }

  /**
   * The Connected path as the code orders it: send(), during which the async
   * client may already call onSuccess or onFailure, and only then
   * status := Calling, which overwrites the Complete such a callback set.
   */
  function ConnectedStepAsWritten(config: Config, s: FilterState, id: Identity, inline: Option<Answer>): (t: FilterState)
    ensures t.status == Calling
    ensures t == ConnectedStep(config, s, id, inline).(status := Calling)
  {
    var sent := s.(effects := s.effects + [AuthorizeSend(config, id)]);
    var answered := if inline.None? then sent else AnswerStep(sent, inline.value);
    answered.(status := Calling)
  }

  /**
   * An answer delivered during send() leaves the filter, as written, in
   * Calling although the request is over: here an immediate reset has closed
   * the connection and nothing is outstanding.
   */
  lemma ImmediateResetLeavesCalling(config: Config, id: Identity)
    ensures ConnectedStepAsWritten(config, Initial, id, Some(Failed(Reset)))
      == FilterState(Calling, false, [AuthorizeSend(config, id), Close(NoFlush)])
    ensures ConnectedStepAsWritten(config, Initial, id, Some(Failed(Reset))).status
      != AnswerStep(ConnectedStep(config, Initial, id, None), Failed(Reset)).status
  {
  }

  /** With the status set first, an answer during send() has the same outcome as the same answer later. */
  lemma InlineAnswerActsLikeLaterAnswer(config: Config, s: FilterState, id: Identity, a: Answer)
    ensures ConnectedStep(config, s, id, Some(a)) == AnswerStep(ConnectedStep(config, s, id, None), a)
  {
  }

  /** With the status set first, an immediate reset ends Complete, as a later one does. */
  lemma ImmediateResetCompletes(config: Config, id: Identity)
    ensures ConnectedStep(config, Initial, id, Some(Failed(Reset)))
      == FilterState(Complete, false, [AuthorizeSend(config, id), Close(NoFlush)])
  {
  }

  /**
   * onEvent. Any event but Connected changes nothing. On Connected the
   * filter closes the connection, leaving the status as it is, when no
   * identity can be read; otherwise it sends one authorization request and
   * is Calling until an answer arrives.
   */
  function EventStep(config: Config, s: FilterState, event: ConnectionEvent, ssl: Option<SslConnection>): (t: FilterState)
    ensures event != Connected ==> t == s
    ensures t.authorized == s.authorized
    ensures event == Connected && ExtractIdentity(ssl).None? ==> t == CloseStep(s)
    ensures event == Connected && ExtractIdentity(ssl).Some? ==>
      t.status == Calling && t.effects == s.effects + [AuthorizeSend(config, ExtractIdentity(ssl).value)]
  {
    if event != Connected then s
    else
      match ExtractIdentity(ssl)
      case None => CloseStep(s)
      case Some(id) => ConnectedStep(config, s, id, None)
  }

  /**
   * getBodyString as written: it dereferences the message's body buffer
   * without a check, so a reply that carried headers only has no defined
   * text (None).
   */
  function GetBodyString(m: ResponseMessage): (r: Option<string>)
    ensures r.Some? <==> m.body.Some?
    ensures r.Some? ==> r.value == m.body.value
  {
    m.body
  }

  /** The body text the handler reads: a reply without a body buffer has the empty body. */
  function BodyText(m: ResponseMessage): (r: string)
    ensures GetBodyString(m).Some? ==> r == GetBodyString(m).value
    ensures GetBodyString(m).None? ==> r == "" && DecodeResponse(r).None?
  {
    match GetBodyString(m)
    case Some(text) => text
    case None => ""
  }

  /** A 200 reply with headers only: getBodyString as written has no text to return. */
  lemma HeadersOnlyReplyHasNoText()
    ensures GetBodyString(ResponseMessage(200, None)).None?
  {
  }

  /**
   * onSuccess. The status becomes Complete whatever the answer. A body that
   * decodes with authorized = true sets the flag and resumes reading; any
   * other body (unparsable, false, field absent) closes the connection and
   * leaves the flag as it was.
   */
  function SuccessStep(s: FilterState, m: ResponseMessage): (t: FilterState)
    ensures t.status == Complete
    ensures DecodeResponse(BodyText(m)) == Some(true) ==>
      t.authorized && t.effects == s.effects + [ContinueReading]
    ensures DecodeResponse(BodyText(m)) != Some(true) ==>
      t.authorized == s.authorized && t.effects == s.effects + [Close(NoFlush)]
  {
    var done := s.(status := Complete);
    if DecodeResponse(BodyText(m)) == Some(true) then
      done.(authorized := true, effects := s.effects + [ContinueReading])
    else
      CloseStep(done)
  }

  /** onFailure: Complete, closed without flushing; never authorizes, never retries. */
  function FailureStep(s: FilterState, reason: FailureReason): (t: FilterState)
    ensures t.status == Complete && t.authorized == s.authorized
    ensures t.effects == s.effects + [Close(NoFlush)]
  {
    CloseStep(s.(status := Complete))
  }

  /** The step for an answer from the async client. */
  function AnswerStep(s: FilterState, a: Answer): (t: FilterState)
    ensures t.status == Complete
    ensures t.authorized <==> s.authorized || (a.Answered? && DecodeResponse(BodyText(a.response)) == Some(true))
  {
    match a
    case Answered(m) => SuccessStep(s, m)
    case Failed(r) => FailureStep(s, r)
  }

  /** A reply without a body is read as the empty body: it never grants and it closes the connection. */
  lemma BodilessReplyCloses(s: FilterState, m: ResponseMessage)
    requires m.body.None?
    ensures SuccessStep(s, m) == FilterState(Complete, s.authorized, s.effects + [Close(NoFlush)])
  {
  }

  class Filter {
    const config: Config
    var status: Status
    var hasBeenAuthorized: bool
    var effects: seq<Effect>

    function State(): FilterState
      reads this
    {
      FilterState(status, hasBeenAuthorized, effects)
    }

    constructor (config: Config)
      ensures this.config == config && State() == Initial
    {
      this.config := config;
      status := Idle;
      hasBeenAuthorized := false;
      effects := [];
    }

    method OnData() returns (r: FilterStatus)
      ensures r == Continue <==> hasBeenAuthorized
    {
      r := DataStatus(State());
    }

    method OnNewConnection() returns (r: FilterStatus)
      ensures r == StopIteration
    {
      r := StopIteration;
    }

    method CloseConnection()
      modifies this
      ensures State() == CloseStep(old(State()))
    {
      effects := effects + [Close(NoFlush)];
    }

    method OnEvent(event: ConnectionEvent, ssl: Option<SslConnection>)
      modifies this
      ensures State() == EventStep(config, old(State()), event, ssl)
    {
      if event != Connected {
        return;
      }
      if ssl.None? {
        CloseConnection();
        return;
      }
      var uriSan := ssl.value.uriSan;
      var serial := ConnectionSerialNumber(ssl.value);
      if uriSan == [] || serial == [] {
        CloseConnection();
        return;
      }
      var payload := GetPayload(config.target, uriSan, serial);
      var request := GetRequest(config.authorizeHostname, payload);
      effects := effects + [Send(config.authorizeClusterName, request, config.requestTimeoutMs)];
      status := Calling;
    }

    method OnSuccess(m: ResponseMessage)
      modifies this
      ensures State() == SuccessStep(old(State()), m)
    {
      var json := BodyText(m);
      status := Complete;
      var decoded := DecodeResponse(json);
      if decoded.Some? && decoded.value {
        hasBeenAuthorized := true;
        effects := effects + [ContinueReading];
      } else {
        CloseConnection();
      }
    }

    method OnFailure(reason: FailureReason)
      modifies this
      ensures State() == FailureStep(old(State()), reason)
    {
      status := Complete;
      CloseConnection();
    }
  }
}
