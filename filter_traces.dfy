/**
 * What the filter does over the whole life of a connection: the handlers
 * applied, in order, to a sequence of callbacks from the proxy and from
 * the HTTP async client.
 */
module FilterTraces {
  import opened Wrappers
  import opened FilterConfig
  import opened PeerIdentity
  import opened AuthorizeJson
  import opened AuthorizeRequest
  import opened ClientCertificateRestriction

  /** One callback into the filter. */
  datatype Input =
    | NewConnection
    | Data
    | Event(event: ConnectionEvent)
    | Success(response: ResponseMessage)
    | Failure(reason: FailureReason)

  /** The state after one callback; `ssl` is the connection's TLS session. */
  function Step(config: Config, ssl: Option<SslConnection>, s: FilterState, i: Input): FilterState
  {
    match i
    case NewConnection => s
    case Data => s
    case Event(e) => EventStep(config, s, e, ssl)
    case Success(m) => SuccessStep(s, m)
    case Failure(r) => FailureStep(s, r)
  }

  function Run(config: Config, ssl: Option<SslConnection>, s: FilterState, inputs: seq<Input>): FilterState
    decreases |inputs|
  {
    if inputs == [] then s else Run(config, ssl, Step(config, ssl, s, inputs[0]), inputs[1..])
  }

  /** A response that authorizes the connection. */
  predicate Grants(i: Input)
  {
    i.Success? && DecodeResponse(BodyText(i.response)) == Some(true)
  }

  /** A callback that leaves the filter's state alone. */
  predicate Quiet(i: Input)
  {
    i.NewConnection? || i.Data? || (i.Event? && i.event != Connected)
  }

  predicate AllQuiet(inputs: seq<Input>)
  {
    forall k :: 0 <= k < |inputs| ==> Quiet(inputs[k])
  }

  function CountSends(es: seq<Effect>): nat
  {
    if es == [] then 0 else CountSends(es[..|es| - 1]) + (if es[|es| - 1].Send? then 1 else 0)
  }

  function CountConnected(inputs: seq<Input>): nat
  {
    if inputs == [] then 0 else (if inputs[0] == Event(Connected) then 1 else 0) + CountConnected(inputs[1..])
  }

  // ---------------------------------------------------------------------
  // Composition

  lemma {:induction false} RunAppend(config: Config, ssl: Option<SslConnection>, s: FilterState, a: seq<Input>, b: seq<Input>)
    ensures Run(config, ssl, s, a + b) == Run(config, ssl, Run(config, ssl, s, a), b)
    decreases |a|
  {
    if a == [] {
      assert a + b == b;
    } else {
      assert (a + b)[0] == a[0];
      assert (a + b)[1..] == a[1..] + b;
      RunAppend(config, ssl, Step(config, ssl, s, a[0]), a[1..], b);
    }
  }

  lemma RunOne(config: Config, ssl: Option<SslConnection>, s: FilterState, i: Input)
    ensures Run(config, ssl, s, [i]) == Step(config, ssl, s, i)
  {
    assert [i][1..] == [];
  }

  /** Callbacks other than Connected and the two responses change nothing. */
  lemma {:induction false} QuietRun(config: Config, ssl: Option<SslConnection>, s: FilterState, inputs: seq<Input>)
    requires AllQuiet(inputs)
    ensures Run(config, ssl, s, inputs) == s
    decreases |inputs|
  {
    if inputs != [] {
      assert Quiet(inputs[0]);
      QuietRun(config, ssl, s, inputs[1..]);
    }
  }

  // ---------------------------------------------------------------------
  // Properties of every run

  /** Effects are only ever added: the log of a run extends the log it started from. */
  lemma {:induction false} EffectsOnlyGrow(config: Config, ssl: Option<SslConnection>, s: FilterState, inputs: seq<Input>)
    ensures |s.effects| <= |Run(config, ssl, s, inputs).effects|
    ensures Run(config, ssl, s, inputs).effects[..|s.effects|] == s.effects
    decreases |inputs|
  {
    if inputs != [] {
      var t := Step(config, ssl, s, inputs[0]);
      EffectsOnlyGrow(config, ssl, t, inputs[1..]);
      assert t.effects[..|s.effects|] == s.effects;
    }
  }

  /** Nothing ever clears the authorized flag: once data flows, it keeps flowing. */
  lemma {:induction false} AuthorizationIsSticky(config: Config, ssl: Option<SslConnection>, s: FilterState, inputs: seq<Input>)
    requires s.authorized
    ensures Run(config, ssl, s, inputs).authorized
    ensures DataStatus(Run(config, ssl, s, inputs)) == Continue
    decreases |inputs|
  {
    if inputs != [] {
      AuthorizationIsSticky(config, ssl, Step(config, ssl, s, inputs[0]), inputs[1..]);
    }
  }

  lemma StepAuthorized(config: Config, ssl: Option<SslConnection>, s: FilterState, i: Input)
    ensures Step(config, ssl, s, i).authorized <==> s.authorized || Grants(i)
  {
  }

  /**
   * The filter ends a run authorized exactly when it started authorized or
   * some response in the run granted access.
   */
  lemma {:induction false} AuthorizedIffGranted(config: Config, ssl: Option<SslConnection>, s: FilterState, inputs: seq<Input>)
    ensures Run(config, ssl, s, inputs).authorized <==>
      s.authorized || exists k :: 0 <= k < |inputs| && Grants(inputs[k])
    decreases |inputs|
  {
    if inputs != [] {
      var t := Step(config, ssl, s, inputs[0]);
      var tail := inputs[1..];
      AuthorizedIffGranted(config, ssl, t, tail);
      StepAuthorized(config, ssl, s, inputs[0]);
      if exists k :: 0 <= k < |tail| && Grants(tail[k]) {
        var k :| 0 <= k < |tail| && Grants(tail[k]);
        assert Grants(inputs[k + 1]);
      }
      if exists k :: 0 <= k < |inputs| && Grants(inputs[k]) {
        var k :| 0 <= k < |inputs| && Grants(inputs[k]);
        if k > 0 {
          assert Grants(tail[k - 1]);
        }
      }
    }
  }

  /** From a fresh filter, onData lets data through exactly when some response has granted access. */
  lemma DataPassesIffGranted(config: Config, ssl: Option<SslConnection>, inputs: seq<Input>)
    ensures DataStatus(Run(config, ssl, Initial, inputs)) == Continue <==>
      exists k :: 0 <= k < |inputs| && Grants(inputs[k])
  {
    AuthorizedIffGranted(config, ssl, Initial, inputs);
  }

  lemma CountSendsAppend(es: seq<Effect>, e: Effect)
    ensures CountSends(es + [e]) == CountSends(es) + (if e.Send? then 1 else 0)
  {
    assert (es + [e])[..|es|] == es;
  }

  lemma StepSends(config: Config, ssl: Option<SslConnection>, s: FilterState, i: Input)
    ensures CountSends(Step(config, ssl, s, i).effects) ==
      CountSends(s.effects) + (if i == Event(Connected) && ExtractIdentity(ssl).Some? then 1 else 0)
  {
    match i
    case NewConnection =>
    case Data =>
    case Event(e) =>
      if e == Connected {
        if ExtractIdentity(ssl).Some? {
          CountSendsAppend(s.effects, AuthorizeSend(config, ExtractIdentity(ssl).value));
        } else {
          CountSendsAppend(s.effects, Close(NoFlush));
        }
      }
    case Success(m) =>
      CountSendsAppend(s.effects, ContinueReading);
      CountSendsAppend(s.effects, Close(NoFlush));
    case Failure(r) =>
      CountSendsAppend(s.effects, Close(NoFlush));
  }

  /**
   * One request per Connected event when the peer has a usable identity,
   * none at all otherwise: no response, failure or data ever triggers a
   * retry.
   */
  lemma {:induction false} SendsMatchConnectedEvents(config: Config, ssl: Option<SslConnection>, s: FilterState, inputs: seq<Input>)
    ensures CountSends(Run(config, ssl, s, inputs).effects) ==
      CountSends(s.effects) + (if ExtractIdentity(ssl).Some? then CountConnected(inputs) else 0)
    decreases |inputs|
  {
    if inputs != [] {
      StepSends(config, ssl, s, inputs[0]);
      SendsMatchConnectedEvents(config, ssl, Step(config, ssl, s, inputs[0]), inputs[1..]);
    }
  }

  /** A connection whose peer identity cannot be read never causes a request, whatever happens on it. */
  lemma NoRequestWithoutIdentity(config: Config, ssl: Option<SslConnection>, inputs: seq<Input>)
    requires ExtractIdentity(ssl).None?
    ensures CountSends(Run(config, ssl, Initial, inputs).effects) == 0
  {
    SendsMatchConnectedEvents(config, ssl, Initial, inputs);
  }

  /** The effects a filter for `config` on a connection with TLS session `ssl` may produce. */
  predicate WellFormedEffects(config: Config, ssl: Option<SslConnection>, es: seq<Effect>)
  {
    forall k :: 0 <= k < |es| ==>
      && (es[k].Send? ==> ExtractIdentity(ssl).Some? && es[k] == AuthorizeSend(config, ExtractIdentity(ssl).value))
      && (es[k].Close? ==> es[k].closeType == NoFlush)
  }

  lemma {:induction false} WellFormedRun(config: Config, ssl: Option<SslConnection>, s: FilterState, inputs: seq<Input>)
    requires WellFormedEffects(config, ssl, s.effects)
    ensures WellFormedEffects(config, ssl, Run(config, ssl, s, inputs).effects)
    decreases |inputs|
  {
    if inputs != [] {
      var t := Step(config, ssl, s, inputs[0]);
      assert WellFormedEffects(config, ssl, t.effects);
      WellFormedRun(config, ssl, t, inputs[1..]);
    }
  }

  /**
   * Every request the filter sends goes to the configured cluster with the
   * configured timeout, as a JSON POST to the authorize path on the
   * configured host, and its body decodes to the configured target and the
   * peer's URI SAN and serial, which in turn reads back as the
   * certificate's serial number. Every close is a close without flushing.
   */
  lemma SentRequestsCarryIdentity(config: Config, ssl: Option<SslConnection>, inputs: seq<Input>, k: nat)
    requires k < |Run(config, ssl, Initial, inputs).effects|
    ensures var e := Run(config, ssl, Initial, inputs).effects[k];
      && (e.Close? ==> e.closeType == NoFlush)
      && (e.Send? ==>
        && ExtractIdentity(ssl).Some?
        && e.cluster == config.authorizeClusterName
        && e.timeoutMs == config.requestTimeoutMs
        && e.request == GetRequest(
             config.authorizeHostname, GetPayload(config.target, ssl.value.uriSan, ExtractIdentity(ssl).value.serial))
        && e.request.headers[MethodHeader] == Post
        && e.request.headers[PathHeader] == AuthorizePath
        && e.request.headers[HostHeader] == config.authorizeHostname
        && e.request.headers[ContentTypeHeader] == JsonContentType
        && DecimalValue(e.request.headers[ContentLengthHeader]) == Some(Utf8Length(e.request.body))
        && DecodePayload(e.request.body) == Some(AuthorizePayload(
             config.target, ssl.value.uriSan, ExtractIdentity(ssl).value.serial))
        && SerialHex.ParseSerial(ExtractIdentity(ssl).value.serial) == ssl.value.peerCertificate.value.serial)
  {
    WellFormedRun(config, ssl, Initial, inputs);
  }

  /** The status is Calling only once a request has gone out. */
  predicate CallingAfterSend(s: FilterState)
  {
    s.status == Calling ==> CountSends(s.effects) > 0
  }

  lemma {:induction false} CallingOnlyAfterSend(config: Config, ssl: Option<SslConnection>, s: FilterState, inputs: seq<Input>)
    requires CallingAfterSend(s)
    ensures CallingAfterSend(Run(config, ssl, s, inputs))
    decreases |inputs|
  {
    if inputs != [] {
      var t := Step(config, ssl, s, inputs[0]);
      StepSends(config, ssl, s, inputs[0]);
      assert CallingAfterSend(t);
      CallingOnlyAfterSend(config, ssl, t, inputs[1..]);
    }
  }

  // ---------------------------------------------------------------------
  // Whole sessions: one Connected event, at most one answer

  /**
   * A peer without a usable identity: the connection is closed once,
   * without flushing, no request is sent, the filter never authorizes and
   * its status stays Idle.
   */
  lemma MissingIdentityFailsClosed(config: Config, ssl: Option<SslConnection>, pre: seq<Input>, post: seq<Input>)
    requires ExtractIdentity(ssl).None?
    requires AllQuiet(pre) && AllQuiet(post)
    ensures Run(config, ssl, Initial, pre + [Event(Connected)] + post) == FilterState(Idle, false, [Close(NoFlush)])
  {
    var closed := FilterState(Idle, false, [Close(NoFlush)]);
    RunAppend(config, ssl, Initial, pre + [Event(Connected)], post);
    RunAppend(config, ssl, Initial, pre, [Event(Connected)]);
    QuietRun(config, ssl, Initial, pre);
    RunOne(config, ssl, Initial, Event(Connected));
    assert Step(config, ssl, Initial, Event(Connected)) == closed;
    QuietRun(config, ssl, closed, post);
  }

  /** A peer with a usable identity, before any answer: exactly one request is in flight. */
  lemma RequestInFlight(config: Config, ssl: Option<SslConnection>, pre: seq<Input>, mid: seq<Input>)
    requires ExtractIdentity(ssl).Some?
    requires AllQuiet(pre) && AllQuiet(mid)
    ensures Run(config, ssl, Initial, pre + [Event(Connected)] + mid)
      == FilterState(Calling, false, [AuthorizeSend(config, ExtractIdentity(ssl).value)])
  {
    var calling := FilterState(Calling, false, [AuthorizeSend(config, ExtractIdentity(ssl).value)]);
    RunAppend(config, ssl, Initial, pre + [Event(Connected)], mid);
    RunAppend(config, ssl, Initial, pre, [Event(Connected)]);
    QuietRun(config, ssl, Initial, pre);
    RunOne(config, ssl, Initial, Event(Connected));
    assert Step(config, ssl, Initial, Event(Connected)) == calling;
    QuietRun(config, ssl, calling, mid);
  }

  /**
   * A peer with a usable identity and one answer from the async client:
   * the status ends Complete after exactly one request; a granting response
   * authorizes and resumes reading, while any other response and any
   * failure close the connection once, without flushing.
   */
  lemma SessionOutcome(config: Config, ssl: Option<SslConnection>, pre: seq<Input>, mid: seq<Input>, answer: Input, post: seq<Input>)
    requires ExtractIdentity(ssl).Some?
    requires AllQuiet(pre) && AllQuiet(mid) && AllQuiet(post)
    requires answer.Success? || answer.Failure?
    ensures Run(config, ssl, Initial, pre + [Event(Connected)] + mid + [answer] + post)
      == FilterState(
           Complete,
           Grants(answer),
           [AuthorizeSend(config, ExtractIdentity(ssl).value), if Grants(answer) then ContinueReading else Close(NoFlush)])
  {
    var flight := pre + [Event(Connected)] + mid;
    var calling := FilterState(Calling, false, [AuthorizeSend(config, ExtractIdentity(ssl).value)]);
    RequestInFlight(config, ssl, pre, mid);
    RunAppend(config, ssl, Initial, flight + [answer], post);
    RunAppend(config, ssl, Initial, flight, [answer]);
    RunOne(config, ssl, calling, answer);
    QuietRun(config, ssl, Step(config, ssl, calling, answer), post);
  }

  // ---------------------------------------------------------------------
  // A worked session

  function ExampleConfig(): Config
  {
    MakeConfig(ConfigProto("svc-a", "authz.internal", "authz", Some(Duration(0, 500_000_000))))
  }

  function ExamplePeer(): Option<SslConnection>
  {
    Some(SslConnection("spiffe://cluster/svc-b", true, Some(PeerCertificate(Some(0x4f3)))))
  }

  lemma ExampleIdentity()
    ensures ExtractIdentity(ExamplePeer()) == Some(Identity("spiffe://cluster/svc-b", "04f3"))
    ensures ExampleConfig().requestTimeoutMs == 500 && ExampleConfig().target == "svc-a"
  {
    SerialHex.SerialExamples();
  }

  /**
   * Target "svc-a" with a 500 ms timeout; the peer presents URI
   * "spiffe://cluster/svc-b" and a certificate whose serial renders as
   * "04f3" (ExampleIdentity shows ExampleConfig and ExamplePeer are such a
   * pair). The single request carries exactly those values; an answer of
   * true keeps the connection open, an answer of false or a failure closes
   * it.
   */
  lemma ExampleSession(config: Config, ssl: Option<SslConnection>, failed: bool, granted: bool)
    requires config.target == "svc-a" && config.requestTimeoutMs == 500
    requires ExtractIdentity(ssl) == Some(Identity("spiffe://cluster/svc-b", "04f3"))
    ensures var answer := if failed then Failure(Reset) else Success(ResponseMessage(200, Some(EncodeResponse(granted))));
      var r := Run(config, ssl, Initial, [NewConnection, Event(Connected), answer, Data]);
      && |r.effects| == 2 && r.effects[0].Send?
      && r.effects[0].timeoutMs == 500
      && DecodePayload(r.effects[0].request.body) == Some(AuthorizePayload("svc-a", "spiffe://cluster/svc-b", "04f3"))
      && (r.authorized <==> !failed && granted)
      && (r.effects[1] == Close(NoFlush) <==> !r.authorized)
  {
    var answer := if failed then Failure(Reset) else Success(ResponseMessage(200, Some(EncodeResponse(granted))));
    var inputs := [NewConnection, Event(Connected), answer, Data];
    ResponseRoundTrip(granted);
    assert Grants(answer) <==> !failed && granted;
    assert inputs == [NewConnection] + [Event(Connected)] + [] + [answer] + [Data];
    SessionOutcome(config, ssl, [NewConnection], [], answer, [Data]);
    SentRequestsCarryIdentity(config, ssl, inputs, 0);
  }
}
