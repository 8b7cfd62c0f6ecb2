# Client-certificate restriction filter, modelled in Dafny

This project models the `client_certificate_restriction` network filter of an
Envoy-based proxy. The filter is a per-connection authorization gate. When a
TLS connection reports `Connected`, it reads the peer certificate's URI SAN
and serial number. If either is missing it closes the connection at once.
Otherwise it sends one JSON request to an authorization cluster. A response
whose `authorized` field is true resumes reading and lets data through from
then on. Any other response, and any failure, closes the connection without
flushing.

Modules, one per component of the filter's source file:

- `SerialHex` (serial_hex.dfy): BoringSSL's `BN_bn2hex` rendering of the
  serial number, with a parser and the round trip.
- `PeerIdentity` (peer_identity.dfy): the TLS session and peer certificate
  as values, and both `getSerialNumber` overloads.
- `AuthorizeJson` (authorize_json.dfy): the request payload (`getPayload`)
  and the response decoding (`JsonStringToMessage` into
  `AuthorizeResponse`), over a flat-object JSON subset.
- `AuthorizeRequest` (authorize_request.dfy): `getRequest`, with the
  Content-Length arithmetic (UTF-8 byte length, decimal text).
- `FilterConfig` (filter_config.dfy): the config constructor and its
  1000 ms timeout default.
- `ClientCertificateRestriction` (filter.dfy): the filter as a class.
  Fields are `status`, `hasBeenAuthorized` and `effects`. `effects` logs
  the filter's side effects in order: close without flushing, continue
  reading, send request. Each handler method is proved equal to a pure step
  function of the old state.
- `FilterTraces` (filter_traces.dfy): the handlers run over any sequence of
  callbacks, with lemmas about whole connections.

Modelling choices that follow the code:

- The fail-closed branches of `onEvent` never assign `status_`, so it
  stays `Idle`.
- No handler checks `status_` before acting, and neither does the model.
  For example, a second `Connected` event would send a second request.
  `SendsMatchConnectedEvents` states that count exactly.
- `BN_bn2hex` writes whole bytes, so 0x4f3 renders as "04f3". It writes
  "0" for zero and a leading '-' for a negative serial. The serial is
  therefore modelled as an `int`.
- The protobuf JSON printer leaves out string fields that hold their
  default value "". So `getPayload` with an empty target writes no target
  field, and reading the payload back restores "".
- `JsonStringToMessage` fails on malformed text and on unknown fields. A
  missing or null `authorized` field reads as false. The model's decoder
  refuses some bodies the library accepts, and each refusal closes the
  connection: a string-typed boolean such as `"true"`, a repeated
  `authorized` key, and lenient syntax such as unquoted keys or
  single-quoted strings. It never grants where the library would close.
- The source orders `send()` before `status_ = Calling`, and reads the
  body buffer without a null check. Both are recorded under "Findings".
  The response handler reads a missing body as the empty body. `Filter.OnEvent`
  keeps the code's order, send first and then Calling. This agrees with
  the corrected `ConnectedStep` only because the class never receives an
  answer during `send()`.
- Content-Length is `payload.length()`. That counts bytes, so the model
  uses the UTF-8 length of the payload, written in decimal.
- `PROTOBUF_GET_MS_OR_DEFAULT` uses 1000 ms only when the timeout field is
  unset. An explicit zero stays zero. Sub-millisecond parts are truncated
  toward zero, as C++ division does.

## Model

| member | source | states |
|---|---|---|
| FilterConfig.MakeConfig | source/extensions/filters/network/client_certificate_restriction/client_certificate_restriction.cc:20-27 | target, hostname and cluster name are copied unchanged; the timeout is the configured duration in milliseconds, or 1000 when the field is unset |
| FilterConfig.MillisecondsOfNonnegativeDuration | source/extensions/filters/network/client_certificate_restriction/client_certificate_restriction.cc:26-27 | for a nonnegative duration the timeout is its length in milliseconds rounded down: never more, less by under one millisecond |
| FilterConfig.MillisecondsOfNegatedDuration | source/extensions/filters/network/client_certificate_restriction/client_certificate_restriction.cc:26-27 | the millisecond conversion truncates toward zero, so negating a duration negates its conversion |
| FilterConfig.ConfigExamples | source/extensions/filters/network/client_certificate_restriction/client_certificate_restriction.cc:26-27 | unset timeout gives 1000 ms, 0.5 s gives 500 ms, an explicit zero gives 0 |
| ClientCertificateRestriction.Filter.constructor | source/extensions/filters/network/client_certificate_restriction/client_certificate_restriction.cc:29-32 | a new filter is Idle, not authorized, and has done nothing |
| ClientCertificateRestriction.Filter.OnData | source/extensions/filters/network/client_certificate_restriction/client_certificate_restriction.cc:34-38 | data continues exactly when the authorized flag is set, and stops iteration otherwise |
| ClientCertificateRestriction.DataStatus | source/extensions/filters/network/client_certificate_restriction/client_certificate_restriction.cc:34-38 | onData's answer is Continue if and only if the filter is authorized |
| ClientCertificateRestriction.Filter.OnNewConnection | source/extensions/filters/network/client_certificate_restriction/client_certificate_restriction.cc:40-42 | a new connection always stops iteration |
| ClientCertificateRestriction.ExtractIdentity | source/extensions/filters/network/client_certificate_restriction/client_certificate_restriction.cc:50-66 | there is no usable identity exactly when there is no TLS session, the URI SAN is empty, the session is not an SslSocket, no peer certificate is present, or the serial has no text; otherwise the identity holds the URI SAN and serial text that reads back as the certificate's serial |
| ClientCertificateRestriction.AuthorizeSend | source/extensions/filters/network/client_certificate_restriction/client_certificate_restriction.cc:69-82 | the request goes to the configured cluster with the configured timeout, is getRequest around its own body, and that body decodes to the configured target and the identity's URI SAN and serial |
| ClientCertificateRestriction.ConnectedStep | source/extensions/filters/network/client_certificate_restriction/client_certificate_restriction.cc:69-83 | with the status set before any answer: Calling exactly while no answer has come; the request is appended first; with an answer during send() the status is Complete and the last effect is a resume for a granting response and a close without flushing otherwise; the flag is set only by a granting response |
| ClientCertificateRestriction.ConnectedStepAsWritten | source/extensions/filters/network/client_certificate_restriction/client_certificate_restriction.cc:82-83 | in the code's order the final status is Calling whatever answer arrived during send(); otherwise it agrees with ConnectedStep |
| ClientCertificateRestriction.ImmediateResetLeavesCalling | source/extensions/filters/network/client_certificate_restriction/client_certificate_restriction.cc:82-83 | as written, a reset during send() leaves a closed connection with status Calling, unlike the same reset arriving later |
| ClientCertificateRestriction.ImmediateResetCompletes | source/extensions/filters/network/client_certificate_restriction/client_certificate_restriction.cc:82-83 | with the status set first, a reset during send() leaves the connection closed and the status Complete |
| ClientCertificateRestriction.InlineAnswerActsLikeLaterAnswer | source/extensions/filters/network/client_certificate_restriction/client_certificate_restriction.cc:82-83 | with the status set first, any answer during send() ends in the same state as that answer after send() |
| ClientCertificateRestriction.EventStep | source/extensions/filters/network/client_certificate_restriction/client_certificate_restriction.cc:44-84 | events other than Connected change nothing; Connected without a usable identity closes the connection and leaves status and flag as they were; Connected with one appends exactly one request and only then sets Calling |
| ClientCertificateRestriction.Filter.OnEvent | source/extensions/filters/network/client_certificate_restriction/client_certificate_restriction.cc:44-84 | the handler's new state is EventStep of its old state, branch for branch |
| ClientCertificateRestriction.GetBodyString | source/extensions/filters/network/client_certificate_restriction/client_certificate_restriction.cc:194-198 | as written: the body text exactly when the reply has a body buffer, and no defined text when it has none |
| ClientCertificateRestriction.HeadersOnlyReplyHasNoText | source/extensions/filters/network/client_certificate_restriction/client_certificate_restriction.cc:194-198 | a 200 reply with headers only gives getBodyString nothing to read |
| ClientCertificateRestriction.BodyText | source/extensions/filters/network/client_certificate_restriction/client_certificate_restriction.cc:194-198 | the reply's body text, or the empty body when there is no body buffer, which never decodes |
| ClientCertificateRestriction.BodilessReplyCloses | source/extensions/filters/network/client_certificate_restriction/client_certificate_restriction.cc:86-107 | a reply without a body leaves the flag alone, sets Complete and closes the connection once without flushing |
| ClientCertificateRestriction.SuccessStep | source/extensions/filters/network/client_certificate_restriction/client_certificate_restriction.cc:86-107 | the status becomes Complete; a body that decodes to authorized = true sets the flag and resumes reading; any other body closes the connection and leaves the flag unchanged |
| ClientCertificateRestriction.Filter.OnSuccess | source/extensions/filters/network/client_certificate_restriction/client_certificate_restriction.cc:86-107 | the handler's new state is SuccessStep of its old state |
| ClientCertificateRestriction.FailureStep | source/extensions/filters/network/client_certificate_restriction/client_certificate_restriction.cc:109-118 | a failure of any reason sets Complete and closes without flushing; it never authorizes and sends nothing |
| ClientCertificateRestriction.Filter.OnFailure | source/extensions/filters/network/client_certificate_restriction/client_certificate_restriction.cc:109-118 | the handler's new state is FailureStep of its old state |
| ClientCertificateRestriction.AnswerStep | source/extensions/filters/network/client_certificate_restriction/client_certificate_restriction.cc:86-118 | any answer sets Complete; the flag is set afterwards exactly when it was already set or the answer is a response that decodes to authorized = true |
| ClientCertificateRestriction.CloseStep | source/extensions/filters/network/client_certificate_restriction/client_certificate_restriction.cc:120-122 | closing appends one close without flushing and changes neither status nor flag |
| ClientCertificateRestriction.Filter.CloseConnection | source/extensions/filters/network/client_certificate_restriction/client_certificate_restriction.cc:120-122 | the handler's new state is CloseStep of its old state |
| PeerIdentity.ConnectionSerialNumber | source/extensions/filters/network/client_certificate_restriction/client_certificate_restriction.cc:124-149 | the serial text is empty exactly when the session is not an SslSocket, no peer certificate is present, or the conversion yields nothing; nonempty text reads back as the certificate's serial |
| PeerIdentity.CertificateSerialNumber | source/extensions/filters/network/client_certificate_restriction/client_certificate_restriction.cc:151-166 | the text is empty exactly when the conversion yields nothing; otherwise it reads back as the serial number |
| SerialHex.BnToHex | source/extensions/filters/network/client_certificate_restriction/client_certificate_restriction.cc:158-158 | the text is nonempty, is "0" exactly for a zero serial, and starts with '-' exactly for a negative one |
| SerialHex.SerialRoundTrip | source/extensions/filters/network/client_certificate_restriction/client_certificate_restriction.cc:151-166 | parsing the BN_bn2hex text of any serial gives the serial back |
| SerialHex.SerialTextIsCanonical | source/extensions/filters/network/client_certificate_restriction/client_certificate_restriction.cc:151-166 | after the sign the text is lowercase hex digits only, in whole bytes, with no zero byte in front, for positive and negative serials alike |
| SerialHex.SerialTextIsInjective | source/extensions/filters/network/client_certificate_restriction/client_certificate_restriction.cc:151-166 | two different serials never render as the same text |
| SerialHex.SerialExamples | source/extensions/filters/network/client_certificate_restriction/client_certificate_restriction.cc:151-166 | 1715004 renders as "1a2b3c", 0x4f3 as "04f3", 0 as "0", -255 as "-ff" |
| AuthorizeJson.StringRoundTrip | source/extensions/filters/network/client_certificate_restriction/client_certificate_restriction.cc:168-177 | reading back an escaped JSON string gives the original string and stops just after its closing quote |
| AuthorizeJson.ObjectRoundTrip | source/extensions/filters/network/client_certificate_restriction/client_certificate_restriction.cc:168-177 | parsing the printed text of an object gives back its members in order |
| AuthorizeJson.GetPayload | source/extensions/filters/network/client_certificate_restriction/client_certificate_restriction.cc:168-177 | decoding getPayload's text gives back exactly the target, client-cert URI and client-cert serial passed in, empty values included |
| AuthorizeJson.PayloadIsInjective | source/extensions/filters/network/client_certificate_restriction/client_certificate_restriction.cc:168-177 | different (target, URI, serial) triples never produce the same payload |
| AuthorizeRequest.GetRequest | source/extensions/filters/network/client_certificate_restriction/client_certificate_restriction.cc:179-192 | the request has exactly the method, path, host, content-type and content-length headers, with values POST, the authorize path, the given host and JSON; its body is the payload, and its Content-Length reads back as the payload's byte length |
| AuthorizeRequest.DecimalRoundTrip | source/extensions/filters/network/client_certificate_restriction/client_certificate_restriction.cc:189-189 | the Content-Length text reads back as the number written |
| AuthorizeRequest.Utf8LengthBounds | source/extensions/filters/network/client_certificate_restriction/client_certificate_restriction.cc:189-189 | the byte length of the payload is between its character count and four times that |
| AuthorizeRequest.AsciiUtf8Length | source/extensions/filters/network/client_certificate_restriction/client_certificate_restriction.cc:189-189 | for ASCII text the byte length is the character count |
| AuthorizeRequest.AsciiContentLength | source/extensions/filters/network/client_certificate_restriction/client_certificate_restriction.cc:189-189 | for an ASCII payload Content-Length is the decimal character count |
| AuthorizeRequest.ContentLengthBounds | source/extensions/filters/network/client_certificate_restriction/client_certificate_restriction.cc:189-189 | Content-Length always reads back as a number between the payload's character count and four times it |
| AuthorizeRequest.RequestExample | source/extensions/filters/network/client_certificate_restriction/client_certificate_restriction.cc:179-192 | a two-byte payload gets Content-Length "2" |
| AuthorizeJson.ResponseRoundTrip | source/extensions/filters/network/client_certificate_restriction/client_certificate_restriction.cc:94-97 | the service's answer, printed and decoded by the filter, keeps its value |
| AuthorizeJson.DecodeResponse | source/extensions/filters/network/client_certificate_restriction/client_certificate_restriction.cc:94-97 | a body decodes only if it parses as an object with at most one member, named `authorized`; it decodes to true if and only if it parses as exactly the member authorized: true, whatever its whitespace; an object with no members decodes to the default false (stricter than the library, see Left out) |
| AuthorizeJson.AuthorizedField | source/extensions/filters/network/client_certificate_restriction/client_certificate_restriction.cc:97-97 | the field reads true only if some member is authorized: true, and reads the default false when no member is named authorized |
| AuthorizeJson.RepeatedKeyRefused | source/extensions/filters/network/client_certificate_restriction/client_certificate_restriction.cc:95-97 | a body that gives `authorized` twice fails to decode, whichever value comes first, so the connection is closed |
| AuthorizeJson.ResponseExamples | source/extensions/filters/network/client_certificate_restriction/client_certificate_restriction.cc:94-97 | an empty object decodes as not authorized and an empty body fails to decode |
| FilterTraces.EffectsOnlyGrow | source/extensions/filters/network/client_certificate_restriction/client_certificate_restriction.cc:44-122 | no callback ever removes or rewrites an earlier effect |
| FilterTraces.AuthorizationIsSticky | source/extensions/filters/network/client_certificate_restriction/client_certificate_restriction.cc:97-101 | once the authorized flag is set, no sequence of callbacks clears it, and data keeps flowing |
| FilterTraces.AuthorizedIffGranted | source/extensions/filters/network/client_certificate_restriction/client_certificate_restriction.cc:86-107 | a run ends authorized if and only if it started authorized or some response in it decoded to authorized = true |
| FilterTraces.DataPassesIffGranted | source/extensions/filters/network/client_certificate_restriction/client_certificate_restriction.cc:34-38 | from a fresh filter, data passes after a run exactly when some response in it granted access |
| FilterTraces.SendsMatchConnectedEvents | source/extensions/filters/network/client_certificate_restriction/client_certificate_restriction.cc:44-84 | the number of requests sent equals the number of Connected events when the identity is usable, and is zero otherwise; responses, failures and data never cause a request |
| FilterTraces.NoRequestWithoutIdentity | source/extensions/filters/network/client_certificate_restriction/client_certificate_restriction.cc:50-66 | a connection without a usable identity never causes a request, whatever callbacks follow |
| FilterTraces.WellFormedRun | source/extensions/filters/network/client_certificate_restriction/client_certificate_restriction.cc:69-122 | every request in the log is the one built for the connection's identity, and every close is a close without flushing |
| FilterTraces.SentRequestsCarryIdentity | source/extensions/filters/network/client_certificate_restriction/client_certificate_restriction.cc:69-83 | every request sent goes to the configured cluster with the configured timeout, is a JSON POST to the authorize path on the configured host with the right Content-Length, and its body decodes to the configured target and the peer's URI SAN and serial |
| FilterTraces.CallingOnlyAfterSend | source/extensions/filters/network/client_certificate_restriction/client_certificate_restriction.cc:82-83 | the status is Calling only after a request has been sent |
| FilterTraces.MissingIdentityFailsClosed | source/extensions/filters/network/client_certificate_restriction/client_certificate_restriction.cc:50-66 | with no usable identity, a connection ends closed once without flushing, with no request sent, not authorized, and status still Idle |
| FilterTraces.RequestInFlight | source/extensions/filters/network/client_certificate_restriction/client_certificate_restriction.cc:69-83 | with a usable identity and no answer yet, exactly one request has gone out and the filter is Calling and not authorized |
| FilterTraces.SessionOutcome | source/extensions/filters/network/client_certificate_restriction/client_certificate_restriction.cc:86-118 | with a usable identity and one answer, the filter ends Complete after exactly one request; it is authorized and has resumed reading exactly when the answer granted access, and has closed once without flushing otherwise |
| FilterTraces.ExampleIdentity | source/extensions/filters/network/client_certificate_restriction/client_certificate_restriction.cc:124-166 | the example peer (URI spiffe://cluster/svc-b, serial 0x4f3) yields the identity with serial "04f3"; the example config has target svc-a and a 500 ms timeout |
| FilterTraces.ExampleSession | source/extensions/filters/network/client_certificate_restriction/client_certificate_restriction.cc:44-118 | for target svc-a with a 500 ms timeout and that peer, the single request carries svc-a, the URI and "04f3"; an answer of true keeps the connection open, while false or a failure closes it |

## Left out

- The filter's header file is not part of this model. The model assumes the initial values its constructor states: status Idle, not authorized.
- The HTTP async client, the cluster manager and timeout enforcement are not modelled. A send is recorded as an effect, and its outcome arrives later as an `OnSuccess` or `OnFailure` call. A timeout reaches the filter through one of these two calls, and both are proved to close the connection unless the body grants access.
- ClientCertificateRestriction.Filter.OnEvent: the class and the runs in `FilterTraces` take an answer only as a later call. An answer the async client delivers during `send()` is modelled only by `ConnectedStep` and `ConnectedStepAsWritten` (see "Findings"), so `SessionOutcome`'s final Complete holds for answers after `send()` returns.
- ClientCertificateRestriction.BodyText: a reply without a body buffer is read as the empty body and closes the connection. The program dereferences the missing buffer there instead (see "Findings").
- Failure reasons: only `Reset` is listed, because the handler never looks at the reason.
- Logging is left out, including the error-level payload log.
- The TLS internals are not modelled: the SslSocket downcast, `rawSslForTest`, `SSL_get_peer_certificate`, ASN.1 decoding and BIGNUM memory handling. The session is given as a value, and the certificate's serial as an integer, or as nothing when its conversion produces no text.
- The protobuf JSON library is replaced by a JSON subset: one flat object whose values are strings, booleans or null.
  - The printer escapes only `"`, backslash and control characters. Control characters are written as `\u00XX`. Protobuf's short escapes such as `\n`, and any escaping of other characters, are not reproduced.
  - The parser rejects numbers, nested values and surrogate pairs.
- AuthorizeJson.DecodeResponse: stricter than protobuf's JSON parser, and every difference is a refusal that closes the connection. The model refuses these bodies:
  - String-typed booleans. The library converts a JSON string into a bool field, so `{"authorized":"true"}` grants access in the program but fails to decode in the model.
  - A repeated `authorized` key. The library accepts it and keeps one of the values.
  - Unquoted keys and single-quoted strings, which the library's lenient parser accepts.

  `DecodeResponse`'s "single explicit true" contract is a property of the model's decoder only.
- AuthorizeJson.AuthorizedField: reads the first `authorized` member. `DecodeResponse` calls it only on objects with at most one member, so the rule never decides an outcome.
- The JSON key spellings are not the real ones. authorize.proto is not part of this model, but the setters `set_clientcerturi` and `set_clientcertserial` (cc:173-174) show that the proto's field names are `clientcerturi` and `clientcertserial`, up to letter case, with no underscores. The printer writes the proto's own field names. The model uses the constants `target`, `client_cert_uri`, `client_cert_serial` and `authorized` instead. No proof depends on the spelling, only on the keys being distinct.
- Idempotence of `close()` is not modelled. `closeConnection` forwards every call to the connection, so repeated closes appear as repeated `Close` effects.
- Callbacks that arrive after the connection is torn down are not modelled. The code has no guard against them, and the model claims none.
- HTTP header names are not case-insensitive in the model. The response status code is carried but never used, because the source only logs it.

## Findings

| source | as written | input that shows it | evidently intended | confidence | as-written member | corrected member |
|---|---|---|---|---|---|---|
| source/extensions/filters/network/client_certificate_restriction/client_certificate_restriction.cc:82-83 | `status_ = Status::Calling` runs after `send()`, and `send()` may call `onSuccess` or `onFailure` before it returns, so the Complete those set is overwritten | a usable identity and a request the async client resets at once (or answers with a local 503): the connection is closed and the status is Calling (`ImmediateResetLeavesCalling`) | the status is Complete once an answer has arrived, whenever it arrives | medium, not executed | ClientCertificateRestriction.ConnectedStepAsWritten | ClientCertificateRestriction.ConnectedStep |
| source/extensions/filters/network/client_certificate_restriction/client_certificate_restriction.cc:194-198 | `getBodyString` dereferences `m->body()` without checking it for null | a 200 reply with headers only, which has no body buffer (`HeadersOnlyReplyHasNoText`) | a missing body is the empty body, which does not decode, so the connection is closed (`BodilessReplyCloses`) | medium, not executed | ClientCertificateRestriction.GetBodyString | ClientCertificateRestriction.BodyText |
