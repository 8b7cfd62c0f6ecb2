/**
 * The HTTP request the filter sends to the authorization service
 * (getRequest), and the decimal and UTF-8 arithmetic its Content-Length
 * header needs.
 */
module AuthorizeRequest {
  import opened Wrappers

  const AuthorizePath := "/v1/agent/connect/authorize"
  const Post := "POST"
  const JsonContentType := "application/json"

  /** The header names, as the proxy's header map spells them. */
  const MethodHeader := ":method"
  const PathHeader := ":path"
  const HostHeader := ":authority"
  const ContentTypeHeader := "content-type"
  const ContentLengthHeader := "content-length"

  datatype RequestMessage = RequestMessage(headers: map<string, string>, body: string)

  /** The number of bytes UTF-8 takes for one character. */
  function Utf8Width(c: char): nat
  {
    if c as int < 0x80 then 1
    else if c as int < 0x800 then 2
    else if c as int < 0x1_0000 then 3
    else 4
  }

  /** The length of `s` in bytes once encoded as UTF-8, which is what std::string::length counts. */
  function Utf8Length(s: string): nat
  {
    if s == [] then 0 else Utf8Width(s[0]) + Utf8Length(s[1..])
  }

  function DecimalDigit(d: nat): char
    requires d < 10
  {
    ('0' as int + d) as char
  }

  /** The decimal text of `n`, no leading zeros. */
  function Decimal(n: nat): string
    decreases n
  {
    if n < 10 then [DecimalDigit(n)] else Decimal(n / 10) + [DecimalDigit(n % 10)]
  }

  /** The value of nonempty decimal text, None if any character is not a digit. */
  function DecimalValue(s: string): Option<nat>
    decreases |s|
  {
    if s == [] || !('0' <= s[|s| - 1] <= '9') then None
    else
      var low := s[|s| - 1] as int - '0' as int;
      if |s| == 1 then Some(low)
      else
        match DecimalValue(s[..|s| - 1])
        case Some(high) => Some(10 * high + low)
        case None => None
  }

  /**
   * getRequest: a POST to the authorize path, addressed to `host`, typed as
   * JSON, whose Content-Length is the payload's length and whose body is
   * the payload itself.
   */
  function GetRequest(host: string, payload: string): (r: RequestMessage)
    ensures r.body == payload
    ensures r.headers.Keys == {MethodHeader, PathHeader, HostHeader, ContentTypeHeader, ContentLengthHeader}
    ensures r.headers[MethodHeader] == Post && r.headers[PathHeader] == AuthorizePath
    ensures r.headers[HostHeader] == host && r.headers[ContentTypeHeader] == JsonContentType
    ensures DecimalValue(r.headers[ContentLengthHeader]) == Some(Utf8Length(r.body))
  {
    DecimalRoundTrip(Utf8Length(payload));
    RequestMessage(
      map[ContentTypeHeader := JsonContentType,
          PathHeader := AuthorizePath,
          HostHeader := host,
          MethodHeader := Post,
          ContentLengthHeader := Decimal(Utf8Length(payload))],
      payload)
  }

  lemma {:induction false} DecimalRoundTrip(n: nat)
    ensures DecimalValue(Decimal(n)) == Some(n)
    decreases n
  {
    if n >= 10 {
      var p := Decimal(n / 10);
      DecimalRoundTrip(n / 10);
      assert (p + [DecimalDigit(n % 10)])[..|p|] == p;
      DecimalHasDigits(n / 10);
    }
  }

  lemma {:induction false} DecimalHasDigits(n: nat)
    ensures |Decimal(n)| >= 1
    decreases n
  {
    if n >= 10 {
      DecimalHasDigits(n / 10);
    }
  }

  /** For text made only of ASCII characters the byte length is the character count. */
  lemma {:induction false} AsciiUtf8Length(s: string)
    requires forall k :: 0 <= k < |s| ==> s[k] as int < 0x80
    ensures Utf8Length(s) == |s|
    decreases |s|
  {
    if s != [] {
      AsciiUtf8Length(s[1..]);
    }
  }

  /** The byte length is never below the character count and never above four times it. */
  lemma {:induction false} Utf8LengthBounds(s: string)
    ensures |s| <= Utf8Length(s) <= 4 * |s|
    decreases |s|
  {
    if s != [] {
      Utf8LengthBounds(s[1..]);
    }
  }

  /** For a payload of ASCII characters, Content-Length is its character count in decimal. */
  lemma AsciiContentLength(host: string, payload: string)
    requires forall k :: 0 <= k < |payload| ==> payload[k] as int < 0x80
    ensures GetRequest(host, payload).headers[ContentLengthHeader] == Decimal(|payload|)
  {
    AsciiUtf8Length(payload);
  }

  /** Content-Length is never below the payload's character count and never above four times it. */
  lemma ContentLengthBounds(host: string, payload: string)
    ensures DecimalValue(GetRequest(host, payload).headers[ContentLengthHeader]).Some?
    ensures |payload| <= DecimalValue(GetRequest(host, payload).headers[ContentLengthHeader]).value <= 4 * |payload|
  {
    Utf8LengthBounds(payload);
  }

  lemma RequestExample()
    ensures GetRequest("authz.internal", "{}").headers[ContentLengthHeader] == "2"
  {
    AsciiContentLength("authz.internal", "{}");
  }
}
