/**
 * The JSON bodies exchanged with the authorization service: the request
 * payload the filter writes (getPayload) and the response it reads
 * (JsonStringToMessage into AuthorizeResponse).
 *
 * The protobuf JSON library is represented by a small JSON subset that is
 * enough for both messages: one flat object whose values are strings,
 * booleans or null. The printer writes the compact form and, like protobuf's
 * printer, leaves out a string field that holds its default (empty) value;
 * the parser accepts whitespace between tokens and reads a missing field as
 * its default.
 */
module AuthorizeJson {
  import opened Wrappers
  import SerialHex

  datatype Value = Str(s: string) | Bool(b: bool) | Null

  type Member = (string, Value)

  // ---------------------------------------------------------------------
  // Strings

  /** The escaped form of one character inside a JSON string. */
  function EscapeChar(c: char): string
  {
    if c == '"' then "\\\""
    else if c == '\\' then "\\\\"
    else if c < ' ' then "\\u00" + [SerialHex.HexDigit(c as int / 16), SerialHex.HexDigit(c as int % 16)]
    else [c]
  }

  function Escape(s: string): string
  {
    if s == [] then [] else EscapeChar(s[0]) + Escape(s[1..])
  }

  function Quote(s: string): string
  {
    "\"" + Escape(s) + "\""
  }

  /** A hexadecimal digit in either case, as JSON's \u escape allows. */
  function JsonHexDigit(c: char): (r: Option<int>)
    ensures r.Some? ==> 0 <= r.value < 16
  {
    if 'A' <= c <= 'F' then Some(c as int - 'A' as int + 10)
    else match SerialHex.DigitValue(c)
      case Some(d) => Some(d)
      case None => None
  }

  function Hex4(s: string): (r: Option<int>)
    requires |s| == 4
    ensures r.Some? ==> 0 <= r.value < 0x1_0000
  {
    match (JsonHexDigit(s[0]), JsonHexDigit(s[1]), JsonHexDigit(s[2]), JsonHexDigit(s[3]))
    case (Some(a), Some(b), Some(c), Some(d)) => Some(4096 * a + 256 * b + 16 * c + d)
    case _ => None
  }

  /**
   * The character a backslash escape stands for and the input after it;
   * `s` starts just after the backslash. A lone surrogate is refused.
   */
  function ParseEscape(s: string): (r: Option<(char, string)>)
    ensures r.Some? ==> |r.value.1| < |s|
  {
    if s == [] then None
    else if s[0] == '"' || s[0] == '\\' || s[0] == '/' then Some((s[0], s[1..]))
    else if s[0] == 'b' then Some((8 as char, s[1..]))
    else if s[0] == 'f' then Some((12 as char, s[1..]))
    else if s[0] == 'n' then Some(('\n', s[1..]))
    else if s[0] == 'r' then Some(('\r', s[1..]))
    else if s[0] == 't' then Some(('\t', s[1..]))
    else if s[0] == 'u' && |s| >= 5 then
      match Hex4(s[1..5])
      case Some(v) => if 0xD800 <= v <= 0xDFFF then None else Some((v as char, s[5..]))
      case None => None
    else None
  }

  /**
   * The contents of a string literal and the input after its closing quote;
   * `s` starts just after the opening quote.
   */
  function ParseStringBody(s: string): (r: Option<(string, string)>)
    ensures r.Some? ==> |r.value.1| < |s|
    decreases |s|
  {
    if s == [] then None
    else if s[0] == '"' then Some(([], s[1..]))
    else if s[0] == '\\' then
      match ParseEscape(s[1..])
      case None => None
      case Some((c, rest)) =>
        match ParseStringBody(rest)
        case None => None
        case Some((t, rest')) => Some(([c] + t, rest'))
    else if s[0] < ' ' then None
    else
      match ParseStringBody(s[1..])
      case None => None
      case Some((t, rest')) => Some(([s[0]] + t, rest'))
  }

  // ---------------------------------------------------------------------
  // Objects

  predicate IsWhitespace(c: char)
  {
    c == ' ' || c == '\t' || c == '\n' || c == '\r'
  }

  function SkipWhitespace(s: string): (r: string)
    ensures |r| <= |s|
  {
    if s != [] && IsWhitespace(s[0]) then SkipWhitespace(s[1..]) else s
  }

  function ParseValue(s: string): (r: Option<(Value, string)>)
    ensures r.Some? ==> |r.value.1| < |s|
  {
    if s != [] && s[0] == '"' then
      match ParseStringBody(s[1..])
      case None => None
      case Some((t, rest)) => Some((Str(t), rest))
    else if |s| >= 4 && s[..4] == "true" then Some((Bool(true), s[4..]))
    else if |s| >= 5 && s[..5] == "false" then Some((Bool(false), s[5..]))
    else if |s| >= 4 && s[..4] == "null" then Some((Null, s[4..]))
    else None
  }

  /** `"key" : value`, starting at the key's opening quote. */
  function ParseMember(s: string): (r: Option<(Member, string)>)
    ensures r.Some? ==> |r.value.1| < |s|
  {
    if s == [] || s[0] != '"' then None
    else
      match ParseStringBody(s[1..])
      case None => None
      case Some((key, rest)) =>
        var t := SkipWhitespace(rest);
        if t == [] || t[0] != ':' then None
        else
          match ParseValue(SkipWhitespace(t[1..]))
          case None => None
          case Some((v, rest')) => Some(((key, v), rest'))
  }

  /** `member (, member)* }`: the members of a nonempty object and the input after its closing brace. */
  function ParseMembers(s: string): (r: Option<(seq<Member>, string)>)
    ensures r.Some? ==> |r.value.1| < |s|
    decreases |s|
  {
    match ParseMember(SkipWhitespace(s))
    case None => None
    case Some((m, rest)) =>
      var t := SkipWhitespace(rest);
      if t != [] && t[0] == ',' then
        match ParseMembers(t[1..])
        case None => None
        case Some((ms, rest')) => Some(([m] + ms, rest'))
      else if t != [] && t[0] == '}' then Some(([m], t[1..]))
      else None
  }

  /** A whole document holding one flat object, with nothing but whitespace around it. */
  function ParseObject(s: string): Option<seq<Member>>
  {
    var t := SkipWhitespace(s);
    if t == [] || t[0] != '{' then None
    else
      var u := SkipWhitespace(t[1..]);
      if u != [] && u[0] == '}' then
        if SkipWhitespace(u[1..]) == [] then Some([]) else None
      else
        match ParseMembers(u)
        case None => None
        case Some((ms, rest)) => if SkipWhitespace(rest) == [] then Some(ms) else None
  }

  function EncodeValue(v: Value): string
  {
    match v
    case Str(s) => Quote(s)
    case Bool(b) => if b then "true" else "false"
    case Null => "null"
  }

  function EncodeMember(m: Member): string
  {
    Quote(m.0) + ":" + EncodeValue(m.1)
  }

  function EncodeMembers(ms: seq<Member>): string
    requires ms != []
  {
    if |ms| == 1 then EncodeMember(ms[0]) else EncodeMember(ms[0]) + "," + EncodeMembers(ms[1..])
  }

  /** The compact text of an object, members in the order given. */
  function EncodeObject(ms: seq<Member>): string
  {
    if ms == [] then "{}" else "{" + EncodeMembers(ms) + "}"
  }

  /** Every member's key is one of `keys`: the message type has no other field. */
  predicate KnownKeys(ms: seq<Member>, keys: set<string>)
  {
    forall i :: 0 <= i < |ms| ==> ms[i].0 in keys
  }

  // ---------------------------------------------------------------------
  // The request payload (AuthorizePayload)

  const TargetKey := "target"
  const ClientCertUriKey := "client_cert_uri"
  const ClientCertSerialKey := "client_cert_serial"

  datatype AuthorizePayload = AuthorizePayload(target: string, clientCertUri: string, clientCertSerial: string)

  /** A string field as the printer writes it: left out when it holds the default "". */
  function StringMember(key: string, value: string): seq<Member>
  {
    if value == "" then [] else [(key, Str(value))]
  }

  function PayloadMembers(p: AuthorizePayload): seq<Member>
  {
    StringMember(TargetKey, p.target)
      + StringMember(ClientCertUriKey, p.clientCertUri)
      + StringMember(ClientCertSerialKey, p.clientCertSerial)
  }

  /**
   * getPayload: the three values in the target / client-cert-URI /
   * client-cert-serial fields. Decoding the text gives back the same three
   * values, empty ones included.
   */
  function GetPayload(target: string, clientCertUri: string, clientCertSerial: string): (json: string)
    ensures DecodePayload(json) == Some(AuthorizePayload(target, clientCertUri, clientCertSerial))
  {
    var p := AuthorizePayload(target, clientCertUri, clientCertSerial);
    ObjectRoundTrip(PayloadMembers(p));
    PayloadKeysKnown(p);
    PayloadFields(p);
    EncodeObject(PayloadMembers(p))
  }

  /** The first member named `key` as a string; "" when there is none or it is null; None when it is not a string. */
  function StringField(ms: seq<Member>, key: string): Option<string>
  {
    if ms == [] then Some("")
    else if ms[0].0 == key then
      match ms[0].1
      case Str(v) => Some(v)
      case Null => Some("")
      case Bool(_) => None
    else StringField(ms[1..], key)
  }

  /** What the authorization service reads out of a payload. */
  function DecodePayload(json: string): Option<AuthorizePayload>
  {
    match ParseObject(json)
    case None => None
    case Some(ms) =>
      if !KnownKeys(ms, {TargetKey, ClientCertUriKey, ClientCertSerialKey}) then None
      else
        match (StringField(ms, TargetKey), StringField(ms, ClientCertUriKey), StringField(ms, ClientCertSerialKey))
        case (Some(t), Some(u), Some(c)) => Some(AuthorizePayload(t, u, c))
        case _ => None
  }

  // ---------------------------------------------------------------------
  // The response (AuthorizeResponse)

  const AuthorizedKey := "authorized"

  /** The first `authorized` member as a boolean; false when absent or null; None when it is not a boolean. */
  function AuthorizedField(ms: seq<Member>): (r: Option<bool>)
    ensures r == Some(true) ==> exists i :: 0 <= i < |ms| && ms[i] == (AuthorizedKey, Bool(true))
    ensures (forall i :: 0 <= i < |ms| ==> ms[i].0 != AuthorizedKey) ==> r == Some(false)
    decreases |ms|
  {
    if ms == [] then Some(false)
    else if ms[0].0 == AuthorizedKey then
      match ms[0].1
      case Bool(b) => Some(b)
      case Null => Some(false)
      case Str(_) => None
    else
      var r := AuthorizedField(ms[1..]);
      assert r == Some(true) ==> exists i :: 0 <= i < |ms| && ms[i] == (AuthorizedKey, Bool(true)) by {
        if r == Some(true) {
          var j :| 0 <= j < |ms[1..]| && ms[1..][j] == (AuthorizedKey, Bool(true));
          assert ms[j + 1] == ms[1..][j];
        }
      }
      r
  }

  /**
   * JsonStringToMessage into AuthorizeResponse followed by authorized():
   * None when the body does not parse as that message (malformed text, an
   * unknown field, a value that is not a boolean or null, the field given
   * more than once); otherwise the field's value, with a missing field read
   * as the default false. Fail closed: it reads "authorized" only from a
   * well-formed response whose single member is authorized: true.
   */
  function DecodeResponse(json: string): (r: Option<bool>)
    ensures r.Some? ==> ParseObject(json).Some? && KnownKeys(ParseObject(json).value, {AuthorizedKey})
    ensures r.Some? ==> |ParseObject(json).value| <= 1
    ensures r == Some(true) ==> ParseObject(json) == Some([(AuthorizedKey, Bool(true))])
    ensures ParseObject(json) == Some([(AuthorizedKey, Bool(true))]) ==> r == Some(true)
    ensures ParseObject(json) == Some([]) ==> r == Some(false)
  {
    match ParseObject(json)
    case None => None
    case Some(ms) =>
      if KnownKeys(ms, {AuthorizedKey}) && |ms| <= 1 then
        var r := AuthorizedField(ms);
        assert r == Some(true) ==> ms == [(AuthorizedKey, Bool(true))] by {
          if r == Some(true) {
            var i :| 0 <= i < |ms| && ms[i] == (AuthorizedKey, Bool(true));
            assert i == 0;
          }
        }
        r
      else None
  }

  /** How the authorization service writes its answer. */
  function EncodeResponse(authorized: bool): string
  {
    EncodeObject(if authorized then [(AuthorizedKey, Bool(true))] else [])
  }

  // ---------------------------------------------------------------------
  // Round trips

  lemma JsonHexDigitOfDigit(d: nat)
    requires d < 16
    ensures JsonHexDigit(SerialHex.HexDigit(d)) == Some(d)
  {
    SerialHex.DigitRoundTrip(d);
  }

  lemma ControlEscapeRoundTrip(c: char, rest: string)
    requires c < ' '
    ensures ParseEscape(EscapeChar(c)[1..] + rest) == Some((c, rest))
  {
    var hi, lo := c as int / 16, c as int % 16;
    var s := EscapeChar(c)[1..] + rest;
    assert s == ['u', '0', '0', SerialHex.HexDigit(hi), SerialHex.HexDigit(lo)] + rest;
    JsonHexDigitOfDigit(hi);
    JsonHexDigitOfDigit(lo);
    assert JsonHexDigit('0') == Some(0);
    assert s[1..5] == ['0', '0', SerialHex.HexDigit(hi), SerialHex.HexDigit(lo)];
    assert Hex4(s[1..5]) == Some(c as int);
    assert s[5..] == rest;
  }

  /** Reading an escaped string back gives the string and leaves the input after its closing quote. */
  lemma {:induction false} StringRoundTrip(x: string, rest: string)
    ensures ParseStringBody(Escape(x) + "\"" + rest) == Some((x, rest))
    decreases |x|
  {
    var s := Escape(x) + "\"" + rest;
    if x == [] {
      assert s == "\"" + rest;
      assert s[1..] == rest;
    } else {
      var tail := Escape(x[1..]) + "\"" + rest;
      var e := EscapeChar(x[0]);
      assert s == e + tail;
      StringRoundTrip(x[1..], rest);
      assert [x[0]] + x[1..] == x;
      if x[0] == '"' || x[0] == '\\' {
        assert s[0] == '\\' && s[1] == x[0];
        assert s[1..][1..] == tail;
      } else if x[0] < ' ' {
        assert s[0] == '\\';
        assert s[1..] == e[1..] + tail;
        ControlEscapeRoundTrip(x[0], tail);
      } else {
        assert s[0] == x[0];
        assert s[1..] == tail;
      }
    }
  }

  lemma SkipNothing(s: string)
    requires s == [] || !IsWhitespace(s[0])
    ensures SkipWhitespace(s) == s
  {
  }

  lemma TrueRoundTrip(rest: string)
    ensures ParseValue("true" + rest) == Some((Bool(true), rest))
  {
    var s := "true" + rest;
    assert s[0] == 't';
    assert s[..4] == "true" && s[4..] == rest;
  }

  lemma FalseRoundTrip(rest: string)
    ensures ParseValue("false" + rest) == Some((Bool(false), rest))
  {
    var s := "false" + rest;
    assert s[0] == 'f';
    assert s[..4] != "true" by {
      assert s[..4][0] == 'f';
    }
    assert s[..5] == "false" && s[5..] == rest;
  }

  lemma NullRoundTrip(rest: string)
    ensures ParseValue("null" + rest) == Some((Null, rest))
  {
    var s := "null" + rest;
    assert s[0] == 'n';
    assert s[..4] != "true" by {
      assert s[..4][0] == 'n';
    }
    assert |s| >= 5 ==> s[..5] != "false" by {
      if |s| >= 5 {
        assert s[..5][0] == 'n';
      }
    }
    assert s[..4] == "null" && s[4..] == rest;
  }

  lemma {:induction false} ValueRoundTrip(v: Value, rest: string)
    ensures EncodeValue(v) != [] && !IsWhitespace(EncodeValue(v)[0])
    ensures ParseValue(EncodeValue(v) + rest) == Some((v, rest))
  {
    match v
    case Str(x) =>
      var s := EncodeValue(v) + rest;
      assert s == "\"" + (Escape(x) + "\"" + rest);
      StringRoundTrip(x, rest);
      assert s[1..] == Escape(x) + "\"" + rest;
    case Bool(b) =>
      if b { TrueRoundTrip(rest); } else { FalseRoundTrip(rest); }
    case Null =>
      NullRoundTrip(rest);
  }

  lemma {:induction false} MemberRoundTrip(m: Member, rest: string)
    ensures EncodeMember(m)[0] == '"'
    ensures ParseMember(EncodeMember(m) + rest) == Some((m, rest))
  {
    var s := EncodeMember(m) + rest;
    var value := EncodeValue(m.1) + rest;
    var after := ":" + value;
    assert s == "\"" + (Escape(m.0) + "\"" + after);
    assert s[0] == '"';
    assert s[1..] == Escape(m.0) + "\"" + after;
    StringRoundTrip(m.0, after);
    assert ParseStringBody(s[1..]) == Some((m.0, after));
    SkipNothing(after);
    assert after[0] == ':' && after[1..] == value;
    ValueRoundTrip(m.1, rest);
    SkipNothing(value);
    assert ParseValue(SkipWhitespace(after[1..])) == Some((m.1, rest));
    assert ParseMember(s) == Some(((m.0, m.1), rest));
  }

  /** One member followed by the closing brace. */
  lemma LastMemberRoundTrip(m: Member, rest: string)
    ensures ParseMembers(EncodeMember(m) + "}" + rest) == Some(([m], rest))
  {
    var after := "}" + rest;
    var s := EncodeMember(m) + after;
    assert EncodeMember(m) + "}" + rest == s;
    MemberRoundTrip(m, after);
    SkipNothing(s);
    SkipNothing(after);
    assert after[1..] == rest;
  }

  /** One member followed by a comma and the rest of the members. */
  lemma NextMemberRoundTrip(m: Member, tail: string)
    ensures ParseMembers(EncodeMember(m) + "," + tail) ==
      match ParseMembers(tail)
      case None => None
      case Some((ms, rest)) => Some(([m] + ms, rest))
  {
    var after := "," + tail;
    var s := EncodeMember(m) + after;
    assert EncodeMember(m) + "," + tail == s;
    MemberRoundTrip(m, after);
    SkipNothing(s);
    SkipNothing(after);
    assert after[1..] == tail;
  }

  lemma {:induction false} MembersRoundTrip(ms: seq<Member>, rest: string)
    requires ms != []
    ensures ParseMembers(EncodeMembers(ms) + "}" + rest) == Some((ms, rest))
    decreases |ms|
  {
    if |ms| == 1 {
      assert EncodeMembers(ms) == EncodeMember(ms[0]);
      assert [ms[0]] == ms;
      LastMemberRoundTrip(ms[0], rest);
    } else {
      var tail := EncodeMembers(ms[1..]) + "}" + rest;
      assert EncodeMembers(ms) + "}" + rest == EncodeMember(ms[0]) + "," + tail;
      NextMemberRoundTrip(ms[0], tail);
      MembersRoundTrip(ms[1..], rest);
      assert [ms[0]] + ms[1..] == ms;
    }
  }

  lemma EncodeMembersStartsWithQuote(ms: seq<Member>)
    requires ms != []
    ensures EncodeMembers(ms)[0] == '"'
  {
    MemberRoundTrip(ms[0], []);
  }

  /** Parsing the printed text of an object gives back its members, in order. */
  lemma ObjectRoundTrip(ms: seq<Member>)
    ensures ParseObject(EncodeObject(ms)) == Some(ms)
  {
    var s := EncodeObject(ms);
    SkipNothing(s);
    if ms == [] {
      assert s[1..] == "}";
      SkipNothing(s[1..]);
      assert s[1..][1..] == [];
    } else {
      var inner := EncodeMembers(ms) + "}" + [];
      assert s[1..] == inner;
      MembersRoundTrip(ms, []);
      EncodeMembersStartsWithQuote(ms);
      SkipNothing(inner);
    }
  }

  lemma {:induction false} AbsentStringField(ms: seq<Member>, key: string)
    requires forall i :: 0 <= i < |ms| ==> ms[i].0 != key
    ensures StringField(ms, key) == Some("")
    decreases |ms|
  {
    if ms != [] {
      AbsentStringField(ms[1..], key);
    }
  }

  lemma StringFieldAfter(key: string, value: string, rest: seq<Member>, wanted: string)
    ensures StringField(StringMember(key, value) + rest, wanted) ==
      if key == wanted && value != "" then Some(value) else StringField(rest, wanted)
  {
    if value == "" {
      assert StringMember(key, value) + rest == rest;
    } else {
      assert (StringMember(key, value) + rest)[1..] == rest;
    }
  }

  lemma PayloadKeysKnown(p: AuthorizePayload)
    ensures KnownKeys(PayloadMembers(p), {TargetKey, ClientCertUriKey, ClientCertSerialKey})
  {
  }

  lemma PayloadFields(p: AuthorizePayload)
    ensures StringField(PayloadMembers(p), TargetKey) == Some(p.target)
    ensures StringField(PayloadMembers(p), ClientCertUriKey) == Some(p.clientCertUri)
    ensures StringField(PayloadMembers(p), ClientCertSerialKey) == Some(p.clientCertSerial)
  {
    var a, b, c := StringMember(TargetKey, p.target), StringMember(ClientCertUriKey, p.clientCertUri),
                   StringMember(ClientCertSerialKey, p.clientCertSerial);
    assert PayloadMembers(p) == a + (b + c);
    assert c + [] == c;
    AbsentStringField([], TargetKey);
    AbsentStringField([], ClientCertUriKey);
    AbsentStringField([], ClientCertSerialKey);
    StringFieldAfter(ClientCertSerialKey, p.clientCertSerial, [], TargetKey);
    StringFieldAfter(ClientCertSerialKey, p.clientCertSerial, [], ClientCertUriKey);
    StringFieldAfter(ClientCertSerialKey, p.clientCertSerial, [], ClientCertSerialKey);
    StringFieldAfter(ClientCertUriKey, p.clientCertUri, c, TargetKey);
    StringFieldAfter(ClientCertUriKey, p.clientCertUri, c, ClientCertUriKey);
    StringFieldAfter(ClientCertUriKey, p.clientCertUri, c, ClientCertSerialKey);
    StringFieldAfter(TargetKey, p.target, b + c, TargetKey);
    StringFieldAfter(TargetKey, p.target, b + c, ClientCertUriKey);
    StringFieldAfter(TargetKey, p.target, b + c, ClientCertSerialKey);
  }

  /** Different payloads never print as the same text. */
  lemma PayloadIsInjective(p: AuthorizePayload, q: AuthorizePayload)
    requires GetPayload(p.target, p.clientCertUri, p.clientCertSerial)
          == GetPayload(q.target, q.clientCertUri, q.clientCertSerial)
    ensures p == q
  {
  }

  /** The service's answer, printed and read back by the filter, keeps its meaning. */
  lemma ResponseRoundTrip(authorized: bool)
    ensures DecodeResponse(EncodeResponse(authorized)) == Some(authorized)
  {
    var ms: seq<Member> := if authorized then [(AuthorizedKey, Bool(true))] else [];
    ObjectRoundTrip(ms);
  }

  /** A repeated `authorized` key is refused, whichever value comes first. */
  lemma RepeatedKeyRefused(first: bool, second: bool)
    ensures DecodeResponse(EncodeObject([(AuthorizedKey, Bool(first)), (AuthorizedKey, Bool(second))])) == None
  {
    ObjectRoundTrip([(AuthorizedKey, Bool(first)), (AuthorizedKey, Bool(second))]);
  }

  lemma ResponseExamples()
    ensures DecodeResponse("{}") == Some(false)
    ensures DecodeResponse("") == None
  {
    assert "{}"[1..] == "}";
    assert "{}"[1..][1..] == [];
  }
}
