/**
 * What the three REST route handlers share: the JSON response they return
 * (`NextResponse.json(body, { status })`), the bearer token they read from
 * the Authorization header, and the fields of a JSON request body.
 */
module Http {
  import opened JsText

  /** `{ message }` or a data payload. */
  datatype Body<T> = Message(text: string) | Data(value: T)

  datatype Response<T> = Response(status: int, body: Body<T>)

  /** `authHeader?.split(" ")[1]`, and None when that is falsy: no header, a
      header without a space, or an empty second field. */
  function BearerToken(authHeader: Option<string>): (token: Option<string>)
    ensures token.Some? ==> authHeader.Some? && token.value != "" && ' ' !in token.value
    // the token is the text between the first space and the next one (or the end)
    ensures token.Some? ==>
              exists scheme, rest {:trigger scheme + " " + token.value + rest} :: authHeader.value == scheme + " " + token.value + rest
                                     && ' ' !in scheme && (rest == "" || rest[0] == ' ')
  {
    match authHeader
    case None => None
    case Some(h) =>
      var parts := Split(h, ' ');
      if |parts| < 2 || parts[1] == "" then None
      else
        var rest := if |parts| == 2 then "" else " " + JoinWith(parts[2..], ' ');
        assert parts[1..][1..] == parts[2..];
        assert JoinWith(parts[1..], ' ') == parts[1] + rest;
        var scheme := parts[0];
        assert h == scheme + " " + parts[1] + rest && ' ' !in scheme && (rest == "" || rest[0] == ' ');
        Some(parts[1])
  }

  /** A header `<scheme> <field>` followed by nothing or by a further space
      yields the field as the token, and no token when the field is empty
      (`"Bearer "`, `"Bearer  t"`). */
  lemma BearerTokenOfHeader(scheme: string, field: string, rest: string)
    requires ' ' !in scheme && ' ' !in field && (rest == "" || rest[0] == ' ')
    ensures BearerToken(Some(scheme + " " + field + rest)) == if field == "" then None else Some(field)
  {
    var tail := field + rest;
    var spaced := " " + tail;
    assert scheme + " " + field + rest == scheme + spaced;
    SplitFirstField(field, rest, ' ');
    SplitAtSeparator(tail, ' ');
    assert Split(spaced, ' ') == [""] + Split(tail, ' ');
    SplitAfterPrefix(scheme, spaced, ' ');
    var parts := Split(scheme + spaced, ' ');
    assert |parts| >= 2 && parts[1] == Split(spaced, ' ')[1] == Split(tail, ' ')[0] == field;
  }

  /** A header with no space in it carries no token. */
  lemma NoTokenWithoutSpace(header: string)
    requires ' ' !in header
    ensures BearerToken(Some(header)).None?
  {
    SplitWithoutSeparator(header, ' ');
  }

  /** The parsed request body: Unreadable when `await request.json()` throws
      (or yields null, which the destructuring then throws on); otherwise its
      string-valued fields. */
  datatype RequestBody = Unreadable | Fields(fields: map<string, string>)

  function Field(body: RequestBody, key: string): Option<string>
    requires body.Fields?
  {
    if key in body.fields then Some(body.fields[key]) else None
  }

  /** A field passes `if (!x)` exactly when it is present and non-empty. */
  predicate Truthy(v: Option<string>) {
    v.Some? && v.value != ""
  }
}
