/** Quoted fields as section 2 of RFC 4180 defines them (rules 5 to 7): a
    field is enclosed in double quotes and every double quote inside it is
    written twice. The exporters of the two table views do not produce this
    form; these definitions are the intended one they are compared with. */
module CsvFields {
  import opened Wrappers
  import opened JsStrings

  /** The RFC 4180 quoted form of `v`. */
  function QuoteField(v: string): string
  {
    "\"" + DoubleQuotes(v) + "\""
  }

  /** Decodes the inside of a quoted field: a doubled quote stands for one
      quote, a lone quote is malformed. */
  function Unescape(body: string): Option<string>
    decreases |body|
  {
    if body == [] then Some([])
    else if body[0] == '"' then
      if |body| >= 2 && body[1] == '"' then
        match Unescape(body[2..])
        case Some(rest) => Some("\"" + rest)
        case None => None
      else None
    else
      match Unescape(body[1..])
      case Some(rest) => Some([body[0]] + rest)
      case None => None
  }

  /** Reads one quoted field as a conforming CSV reader does. */
  function ParseQuotedField(f: string): Option<string>
  {
    if |f| >= 2 && f[0] == '"' && f[|f| - 1] == '"' then Unescape(f[1..|f| - 1])
    else None
  }

  lemma {:induction false} UnescapeDoubled(v: string)
    ensures Unescape(DoubleQuotes(v)) == Some(v)
  {
    if v != [] {
      UnescapeDoubled(v[1..]);
      var d := DoubleQuotes(v);
      if v[0] == '"' {
        assert d[2..] == DoubleQuotes(v[1..]);
      } else {
        assert d[1..] == DoubleQuotes(v[1..]);
      }
      assert [v[0]] + v[1..] == v;
    }
  }

  /** Quoting round-trips: a reader recovers exactly the original value. */
  lemma QuoteFieldRoundTrip(v: string)
    ensures ParseQuotedField(QuoteField(v)) == Some(v)
  {
    var f := QuoteField(v);
    assert f[1..|f| - 1] == DoubleQuotes(v);
    UnescapeDoubled(v);
  }
}
