/** What the parser's callbacks do to the request that is being put together. */
module HttpCallbacks {

  datatype Method =
    | DELETE | GET | HEAD | POST | PUT | CONNECT | OPTIONS | TRACE | COPY | LOCK | MKCOL | MOVE | PROPFIND
    | PROPPATCH | UNLOCK | REPORT | MKACTIVITY | CHECKOUT | MERGE

  datatype HttpState = INIT | HEADER | FIELD | VALUE | BODY | DONE

  /** The header that is being read: both of the pointers are set, or neither. */
  datatype Header = NoHeader | Header(field: string, value: string)

  /** The request as far as it is known.  A failed assertion ends the process, whatever was known by then. */
  datatype Http =
    | Aborted
    | Http(state: HttpState, url: string, path: string, query: string, host: string, header: Header,
           headers: seq<Header>, body: string, verb: Method, headerDone: bool, done: bool)

  function MessageBegin(h: Http): Http {
    if h.Aborted? || h.state != INIT then Aborted else h.(state := HEADER)
  }

  function UrlText(h: Http, s: string): Http {
    if h.Aborted? then h else h.(url := h.url + s)
  }

  function PathText(h: Http, s: string): Http {
    if h.Aborted? then h else h.(path := h.path + s)
  }

  function QueryText(h: Http, s: string): Http {
    if h.Aborted? then h else h.(query := h.query + s)
  }

  function FragmentText(h: Http, s: string): Http {
    Aborted
  }

  /** The header that was being read joins the list. */
  function AddHeader(h: Http): (r: Http)
    requires h.Http?
    ensures r.Http?
  {
    if h.header.NoHeader? then h
    else h.(host := if h.header.field == "Host" then h.header.value else h.host,
            headers := h.headers + [h.header],
            header := NoHeader)
  }

  function NewHeader(h: Http, s: string): Http
    requires h.Http?
  {
    var added := AddHeader(h);
    added.(header := Header(s, ""), state := FIELD)
  }

  function FieldText(h: Http, s: string): Http {
    if h.Aborted? then h
    else
      match h.state
      case FIELD => if h.header.NoHeader? then Aborted else h.(header := Header(h.header.field + s, h.header.value))
      case VALUE => NewHeader(h, s)
      case HEADER => NewHeader(h, s)
      case _ => Aborted
  }

  function ValueText(h: Http, s: string): Http {
    if h.Aborted? || (h.state != FIELD && h.state != VALUE) || h.header.NoHeader? then Aborted
    else h.(state := VALUE, header := Header(h.header.field, h.header.value + s))
  }

  function HeadersComplete(h: Http): Http {
    if h.Aborted? then h
    else
      var added := AddHeader(h);
      added.(headerDone := true)
  }

  function BodyText(h: Http, s: string): Http {
    if h.Aborted? then h else h.(body := h.body + s)
  }

  /** The methods that a server takes. */
  predicate IsServed(m: Method) {
    match m
    case GET | CONNECT | POST | HEAD | PUT | DELETE | MOVE => true
    case _ => false
  }

  function MessageComplete(h: Http, m: Method): Http {
    if h.Aborted? || (h.state != VALUE && h.state != BODY) || !IsServed(m) then Aborted
    else h.(state := DONE, verb := m, done := true)
  }

  // Each text callback may be given its text in pieces.

  lemma UrlInPieces(h: Http, a: string, b: string)
    ensures UrlText(UrlText(h, a), b) == UrlText(h, a + b)
  {
    if h.Http? { assert h.url + a + b == h.url + (a + b); }
  }

  lemma PathInPieces(h: Http, a: string, b: string)
    ensures PathText(PathText(h, a), b) == PathText(h, a + b)
  {
    if h.Http? { assert h.path + a + b == h.path + (a + b); }
  }

  lemma QueryInPieces(h: Http, a: string, b: string)
    ensures QueryText(QueryText(h, a), b) == QueryText(h, a + b)
  {
    if h.Http? { assert h.query + a + b == h.query + (a + b); }
  }

  lemma FieldInPieces(h: Http, a: string, b: string)
    ensures FieldText(FieldText(h, a), b) == FieldText(h, a + b)
  {
    if h.Http? && h.state == FIELD && h.header.Header? { assert h.header.field + a + b == h.header.field + (a + b); }
  }

  lemma ValueInPieces(h: Http, a: string, b: string)
    ensures ValueText(ValueText(h, a), b) == ValueText(h, a + b)
  {
    if h.Http? && h.header.Header? { assert h.header.value + a + b == h.header.value + (a + b); }
  }

  lemma BodyInPieces(h: Http, a: string, b: string)
    ensures BodyText(BodyText(h, a), b) == BodyText(h, a + b)
  {
    if h.Http? { assert h.body + a + b == h.body + (a + b); }
  }
}
