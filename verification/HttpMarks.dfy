/** Marks: where in the current buffer the tokens began that have not been handed over yet. */
module HttpMarks {
  import opened HttpCallbacks
  import opened HttpParser
  import opened HttpSession
  import opened HttpSanity

  /** -1 stands for a mark that is not set. */
  datatype Marks = Marks(url: int, path: int, query: int, fragment: int, field: int, value: int)

  const NO_MARKS := Marks(-1, -1, -1, -1, -1, -1)

  predicate MarkFits(mark: int, wanted: bool, p: nat) {
    if wanted then 0 <= mark <= p else mark == -1
  }

  /** A token's mark is set exactly in the states that lie inside the token. */
  predicate MarksFit(state: State, m: Marks, p: nat) {
    && MarkFits(m.url, InUrlStates(state), p)
    && MarkFits(m.path, state == Path, p)
    && MarkFits(m.query, state == QueryString, p)
    && MarkFits(m.fragment, state == Fragment, p)
    && MarkFits(m.field, state == HeaderField, p)
    && MarkFits(m.value, state == HeaderValue, p)
  }

  /** The marks at the start of a buffer. */
  function EntryMarks(state: State): (m: Marks)
    ensures MarksFit(state, m, 0)
  {
    Marks(if InUrlStates(state) then 0 else -1,
          if state == Path then 0 else -1,
          if state == QueryString then 0 else -1,
          if state == Fragment then 0 else -1,
          if state == HeaderField then 0 else -1,
          if state == HeaderValue then 0 else -1)
  }

  /** The request with the marked text up to `p` handed over. */
  function Flushed(state: State, h: Http, m: Marks, data: string, p: nat): Http
    requires MarksFit(state, m, p) && p <= |data|
  {
    var u := if InUrlStates(state) then UrlText(h, data[m.url..p]) else h;
    if state == Path then PathText(u, data[m.path..p])
    else if state == QueryString then QueryText(u, data[m.query..p])
    else if state == Fragment then FragmentText(u, data[m.fragment..p])
    else if state == HeaderField then FieldText(u, data[m.field..p])
    else if state == HeaderValue then ValueText(u, data[m.value..p])
    else u
  }

  lemma NoText(h: Http)
    ensures UrlText(h, "") == h && PathText(h, "") == h && QueryText(h, "") == h
    ensures h.Http? && h.state == FIELD && h.header.Header? ==> FieldText(h, "") == h
    ensures h.Http? && h.state == VALUE && h.header.Header? ==> ValueText(h, "") == h
  {
    if h.Http? {
      assert h.url + "" == h.url && h.path + "" == h.path && h.query + "" == h.query;
      if h.header.Header? { assert h.header.field + "" == h.header.field && h.header.value + "" == h.header.value; }
    }
  }

  /** At the start of a buffer nothing is left to hand over. */
  lemma FlushedAtEntry(s: Session, data: string)
    requires SaneRequest(s.parser.state, s.http) && s.http.Http?
    ensures Flushed(s.parser.state, s.http, EntryMarks(s.parser.state), data, 0) == s.http
  {
    hide UrlText, PathText, QueryText, FieldText, ValueText;
    NoText(s.http);
    assert data[0..0] == "";
  }

  /** Inside a header's name or value, only its own mark is set. */
  lemma HeaderMarks(state: State, h: Http, m: Marks, data: string, p: nat)
    requires MarksFit(state, m, p) && p <= |data| && (state == HeaderField || state == HeaderValue)
    ensures state == HeaderField ==>
              0 <= m.field <= p && m.(field := -1) == NO_MARKS
                  && Flushed(state, h, m, data, p) == FieldText(h, data[m.field..p])
    ensures state == HeaderValue ==>
              0 <= m.value <= p && m.(value := -1) == NO_MARKS
                  && Flushed(state, h, m, data, p) == ValueText(h, data[m.value..p])
  {
    hide FieldText, ValueText, UrlText;
  }

  /** Inside the URL, its mark is set, and that of the part that it is in. */
  lemma UrlMarks(state: State, h: Http, m: Marks, data: string, p: nat)
    requires MarksFit(state, m, p) && p <= |data| && InUrlStates(state)
    ensures 0 <= m.url <= p
    ensures state == Path ==>
              0 <= m.path <= p && Flushed(state, h, m, data, p) == PathText(UrlText(h, data[m.url..p]), data[m.path..p])
    ensures state == QueryString ==>
              0 <= m.query <= p && Flushed(state, h, m, data, p)
                  == QueryText(UrlText(h, data[m.url..p]), data[m.query..p])
    ensures state == Fragment ==> Flushed(state, h, m, data, p) == Aborted
    ensures state != Path && state != QueryString && state != Fragment ==>
              Flushed(state, h, m, data, p) == UrlText(h, data[m.url..p])
  {
    hide UrlText, PathText, QueryText;
  }

  /** One more character of a token that goes on. */
  predicate GoesOn(state: State, tag: Tag) {
    match tag
    case InUrl => InUrlStates(state) && state != Path && state != QueryString && state != Fragment
    case InPath => state == Path
    case InQuery => state == QueryString
    case InFragment => state == Fragment
    case InField => state == HeaderField
    case InValue => state == HeaderValue
    case _ => false
  }

  lemma Longer(data: string, mark: int, p: nat)
    requires 0 <= mark <= p < |data|
    ensures data[mark..p + 1] == data[mark..p] + [data[p]]
  {
  }

  lemma LaterMarks(state: State, m: Marks, p: nat)
    requires MarksFit(state, m, p)
    ensures MarksFit(state, m, p + 1)
  {
  }

  lemma InsideUrl(state: State, h: Http, m: Marks, data: string, p: nat, tag: Tag, verb: Method)
    requires MarksFit(state, m, p) && p < |data| && GoesOn(state, tag) && InUrlStates(state)
    ensures MarksFit(state, m, p + 1)
    ensures Flushed(state, h, m, data, p + 1) == Effect(tag, Flushed(state, h, m, data, p), data[p], verb)
  {
    hide UrlText, PathText, QueryText, Flushed, MarksFit;
    LaterMarks(state, m, p);
    UrlMarks(state, h, m, data, p);
    UrlMarks(state, h, m, data, p + 1);
    var c := [data[p]];
    Longer(data, m.url, p);
    UrlInPieces(h, data[m.url..p], c);
    var u := UrlText(h, data[m.url..p]);
    if state == Path {
      Longer(data, m.path, p);
      PathInPieces(UrlText(u, c), data[m.path..p], c);
      PathAndUrl(u, c, data[m.path..p]);
    } else if state == QueryString {
      Longer(data, m.query, p);
      QueryInPieces(UrlText(u, c), data[m.query..p], c);
      QueryAndUrl(u, c, data[m.query..p]);
    }
  }

  lemma InsideHeader(state: State, h: Http, m: Marks, data: string, p: nat, tag: Tag, verb: Method)
    requires MarksFit(state, m, p) && p < |data| && GoesOn(state, tag) && (state == HeaderField || state == HeaderValue)
    ensures MarksFit(state, m, p + 1)
    ensures Flushed(state, h, m, data, p + 1) == Effect(tag, Flushed(state, h, m, data, p), data[p], verb)
  {
    hide FieldText, ValueText, Flushed, MarksFit;
    LaterMarks(state, m, p);
    HeaderMarks(state, h, m, data, p);
    HeaderMarks(state, h, m, data, p + 1);
    if state == HeaderField {
      Longer(data, m.field, p);
      FieldInPieces(h, data[m.field..p], [data[p]]);
    } else {
      Longer(data, m.value, p);
      ValueInPieces(h, data[m.value..p], [data[p]]);
    }
  }

  lemma Inside(state: State, h: Http, m: Marks, data: string, p: nat, tag: Tag, verb: Method)
    requires MarksFit(state, m, p) && p < |data| && GoesOn(state, tag)
    ensures MarksFit(state, m, p + 1)
    ensures Flushed(state, h, m, data, p + 1) == Effect(tag, Flushed(state, h, m, data, p), data[p], verb)
  {
    hide Flushed, MarksFit, Effect;
    if InUrlStates(state) {
      InsideUrl(state, h, m, data, p, tag, verb);
    } else {
      InsideHeader(state, h, m, data, p, tag, verb);
    }
  }

  lemma PathAndUrl(h: Http, a: string, b: string)
    ensures PathText(UrlText(h, a), b) == UrlText(PathText(h, b), a)
  {
  }

  lemma QueryAndUrl(h: Http, a: string, b: string)
    ensures QueryText(UrlText(h, a), b) == UrlText(QueryText(h, b), a)
  {
  }

  /** A byte of the URL that goes on while no other token does: before it there may have been one. */
  lemma UrlGoesOn(state: State, next: State, h: Http, h': Http, m: Marks, m': Marks, data: string, p: nat, verb: Method)
    requires MarksFit(state, m, p) && MarksFit(next, m', p + 1) && p < |data| && m'.url == m.url
    requires InUrlStates(state) && GoesOn(next, InUrl)
    requires Handed(state, h, m, data, p, h')
    ensures Flushed(next, h', m', data, p + 1) == Effect(InUrl, Flushed(state, h, m, data, p), data[p], verb)
  {
    hide UrlText, PathText, QueryText, Flushed;
    UrlMarks(state, h, m, data, p);
    UrlMarks(next, h', m', data, p + 1);
    Longer(data, m.url, p);
    var c := [data[p]];
    UrlInPieces(h', data[m.url..p], c);
    if state == Path { PathAndUrl(h, data[m.url..p], data[m.path..p]); }
    if state == QueryString { QueryAndUrl(h, data[m.url..p], data[m.query..p]); }
  }

  /** The part of the URL that ends here has been handed over: the path or the query. */
  predicate Handed(state: State, h: Http, m: Marks, data: string, p: nat, h': Http)
    requires MarksFit(state, m, p) && p <= |data|
  {
    match state
    case Path => h' == PathText(h, data[m.path..p])
    case QueryString => h' == QueryText(h, data[m.query..p])
    case Fragment => false
    case _ => h' == h
  }

  /** A token that begins with this byte inside a URL that goes on. */
  lemma PartBegins(state: State, next: State, h: Http, m: Marks, m': Marks, data: string, p: nat, tag: Tag,
      verb: Method)
    requires MarksFit(state, m, p) && MarksFit(next, m', p + 1) && p < |data| && m'.url == m.url
    requires GoesOn(state, InUrl) && GoesOn(next, tag)
    requires tag == InPath ==> m'.path == p
    requires tag == InQuery ==> m'.query == p
    requires tag == InPath || tag == InQuery || tag == InFragment
    ensures Flushed(next, h, m', data, p + 1) == Effect(tag, Flushed(state, h, m, data, p), data[p], verb)
  {
    hide UrlText, PathText, QueryText;
    Longer(data, m.url, p);
    assert data[p..p + 1] == [data[p]];
    UrlInPieces(h, data[m.url..p], [data[p]]);
  }

  /** The first byte of a URL, of a header's name or of its value. */
  lemma TokenBegins(state: State, next: State, h: Http, m: Marks, m': Marks, data: string, p: nat, tag: Tag,
      verb: Method)
    requires MarksFit(state, m, p) && MarksFit(next, m', p + 1) && p < |data|
    requires !InUrlStates(state) && state != HeaderField && state != HeaderValue && GoesOn(next, tag) && tag != InQuery
             && tag != InFragment
    requires tag == InUrl || tag == InPath ==> m'.url == p
    requires tag == InPath ==> m'.path == p
    requires tag == InField ==> m'.field == p
    requires tag == InValue ==> m'.value == p
    ensures Flushed(next, h, m', data, p + 1) == Effect(tag, Flushed(state, h, m, data, p), data[p], verb)
  {
    hide UrlText, PathText, QueryText, FieldText, ValueText;
    assert data[p..p + 1] == [data[p]];
  }

  /** Outside of all tokens there is nothing to hand over. */
  predicate Outside(state: State) {
    !InUrlStates(state) && state != HeaderField && state != HeaderValue
  }

  lemma OutsideMarks(state: State, h: Http, m: Marks, data: string, p: nat)
    requires Outside(state) && p <= |data|
    ensures MarksFit(state, m, p) <==> m == NO_MARKS
    ensures m == NO_MARKS ==> Flushed(state, h, m, data, p) == h
  {
  }
}
