/** The parser as the code runs it: one buffer per call, tokens handed over through marks into the buffer, bodies
    copied many bytes at a time. */
module HttpExecute {
  import opened HttpTables
  import opened HttpCallbacks
  import opened HttpParser
  import opened HttpSession
  import opened HttpSanity
  import opened HttpMarks
  import opened HttpBulk

  /** How a call ends: all of the buffer is taken, or it stops at a byte. */
  datatype Result = All | Upto(at: nat, why: Refusal)

  /** How one byte ends: the loop goes on, or the call is over. */
  datatype Verdict = Go | Stop(why: Refusal)

  /** A byte was treated as `move` says, given the request `before` with everything handed over. */
  ghost predicate Took(move: Move, before: Http, data: string, p: nat, r: Verdict, q: Parser, m: Marks, after: Http)
    requires p < |data|
  {
    match r
    case Go =>
      && MarksFit(q.state, m, p + 1)
      && move.Moved? && move.next == q
      && Flushed(q.state, after, m, data, p + 1) == Effect(move.tag, before, data[p], q.verb)
    case Stop(why) =>
      if why == Assertion then move.Moved? ==> Effect(move.tag, before, data[p], move.next.verb).Aborted?
      else move == Refused(why)
  }

  lemma FedOn(s: Session, data: string, p: nat)
    requires p < |data|
    ensures Feed(s, data[..p]).Fed? ==> Feed(s, data[..p + 1]) == Step(Feed(s, data[..p]).session, data[p], p)
  {
    hide Step;
    assert data[..p + 1][..p] == data[..p];
  }

  /** What stops a call stops the whole input. */
  lemma StopsAll(s: Session, data: string, k: nat)
    requires k <= |data|
    ensures Feed(s, data[..k]).Stopped? ==> Feed(s, data) == Feed(s, data[..k])
    ensures !Accepted(Feed(s, data[..k])) ==> !Accepted(Feed(s, data))
  {
    FeedConcat(s, data[..k], data[k..]);
    assert data[..k] + data[k..] == data;
    var r := Feed(s, data[..k]);
    if r.Fed? && r.session.http.Aborted? { AbortedStays(r.session, data[k..]); }
  }

  class HTTP {
    var parser: Parser
    var state: HttpState
    var url: string
    var path: string
    var query: string
    var host: string
    var header: Header
    var headers: seq<Header>
    var body: string
    var verb: Method
    var headerDone: bool
    var done: bool

    /** The request that the fields hold. */
    ghost function Request(): Http
      reads this
    {
      Http(state, url, path, query, host, header, headers, body, verb, headerDone, done)
    }

    ghost predicate Valid()
      reads this
    {
      Sane(Session(parser, Request()))
    }

    /** A parser that waits for a request.  What the initialisation leaves alone is arbitrary. */
    constructor (stale: Parser, verb: Method)
      requires stale.index < 256
      ensures Valid()
      ensures parser == stale.(state := StartReq, nread := 0, upgrade := false, flags := NO_FLAGS, verb := DELETE)
      ensures Request() == Http(INIT, "", "", "", "", NoHeader, [], "", verb, false, false)
    {
      this.parser := stale.(state := StartReq, nread := 0, upgrade := false, flags := NO_FLAGS, verb := DELETE);
      this.state := INIT;
      this.url, this.path, this.query, this.host, this.body := "", "", "", "", "";
      this.header, this.headers := NoHeader, [];
      this.verb := verb;
      this.headerDone, this.done := false, false;
    }

    // The callbacks.  One that answers false has failed an assertion.

    method OnMessageBegin() returns (ok: bool)
      modifies this`state
      ensures ok <==> MessageBegin(old(Request())).Http?
      ensures ok ==> Request() == MessageBegin(old(Request()))
    {
      if state != INIT {
        return false;
      }
      state := HEADER;
      ok := true;
    }

    method OnUrl(at: string)
      modifies this`url
      ensures Request() == UrlText(old(Request()), at)
    {
      url := url + at;
    }

    method OnPath(at: string)
      modifies this`path
      ensures Request() == PathText(old(Request()), at)
    {
      path := path + at;
    }

    method OnQuery(at: string)
      modifies this`query
      ensures Request() == QueryText(old(Request()), at)
    {
      query := query + at;
    }

    method AddHeaderField()
      modifies this`host, this`header, this`headers
      ensures Request() == AddHeader(old(Request()))
    {
      if header.Header? {
        if header.field == "Host" {
          host := header.value;
        }
        headers := headers + [header];
        header := NoHeader;
      }
    }

    method OnField(at: string) returns (ok: bool)
      modifies this`state, this`host, this`header, this`headers
      ensures ok <==> FieldText(old(Request()), at).Http?
      ensures ok ==> Request() == FieldText(old(Request()), at)
    {
      if state == FIELD {
        if header.NoHeader? {
          return false;
        }
        header := Header(header.field + at, header.value);
      } else if state == VALUE || state == HEADER {
        AddHeaderField();
        header := Header(at, "");
        state := FIELD;
      } else {
        return false;
      }
      ok := true;
    }

    method OnValue(at: string) returns (ok: bool)
      modifies this`state, this`header
      ensures ok <==> ValueText(old(Request()), at).Http?
      ensures ok ==> Request() == ValueText(old(Request()), at)
    {
      if state == FIELD {
        state := VALUE;
      }
      if state != VALUE || header.NoHeader? {
        return false;
      }
      header := Header(header.field, header.value + at);
      ok := true;
    }

    method OnHeadersComplete()
      modifies this`host, this`header, this`headers, this`headerDone
      ensures Request() == HeadersComplete(old(Request()))
    {
      AddHeaderField();
      headerDone := true;
    }

    method OnBody(at: string)
      modifies this`body
      ensures Request() == BodyText(old(Request()), at)
    {
      body := body + at;
    }

    method OnMessageComplete(verb: Method) returns (ok: bool)
      modifies this`state, this`verb, this`done
      ensures ok <==> MessageComplete(old(Request()), verb).Http?
      ensures ok ==> Request() == MessageComplete(old(Request()), verb) && done && this.verb == verb
      ensures !ok ==> unchanged(this)
    {
      if (state != VALUE && state != BODY) || !IsServed(verb) {
        return false;
      }
      state := DONE;
      this.verb := verb;
      done := true;
      ok := true;
    }

    /** Whether the request is complete, and its method, change only at the end of a message. */
    static predicate Settled(q: Parser, before: (bool, Method), after: (bool, Method)) {
      after != before ==>
        && after == (true, q.verb)
        && (q.verb == CONNECT ==> InBodyStates(q.state) || (InHeaderStates(q.state) && q.flags.trailing))
    }

    // One byte

    method StartByte(q: Parser, data: string, p: nat) returns (r: Verdict, q': Parser)
      requires p < |data| && q.state == StartReq
      modifies this`state
      ensures Took(StartMove(q, data[p]), old(Request()), data, p, r, q', NO_MARKS, Request())
    {
      var ch := data[p];
      r, q' := Go, q;
      if ch == CR || ch == LF {
        return;
      }
      q' := q.(flags := NO_FLAGS, contentLength := -1);
      var ok := OnMessageBegin();
      if !ok {
        return Stop(Assertion), q';
      }
      q' := q'.(index := 1);
      match FirstLetter(q', ch)
      case Refused(why) => return Stop(why), q';
      case Moved(next, _) => q' := next;
    }

    method SpacesByte(q: Parser, data: string, p: nat) returns (r: Verdict, q': Parser, m': Marks)
      requires p < |data| && q.state == SpacesBeforeUrl
      ensures Took(HostMove(q, data[p]), old(Request()), data, p, r, q', m', Request())
    {
      hide UrlText, PathText, Lower, Flushed;
      var ch := data[p];
      r, q', m' := Go, q, NO_MARKS;
      ghost var h := Request();
      OutsideMarks(q.state, h, NO_MARKS, data, p);
      if ch == ' ' {
        OutsideMarks(q.state, h, NO_MARKS, data, p + 1);
      } else if ch == '/' {
        m' := NO_MARKS.(url := p, path := p);
        q' := q.(state := Path);
        TokenBegins(q.state, Path, h, NO_MARKS, m', data, p, InPath, q.verb);
      } else if IsLetter(Lower(ch)) {
        m' := NO_MARKS.(url := p);
        q' := q.(state := Schema);
        TokenBegins(q.state, Schema, h, NO_MARKS, m', data, p, InUrl, q.verb);
      } else {
        r := Stop(BadInput);
      }
    }

    method SchemaByte(q: Parser, m: Marks, data: string, p: nat) returns (r: Verdict, q': Parser, m': Marks)
      requires p < |data| && MarksFit(q.state, m, p)
      requires q.state == Schema || q.state == SchemaSlash || q.state == SchemaSlashSlash
      ensures Took(HostMove(q, data[p]), old(Flushed(q.state, Request(), m, data, p)), data, p, r, q', m', Request())
    {
      hide UrlText, Lower, Flushed;
      var ch := data[p];
      r, q', m' := Go, q, m;
      if q.state == Schema {
        var c := Lower(ch);
        if IsLetter(c) || IsDigit(c) || c == '-' {
        } else if ch == ':' {
          q' := q.(state := SchemaSlash);
        } else if ch == '.' {
          q' := q.(state := Host);
        } else {
          return Stop(BadInput), q, m;
        }
      } else {
        if ch != '/' {
          return Stop(BadInput), q, m;
        }
        q' := q.(state := if q.state == SchemaSlash then SchemaSlashSlash else Host);
      }
      UrlGoesOn(q.state, q'.state, Request(), Request(), m, m', data, p, q.verb);
    }

    method HostByte(q: Parser, m: Marks, data: string, p: nat) returns (r: Verdict, q': Parser, m': Marks)
      requires p < |data| && MarksFit(q.state, m, p) && (q.state == Host || q.state == Port)
      modifies this`url, this`path, this`query
      ensures Took(HostMove(q, data[p]), old(Flushed(q.state, Request(), m, data, p)), data, p, r, q', m', Request())
    {
      hide UrlText, PathText, Lower, Flushed;
      var ch := data[p];
      r, q', m' := Go, q, m;
      ghost var h := Request();
      UrlMarks(q.state, h, m, data, p);
      if (q.state == Host && (IsLetter(Lower(ch)) || ch == '.' || ch == '-')) || IsDigit(ch) {
        UrlGoesOn(q.state, q.state, h, h, m, m', data, p, q.verb);
      } else if q.state == Host && ch == ':' {
        q' := q.(state := Port);
        UrlGoesOn(q.state, Port, h, h, m, m', data, p, q.verb);
      } else if ch == '/' {
        m' := m.(path := p);
        q' := q.(state := Path);
        PartBegins(q.state, Path, h, m, m', data, p, InPath, q.verb);
      } else if ch == ' ' {
        OnUrl(data[m.url..p]);
        m' := m.(url := -1);
        q' := q.(state := HttpStart);
        OutsideMarks(q'.state, Request(), m', data, p + 1);
      } else {
        r := Stop(BadInput);
      }
    }

    /** Hands over the marked parts of a URL up to `p`. */
    method FlushUrl(state: State, m: Marks, data: string, p: nat)
      requires p <= |data| && MarksFit(state, m, p) && InUrlStates(state) && state != Fragment
      modifies this`url, this`path, this`query
      ensures Request() == old(Flushed(state, Request(), m, data, p))
    {
      hide UrlText, PathText, QueryText, Flushed;
      ghost var h := Request();
      UrlMarks(state, h, m, data, p);
      if m.query >= 0 {
        QueryAndUrl(h, data[m.url..p], data[m.query..p]);
        OnQuery(data[m.query..p]);
      }
      if m.path >= 0 {
        PathAndUrl(h, data[m.url..p], data[m.path..p]);
        OnPath(data[m.path..p]);
      }
      OnUrl(data[m.url..p]);
    }

    /** The end of the URL hands over the URL and the part that it ends in; the callback for fragments only fails an
        assertion. */
    method EndOfUrl(q: Parser, m: Marks, data: string, p: nat) returns (r: Verdict, q': Parser, m': Marks)
      requires p < |data| && MarksFit(q.state, m, p) && InPathStates(q.state)
      modifies this`url, this`path, this`query
      ensures Took(UrlEnd(q, data[p]), old(Flushed(q.state, Request(), m, data, p)), data, p, r, q', m', Request())
    {
      hide UrlText, PathText, QueryText, Flushed, MarksFit;
      r, q', m' := Go, q, NO_MARKS;
      match UrlEnd(q, data[p])
      case Refused(why) => r := Stop(why);
      case Moved(next, _) =>
        if q.state == Fragment {
          UrlMarks(q.state, Request(), m, data, p);
          return Stop(Assertion), q', m';
        }
        FlushUrl(q.state, m, data, p);
        q' := next;
        OutsideMarks(q'.state, Request(), m', data, p + 1);
    }

    method PathByte(q: Parser, m: Marks, data: string, p: nat) returns (r: Verdict, q': Parser, m': Marks)
      requires p < |data| && MarksFit(q.state, m, p) && q.state == Path
      modifies this`url, this`path, this`query
      ensures Took(PathMove(q, data[p]), old(Flushed(q.state, Request(), m, data, p)), data, p, r, q', m', Request())
    {
      hide UrlText, PathText, QueryText, FieldText, ValueText, NormalUrlChar, UrlEnd, Flushed;
      var ch := data[p];
      r, q', m' := Go, q, m;
      ghost var h := Request();
      UrlMarks(q.state, h, m, data, p);
      if NormalUrlChar(ch) {
        Inside(Path, h, m, data, p, InPath, q.verb);
      } else if ch == '?' || ch == '#' {
        OnPath(data[m.path..p]);
        m' := m.(path := -1);
        q' := q.(state := if ch == '?' then QueryStringStart else FragmentStart);
        UrlGoesOn(q.state, q'.state, h, Request(), m, m', data, p, q.verb);
      } else {
        r, q', m' := EndOfUrl(q, m, data, p);
      }
    }

    method QueryByte(q: Parser, m: Marks, data: string, p: nat) returns (r: Verdict, q': Parser, m': Marks)
      requires p < |data| && MarksFit(q.state, m, p) && (q.state == QueryStringStart || q.state == QueryString)
      modifies this`url, this`path, this`query
      ensures Took(PathMove(q, data[p]), old(Flushed(q.state, Request(), m, data, p)), data, p, r, q', m', Request())
    {
      hide UrlText, PathText, QueryText, FieldText, ValueText, NormalUrlChar, UrlEnd, Flushed;
      var ch := data[p];
      r, q', m' := Go, q, m;
      ghost var h := Request();
      UrlMarks(q.state, h, m, data, p);
      if q.state == QueryStringStart {
        if NormalUrlChar(ch) {
          m' := m.(query := p);
          q' := q.(state := QueryString);
          PartBegins(q.state, q'.state, h, m, m', data, p, InQuery, q.verb);
        } else if ch == '?' || ch == '#' {
          q' := q.(state := if ch == '?' then QueryStringStart else FragmentStart);
          UrlGoesOn(q.state, q'.state, h, h, m, m', data, p, q.verb);
        } else {
          r, q', m' := EndOfUrl(q, m, data, p);
        }
      } else if NormalUrlChar(ch) || ch == '?' {
        Inside(QueryString, h, m, data, p, InQuery, q.verb);
      } else if ch == '#' {
        OnQuery(data[m.query..p]);
        m' := m.(query := -1);
        q' := q.(state := FragmentStart);
        UrlGoesOn(q.state, q'.state, h, Request(), m, m', data, p, q.verb);
      } else {
        r, q', m' := EndOfUrl(q, m, data, p);
      }
    }

    method FragmentByte(q: Parser, m: Marks, data: string, p: nat) returns (r: Verdict, q': Parser, m': Marks)
      requires p < |data| && MarksFit(q.state, m, p) && (q.state == FragmentStart || q.state == Fragment)
      modifies this`url, this`path, this`query
      ensures Took(PathMove(q, data[p]), old(Flushed(q.state, Request(), m, data, p)), data, p, r, q', m', Request())
    {
      hide UrlText, PathText, QueryText, FieldText, ValueText, NormalUrlChar, UrlEnd, Flushed;
      var ch := data[p];
      r, q', m' := Go, q, m;
      ghost var h := Request();
      UrlMarks(q.state, h, m, data, p);
      if q.state == FragmentStart {
        if NormalUrlChar(ch) || ch == '?' {
          m' := m.(fragment := p);
          q' := q.(state := Fragment);
          PartBegins(q.state, q'.state, h, m, m', data, p, InFragment, q.verb);
        } else if ch == '#' {
          Inside(FragmentStart, h, m, data, p, InUrl, q.verb);
        } else {
          r, q', m' := EndOfUrl(q, m, data, p);
        }
      } else if NormalUrlChar(ch) || ch == '?' || ch == '#' {
        Inside(Fragment, h, m, data, p, InFragment, q.verb);
      } else {
        r, q', m' := EndOfUrl(q, m, data, p);
      }
    }

    method FieldStartByte(q: Parser, m: Marks, data: string, p: nat) returns (r: Verdict, q': Parser, m': Marks)
      requires p < |data| && q.state == HeaderFieldStart && m == NO_MARKS
      modifies this
      ensures parser == old(parser)
      ensures Settled(q, old((done, verb)), (done, verb))
      ensures Took(FieldStartMove(q, data[p]), old(Request()), data, p, r, q', m', Request())
    {
      hide FieldText, ValueText, Token, AllDone;
      var ch := data[p];
      r, q', m' := Go, q, m;
      ghost var h := Request();
      if ch == CR {
        q' := q.(state := HeadersAlmostDone);
      } else if ch == LF {
        r, q' := AllDoneByte(q.(state := HeadersAlmostDone), data, p);
      } else if Token(ch) == NONE {
        r := Stop(BadInput);
      } else {
        m' := m.(field := p);
        q' := q.(index := 0, state := HeaderField, headerState := FieldStartState(Token(ch)));
        TokenBegins(q.state, q'.state, h, m, m', data, p, InField, q.verb);
      }
    }

    method FieldByte(q: Parser, m: Marks, data: string, p: nat) returns (r: Verdict, q': Parser, m': Marks)
      requires p < |data| && MarksFit(q.state, m, p) && q.state == HeaderField
      modifies this`state, this`host, this`header, this`headers
      ensures Took(FieldMove(q, data[p]), old(Flushed(q.state, Request(), m, data, p)), data, p, r, q', m', Request())
    {
      hide FieldText, ValueText, Token, FieldChar, Flushed, MarksFit;
      var ch := data[p];
      r, q', m' := Go, q, m;
      HeaderMarks(q.state, Request(), m, data, p);
      if Token(ch) != NONE {
        FieldCharMove(q, ch);
        match FieldChar(q, ch)
        case Refused(why) => r := Stop(why);
        case Moved(next, _) =>
          q' := next;
          Inside(HeaderField, Request(), m, data, p, InField, q.verb);
      } else if ch == ':' || ch == CR || ch == LF {
        var ok := OnField(data[m.field..p]);
        if !ok {
          return Stop(Assertion), q, m;
        }
        m' := m.(field := -1);
        q' := q.(state := if ch == ':' then HeaderValueStart else if ch == CR then HeaderAlmostDone
            else HeaderFieldStart);
        OutsideMarks(q'.state, Request(), m', data, p + 1);
      } else {
        r := Stop(BadInput);
      }
    }

    lemma FieldCharMove(q: Parser, ch: char)
      requires q.state == HeaderField
      ensures match FieldChar(q, ch)
              case Refused(why) => why == Assertion
              case Moved(next, tag) => tag == InField && next.state == HeaderField && next.verb == q.verb
    {
    }

    method ValueStartByte(q: Parser, m: Marks, data: string, p: nat) returns (r: Verdict, q': Parser, m': Marks)
      requires p < |data| && q.state == HeaderValueStart && m == NO_MARKS
      modifies this`state, this`host, this`header, this`headers
      ensures Took(ValueStartMove(q, data[p]), old(Request()), data, p, r, q', m', Request())
    {
      hide FieldText, ValueText, Acceptable, Flushed, MarksFit;
      var ch := data[p];
      r, q', m' := Go, q, m;
      ghost var h := Request();
      OutsideMarks(q.state, h, m, data, p);
      if ch == ' ' {
        OutsideMarks(q.state, h, m, data, p + 1);
        return;
      }
      m' := m.(value := p);
      q' := q.(state := HeaderValue, index := 0);
      if ch == CR || ch == LF {
        assert data[p..p] == "";
        var ok := OnValue(data[p..p]);
        if !ok {
          return Stop(Assertion), q, m;
        }
        m' := m;
        q' := if ch == CR then q'.(headerState := General, state := HeaderAlmostDone)
            else q'.(state := HeaderFieldStart);
        OutsideMarks(q'.state, Request(), m', data, p + 1);
        return;
      }
      ValueStartShape(q, ch);
      match ValueStartMove(q, ch)
      case Refused(why) => r := Stop(why);
      case Moved(next, _) =>
        q' := next;
        OnlyValueMark(m', p);
        TokenBegins(q.state, q'.state, h, m, m', data, p, InValue, q.verb);
    }

    lemma OnlyValueMark(m: Marks, p: nat)
      requires m == NO_MARKS.(value := p)
      ensures MarksFit(HeaderValue, m, p + 1)
    {
    }

    lemma ValueStartShape(q: Parser, ch: char)
      requires ch != ' ' && ch != CR && ch != LF
      ensures match ValueStartMove(q, ch)
              case Refused(why) => why == BadInput
              case Moved(next, tag) => tag == InValue && next.state == HeaderValue && next.verb == q.verb
    {
    }

    method ValueByte(q: Parser, m: Marks, data: string, p: nat) returns (r: Verdict, q': Parser, m': Marks)
      requires p < |data| && MarksFit(q.state, m, p) && q.state == HeaderValue
      modifies this`state, this`host, this`header, this`headers
      ensures Took(ValueMove(q, data[p]), old(Flushed(q.state, Request(), m, data, p)), data, p, r, q', m', Request())
    {
      hide FieldText, ValueText, Acceptable, ValueChar, Flushed, MarksFit;
      var ch := data[p];
      r, q', m' := Go, q, m;
      HeaderMarks(q.state, Request(), m, data, p);
      if Acceptable(ch) != NONE {
        ValueCharMove(q, ch);
        match ValueChar(q, ch)
        case Refused(why) => r := Stop(why);
        case Moved(next, _) =>
          q' := next;
          Inside(HeaderValue, Request(), m, data, p, InValue, q.verb);
      } else if ch == CR || ch == LF {
        var ok := OnValue(data[m.value..p]);
        if !ok {
          return Stop(Assertion), q, m;
        }
        m' := m.(value := -1);
        if ch == CR {
          q' := q.(state := HeaderAlmostDone);
        } else {
          q' := LineDone(q, ch).next;
        }
        OutsideMarks(q'.state, Request(), m', data, p + 1);
      } else {
        Inside(HeaderValue, Request(), m, data, p, InValue, q.verb);
      }
    }

    lemma ValueCharMove(q: Parser, ch: char)
      requires q.state == HeaderValue
      ensures match ValueChar(q, ch)
              case Refused(why) => why == Assertion || why == BadInput
              case Moved(next, tag) => tag == InValue && next.state == HeaderValue && next.verb == q.verb
    {
    }

    /** The empty line behind the headers, or behind the last chunk. */
    method AllDoneByte(q: Parser, data: string, p: nat) returns (r: Verdict, q': Parser)
      requires p < |data| && q.state == HeadersAlmostDone
      modifies this`host, this`header, this`headers, this`headerDone, this`state, this`verb, this`done
      ensures Settled(q, old((done, verb)), (done, verb))
      ensures Took(AllDone(q, data[p]), old(Request()), data, p, r, q', NO_MARKS, Request())
    {
      hide MessageComplete, HeadersComplete, BodyText;
      var ch := data[p];
      r, q' := Go, q;
      if ch != LF {
        return Stop(BadInput), q;
      }
      if q.flags.trailing {
        var ok := OnMessageComplete(q.verb);
        if !ok {
          return Stop(Assertion), q;
        }
        q' := q.(state := NewMessage(q));
        return;
      }
      r, q' := HeadersDoneByte(q, data, p);
    }

    method HeadersDoneByte(q: Parser, data: string, p: nat) returns (r: Verdict, q': Parser)
      requires p < |data| && q.state == HeadersAlmostDone && data[p] == LF && !q.flags.trailing
      modifies this`host, this`header, this`headers, this`headerDone, this`state, this`verb, this`done
      ensures Settled(q, old((done, verb)), (done, verb))
      ensures Took(AllDone(q, data[p]), old(Request()), data, p, r, q', NO_MARKS, Request())
    {
      hide MessageComplete, HeadersComplete, BodyText, NewMessage, Flushed, MarksFit;
      r, q' := Go, q.(nread := 0);
      if q.flags.upgrade || q.verb == CONNECT {
        q' := q'.(upgrade := true);
      }
      assert q' == q.(nread := 0, upgrade := q.upgrade || q.flags.upgrade || q.verb == CONNECT);
      OnHeadersComplete();
      if q'.upgrade {
        return Stop(Upgraded), q';
      }
      if q.flags.chunked {
        q' := q'.(state := ChunkSizeStart);
      } else if q.contentLength > 0 {
        q' := q'.(state := BodyIdentity);
      } else {
        var ok := OnMessageComplete(q.verb);
        if !ok {
          return Stop(Assertion), q';
        }
        q' := q'.(state := NewMessage(q'));
      }
      OutsideMarks(q'.state, Request(), NO_MARKS, data, p + 1);
    }

    /** A move inside no token, with no callback. */
    static predicate Plain(move: Move) {
      move.Moved? ==> move.tag == Silent && Outside(move.next.state)
    }

    lemma PlainLine(q: Parser, ch: char)
      requires Outside(q.state)
      ensures Plain(MethodMove(q, ch)) && Plain(LineDone(q, ch))
    {
      hide MethodName;
    }

    lemma PlainVersion(q: Parser, ch: char)
      requires Outside(q.state)
      ensures Plain(VersionMove(q, ch))
    {
    }

    lemma PlainChunk(q: Parser, ch: char)
      requires Outside(q.state) && q.state != ChunkData
      ensures Plain(ChunkMove(q, ch))
    {
      hide Unhex;
    }

    method PlainByte(move: Move, q: Parser, data: string, p: nat) returns (r: Verdict, q': Parser)
      requires p < |data| && Plain(move)
      ensures Took(move, Request(), data, p, r, q', NO_MARKS, Request())
    {
      r, q' := Go, q;
      match move
      case Refused(why) => r := Stop(why);
      case Moved(next, _) =>
        q' := next;
        OutsideMarks(q'.state, Request(), NO_MARKS, data, p + 1);
    }

    method HeaderByte(q: Parser, m: Marks, data: string, p: nat) returns (r: Verdict, q': Parser, m': Marks)
      requires p < |data| && MarksFit(q.state, m, p) && InHeaderStates(q.state)
      modifies this
      ensures parser == old(parser)
      ensures Settled(q, old((done, verb)), (done, verb))
      ensures Took(HeaderMove(q, data[p]), old(Flushed(q.state, Request(), m, data, p)), data, p, r, q', m', Request())
    {
      hide FieldStartMove, FieldMove, ValueStartMove, ValueMove, LineDone, AllDone, Took, Flushed, MarksFit;
      r, q', m' := Go, q, m;
      if Outside(q.state) {
        OutsideMarks(q.state, Request(), m, data, p);
      }
      if q.state == HeaderFieldStart {
        r, q', m' := FieldStartByte(q, m, data, p);
      } else if q.state == HeaderField {
        r, q', m' := FieldByte(q, m, data, p);
      } else if q.state == HeaderValueStart {
        r, q', m' := ValueStartByte(q, m, data, p);
      } else if q.state == HeaderValue {
        r, q', m' := ValueByte(q, m, data, p);
      } else if q.state == HeaderAlmostDone {
        PlainLine(q, data[p]);
        r, q' := PlainByte(LineDone(q, data[p]), q, data, p);
      } else {
        r, q' := AllDoneByte(q, data, p);
      }
    }

    method RequestLineByte(q: Parser, m: Marks, data: string, p: nat) returns (r: Verdict, q': Parser, m': Marks)
      requires p < |data| && MarksFit(q.state, m, p) && !InHeaderStates(q.state) && !InBodyStates(q.state)
      modifies this`state, this`url, this`path, this`query
      ensures Took(RequestLineMove(q, data[p]), old(Flushed(q.state, Request(), m, data, p)), data, p, r, q', m',
              Request())
    {
      hide StartMove, MethodMove, HostMove, PathMove, VersionMove, Took, Flushed, MarksFit;
      r, q', m' := Go, q, m;
      if Outside(q.state) {
        OutsideMarks(q.state, Request(), m, data, p);
        PlainLine(q, data[p]);
        PlainVersion(q, data[p]);
      }
      if q.state == Dead {
        r, q' := PlainByte(BAD, q, data, p);
      } else if q.state == StartReq {
        r, q' := StartByte(q, data, p);
      } else if q.state == ReqMethod {
        r, q' := PlainByte(MethodMove(q, data[p]), q, data, p);
      } else if q.state == SpacesBeforeUrl {
        r, q', m' := SpacesByte(q, data, p);
      } else if q.state == Host || q.state == Port {
        r, q', m' := HostByte(q, m, data, p);
      } else if InHostStates(q.state) {
        r, q', m' := SchemaByte(q, m, data, p);
      } else if q.state == Path {
        r, q', m' := PathByte(q, m, data, p);
      } else if q.state == QueryStringStart || q.state == QueryString {
        r, q', m' := QueryByte(q, m, data, p);
      } else if InPathStates(q.state) {
        r, q', m' := FragmentByte(q, m, data, p);
      } else {
        r, q' := PlainByte(VersionMove(q, data[p]), q, data, p);
      }
    }

    /** Any byte but those of a body. */
    method OneByte(q: Parser, m: Marks, data: string, p: nat) returns (r: Verdict, q': Parser, m': Marks)
      requires p < |data| && MarksFit(q.state, m, p) && q.state != BodyIdentity && q.state != ChunkData
      modifies this
      ensures parser == old(parser)
      ensures Settled(q, old((done, verb)), (done, verb))
      ensures Took(Take(q, data[p]), old(Flushed(q.state, Request(), m, data, p)), data, p, r, q', m', Request())
    {
      hide HeaderMove, RequestLineMove, ChunkMove, Flushed, MarksFit;
      var counted := q;
      if ParsingHeader(q) {
        counted := q.(nread := q.nread + 1);
        if counted.nread > MAX_HEADER_SIZE {
          return Stop(BadInput), q, m;
        }
      }
      if InHeaderStates(q.state) {
        r, q', m' := HeaderByte(counted, m, data, p);
      } else if InBodyStates(q.state) {
        PlainChunk(counted, data[p]);
        OutsideMarks(q.state, Request(), m, data, p);
        r, q' := PlainByte(ChunkMove(counted, data[p]), counted, data, p);
        m' := m;
      } else {
        r, q', m' := RequestLineByte(counted, m, data, p);
      }
    }

    static function Min(a: int, b: int): int {
      if a < b then a else b
    }

    /** The bytes of a body of known length, as many as there are in the buffer. */
    method IdentityBytes(q: Parser, data: string, p: nat) returns (r: Verdict, q': Parser, p': nat)
      requires p < |data| && q.state == BodyIdentity && q.contentLength > 0
      modifies this`body, this`state, this`verb, this`done
      ensures p < p' <= |data|
      ensures Settled(q, old((done, verb)), (done, verb))
      ensures BodyTaken(Session(q, old(Request())), data[p..p'], r, Session(q', Request()))
    {
      hide BodyText, MessageComplete, Step, Feed, NewMessage, BodyTaken, Accepted;
      var toRead := Min(|data| - p, q.contentLength);
      r, p' := Go, p + toRead;
      ghost var s := Session(q, Request());
      BulkIdentity(s, data[p..p']);
      OnBody(data[p..p']);
      q' := q.(contentLength := q.contentLength - toRead);
      if q'.contentLength == 0 {
        var ok := OnMessageComplete(q.verb);
        if !ok {
          BodyAborts(s, data[p..p'], Session(q', Request()));
          return Stop(Assertion), q', p';
        }
        q' := q'.(state := NewMessage(q));
      }
      BodyGoesOn(s, data[p..p'], Session(q', Request()));
    }

    lemma BodyAborts(s: Session, text: string, t: Session)
      requires Feed(s, text).Fed? && Feed(s, text).session.http.Aborted?
      ensures BodyTaken(s, text, Stop(Assertion), t)
    {
    }

    lemma BodyGoesOn(s: Session, text: string, t: Session)
      requires Outside(t.parser.state) && Feed(s, text) == Fed(t)
      ensures BodyTaken(s, text, Go, t)
    {
    }

    /** The bytes of a chunk, as many as there are in the buffer. */
    method ChunkBytes(q: Parser, data: string, p: nat) returns (r: Verdict, q': Parser, p': nat)
      requires p < |data| && q.state == ChunkData && q.flags.chunked && q.contentLength > 0
      modifies this`body
      ensures p < p' <= |data|
      ensures BodyTaken(Session(q, old(Request())), data[p..p'], r, Session(q', Request()))
    {
      hide BodyText, Step, Feed;
      var toRead := Min(|data| - p, q.contentLength);
      r, p' := Go, p + toRead;
      BulkChunk(Session(q, Request()), data[p..p']);
      OnBody(data[p..p']);
      q' := q;
      if toRead == q.contentLength {
        q' := q'.(state := ChunkDataAlmostDone);
      }
      q' := q'.(contentLength := q.contentLength - toRead);
    }

    /** What copying many bytes at once comes to. */
    static ghost predicate BodyTaken(s: Session, text: string, r: Verdict, t: Session) {
      match r
      case Go => Outside(t.parser.state) && Feed(s, text) == Fed(t)
      case Stop(why) => why == Assertion && !Accepted(Feed(s, text))
    }

    /** Hands over what is still marked at the end of a buffer. */
    method Flush(state: State, m: Marks, data: string) returns (ok: bool)
      requires MarksFit(state, m, |data|)
      modifies this`state, this`url, this`path, this`query, this`host, this`header, this`headers
      ensures ok <==> old(Flushed(state, Request(), m, data, |data|)).Http?
      ensures ok ==> Request() == old(Flushed(state, Request(), m, data, |data|))
    {
      hide FieldText, ValueText, UrlText, PathText, QueryText;
      ok := true;
      if m.field >= 0 {
        ok := OnField(data[m.field..|data|]);
      } else if m.value >= 0 {
        ok := OnValue(data[m.value..|data|]);
      } else if m.fragment >= 0 {
        ok := false;
      } else if m.url >= 0 {
        FlushUrl(state, m, data, |data|);
      }
    }

    /** Where the loop stands before byte `p`: the bytes so far, taken one by one from the start, make what
        the registers and the request are with everything marked handed over. */
    ghost predicate At(s: Session, q: Parser, m: Marks, data: string, p: nat)
      reads this
    {
      && p <= |data| && MarksFit(q.state, m, p)
      && Feed(s, data[..p]) == Fed(Session(q, Flushed(q.state, Request(), m, data, p)))
    }

    /** What a call that stops at byte `p` says about the whole input. */
    static ghost predicate StopsAt(s: Session, data: string, p: nat, why: Refusal) {
      && !Accepted(Feed(s, data))
      && (why != Assertion ==> Feed(s, data) == Stopped(p, why))
    }

    method TakeOne(ghost s: Session, q: Parser, m: Marks, data: string, p: nat)
        returns (v: Verdict, q': Parser, m': Marks)
      requires At(s, q, m, data, p) && p < |data| && q.state != BodyIdentity && q.state != ChunkData
      modifies this
      ensures parser == old(parser)
      ensures Settled(q, old((done, verb)), (done, verb))
      ensures v.Go? ==> At(s, q', m', data, p + 1)
      ensures v.Stop? ==> StopsAt(s, data, p, v.why)
    {
      hide Take, Effect, Flushed, MarksFit, Feed, Settled;
      FedOn(s, data, p);
      StopsAll(s, data, p + 1);
      v, q', m' := OneByte(q, m, data, p);
    }

    lemma SaneBodyLength(s: Session)
      requires Sane(s)
      ensures s.parser.state == BodyIdentity || s.parser.state == ChunkData ==> s.parser.contentLength > 0
      ensures s.parser.state == ChunkData ==> s.parser.flags.chunked
    {
    }

    lemma FedFurther(s: Session, data: string, p: nat, p': nat)
      requires p <= p' <= |data| && Feed(s, data[..p]).Fed?
      ensures Feed(s, data[..p']) == Shifted(p, Feed(Feed(s, data[..p]).session, data[p..p']))
    {
      hide Step;
      FeedConcat(s, data[..p], data[p..p']);
      assert data[..p] + data[p..p'] == data[..p'];
    }

    lemma BodyTakenAt(s: Session, data: string, p: nat, p': nat, before: Session, r: Verdict, after: Session)
      requires p <= p' <= |data| && Feed(s, data[..p]) == Fed(before) && BodyTaken(before, data[p..p'], r, after)
      ensures r.Go? ==> Feed(s, data[..p']) == Fed(after) && Outside(after.parser.state)
      ensures r.Stop? ==> StopsAt(s, data, p, r.why)
    {
      hide Feed, Step;
      FedFurther(s, data, p, p');
      StopsAll(s, data, p');
    }

    method TakeBody(ghost s: Session, q: Parser, m: Marks, data: string, p: nat)
        returns (v: Verdict, q': Parser, p': nat)
      requires Sane(s) && At(s, q, m, data, p) && p < |data| && (q.state == BodyIdentity || q.state == ChunkData)
      modifies this`body, this`state, this`verb, this`done
      ensures p < p'
      ensures Settled(q, old((done, verb)), (done, verb))
      ensures v.Go? ==> At(s, q', NO_MARKS, data, p')
      ensures v.Stop? ==> StopsAt(s, data, p, v.why)
    {
      hide Take, Effect, Flushed, MarksFit, Feed, Step, Sane, Settled, BodyTaken;
      OutsideMarks(q.state, Request(), m, data, p);
      SaneFeed(s, data[..p]);
      SaneBodyLength(Session(q, Request()));
      ghost var before := Session(q, Request());
      if q.state == BodyIdentity {
        v, q', p' := IdentityBytes(q, data, p);
      } else {
        v, q', p' := ChunkBytes(q, data, p);
        SettledSame(q, done, verb);
      }
      BodyTakenAt(s, data, p, p', before, v, Session(q', Request()));
      if v.Go? { OutsideMarks(q'.state, Request(), NO_MARKS, data, p'); }
    }

    static lemma SettledSame(q: Parser, done: bool, verb: Method)
      ensures Settled(q, (done, verb), (done, verb))
    {
    }

    lemma Entry(s: Session, data: string)
      requires Sane(s) && s.http.Http?
      ensures Feed(s, data[..0]) == Fed(Session(s.parser, Flushed(s.parser.state, s.http, EntryMarks(s.parser.state),
              data, 0)))
    {
      hide SaneParser, SaneRequest, Flushed;
      FlushedAtEntry(s, data);
    }

    static lemma SaneDone(s: Session)
      requires Sane(s) && s.http.Http?
      ensures s.http.done ==> s.http.verb != CONNECT
    {
    }

    static lemma SettledWell(s: Session, before: (bool, Method))
      requires Sane(s) && (before.0 ==> before.1 != CONNECT)
      ensures forall after :: Settled(s.parser, before, after) ==> (after.0 ==> after.1 != CONNECT)
    {
    }

    static lemma DeadIsSane(s: Session, h: Http)
      requires Sane(s) && h.Http? && (h.done ==> h.verb != CONNECT)
      ensures Sane(Session(s.parser.(state := Dead), h))
    {
    }

    /** Parses one buffer.  The call takes all of it exactly if the bytes, taken one by one, are taken to the
        last and no assertion fails, and then parser and request are what those bytes make of them; a call that
        stops at a byte for another reason than an assertion stops at the byte that is not taken. */
    method Execute(data: string) returns (r: Result)
      requires Valid()
      modifies this
      ensures r.All? <==> Accepted(Feed(old(Session(parser, Request())), data))
      ensures r.All? ==> Valid() && Fed(Session(parser, Request())) == Feed(old(Session(parser, Request())), data)
      ensures r.Upto? && r.why != Assertion ==> Feed(old(Session(parser, Request())), data) == Stopped(r.at, r.why)
      ensures r.Upto? && r.why == BadInput ==> Valid() && parser.state == Dead && r.at < |data|
    {
      hide Sane, Take, Step, Feed, Effect, Flushed, MarksFit, Settled;
      ghost var s := Session(parser, Request());
      var q := parser;
      var m := EntryMarks(q.state);
      var p := 0;
      Entry(s, data);
      SaneDone(s);
      while p < |data|
        invariant parser == old(parser) && At(s, q, m, data, p)
        invariant done ==> verb != CONNECT
      {
        var v, p' := Go, p + 1;
        SaneFeed(s, data[..p]);
        SettledWell(Feed(s, data[..p]).session, (done, verb));
        if q.state == BodyIdentity || q.state == ChunkData {
          v, q, p' := TakeBody(s, q, m, data, p);
          m := NO_MARKS;
        } else {
          v, q, m := TakeOne(s, q, m, data, p);
        }
        if v.Stop? {
          if v.why == BadInput {
            parser := parser.(state := Dead);
            DeadIsSane(s, Request());
          }
          return Upto(p, v.why);
        }
        p := p';
      }
      assert data[..p] == data;
      var ok := Flush(q.state, m, data);
      SaneFeed(s, data);
      if !ok {
        return Upto(p, Assertion);
      }
      parser := q;
      r := All;
    }

    /** A finished request takes no more data. */
    method AddData(data: string) returns (r: Result)
      requires Valid()
      modifies this
      ensures old(done) ==> r == Upto(0, Assertion)
      ensures !old(done) ==> (r.All? <==> Accepted(Feed(old(Session(parser, Request())), data)))
      ensures r.All? ==> Valid() && Fed(Session(parser, Request())) == Feed(old(Session(parser, Request())), data)
      ensures r.Upto? && r.why == BadInput ==> Valid() && parser.state == Dead && r.at < |data|
    {
      hide Sane, Feed;
      if done {
        return Upto(0, Assertion);
      }
      r := Execute(data);
    }
  }
}
