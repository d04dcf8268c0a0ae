/** The targets of requests: a path, perhaps with a query, and perhaps with a scheme and a host in front. */
module HttpTargets {
  import opened HttpTables
  import opened HttpCallbacks
  import opened HttpParser
  import opened HttpSession
  import opened HttpLines

  // Bytes of the request line

  predicate InRequestLine(s: State) {
    !InHeaderStates(s) && !InBodyStates(s)
  }

  /** One byte more, in a state of the request line. */
  lemma OneRequestByte(s: Session, text: string, ch: char, t: Session)
    requires Feed(s, text) == Fed(t) && InRequestLine(t.parser.state) && MayCount(t.parser, 1)
    ensures var r := RequestLineMove(t.parser.(nread := t.parser.nread + 1), ch);
            Feed(s, text + [ch]) == match r
                                    case Refused(why) => Stopped(|text|, why)
                                    case Moved(next, tag) => Fed(Session(next, Effect(tag, t.http, ch, next.verb)))
  {
    hide RequestLineMove, HeaderMove, Effect, Feed;
    FeedMore(s, text, ch);
  }

  // The target

  predicate IsPath(path: string) {
    path != "" && path[0] == '/' && forall i :: 0 <= i < |path| ==> NormalUrlChar(path[i])
  }

  predicate IsQuery(query: string) {
    (query != "" ==> query[0] != '?') && forall i :: 0 <= i < |query| ==> NormalUrlChar(query[i]) || query[i] == '?'
  }

  /** The registers after `n` more bytes, in another state. */
  function Along(q: Parser, state: State, n: nat): Parser {
    q.(state := state, nread := q.nread + n)
  }

  function WithPath(h: Http, text: string): Http {
    PathText(UrlText(h, text), text)
  }

  function WithQuery(h: Http, text: string): Http {
    QueryText(UrlText(h, text), text)
  }

  lemma MorePath(h: Http, a: string, b: string)
    ensures WithPath(WithPath(h, a), b) == WithPath(h, a + b)
  {
    UrlInPieces(h, a, b);
    PathInPieces(UrlText(h, a + b), a, b);
  }

  lemma MoreQuery(h: Http, a: string, b: string)
    ensures WithQuery(WithQuery(h, a), b) == WithQuery(h, a + b)
  {
    UrlInPieces(h, a, b);
    QueryInPieces(UrlText(h, a + b), a, b);
  }

  predicate PathMayStart(s: State) {
    s == SpacesBeforeUrl || s == Host || s == Port
  }

  lemma PathByte(q: Parser, ch: char)
    requires (PathMayStart(q.state) && ch == '/') || (q.state == Path && NormalUrlChar(ch))
    ensures RequestLineMove(q, ch) == Moved(q.(state := Path), InPath)
  {
    hide NormalUrlChar, VersionMove, MethodMove, StartMove;
  }

  lemma QueryByte(q: Parser, ch: char)
    requires q.state == QueryStringStart ==> NormalUrlChar(ch)
    requires q.state == QueryString ==> NormalUrlChar(ch) || ch == '?'
    requires q.state == QueryStringStart || q.state == QueryString
    ensures RequestLineMove(q, ch) == Moved(q.(state := QueryString), InQuery)
  {
    hide NormalUrlChar, VersionMove, MethodMove, StartMove, HostMove;
  }

  lemma {:induction false} PathRead(s: Session, path: string)
    requires PathMayStart(s.parser.state) && IsPath(path) && MayCount(s.parser, |path|)
    ensures Feed(s, path) == Fed(Session(Along(s.parser, Path, |path|), WithPath(s.http, path)))
    decreases |path|
  {
    hide Feed, RequestLineMove, NormalUrlChar, UrlText, PathText;
    var last := |path| - 1;
    var before, ch := path[..last], path[last];
    assert path == before + [ch];
    if last == 0 {
      assert before == "" && path == [ch] && "" + [ch] == path;
      FeedNothing(s);
      PathByte(Along(s.parser, s.parser.state, 1), ch);
      OneRequestByte(s, "", ch, s);
    } else {
      PathRead(s, before);
      PathByte(Along(s.parser, Path, |path|), ch);
      OneRequestByte(s, before, ch, Session(Along(s.parser, Path, last), WithPath(s.http, before)));
      MorePath(s.http, before, [ch]);
    }
  }

  lemma {:induction false} QueryRead(s: Session, query: string)
    requires s.parser.state == QueryStringStart && query != "" && IsQuery(query) && MayCount(s.parser, |query|)
    ensures Feed(s, query) == Fed(Session(Along(s.parser, QueryString, |query|), WithQuery(s.http, query)))
    decreases |query|
  {
    hide Feed, RequestLineMove, NormalUrlChar, UrlText, QueryText;
    var last := |query| - 1;
    var before, ch := query[..last], query[last];
    assert query == before + [ch];
    if last == 0 {
      assert before == "" && query == [ch] && "" + [ch] == query;
      FeedNothing(s);
      QueryByte(Along(s.parser, QueryStringStart, 1), ch);
      OneRequestByte(s, "", ch, s);
    } else {
      assert before[0] == query[0];
      QueryRead(s, before);
      QueryByte(Along(s.parser, QueryString, |query|), ch);
      OneRequestByte(s, before, ch, Session(Along(s.parser, QueryString, last), WithQuery(s.http, before)));
      MoreQuery(s.http, before, [ch]);
    }
  }

  lemma QuestionRead(s: Session)
    requires s.parser.state == Path && MayCount(s.parser, 1)
    ensures Feed(s, "?") == Fed(Session(Along(s.parser, QueryStringStart, 1), UrlText(s.http, "?")))
  {
    hide Feed, VersionMove, MethodMove, StartMove, HostMove, UrlText;
    FeedNothing(s);
    OneRequestByte(s, "", '?', s);
    assert "" + ['?'] == "?";
    assert ['?'] == "?";
  }

  // The scheme and the host

  datatype Origin = NoOrigin | Origin(scheme: string, host: string, port: string)

  function PortText(port: string): string {
    if port == "" then "" else ":" + port
  }

  function OriginText(o: Origin): string {
    match o
    case NoOrigin => ""
    case Origin(scheme, host, port) => scheme + "://" + host + PortText(port)
  }

  predicate IsLetterAnyCase(c: char) {
    IsLetter(c) || IsCapital(c)
  }

  predicate SchemeChar(c: char) {
    IsLetterAnyCase(c) || IsDigit(c) || c == '-'
  }

  predicate HostChar(c: char) {
    IsLetterAnyCase(c) || IsDigit(c) || c == '.' || c == '-'
  }

  predicate IsOrigin(o: Origin) {
    o.Origin? ==>
      && o.scheme != "" && IsLetterAnyCase(o.scheme[0])
      && (forall i :: 0 <= i < |o.scheme| ==> SchemeChar(o.scheme[i]))
      && (forall i :: 0 <= i < |o.host| ==> HostChar(o.host[i]))
      && (forall i :: 0 <= i < |o.port| ==> IsDigit(o.port[i]))
  }

  /** A character that goes on in the same part of the URL. */
  predicate GoesOnIn(s: State, c: char) {
    match s
    case Schema => SchemeChar(c)
    case Host => HostChar(c)
    case Port => IsDigit(c)
    case _ => false
  }

  lemma SameByte(q: Parser, ch: char)
    requires GoesOnIn(q.state, ch)
    ensures RequestLineMove(q, ch) == Moved(q, InUrl)
  {
    hide VersionMove, MethodMove, StartMove, PathMove;
  }

  /** A byte that leads from one part to the next. */
  lemma NextByte(q: Parser, ch: char)
    ensures q.state == SpacesBeforeUrl && IsLetterAnyCase(ch)
            ==> RequestLineMove(q, ch) == Moved(q.(state := Schema), InUrl)
    ensures q.state == Schema && ch == ':' ==> RequestLineMove(q, ch) == Moved(q.(state := SchemaSlash), InUrl)
    ensures q.state == SchemaSlash && ch == '/' ==>
              RequestLineMove(q, ch) == Moved(q.(state := SchemaSlashSlash), InUrl)
    ensures q.state == SchemaSlashSlash && ch == '/' ==> RequestLineMove(q, ch) == Moved(q.(state := Host), InUrl)
    ensures q.state == Host && ch == ':' ==> RequestLineMove(q, ch) == Moved(q.(state := Port), InUrl)
  {
    hide VersionMove, MethodMove, StartMove, PathMove;
  }

  /** The session behind `text`, which ends in another state of the URL. */
  function Further(s: Session, state: State, text: string): Session {
    Session(Along(s.parser, state, |text|), UrlText(s.http, text))
  }

  lemma OneUrlByte(s: Session, ch: char, state: State)
    requires InRequestLine(s.parser.state) && MayCount(s.parser, 1)
    requires RequestLineMove(s.parser.(nread := s.parser.nread + 1), ch)
             == Moved(s.parser.(nread := s.parser.nread + 1, state := state), InUrl)
    ensures Feed(s, [ch]) == Fed(Further(s, state, [ch]))
  {
    hide Feed, RequestLineMove, UrlText;
    FeedNothing(s);
    OneRequestByte(s, "", ch, s);
    assert "" + [ch] == [ch];
  }

  lemma FurtherTwice(s: Session, state: State, a: string, state': State, b: string)
    ensures Further(Further(s, state, a), state', b) == Further(s, state', a + b)
  {
    UrlInPieces(s.http, a, b);
  }

  /** Two parts of a URL, one behind the other. */
  lemma FeedFurther(s: Session, state: State, a: string, state': State, b: string)
    requires Feed(s, a) == Fed(Further(s, state, a))
             && Feed(Further(s, state, a), b) == Fed(Further(Further(s, state, a), state', b))
    ensures Feed(s, a + b) == Fed(Further(s, state', a + b))
  {
    hide Feed, Further;
    FeedTwo(s, a, b, Further(s, state, a));
    FurtherTwice(s, state, a, state', b);
  }

  lemma {:induction false} PartRead(s: Session, text: string)
    requires InHostStates(s.parser.state) && MayCount(s.parser, |text|)
    requires forall i :: 0 <= i < |text| ==> GoesOnIn(s.parser.state, text[i])
    ensures Feed(s, text) == Fed(Further(s, s.parser.state, text))
    decreases |text|
  {
    hide Feed, RequestLineMove, UrlText, GoesOnIn;
    if text == "" {
      FeedNothing(s);
      NothingFurther(s);
    } else {
      var last := |text| - 1;
      PartRead(s, text[..last]);
      var t := Further(s, s.parser.state, text[..last]);
      SameByte(t.parser.(nread := t.parser.nread + 1), text[last]);
      OneUrlByte(t, text[last], s.parser.state);
      FeedFurther(s, s.parser.state, text[..last], s.parser.state, [text[last]]);
      assert text[..last] + [text[last]] == text;
    }
  }

  lemma NothingFurther(s: Session)
    ensures Further(s, s.parser.state, "") == s
  {
    if s.http.Http? { assert s.http.url + "" == s.http.url; }
  }

  /** One byte that leads on, and then the whole of a part. */
  lemma LedOn(s: Session, ch: char, state: State, text: string)
    requires InRequestLine(s.parser.state) && InHostStates(state) && MayCount(s.parser, 1 + |text|)
    requires RequestLineMove(s.parser.(nread := s.parser.nread + 1), ch)
             == Moved(s.parser.(nread := s.parser.nread + 1, state := state), InUrl)
    requires forall i :: 0 <= i < |text| ==> GoesOnIn(state, text[i])
    ensures Feed(s, [ch] + text) == Fed(Further(s, state, [ch] + text))
  {
    hide Feed, RequestLineMove, UrlText, GoesOnIn;
    OneUrlByte(s, ch, state);
    PartRead(Further(s, state, [ch]), text);
    FeedFurther(s, state, [ch], state, text);
  }

  lemma SchemeRead(s: Session, scheme: string)
    requires s.parser.state == SpacesBeforeUrl && MayCount(s.parser, |scheme|)
    requires scheme != "" && IsLetterAnyCase(scheme[0]) && forall i :: 0 <= i < |scheme| ==> SchemeChar(scheme[i])
    ensures Feed(s, scheme) == Fed(Further(s, Schema, scheme))
  {
    hide Feed, RequestLineMove, Further;
    NextByte(s.parser.(nread := s.parser.nread + 1), scheme[0]);
    assert scheme == [scheme[0]] + scheme[1..];
    LedOn(s, scheme[0], Schema, scheme[1..]);
  }

  lemma SlashesRead(s: Session, host: string)
    requires s.parser.state == Schema && MayCount(s.parser, 3 + |host|)
    requires forall i :: 0 <= i < |host| ==> HostChar(host[i])
    ensures Feed(s, "://" + host) == Fed(Further(s, Host, "://" + host))
  {
    hide Feed, RequestLineMove, UrlText;
    NextByte(s.parser.(nread := s.parser.nread + 1), ':');
    OneUrlByte(s, ':', SchemaSlash);
    var t := Further(s, SchemaSlash, ":");
    NextByte(t.parser.(nread := t.parser.nread + 1), '/');
    OneUrlByte(t, '/', SchemaSlashSlash);
    FeedFurther(s, SchemaSlash, ":", SchemaSlashSlash, "/");
    var u := Further(s, SchemaSlashSlash, ":/");
    NextByte(u.parser.(nread := u.parser.nread + 1), '/');
    LedOn(u, '/', Host, host);
    assert ":" + "/" == ":/";
    FeedFurther(s, SchemaSlashSlash, ":/", Host, "/" + host);
    assert ":/" + ("/" + host) == "://" + host;
  }

  lemma PortRead(s: Session, port: string)
    requires s.parser.state == Host && MayCount(s.parser, |PortText(port)|)
    requires forall i :: 0 <= i < |port| ==> IsDigit(port[i])
    ensures Feed(s, PortText(port)) == Fed(Further(s, if port == "" then Host else Port, PortText(port)))
  {
    hide Feed, RequestLineMove, Further;
    if port == "" {
      FeedNothing(s);
      NothingFurther(s);
    } else {
      NextByte(s.parser.(nread := s.parser.nread + 1), ':');
      LedOn(s, ':', Port, port);
      assert PortText(port) == [':'] + port;
    }
  }

  function OriginState(o: Origin): State {
    match o
    case NoOrigin => SpacesBeforeUrl
    case Origin(_, _, port) => if port == "" then Host else Port
  }

  lemma SchemeAndHostRead(s: Session, scheme: string, host: string)
    requires s.parser.state == SpacesBeforeUrl && MayCount(s.parser, |scheme| + 3 + |host|)
    requires scheme != "" && IsLetterAnyCase(scheme[0]) && forall i :: 0 <= i < |scheme| ==> SchemeChar(scheme[i])
    requires forall i :: 0 <= i < |host| ==> HostChar(host[i])
    ensures Feed(s, scheme + "://" + host) == Fed(Further(s, Host, scheme + "://" + host))
  {
    hide Feed, UrlText, SchemeChar, HostChar;
    SchemeRead(s, scheme);
    SlashesRead(Further(s, Schema, scheme), host);
    FeedFurther(s, Schema, scheme, Host, "://" + host);
    assert scheme + ("://" + host) == scheme + "://" + host;
  }

  lemma OriginRead(s: Session, o: Origin)
    requires s.parser.state == SpacesBeforeUrl && IsOrigin(o) && MayCount(s.parser, |OriginText(o)|)
    ensures Feed(s, OriginText(o)) == Fed(Further(s, OriginState(o), OriginText(o)))
  {
    hide Feed, UrlText, SchemeChar, HostChar, PortText;
    match o
    case NoOrigin =>
      FeedNothing(s);
      NothingFurther(s);
    case Origin(scheme, host, port) =>
      SchemeAndHostRead(s, scheme, host);
      var front := scheme + "://" + host;
      PortRead(Further(s, Host, front), port);
      FeedFurther(s, Host, front, OriginState(o), PortText(port));
  }

  // The whole

  datatype Target = Target(origin: Origin, path: string, query: string)

  function PathAndQuery(t: Target): string {
    if t.query == "" then t.path else t.path + "?" + t.query
  }

  function TargetText(t: Target): string {
    OriginText(t.origin) + PathAndQuery(t)
  }

  /** Behind a host even the path may be missing. */
  predicate IsTarget(t: Target) {
    && IsOrigin(t.origin) && IsQuery(t.query)
    && (if t.path == "" then t.origin.Origin? && t.query == "" else IsPath(t.path))
  }

  function EndState(t: Target): State {
    if t.path == "" then OriginState(t.origin) else if t.query == "" then Path else QueryString
  }

  predicate MayEnd(s: State) {
    s == Path || s == QueryString || s == Host || s == Port
  }

  /** What the target is to the request. */
  function TargetHttp(h: Http, t: Target): Http {
    QueryText(PathText(UrlText(h, TargetText(t)), t.path), t.query)
  }

  lemma QueryBehind(h: Http, path: string, query: string)
    ensures WithQuery(UrlText(WithPath(h, path), "?"), query)
            == QueryText(PathText(UrlText(h, path + "?" + query), path), query)
    ensures WithPath(h, path) == QueryText(PathText(UrlText(h, path), path), "")
  {
    if h.Http? {
      assert h.url + path + "?" + query == h.url + (path + "?" + query);
      assert h.query + "" == h.query;
    }
  }

  lemma PathAndQueryRead(s: Session, t: Target)
    requires PathMayStart(s.parser.state) && IsPath(t.path) && IsQuery(t.query) && MayCount(s.parser, |PathAndQuery(t)|)
    ensures Feed(s, PathAndQuery(t))
            == Fed(Session(Along(s.parser, if t.query == "" then Path else QueryString, |PathAndQuery(t)|),
                           QueryText(PathText(UrlText(s.http, PathAndQuery(t)), t.path), t.query)))
  {
    hide Feed, IsPath, IsQuery, UrlText, PathText, QueryText, WithPath, WithQuery;
    PathRead(s, t.path);
    QueryBehind(s.http, t.path, t.query);
    if t.query != "" {
      var u := Session(Along(s.parser, Path, |t.path|), WithPath(s.http, t.path));
      QuestionRead(u);
      var w := Session(Along(u.parser, QueryStringStart, 1), UrlText(u.http, "?"));
      QueryRead(w, t.query);
      FeedTwo(s, t.path, "?", u);
      FeedTwo(s, t.path + "?", t.query, w);
    }
  }

  lemma NoPathNoQuery(h: Http)
    ensures QueryText(PathText(h, ""), "") == h
  {
    if h.Http? { assert h.path + "" == h.path && h.query + "" == h.query; }
  }

  lemma TargetRead(s: Session, t: Target)
    requires s.parser.state == SpacesBeforeUrl && IsTarget(t) && MayCount(s.parser, |TargetText(t)|)
    ensures Feed(s, TargetText(t)) == Fed(Session(Along(s.parser, EndState(t), |TargetText(t)|), TargetHttp(s.http, t)))
    ensures MayEnd(EndState(t))
  {
    hide Feed, IsPath, IsQuery, IsOrigin, UrlText, PathText, QueryText, OriginText;
    OriginRead(s, t.origin);
    var u := Further(s, OriginState(t.origin), OriginText(t.origin));
    if t.path == "" {
      NoPathNoQuery(UrlText(s.http, TargetText(t)));
      assert TargetText(t) == OriginText(t.origin);
    } else {
      PathAndQueryRead(u, t);
      FeedTwo(s, OriginText(t.origin), PathAndQuery(t), u);
      UrlInPieces(s.http, OriginText(t.origin), PathAndQuery(t));
    }
  }

  lemma TargetEnd(s: Session)
    requires MayEnd(s.parser.state) && MayCount(s.parser, 1)
    ensures Feed(s, " ") == Fed(Session(Along(s.parser, HttpStart, 1), s.http))
  {
    hide Feed, VersionMove, MethodMove, StartMove, Lower;
    FeedNothing(s);
    OneRequestByte(s, "", ' ', s);
    assert "" + [' '] == " ";
    BlankIsNoLetter();
  }

  lemma BlankIsNoLetter()
    ensures !IsLetter(Lower(' ')) && !IsDigit(' ')
  {
  }
}
