/** What a complete request is known to have: whatever the input, at least a header, and a method that is served. */
module HttpCompletion {
  import opened HttpTables
  import opened HttpCallbacks
  import opened HttpParser
  import opened HttpSession
  import opened HttpSanity

  /** Behind the headers: in the body, or in the lines behind its last chunk. */
  predicate Behind(q: Parser) {
    InBodyStates(q.state) || (q.flags.trailing && InHeaderStates(q.state))
  }

  predicate InFirstLine(s: State) {
    !InHeaderStates(s) && !InBodyStates(s) && s != StartReq && s != Dead
  }

  /** A body is announced only by a header. */
  predicate Announced(q: Parser, h: Http)
    requires h.Http?
  {
    && (InFirstLine(q.state) ==> !q.flags.chunked && !q.flags.trailing && q.contentLength <= 0)
    && (q.state == HeaderAlmostDone ==> h.state == FIELD || h.state == VALUE)
    && (InHeaderStates(q.state) && (q.flags.chunked || q.contentLength > 0) ==> h.state == FIELD || h.state == VALUE)
    && (Behind(q) ==> h.headerDone && h.headers != [] && (h.state == FIELD || h.state == VALUE))
  }

  /** The request has a header as soon as it is said to. */
  predicate Headed(h: Http)
    requires h.Http?
  {
    && (h.state == FIELD || h.state == VALUE ==> h.header.Header? || h.headers != [])
    && h.state != BODY
    && (h.done ==> h.headerDone && h.headers != [] && IsServed(h.verb))
  }

  predicate Ordered(s: Session) {
    Sane(s) && (s.http.Http? ==> Announced(s.parser, s.http) && Headed(s.http))
  }

  /** A move keeps all this. */
  predicate Keeps(h: Http, r: Move, ch: char)
    requires h.Http?
  {
    r.Moved? ==>
      var h' := Effect(r.tag, h, ch, r.next.verb);
      h'.Http? ==> Announced(r.next, h') && Headed(h')
  }

  predicate Before(q: Parser, h: Http) {
    h.Http? && SaneRequest(q.state, h) && Announced(q, h) && Headed(h)
  }

  lemma KeepsFirstLine(q: Parser, h: Http, ch: char)
    requires Before(q, h) && !InHeaderStates(q.state) && !InBodyStates(q.state)
    ensures Keeps(h, RequestLineMove(q, ch), ch)
  {
    hide MethodMove, HostMove, PathMove, VersionMove;
    if InFirstLine(q.state) { FirstLineMoves(q, ch); }
  }

  predicate WithinFirstLine(q: Parser, r: Move) {
    r.Moved? ==>
      && (InFirstLine(r.next.state) || r.next.state == HeaderFieldStart)
      && r.next.flags == q.flags && r.next.contentLength == q.contentLength
      && (r.tag == Silent || r.tag == InUrl || r.tag == InPath || r.tag == InQuery || r.tag == InFragment)
  }

  lemma FirstLineMoves(q: Parser, ch: char)
    requires InFirstLine(q.state)
    ensures q.state == ReqMethod ==> WithinFirstLine(q, MethodMove(q, ch))
    ensures q.state == SpacesBeforeUrl || InHostStates(q.state) ==> WithinFirstLine(q, HostMove(q, ch))
    ensures InPathStates(q.state) ==> WithinFirstLine(q, PathMove(q, ch))
    ensures WithinFirstLine(q, VersionMove(q, ch))
  {
    hide MethodMove, HostMove, PathMove, VersionMove, WithinFirstLine;
    MethodMoves(q, ch);
    HostMoves(q, ch);
    PathMoves(q, ch);
    VersionMoves(q, ch);
  }

  lemma MethodMoves(q: Parser, ch: char)
    requires InFirstLine(q.state)
    ensures WithinFirstLine(q, MethodMove(q, ch))
  {
    hide MethodName;
  }

  lemma HostMoves(q: Parser, ch: char)
    requires InFirstLine(q.state)
    ensures WithinFirstLine(q, HostMove(q, ch))
  {
    hide Lower;
  }

  lemma PathMoves(q: Parser, ch: char)
    requires InFirstLine(q.state)
    ensures WithinFirstLine(q, PathMove(q, ch))
  {
    hide NormalUrlChar;
  }

  lemma VersionMoves(q: Parser, ch: char)
    requires InFirstLine(q.state)
    ensures WithinFirstLine(q, VersionMove(q, ch))
  {
  }

  /** A move within the headers' lines: it starts, continues or ends a name or a value. */
  predicate WithinLines(q: Parser, r: Move) {
    r.Moved? ==>
      && InHeaderStates(r.next.state) && r.next.flags.trailing == q.flags.trailing
      && (r.tag == Silent || r.tag == InField || r.tag == InValue || r.tag == EmptyValue)
  }

  lemma NameMoves(q: Parser, ch: char)
    requires q.state == HeaderField
    ensures WithinLines(q, FieldMove(q, ch))
  {
    hide Token, Matching;
    MatchingKeeps();
  }

  lemma ValueStartMoves(q: Parser, ch: char)
    requires q.state == HeaderValueStart
    ensures WithinLines(q, ValueStartMove(q, ch))
  {
    hide Acceptable;
  }

  lemma LineEndMoves(q: Parser, ch: char)
    requires InHeaderStates(q.state)
    ensures WithinLines(q, LineDone(q, ch))
  {
  }

  lemma ValueMoves(q: Parser, ch: char)
    requires q.state == HeaderValue
    ensures WithinLines(q, ValueMove(q, ch))
  {
    hide Acceptable, Matching, LineDone;
    MatchingKeeps();
    LineEndMoves(q, ch);
  }

  lemma MatchingKeeps()
    ensures forall q, c, word, found :: var r := Matching(q, c, word, found);
              r == q.(index := r.index, headerState := r.headerState)
  {
  }

  /** Names and values keep the request in the state of one or the other. */
  lemma KeepsLines(q: Parser, h: Http, r: Move, ch: char)
    requires Before(q, h) && WithinLines(q, r) && (h.state == FIELD || h.state == VALUE) && InHeaderStates(q.state)
    ensures Keeps(h, r, ch)
  {
    hide IsServed, MessageBegin, UrlText, PathText, QueryText, BodyText, HeadersComplete, MessageComplete, InBodyStates;
    NotBoth(q.state);
    if r.Moved? { NotBoth(r.next.state); }
  }

  lemma NotBoth(s: State)
    requires InHeaderStates(s)
    ensures !InBodyStates(s) && !InFirstLine(s)
  {
  }

  lemma InLinesStates(q: Parser, h: Http)
    requires Before(q, h)
    requires q.state == HeaderField || q.state == HeaderValueStart || q.state == HeaderValue
             || q.state == HeaderAlmostDone
    ensures h.state == FIELD || h.state == VALUE
  {
  }

  lemma KeepsEmptyLine(q: Parser, h: Http, ch: char)
    requires Before(q, h) && (q.state == HeadersAlmostDone || q.state == HeaderFieldStart)
    ensures Keeps(h, AllDone(q.(state := HeadersAlmostDone), ch), ch)
  {
    hide ShouldKeepAlive, IsServed, MessageBegin, UrlText, PathText, QueryText, BodyText, FieldText, ValueText;
  }

  lemma KeepsLineStart(q: Parser, h: Http, ch: char)
    requires Before(q, h) && q.state == HeaderFieldStart
    ensures Keeps(h, FieldStartMove(q, ch), ch)
  {
    hide Token, AllDone;
    KeepsEmptyLine(q, h, ch);
  }

  lemma KeepsHeaders(q: Parser, h: Http, ch: char)
    requires Before(q, h) && InHeaderStates(q.state)
    ensures Keeps(h, HeaderMove(q, ch), ch)
  {
    hide FieldStartMove, FieldMove, ValueStartMove, ValueMove, LineDone, AllDone, Keeps, Before, WithinLines;
    if q.state == HeaderFieldStart {
      KeepsLineStart(q, h, ch);
    } else if q.state == HeadersAlmostDone {
      KeepsEmptyLine(q, h, ch);
      assert q.(state := HeadersAlmostDone) == q;
    } else {
      InLinesStates(q, h);
      LineEndMoves(q, ch);
      if q.state == HeaderField { NameMoves(q, ch); }
      if q.state == HeaderValueStart { ValueStartMoves(q, ch); }
      if q.state == HeaderValue { ValueMoves(q, ch); }
      KeepsLines(q, h, HeaderMove(q, ch), ch);
    }
  }

  lemma KeepsBody(q: Parser, h: Http, ch: char)
    requires Before(q, h) && q.state == BodyIdentity
    ensures Keeps(h, BodyMove(q), ch)
  {
    hide ShouldKeepAlive, IsServed, MessageBegin, UrlText, PathText, QueryText, FieldText, ValueText, HeadersComplete;
  }

  /** A move within the chunks, or to the lines behind the last one. */
  predicate WithinChunks(r: Move) {
    r.Moved? ==> Behind(r.next) && !InFirstLine(r.next.state) && r.next.state != HeaderAlmostDone
                 && (r.tag == Silent || r.tag == InBody(false))
  }

  lemma ChunkMoves(q: Parser, ch: char)
    requires InBodyStates(q.state) && q.state != BodyIdentity
    ensures WithinChunks(ChunkMove(q, ch))
  {
    hide Unhex;
  }

  lemma KeepsText(q: Parser, h: Http, r: Move, ch: char)
    requires Before(q, h) && Behind(q) && WithinChunks(r)
    ensures Keeps(h, r, ch)
  {
    hide IsServed, InBodyStates, InHeaderStates, InFirstLine, SaneRequest;
  }

  lemma KeepsChunk(q: Parser, h: Http, ch: char)
    requires Before(q, h) && InBodyStates(q.state) && q.state != BodyIdentity
    ensures Keeps(h, ChunkMove(q, ch), ch)
  {
    hide ChunkMove, Keeps, Before, WithinChunks;
    ChunkMoves(q, ch);
    KeepsText(q, h, ChunkMove(q, ch), ch);
  }

  lemma KeepsAll(q: Parser, h: Http, ch: char)
    requires Before(q, h)
    ensures Keeps(h, Switch(q, ch), ch)
  {
    hide HeaderMove, BodyMove, ChunkMove, RequestLineMove, Keeps, Before;
    if InHeaderStates(q.state) {
      KeepsHeaders(q, h, ch);
    } else if q.state == BodyIdentity {
      KeepsBody(q, h, ch);
    } else if InBodyStates(q.state) {
      KeepsChunk(q, h, ch);
    } else {
      KeepsFirstLine(q, h, ch);
    }
  }

  lemma BeforeCounted(q: Parser, h: Http)
    requires Before(q, h)
    ensures Before(Counted(q), h)
  {
  }

  lemma OrderedStep(s: Session, ch: char, at: nat)
    requires Ordered(s)
    ensures Step(s, ch, at).Fed? ==> Ordered(Step(s, ch, at).session)
  {
    hide Switch, Sane, Announced, Headed, Effect, SaneRequest;
    SaneStep(s, ch, at);
    if s.http.Http? {
      OrderedBefore(s);
      BeforeCounted(s.parser, s.http);
      KeepsAll(Counted(s.parser), s.http, ch);
    } else {
      StaysAborted(s, ch, at);
    }
  }

  lemma OrderedBefore(s: Session)
    requires Ordered(s) && s.http.Http?
    ensures Before(s.parser, s.http)
  {
    hide Announced, Headed;
  }

  lemma {:induction false} OrderedFeed(s: Session, data: string)
    requires Ordered(s)
    ensures Feed(s, data).Fed? ==> Ordered(Feed(s, data).session)
    decreases |data|
  {
    hide Step, Ordered;
    if data != "" {
      OrderedFeed(s, data[..|data| - 1]);
      var r := Feed(s, data[..|data| - 1]);
      if r.Fed? { OrderedStep(r.session, data[|data| - 1], |data| - 1); }
    }
  }

  /** Whatever the input, a request that a new parser calls complete has a finished head with at least one header, and a
      one of the six methods that are served without leaving the protocol. */
  lemma CompleteMeans(s: Session, data: string)
    requires s.parser.state == StartReq && s.parser.index < 256
    requires s.http.Http? && s.http.state == INIT && !s.http.done
    ensures var r := Feed(s, data);
            Accepted(r) && r.session.http.done ==>
              var h := r.session.http;
              h.headerDone && h.headers != [] && h.verb in [GET, HEAD, POST, PUT, DELETE, MOVE]
  {
    hide Feed;
    OrderedFeed(s, data);
  }

  // The limit on heads

  /** What is counted, and whether anything is, changes at the end of a head only. */
  predicate KeepsCount(q: Parser, r: Move) {
    r.Moved? && !r.tag.HeadersDone? ==> r.next.nread == q.nread && !r.next.flags.trailing
  }

  lemma MethodCount(q: Parser, ch: char)
    requires !q.flags.trailing
    ensures KeepsCount(q, MethodMove(q, ch)) && KeepsCount(q, StartMove(q, ch))
  {
    hide MethodName;
  }

  lemma UrlCount(q: Parser, ch: char)
    requires !q.flags.trailing
    ensures KeepsCount(q, HostMove(q, ch)) && KeepsCount(q, PathMove(q, ch))
  {
    hide NormalUrlChar, Lower;
  }

  lemma VersionCount(q: Parser, ch: char)
    requires !q.flags.trailing
    ensures KeepsCount(q, VersionMove(q, ch))
  {
  }

  lemma NameCount(q: Parser, ch: char)
    requires !q.flags.trailing
    ensures KeepsCount(q, FieldMove(q, ch))
  {
    hide Token, Matching;
    MatchingKeeps();
  }

  lemma ValueCount(q: Parser, ch: char)
    requires !q.flags.trailing
    ensures KeepsCount(q, ValueMove(q, ch)) && KeepsCount(q, LineDone(q, ch))
  {
    hide Acceptable, Matching;
    MatchingKeeps();
  }

  lemma StartsCount(q: Parser, ch: char)
    requires !q.flags.trailing
    ensures KeepsCount(q, FieldStartMove(q, ch)) && KeepsCount(q, ValueStartMove(q, ch))
    ensures KeepsCount(q, AllDone(q, ch))
  {
    hide Token, Acceptable, ShouldKeepAlive;
  }

  lemma SwitchCount(q: Parser, ch: char)
    requires !q.flags.trailing && !InBodyStates(q.state)
    ensures KeepsCount(q, Switch(q, ch))
  {
    hide MethodMove, HostMove, PathMove, VersionMove, StartMove, FieldStartMove, FieldMove, ValueStartMove, ValueMove,
        LineDone, AllDone, KeepsCount;
    MethodCount(q, ch);
    UrlCount(q, ch);
    VersionCount(q, ch);
    NameCount(q, ch);
    ValueCount(q, ch);
    StartsCount(q, ch);
    KeptBad(q);
  }

  lemma KeptBad(q: Parser)
    ensures KeepsCount(q, BAD)
  {
  }

  /** While its head is not finished, a request has as many bytes as are counted, and not more than the limit. */
  predicate Counting(s: Session, n: nat) {
    s.http.Http? && !s.http.headerDone ==>
      s.parser.nread == n <= 81920 && !s.parser.flags.trailing && !InBodyStates(s.parser.state)
  }

  lemma StaysInHead(s: Session)
    requires Ordered(s) && s.http.Http? && !s.http.headerDone
    ensures !InBodyStates(s.parser.state)
  {
    hide Sane;
  }

  lemma CountStep(s: Session, ch: char, at: nat, n: nat)
    requires Ordered(s) && Counting(s, n)
    ensures Step(s, ch, at).Fed? ==> Counting(Step(s, ch, at).session, n + 1)
  {
    hide Switch, Ordered, Announced, Headed, KeepsCount;
    OrderedStep(s, ch, at);
    var r := Step(s, ch, at);
    if r.Fed? && r.session.http.Http? && !r.session.http.headerDone {
      HeadStaysDone(s, ch, at);
      StaysInHead(s);
      StaysInHead(r.session);
      SwitchCount(Counted(s.parser), ch);
      NotDoneCounts(s, ch);
    }
  }

  lemma NotDoneCounts(s: Session, ch: char)
    requires Take(s.parser, ch).Moved? && KeepsCount(Counted(s.parser), Switch(Counted(s.parser), ch))
    requires ParsingHeader(s.parser) && Take(s.parser, ch) == Switch(Counted(s.parser), ch)
    requires var r := Take(s.parser, ch);
             var h := Effect(r.tag, s.http, ch, r.next.verb);
             h.Http? && !h.headerDone
    ensures Take(s.parser, ch).next.nread == s.parser.nread + 1 <= 81920
    ensures !Take(s.parser, ch).next.flags.trailing
  {
    hide Switch;
  }

  lemma HeadStaysDone(s: Session, ch: char, at: nat)
    requires Step(s, ch, at).Fed? && Step(s, ch, at).session.http.Http? && !Step(s, ch, at).session.http.headerDone
    ensures s.http.Http? && !s.http.headerDone
  {
    hide Take;
  }

  lemma {:induction false} CountFeed(s: Session, data: string)
    requires Ordered(s) && Counting(s, 0)
    ensures Feed(s, data).Fed? ==> Counting(Feed(s, data).session, |data|)
    decreases |data|
  {
    hide Step, Ordered, Counting;
    if data != "" {
      var last := |data| - 1;
      CountFeed(s, data[..last]);
      OrderedFeed(s, data[..last]);
      var r := Feed(s, data[..last]);
      if r.Fed? { CountStep(r.session, data[last], last, last); }
    }
  }

  /** Whatever the input, a head of more than 81920 bytes is not taken. */
  lemma HeadIsBounded(s: Session, data: string)
    requires s.parser.state == StartReq && s.parser.index < 256 && s.parser.nread == 0 && !s.parser.flags.trailing
    requires s.http.Http? && s.http.state == INIT && !s.http.done && !s.http.headerDone
    ensures Accepted(Feed(s, data)) && !Feed(s, data).session.http.headerDone ==> |data| <= 81920
  {
    hide Feed;
    CountFeed(s, data);
  }
}
