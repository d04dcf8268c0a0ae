/** What holds in every state that the parser reaches. */
module HttpSanity {
  import opened HttpTables
  import opened HttpCallbacks
  import opened HttpParser
  import opened HttpSession

  /** How far into its word each state of the search can be, at most. */
  function Furthest(h: HeaderState): nat {
    match h
    case C => 0
    case CO => 1
    case CON => 2
    case MatchingConnection => 9
    case MatchingProxyConnection => 15
    case MatchingContentLength => 13
    case MatchingTransferEncoding => 16
    case MatchingUpgrade => 6
    case MatchingChunked => 6
    case MatchingKeepAlive => 9
    case MatchingClose => 4
    case _ => 17
  }

  predicate InFieldStates(h: HeaderState) {
    match h
    case General | C | CO | CON => true
    case MatchingConnection | MatchingProxyConnection | MatchingContentLength => true
    case MatchingTransferEncoding | MatchingUpgrade => true
    case Connection | ContentLength | TransferEncoding | Upgrade => true
    case _ => false
  }

  predicate InValueStates(h: HeaderState) {
    match h
    case General | ContentLength => true
    case MatchingChunked | MatchingKeepAlive | MatchingClose => true
    case Chunked | KeepAlive | Close => true
    case _ => false
  }

  /** The methods whose name is not compared to its end. */
  predicate Loose(m: Method) {
    m == CONNECT || m == MKCOL
  }

  /** The index fits into the byte it is kept in; the states of the search belong to the parser's state; chunks
      are read only after a header announced them; no body follows the method CONNECT. */
  predicate SaneParser(q: Parser) {
    && q.index < 256
    && (q.verb == CONNECT ==> !InBodyStates(q.state) && (q.flags.trailing ==> q.state == StartReq || q.state == Dead))
    && match q.state
       case ReqMethod => q.index <= |MethodName(q.verb)| + (if Loose(q.verb) then 1 else 0)
       case HeaderField => InFieldStates(q.headerState) && q.index <= Furthest(q.headerState)
       case HeaderValue => InValueStates(q.headerState) && q.index <= Furthest(q.headerState)
       case BodyIdentity => q.contentLength > 0
       case ChunkSizeStart | ChunkDataDone => q.flags.chunked
       case ChunkSize | ChunkParameters | ChunkSizeAlmostDone | ChunkDataAlmostDone => q.flags.chunked
           && q.contentLength >= 0
       case ChunkData => q.flags.chunked && q.contentLength > 0
       case _ => true
  }

  /** The request is where the parser believes it is: inside the name or the value of a header.  A fragment is
      never part of a request, and a request that is complete has another method than CONNECT. */
  predicate SaneRequest(state: State, h: Http) {
    h.Http? ==>
      && state != Fragment
      && (h.done ==> h.verb != CONNECT)
      && (state == HeaderField || state == HeaderValueStart ==> h.state == FIELD && h.header.Header?)
      && (state == HeaderValue ==> h.state == VALUE && h.header.Header?)
  }

  predicate Sane(s: Session) {
    SaneParser(s.parser) && SaneRequest(s.parser.state, s.http)
  }

  lemma NamesAreShort(m: Method)
    ensures 3 <= |MethodName(m)| <= 10
  {
  }

  /** A move that completes a message. */
  predicate Completes(tag: Tag) {
    match tag
    case HeadersDone(complete) => complete
    case InBody(last) => last
    case Complete => true
    case _ => false
  }

  /** A move that is no concern of the headers: it starts and ends outside of names and values. */
  predicate Elsewhere(r: Move) {
    match r
    case Refused(why) => why == BadInput || why == Upgraded
    case Moved(next, tag) =>
      && SaneParser(next) && OutsideHeader(next.state)
      && (next.state == Fragment ==> tag == InFragment)
      && (Completes(tag) ==> next.verb != CONNECT)
  }

  predicate OutsideHeader(s: State) {
    match s
    case HeaderField | HeaderValueStart | HeaderValue => false
    case _ => true
  }

  lemma RefusalIsElsewhere()
    ensures Elsewhere(BAD)
  {
  }

  lemma SaneMethod(q: Parser, ch: char)
    requires SaneParser(q) && q.state == ReqMethod
    ensures var r := MethodMove(q, ch);
            && (r.Moved? ==>
                  SaneParser(r.next) && OutsideHeader(r.next.state) && r.next.state != Fragment && !Completes(r.tag))
            && (r.Refused? ==> r.why == BadInput || (r.why == OverRead && Loose(q.verb)))
  {
    NamesAreShort(q.verb);
  }

  lemma SaneStart(q: Parser, ch: char)
    requires SaneParser(q) && q.state == StartReq
    ensures Elsewhere(StartMove(q, ch))
  {
    assert forall m :: 3 <= |MethodName(m)|;
  }

  lemma SaneHost(q: Parser, ch: char)
    requires SaneParser(q) && (q.state == SpacesBeforeUrl || InHostStates(q.state))
    ensures Elsewhere(HostMove(q, ch))
  {
    hide Lower;
  }

  lemma SaneUrlEnd(q: Parser, ch: char)
    requires SaneParser(q) && InPathStates(q.state)
    ensures Elsewhere(UrlEnd(q, ch))
  {
  }

  lemma SanePath(q: Parser, ch: char)
    requires SaneParser(q) && InPathStates(q.state)
    ensures Elsewhere(PathMove(q, ch))
  {
    hide NormalUrlChar, UrlEnd;
    SaneUrlEnd(q, ch);
  }

  lemma SaneVersion(q: Parser, ch: char)
    requires SaneParser(q) && q.state != StartReq && q.state != Dead
    ensures Elsewhere(VersionMove(q, ch))
  {
  }

  lemma SaneLine(q: Parser, ch: char)
    requires SaneParser(q) && q.state != StartReq && q.state != Dead
    ensures Elsewhere(LineDone(q, ch)) && Elsewhere(AllDone(q, ch))
  {
  }

  lemma SaneChunk(q: Parser, ch: char)
    requires SaneParser(q) && InBodyStates(q.state) && q.state != BodyIdentity
    ensures Elsewhere(ChunkMove(q, ch))
  {
  }

  lemma SaneBody(q: Parser)
    requires SaneParser(q) && q.state == BodyIdentity
    ensures Elsewhere(BodyMove(q))
  {
  }

  /** A move at the start of, inside or behind a header's name. */
  predicate InName(state: State, r: Move) {
    match r
    case Refused(why) => why == BadInput || why == Upgraded
    case Moved(next, tag) =>
      && SaneParser(next)
      && (next.state == HeaderField <==> tag == InField)
      && (next.state == HeaderValueStart ==> state == HeaderField && tag == Silent)
      && next.state != HeaderValue && next.state != Fragment
      && (Completes(tag) ==> next.verb != CONNECT)
  }

  lemma SaneFieldStart(q: Parser, ch: char)
    requires SaneParser(q) && q.state == HeaderFieldStart
    ensures InName(q.state, FieldStartMove(q, ch))
  {
    hide Token, AllDone;
    SaneLine(q.(state := HeadersAlmostDone), ch);
    AllDoneTag(q.(state := HeadersAlmostDone), ch);
  }

  lemma AllDoneTag(q: Parser, ch: char)
    ensures AllDone(q, ch).Moved? ==> AllDone(q, ch).tag != InField && AllDone(q, ch).tag != InFragment
  {
  }

  lemma SaneMatching(q: Parser, c: char, word: string, found: HeaderState)
    requires q.index < |word| <= 17 && SaneParser(q) && (q.state == HeaderField || q.state == HeaderValue)
    requires Furthest(q.headerState) == |word| - 1 && Furthest(found) == 17
    requires if q.state == HeaderField then InFieldStates(found) else InValueStates(found)
    ensures var next := Matching(q, c, word, found);
            next.state == q.state && SaneParser(next)
  {
  }

  lemma SaneFieldChar(q: Parser, ch: char)
    requires SaneParser(q) && q.state == HeaderField
    ensures InName(q.state, FieldChar(q, ch))
  {
    hide Token, Matching;
    var c := Token(ch);
    match q.headerState
    case MatchingConnection => SaneMatching(q, c, "connection", Connection);
    case MatchingProxyConnection => SaneMatching(q, c, "proxy-connection", Connection);
    case MatchingContentLength => SaneMatching(q, c, "content-length", ContentLength);
    case MatchingTransferEncoding => SaneMatching(q, c, "transfer-encoding", TransferEncoding);
    case MatchingUpgrade => SaneMatching(q, c, "upgrade", Upgrade);
    case _ =>
  }

  lemma SaneField(q: Parser, ch: char)
    requires SaneParser(q) && q.state == HeaderField
    ensures InName(q.state, FieldMove(q, ch))
  {
    hide Token, FieldChar;
    SaneFieldChar(q, ch);
  }

  /** A move at the start of, inside or behind a header's value. */
  predicate InHeaderValue(state: State, r: Move) {
    match r
    case Refused(why) => why == BadInput
    case Moved(next, tag) =>
      && SaneParser(next)
      && (next.state == HeaderValue <==> tag == InValue)
      && (next.state == HeaderValueStart ==> state == HeaderValueStart && tag == Silent)
      && next.state != HeaderField && next.state != Fragment
      && !Completes(tag)
  }

  lemma SaneValueStart(q: Parser, ch: char)
    requires SaneParser(q) && q.state == HeaderValueStart
    ensures InHeaderValue(q.state, ValueStartMove(q, ch))
  {
    hide Acceptable;
  }

  lemma SaneValueChar(q: Parser, ch: char)
    requires SaneParser(q) && q.state == HeaderValue
    ensures InHeaderValue(q.state, ValueChar(q, ch))
  {
    hide Acceptable, Matching;
    var c := Acceptable(ch);
    match q.headerState
    case MatchingChunked => SaneMatching(q, c, "chunked", Chunked);
    case MatchingKeepAlive => SaneMatching(q, c, "keep-alive", KeepAlive);
    case MatchingClose => SaneMatching(q, c, "close", Close);
    case _ =>
  }

  lemma SaneValue(q: Parser, ch: char)
    requires SaneParser(q) && q.state == HeaderValue
    ensures InHeaderValue(q.state, ValueMove(q, ch))
  {
    hide Acceptable, ValueChar;
    SaneValueChar(q, ch);
  }

  /** Every byte keeps this, no assertion of the parser itself ever fails, and a name is read behind its end
      only for the methods CONNECT and MKCOL. */
  lemma SaneStep(s: Session, ch: char, at: nat)
    requires Sane(s)
    ensures var r := Step(s, ch, at);
            && (r.Fed? ==> Sane(r.session))
            && (r.Stopped? ==> r.at == at && r.why != Assertion && (r.why == OverRead ==> Loose(s.parser.verb)))
  {
    hide Switch, SaneParser, Loose, Effect, SaneRequest, TagFits;
    CountedSane(s.parser);
    SaneSwitch(Counted(s.parser), ch);
    var r := Take(s.parser, ch);
    if r.Moved? { SaneEffect(s.parser.state, s.http, r, ch); }
  }

  /** Where a move's byte belongs is where the parser believes it is. */
  predicate TagFits(state: State, r: Move) {
    r.Moved? ==>
      && (r.next.state == Fragment ==> r.tag == InFragment)
      && (Completes(r.tag) ==> r.next.verb != CONNECT)
      && (r.next.state == HeaderField ==> r.tag == InField)
      && (r.next.state == HeaderValue ==> r.tag == InValue)
      && (r.next.state == HeaderValueStart ==> (state == HeaderField || state == HeaderValueStart) && r.tag == Silent)
  }

  /** Only the end of a message settles its method. */
  lemma EffectOnDone(tag: Tag, h: Http, ch: char, verb: Method)
    ensures var r := Effect(tag, h, ch, verb);
            r.Http? ==>
              h.Http? && if Completes(tag) then r.done && r.verb == verb else r.done == h.done && r.verb == h.verb
  {
  }

  lemma SaneEffect(state: State, h: Http, r: Move, ch: char)
    requires SaneRequest(state, h) && r.Moved? && TagFits(state, r)
    ensures SaneRequest(r.next.state, Effect(r.tag, h, ch, r.next.verb))
  {
    hide UrlText, PathText, QueryText, MessageComplete, BodyText, HeadersComplete, MessageBegin;
    EffectOnDone(r.tag, h, ch, r.next.verb);
  }

  /** What is to be shown of a move. */
  predicate Fine(q: Parser, r: Move) {
    && TagFits(q.state, r)
    && (r.Moved? ==> SaneParser(r.next))
    && (r.Refused? ==> r.why != Assertion && (r.why == OverRead ==> Loose(q.verb)))
  }

  lemma FineElsewhere(q: Parser, r: Move)
    requires Elsewhere(r)
    ensures Fine(q, r)
  {
  }

  lemma FineInHeader(q: Parser, r: Move)
    requires || ((q.state == HeaderField || q.state == HeaderFieldStart) && InName(q.state, r))
             || ((q.state == HeaderValue || q.state == HeaderValueStart) && InHeaderValue(q.state, r))
    ensures Fine(q, r)
  {
  }

  lemma SaneHeader(q: Parser, ch: char)
    requires SaneParser(q) && InHeaderStates(q.state)
    ensures Fine(q, HeaderMove(q, ch))
  {
    hide FieldStartMove, FieldMove, ValueStartMove, ValueMove, LineDone, AllDone, SaneParser, Fine, InName,
        InHeaderValue, Elsewhere;
    if q.state == HeaderFieldStart {
      SaneFieldStart(q, ch);
      FineInHeader(q, FieldStartMove(q, ch));
    } else if q.state == HeaderField {
      SaneField(q, ch);
      FineInHeader(q, FieldMove(q, ch));
    } else if q.state == HeaderValueStart {
      SaneValueStart(q, ch);
      FineInHeader(q, ValueStartMove(q, ch));
    } else if q.state == HeaderValue {
      SaneValue(q, ch);
      FineInHeader(q, ValueMove(q, ch));
    } else {
      SaneLine(q, ch);
      FineElsewhere(q, HeaderMove(q, ch));
    }
  }

  lemma SaneRequestLine(q: Parser, ch: char)
    requires SaneParser(q)
    ensures Fine(q, RequestLineMove(q, ch))
  {
    hide MethodMove, StartMove, HostMove, PathMove, VersionMove, SaneParser, Elsewhere, Fine, Loose, InHostStates,
        InPathStates;
    if q.state == Dead {
      RefusalIsElsewhere();
    } else if q.state == StartReq {
      SaneStart(q, ch);
    } else if q.state == ReqMethod {
      FineMethod(q, ch);
    } else if q.state == SpacesBeforeUrl || InHostStates(q.state) {
      SaneHost(q, ch);
    } else if InPathStates(q.state) {
      SanePath(q, ch);
    } else {
      SaneVersion(q, ch);
    }
    if q.state != ReqMethod { FineElsewhere(q, RequestLineMove(q, ch)); }
  }

  lemma FineMethod(q: Parser, ch: char)
    requires SaneParser(q) && q.state == ReqMethod
    ensures Fine(q, MethodMove(q, ch))
  {
    hide MethodMove, SaneParser, Loose;
    SaneMethod(q, ch);
  }

  lemma SaneSwitch(q: Parser, ch: char)
    requires SaneParser(q)
    ensures Fine(q, Switch(q, ch))
  {
    hide HeaderMove, BodyMove, ChunkMove, RequestLineMove, SaneParser, Fine, Elsewhere, InHeaderStates, InBodyStates;
    if InHeaderStates(q.state) {
      SaneHeader(q, ch);
    } else if q.state == BodyIdentity {
      SaneBody(q);
      FineElsewhere(q, BodyMove(q));
    } else if InBodyStates(q.state) {
      SaneChunk(q, ch);
      FineElsewhere(q, ChunkMove(q, ch));
    } else {
      SaneRequestLine(q, ch);
    }
  }

  lemma CountedSane(q: Parser)
    requires SaneParser(q)
    ensures SaneParser(Counted(q)) && Counted(q).state == q.state && Counted(q).verb == q.verb
  {
  }

  lemma {:induction false} SaneFeed(s: Session, data: string)
    requires Sane(s)
    ensures Feed(s, data).Fed? ==> Sane(Feed(s, data).session)
    ensures Feed(s, data).Stopped? ==> Feed(s, data).why != Assertion
    decreases |data|
  {
    hide Step, Sane;
    if data != "" {
      SaneFeed(s, data[..|data| - 1]);
      var r := Feed(s, data[..|data| - 1]);
      if r.Fed? { SaneStep(r.session, data[|data| - 1], |data| - 1); }
    }
  }
}
