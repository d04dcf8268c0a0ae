/** Whole requests: what is written as a request is what the parser makes of it. */
module HttpRequestText {
  import opened HttpTables
  import opened HttpCallbacks
  import opened HttpParser
  import opened Strings
  import opened HttpSession
  import opened HttpBulk
  import opened HttpWords
  import opened HttpLines
  import opened HttpTargets
  import opened HttpVersions
  import opened HttpChunks
  import opened HttpReading

  /** A body of known length, or one in chunks. */
  datatype Body = Whole(text: string) | InChunks(chunks: seq<Chunk>, last: Chunk)

  /** A request as it is written, with any line ends in front, and any blanks in front of its target besides the one
      that ends the method. */
  datatype RequestText = RequestText(front: string, verb: Method, gap: nat, target: Target, version: Version,
                                     lines: seq<Line>, cr: bool, body: Body)

  function LinesText(lines: seq<Line>): string {
    if lines == [] then "" else LineText(lines[0]) + LinesText(lines[1..])
  }

  /** Everything up to the headers. */
  function FirstLine(r: RequestText): string {
    r.front + MethodName(r.verb) + " " + Blanks(r.gap) + TargetText(r.target) + VersionText(r.version)
  }

  function HeadText(r: RequestText): string {
    FirstLine(r) + LinesText(r.lines) + EndText(r.cr)
  }

  function BodyOnWire(b: Body): string {
    match b
    case Whole(text) => text
    case InChunks(chunks, last) => Wire(chunks, last)
  }

  function TextOf(r: RequestText): string {
    HeadText(r) + BodyOnWire(r.body)
  }

  /** The text of a request has its method's name in front, and a blank behind it. */
  lemma TextStarts(r: RequestText)
    ensures r.verb == GET ==> r.front + "GET " <= TextOf(r)
    ensures r.verb == HEAD ==> r.front + "HEAD " <= TextOf(r)
    ensures r.verb == POST ==> r.front + "POST " <= TextOf(r)
    ensures r.verb == PUT ==> r.front + "PUT " <= TextOf(r)
    ensures r.verb == DELETE ==> r.front + "DELETE " <= TextOf(r)
    ensures r.verb == MOVE ==> r.front + "MOVE " <= TextOf(r)
  {
    hide TargetText, VersionText, LinesText, BodyOnWire, Blanks;
    var name := MethodName(r.verb) + " ";
    assert r.front + name <= FirstLine(r);
    assert FirstLine(r) <= HeadText(r) && HeadText(r) <= TextOf(r);
  }

  // The method

  /** A parser that waits for its first request. */
  predicate Waiting(s: Session, n: nat) {
    && s.parser.state == StartReq && !s.parser.upgrade && MayCount(s.parser, n)
    && s.http.Http? && s.http == Http(INIT, "", "", "", "", NoHeader, [], "", s.http.verb, false, false)
  }

  /** The registers after the first `k` letters of a method. */
  function InMethod(q: Parser, m: Method, k: nat): Parser {
    q.(state := ReqMethod, nread := q.nread + k, flags := NO_FLAGS, contentLength := -1, index := k,
        verb := Guess(m, k))
  }

  lemma FirstOfMethod(q: Parser, m: Method)
    requires q.state == StartReq
    ensures |MethodName(m)| >= 3
    ensures RequestLineMove(q.(nread := q.nread + 1), MethodName(m)[0]) == Moved(InMethod(q, m, 1), Begin)
  {
    hide Guess, HostMove, PathMove, VersionMove, MethodMove, FirstLetter;
    GuessStarts(q.(nread := q.nread + 1, flags := NO_FLAGS, contentLength := -1, index := 1), m);
  }

  lemma MoreOfMethod(q: Parser, m: Method, k: nat)
    requires 1 <= k < |MethodName(m)|
    ensures RequestLineMove(InMethod(q, m, k).(nread := q.nread + k + 1), MethodName(m)[k])
            == Moved(InMethod(q, m, k + 1), Silent)
  {
    hide Guess, HostMove, PathMove, VersionMove, MethodMove, StartMove, MethodName;
    GuessStep(InMethod(q, m, k).(nread := q.nread + k + 1), m);
  }

  lemma EndOfMethod(q: Parser, m: Method)
    ensures var k := |MethodName(m)|;
            RequestLineMove(InMethod(q, m, k).(nread := q.nread + k + 1), ' ')
            == Moved(InMethod(q, m, k).(state := SpacesBeforeUrl, nread := q.nread + k + 1, index := k + 1, verb := m),
                Silent)
  {
    hide Guess, HostMove, PathMove, VersionMove, MethodMove, StartMove, MethodName;
    var k := |MethodName(m)|;
    GuessEnds(InMethod(q, m, k).(nread := q.nread + k + 1), m);
  }

  lemma {:induction false} MethodRead(s: Session, m: Method, k: nat)
    requires 1 <= k <= |MethodName(m)| && Waiting(s, k)
    ensures Feed(s, MethodName(m)[..k]) == Fed(Session(InMethod(s.parser, m, k), s.http.(state := HEADER)))
    decreases k
  {
    hide Feed, RequestLineMove, InMethod, MethodName;
    var name := MethodName(m);
    FirstOfMethod(s.parser, m);
    if k == 1 {
      FeedNothing(s);
      OneRequestByte(s, "", name[0], s);
      assert "" + [name[0]] == name[..1];
    } else {
      MethodRead(s, m, k - 1);
      MethodState(s.parser, m, k - 1);
      MoreOfMethod(s.parser, m, k - 1);
      OneRequestByte(s, name[..k - 1], name[k - 1], Session(InMethod(s.parser, m, k - 1), s.http.(state := HEADER)));
      assert name[..k - 1] + [name[k - 1]] == name[..k];
    }
  }

  lemma MethodState(q: Parser, m: Method, k: nat)
    ensures var p := InMethod(q, m, k);
            p.state == ReqMethod && p.nread == q.nread + k && !p.flags.trailing && p.upgrade == q.upgrade
  {
  }

  /** Behind the method and its blank. */
  function BehindMethod(s: Session, m: Method): Session {
    var k := |MethodName(m)|;
    Session(InMethod(s.parser, m, k).(state := SpacesBeforeUrl, nread := s.parser.nread + k + 1, index := k + 1,
        verb := m),
            if s.http.Http? then s.http.(state := HEADER) else s.http)
  }

  lemma MethodAndBlank(s: Session, m: Method)
    requires Waiting(s, |MethodName(m)| + 1)
    ensures Feed(s, MethodName(m) + " ") == Fed(BehindMethod(s, m))
  {
    hide Feed, RequestLineMove, InMethod, MethodName;
    var k := |MethodName(m)|;
    FirstOfMethod(s.parser, m);
    MethodRead(s, m, k);
    MethodState(s.parser, m, k);
    assert MethodName(m)[..k] == MethodName(m);
    EndOfMethod(s.parser, m);
    OneRequestByte(s, MethodName(m), ' ', Session(InMethod(s.parser, m, k), s.http.(state := HEADER)));
    assert [' '] == " ";
  }

  // The first line

  predicate IsFront(front: string) {
    forall i :: 0 <= i < |front| ==> front[i] == '\r' || front[i] == '\n'
  }

  lemma FrontByte(q: Parser, ch: char)
    requires q.state == StartReq && (ch == '\r' || ch == '\n')
    ensures RequestLineMove(q, ch) == Moved(q, Silent)
  {
  }

  /** Line ends in front of a request are passed over. */
  lemma {:induction false} FrontRead(s: Session, front: string)
    requires s.parser.state == StartReq && IsFront(front) && MayCount(s.parser, |front|)
    ensures Feed(s, front) == Fed(Session(Along(s.parser, StartReq, |front|), s.http))
    decreases |front|
  {
    hide Feed, RequestLineMove;
    if front == "" {
      FeedNothing(s);
    } else {
      var last := |front| - 1;
      FrontRead(s, front[..last]);
      var t := Session(Along(s.parser, StartReq, last), s.http);
      FrontByte(Along(t.parser, StartReq, 1), front[last]);
      SilentByte(t, front[last], Along(t.parser, StartReq, 1));
      FeedTwo(s, front[..last], [front[last]], t);
      assert front[..last] + [front[last]] == front;
    }
  }

  predicate IsFirstLine(r: RequestText) {
    IsFront(r.front) && IsTarget(r.target) && IsVersion(r.version, EndState(r.target))
  }

  /** Behind the method and all blanks. */
  function AtTarget(s: Session, r: RequestText): Session {
    var t := BehindMethod(Session(Along(s.parser, StartReq, |r.front|), s.http), r.verb);
    Session(Along(t.parser, SpacesBeforeUrl, r.gap), t.http)
  }

  function BehindFirstLine(s: Session, r: RequestText): Session {
    var t := AtTarget(s, r);
    Session(BehindVersion(Along(t.parser, EndState(r.target), |TargetText(r.target)|), r.version),
            TargetHttp(t.http, r.target))
  }

  lemma MethodPart(s: Session, r: RequestText)
    requires IsFront(r.front) && Waiting(s, |r.front| + |MethodName(r.verb)| + 1 + r.gap)
    ensures Feed(s, r.front + MethodName(r.verb) + " " + Blanks(r.gap)) == Fed(AtTarget(s, r))
  {
    hide Feed, IsFront, MethodName, InMethod;
    FrontRead(s, r.front);
    var t := Session(Along(s.parser, StartReq, |r.front|), s.http);
    MethodAndBlank(t, r.verb);
    FeedTwo(s, r.front, MethodName(r.verb) + " ", t);
    var u := BehindMethod(t, r.verb);
    assert r.front + (MethodName(r.verb) + " ") == r.front + MethodName(r.verb) + " ";
    BehindMethodIs(t, r.verb);
    BlanksRead(u, r.gap);
    FeedTwo(s, r.front + MethodName(r.verb) + " ", Blanks(r.gap), u);
  }

  lemma BehindMethodIs(s: Session, m: Method)
    ensures var t := BehindMethod(s, m);
            && t.parser.state == SpacesBeforeUrl && t.parser.nread == s.parser.nread + |MethodName(m)| + 1
            && t.parser.flags == NO_FLAGS && t.parser.contentLength == -1 && t.parser.verb == m
            && t.parser.upgrade == s.parser.upgrade
  {
  }

  lemma FirstLineRead(s: Session, r: RequestText)
    requires IsFirstLine(r) && Waiting(s, |FirstLine(r)|)
    ensures Feed(s, FirstLine(r)) == Fed(BehindFirstLine(s, r))
  {
    hide Feed, IsFront, IsTarget, TargetHttp, TargetText, MethodName, IsVersion, VersionText, Blanks, BehindMethod,
        BehindVersion, EndState;
    var t := AtTarget(s, r);
    MethodPart(s, r);
    BehindMethodIs(Session(Along(s.parser, StartReq, |r.front|), s.http), r.verb);
    var front := r.front + MethodName(r.verb) + " " + Blanks(r.gap);
    assert |Blanks(r.gap)| == r.gap;
    TargetRead(t, r.target);
    var u := Session(Along(t.parser, EndState(r.target), |TargetText(r.target)|), TargetHttp(t.http, r.target));
    FeedTwo(s, front, TargetText(r.target), t);
    VersionRead(u, r.version);
    FeedTwo(s, front + TargetText(r.target), VersionText(r.version), u);
  }

  // The headers

  function FlagsOf(f: Flags, lines: seq<Line>): Flags
    decreases |lines|
  {
    if lines == [] then f else FlagsOf(LineFlags(f, lines[0]), lines[1..])
  }

  function LengthOf(length: int, lines: seq<Line>): int
    decreases |lines|
  {
    if lines == [] then length else LengthOf(LineLength(length, lines[0]), lines[1..])
  }

  function HeadersOf(lines: seq<Line>): seq<Header> {
    seq(|lines|, i requires 0 <= i < |lines| => Header(lines[i].name, lines[i].value))
  }

  /** The value of the last line with that name, spelled like this. */
  function HostOf(host: string, lines: seq<Line>): string
    decreases |lines|
  {
    if lines == [] then host else HostOf(if lines[0].name == "Host" then lines[0].value else host, lines[1..])
  }

  /** What the lines are to the request, once the last of them has joined the list. */
  function LinesHttp(h: Http, lines: seq<Line>): Http
    requires h.Http?
  {
    var added := AddHeader(h);
    added.(state := if lines == [] then h.state else VALUE,
           headers := added.headers + HeadersOf(lines),
           host := HostOf(added.host, lines))
  }

  /** The registers behind some lines; index and search are left open. */
  predicate BehindLines(p: Parser, lines: seq<Line>, q: Parser) {
    q == p.(state := HeaderFieldStart, nread := p.nread + |LinesText(lines)|, headerState := q.headerState,
        index := q.index,
            flags := FlagsOf(p.flags, lines), contentLength := LengthOf(p.contentLength, lines))
  }

  predicate AreLines(lines: seq<Line>) {
    forall i :: 0 <= i < |lines| ==> IsLine(lines[i])
  }

  lemma LineAdded(h: Http, l: Line)
    requires h.Http? && (h.state == HEADER || h.state == VALUE)
    ensures LineHttp(h, l).Http? && LineHttp(h, l).state == VALUE
    ensures AddHeader(LineHttp(h, l))
            == AddHeader(h).(state := VALUE, headers := AddHeader(h).headers + [Header(l.name, l.value)],
                             host := if l.name == "Host" then l.value else AddHeader(h).host)
  {
    assert "" + l.value == l.value;
  }

  lemma LinesAdded(h: Http, lines: seq<Line>)
    requires h.Http? && (h.state == HEADER || h.state == VALUE) && lines != []
    ensures LineHttp(h, lines[0]).Http?
    ensures LinesHttp(LineHttp(h, lines[0]), lines[1..]) == LinesHttp(h, lines)
  {
    hide LineHttp, AddHeader;
    LineAdded(h, lines[0]);
    var first, rest := Header(lines[0].name, lines[0].value), HeadersOf(lines[1..]);
    assert HeadersOf(lines) == [first] + rest;
    assert AddHeader(h).headers + [first] + rest == AddHeader(h).headers + HeadersOf(lines);
  }

  lemma NoLinesAdded(h: Http)
    requires h.Http?
    ensures LinesHttp(h, []) == AddHeader(h)
  {
    assert AddHeader(h).headers + HeadersOf([]) == AddHeader(h).headers;
  }

  lemma LineKeepsCounting(f: Flags, l: Line)
    ensures LineFlags(f, l).trailing == f.trailing
  {
  }

  /** All header lines.  The last of them joins the list later. */
  lemma {:induction false} LinesRead(s: Session, lines: seq<Line>)
    requires AreLines(lines) && AtLineStart(s, |LinesText(lines)|)
    ensures var r := Feed(s, LinesText(lines));
            && r.Fed? && r.session.http.Http? && AddHeader(r.session.http) == LinesHttp(s.http, lines)
            && BehindLines(s.parser, lines, r.session.parser)
    decreases |lines|
  {
    hide Feed, IsLine, LineText, LineFlags, LineLength, LineHttp, AddHeader;
    if lines == [] {
      FeedNothing(s);
      NoLinesAdded(s.http);
    } else {
      var l, rest := lines[0], LinesText(lines[1..]);
      LineRead(s, l);
      var t := Feed(s, LineText(l)).session;
      LineAdded(s.http, l);
      LineKeepsCounting(s.parser.flags, l);
      LinesRead(t, lines[1..]);
      FeedTwo(s, LineText(l), rest, t);
      LinesAdded(s.http, lines);
    }
  }

  // The end of the headers

  /** Behind the empty line. */
  function BehindHeaders(q: Parser): Parser {
    var q' := q.(nread := 0);
    if q.flags.chunked then q'.(state := ChunkSizeStart)
    else if q.contentLength > 0 then q'.(state := BodyIdentity)
    else q'.(state := NewMessage(q'))
  }

  function HeadersHttp(q: Parser, h: Http): Http {
    if q.flags.chunked || q.contentLength > 0 then HeadersComplete(h) else MessageComplete(HeadersComplete(h), q.verb)
  }

  predicate GoesOnToBody(q: Parser) {
    !q.flags.trailing && !q.upgrade && !q.flags.upgrade && q.verb != CONNECT
  }

  lemma HeadEndMoves(q: Parser)
    requires GoesOnToBody(q)
    ensures HeaderMove(q.(state := HeaderFieldStart), '\r') == Moved(q.(state := HeadersAlmostDone), Silent)
    ensures var tag := HeadersDone(!q.flags.chunked && q.contentLength <= 0);
            var end := Moved(BehindHeaders(q.(state := HeadersAlmostDone)), tag);
            && HeaderMove(q.(state := HeadersAlmostDone), '\n') == end
            && HeaderMove(q.(state := HeaderFieldStart), '\n') == end
  {
    hide FieldMove, ValueMove, ValueStartMove, LineDone, Token, ShouldKeepAlive;
  }

  /** The empty line. */
  lemma HeadEnd(s: Session, cr: bool)
    requires s.parser.state == HeaderFieldStart && MayCount(s.parser, |EndText(cr)|) && GoesOnToBody(s.parser)
    ensures var q := s.parser.(state := HeadersAlmostDone, nread := s.parser.nread + |EndText(cr)|);
            Feed(s, EndText(cr)) == Fed(Session(BehindHeaders(q), HeadersHttp(q, s.http)))
  {
    hide Feed, HeaderMove, HeadersComplete, MessageComplete, BehindHeaders;
    var q1 := s.parser.(state := HeadersAlmostDone, nread := s.parser.nread + 1);
    HeadEndMoves(q1);
    if cr {
      OneSilent(s, '\r', q1);
      LastOfHead(Session(q1, s.http));
      FeedTwo(s, "\r", "\n", Session(q1, s.http));
      assert "\r" + "\n" == EndText(true);
    } else {
      FeedNothing(s);
      OneMore(s, "", '\n', s);
      assert "" + ['\n'] == EndText(false);
      BehindKeepsVerb(q1);
    }
  }

  lemma LastOfHead(s: Session)
    requires s.parser.state == HeadersAlmostDone && MayCount(s.parser, 1) && GoesOnToBody(s.parser)
    ensures var q := s.parser.(nread := s.parser.nread + 1);
            Feed(s, "\n") == Fed(Session(BehindHeaders(q), HeadersHttp(q, s.http)))
  {
    hide Feed, HeaderMove, HeadersComplete, MessageComplete, BehindHeaders;
    var q := s.parser.(nread := s.parser.nread + 1);
    HeadEndMoves(q);
    FeedNothing(s);
    OneMore(s, "", '\n', s);
    assert "" + ['\n'] == "\n";
    BehindKeepsVerb(q);
  }

  lemma HeadLeavesMoves(q: Parser)
    requires !q.flags.trailing && !GoesOnToBody(q)
    ensures HeaderMove(q.(state := HeaderFieldStart), '\r') == Moved(q.(state := HeadersAlmostDone), Silent)
    ensures HeaderMove(q.(state := HeadersAlmostDone), '\n') == Refused(Upgraded)
    ensures HeaderMove(q.(state := HeaderFieldStart), '\n') == Refused(Upgraded)
  {
    hide FieldMove, ValueMove, ValueStartMove, LineDone, Token, ShouldKeepAlive;
  }

  lemma HeadLeaves(s: Session, cr: bool)
    requires s.parser.state == HeaderFieldStart && MayCount(s.parser, |EndText(cr)|) && !GoesOnToBody(s.parser)
    ensures Feed(s, EndText(cr)) == Stopped(|EndText(cr)| - 1, Upgraded)
  {
    hide Feed, HeaderMove;
    var q := s.parser.(state := HeadersAlmostDone, nread := s.parser.nread + 1);
    HeadLeavesMoves(q);
    FeedNothing(s);
    if cr {
      OneSilent(s, '\r', q);
      HeadLeavesMoves(q.(nread := q.nread + 1));
      OneMore(s, "\r", '\n', Session(q, s.http));
      assert "\r" + ['\n'] == EndText(true);
    } else {
      OneMore(s, "", '\n', s);
      assert "" + ['\n'] == EndText(false);
    }
  }

  lemma BehindKeepsVerb(q: Parser)
    ensures BehindHeaders(q).verb == q.verb
  {
  }

  // The request

  function Max(a: int, b: int): int {
    if a < b then b else a
  }

  predicate IsHead(r: RequestText) {
    IsFirstLine(r) && AreLines(r.lines)
  }

  /** A request of this protocol: a target that can be written, readable headers, none of which changes the protocol,
      and the body that they announce. */
  ghost predicate WellFormed(r: RequestText) {
    var flags := FlagsOf(NO_FLAGS, r.lines);
    && IsHead(r)
    && r.verb != CONNECT && !flags.upgrade
    && match r.body
       case Whole(text) => !flags.chunked && |text| == Max(0, LengthOf(-1, r.lines))
       case InChunks(chunks, last) => flags.chunked && IsChunked(chunks, last)
  }

  function BodyTextOf(b: Body): string {
    match b
    case Whole(text) => text
    case InChunks(chunks, _) => DataOf(chunks)
  }

  /** The request that was written, as the parser should deliver it. */
  function Delivered(r: RequestText): Http {
    Http(DONE, TargetText(r.target), r.target.path, r.target.query, HostOf("", r.lines), NoHeader, HeadersOf(r.lines),
        BodyTextOf(r.body), r.verb,
         true, true)
  }

  /** The request before its body. */
  function Awaiting(r: RequestText, state: HttpState, verb: Method): Http {
    Http(state, TargetText(r.target), r.target.path, r.target.query, HostOf("", r.lines), NoHeader, HeadersOf(r.lines),
        "", verb, true, false)
  }

  /** The registers and the request at the end of the headers' lines. */
  lemma HeadLines(s: Session, r: RequestText)
    requires IsHead(r) && Waiting(s, |HeadText(r)|)
    ensures var f := Feed(s, FirstLine(r) + LinesText(r.lines));
            && f.Fed? && f.session.http.Http?
            && f.session.http.state == (if r.lines == [] then HEADER else VALUE)
            && f.session.parser.state == HeaderFieldStart && MayCount(f.session.parser, |EndText(r.cr)|)
            && !f.session.parser.flags.trailing
            && (GoesOnToBody(f.session.parser) <==> r.verb != CONNECT && !FlagsOf(NO_FLAGS, r.lines).upgrade)
            && f.session.parser.verb == r.verb
            && f.session.parser.flags.chunked == FlagsOf(NO_FLAGS, r.lines).chunked
            && f.session.parser.contentLength == LengthOf(-1, r.lines)
            && AddHeader(f.session.http).(headerDone := true)
               == Awaiting(r, f.session.http.state, s.http.verb)
  {
    hide Feed, IsFirstLine, AreLines, MethodName, TargetText, LinesText, HostOf, LengthOf, FlagsOf, InMethod, FirstLine,
        BehindFirstLine;
    FirstLineRead(s, r);
    var t := BehindFirstLine(s, r);
    FirstLineState(s, r);
    LinesRead(t, r.lines);
    FlagsKeepCounting(NO_FLAGS, r.lines);
    FeedTwo(s, FirstLine(r), LinesText(r.lines), t);
  }

  lemma WellFormedHead(r: RequestText)
    requires WellFormed(r)
    ensures IsHead(r) && r.verb != CONNECT && !FlagsOf(NO_FLAGS, r.lines).upgrade
  {
    hide IsHead;
  }

  /** CONNECT, or a header Upgrade with a value, leaves the protocol: the parser stops at the last byte of the head. */
  lemma ProtocolLeft(s: Session, r: RequestText)
    requires IsHead(r) && Waiting(s, |HeadText(r)|)
    requires r.verb == CONNECT || FlagsOf(NO_FLAGS, r.lines).upgrade
    ensures Feed(s, HeadText(r)) == Stopped(|HeadText(r)| - 1, Upgraded)
  {
    hide Feed, IsHead, Waiting, FirstLine, LinesText, TargetText, HostOf, HeadersOf, FlagsOf, LengthOf, AddHeader;
    HeadLines(s, r);
    var t := Feed(s, FirstLine(r) + LinesText(r.lines)).session;
    HeadLeaves(t, r.cr);
    FeedConcat(s, FirstLine(r) + LinesText(r.lines), EndText(r.cr));
  }

  lemma {:induction false} FlagsKeepCounting(f: Flags, lines: seq<Line>)
    ensures FlagsOf(f, lines).trailing == f.trailing
    decreases |lines|
  {
    hide LineFlags;
    if lines != [] {
      LineKeepsCounting(f, lines[0]);
      FlagsKeepCounting(LineFlags(f, lines[0]), lines[1..]);
    }
  }

  lemma FirstLineState(s: Session, r: RequestText)
    requires Waiting(s, |HeadText(r)|)
    ensures var t := BehindFirstLine(s, r);
            && AtLineStart(t, |LinesText(r.lines)| + |EndText(r.cr)|)
            && t.parser.nread == s.parser.nread + |FirstLine(r)|
            && t.parser.flags == NO_FLAGS && t.parser.contentLength == -1 && t.parser.verb == r.verb
                && !t.parser.upgrade
            && t.http == Http(HEADER, TargetText(r.target), r.target.path, r.target.query, "", NoHeader, [], "",
                s.http.verb, false, false)
  {
    hide LinesText, TargetText, MethodName, VersionText, EndState, Decimal;
    assert "" + TargetText(r.target) == TargetText(r.target) && "" + r.target.path == r.target.path
        && "" + r.target.query == r.target.query;
    assert |Blanks(r.gap)| == r.gap;
  }

  /** Behind the head of a request with headers: at its end, if there is no body, or at the start of its body. */
  lemma HeadRead(s: Session, r: RequestText)
    requires WellFormed(r) && Waiting(s, |HeadText(r)|)
    ensures var f := Feed(s, HeadText(r));
            var flags, length := FlagsOf(NO_FLAGS, r.lines), LengthOf(-1, r.lines);
            && f.Fed?
            && (r.lines == [] ==> f.session.http.Aborted?)
            && (r.lines != [] && (flags.chunked || length > 0) ==>
                  && f.session.http == Awaiting(r, VALUE, s.http.verb)
                  && f.session.parser.verb == r.verb
                  && (flags.chunked ==> f.session.parser.state == ChunkSizeStart && f.session.parser.flags.chunked)
                  && (!flags.chunked ==>
                        f.session.parser.state == BodyIdentity && f.session.parser.contentLength == length))
            && (r.lines != [] && !flags.chunked && length <= 0
                ==> f.session.http == MessageComplete(Awaiting(r, VALUE, s.http.verb), r.verb))
  {
    hide Feed, WellFormed, FirstLine, LinesText, TargetText, HostOf, HeadersOf, BodyTextOf, FlagsOf, LengthOf,
        AddHeader,
      BehindFirstLine, ShouldKeepAlive;
    WellFormedHead(r);
    HeadLines(s, r);
    var t := Feed(s, FirstLine(r) + LinesText(r.lines)).session;
    HeadEnd(t, r.cr);
    FeedTwo(s, FirstLine(r) + LinesText(r.lines), EndText(r.cr), t);
    CompleteIs(t.http);
    if r.lines == [] { NoLengthWithoutLines(); }
  }

  lemma CompleteIs(h: Http)
    requires h.Http?
    ensures AddHeader(h).Http? && HeadersComplete(h) == AddHeader(h).(headerDone := true)
    ensures HeadersComplete(h).state == h.state
  {
  }

  lemma NoLengthWithoutLines()
    ensures LengthOf(-1, []) == -1 && FlagsOf(NO_FLAGS, []) == NO_FLAGS
  {
  }

  /** What the end of the request comes to. */
  function Ending(r: RequestText): Http {
    if r.verb in [GET, HEAD, POST, PUT, DELETE, MOVE] then Delivered(r) else Aborted
  }

  lemma EndingIs(r: RequestText, verb: Method, text: string)
    requires WellFormed(r) && BodyTextOf(r.body) == text
    ensures MessageComplete(WithBody(Awaiting(r, VALUE, verb), text), r.verb) == Ending(r)
  {
    hide TargetText, HostOf, HeadersOf, IsFirstLine, AreLines, FlagsOf, LengthOf, MessageComplete;
    CompletionOf(WithBody(Awaiting(r, VALUE, verb), text), r.verb);
    assert "" + text == text;
  }

  lemma WholeBodyRead(t: Session, r: RequestText, verb: Method)
    requires WellFormed(r) && r.body.Whole? && r.body.text != ""
    requires t.parser.state == BodyIdentity && t.parser.contentLength == |r.body.text| && t.parser.verb == r.verb
    requires t.http == Awaiting(r, VALUE, verb)
    ensures Yields(Feed(t, r.body.text), Ending(r))
  {
    hide Feed, TargetText, HostOf, HeadersOf, IsFirstLine, AreLines, FlagsOf, LengthOf;
    BulkIdentity(t, r.body.text);
    EndingIs(r, verb, r.body.text);
  }

  lemma ChunksRead(t: Session, r: RequestText, verb: Method)
    requires WellFormed(r) && r.body.InChunks?
    requires t.parser.state == ChunkSizeStart && t.parser.flags.chunked && t.parser.verb == r.verb
    requires t.http == Awaiting(r, VALUE, verb)
    ensures Yields(Feed(t, Wire(r.body.chunks, r.body.last)), Ending(r))
  {
    hide Feed, TargetText, HostOf, HeadersOf, IsFirstLine, AreLines, FlagsOf, LengthOf, Wire;
    WireRead(t, r.body.chunks, r.body.last);
    EndingIs(r, verb, DataOf(r.body.chunks));
  }

  // The last byte

  /** A head lacks its last byte. */
  lemma HeadButLast(s: Session, r: RequestText)
    requires WellFormed(r) && Waiting(s, |HeadText(r)|)
    ensures HeadText(r) != "" && Unfinished(Feed(s, HeadText(r)[..|HeadText(r)| - 1]))
  {
    hide Feed, WellFormed, Waiting, FirstLine, LinesText, TargetText, HostOf, HeadersOf, FlagsOf, LengthOf, HeaderMove,
        AddHeader;
    WellFormedHead(r);
    HeadLines(s, r);
    var lines := FirstLine(r) + LinesText(r.lines);
    var t := Feed(s, lines).session;
    CompleteIs(t.http);
    if r.cr {
      HeadEndMoves(t.parser.(nread := t.parser.nread + 1));
      OneMore(s, lines, '\r', t);
      assert (lines + EndText(true))[..|lines| + 1] == lines + ['\r'];
    } else {
      assert (lines + EndText(false))[..|lines|] == lines;
    }
    AddedStaysOpen(t.http);
  }

  lemma AddedStaysOpen(h: Http)
    requires h.Http?
    ensures AddHeader(h).done == h.done
  {
  }

  lemma BodyButLast(t: Session, r: RequestText, verb: Method)
    requires WellFormed(r) && r.body.Whole? && r.body.text != ""
    requires t.parser.state == BodyIdentity && t.parser.contentLength == |r.body.text|
             && t.http == Awaiting(r, VALUE, verb)
    ensures Unfinished(Feed(t, r.body.text[..|r.body.text| - 1]))
  {
    hide Feed, TargetText, HostOf, HeadersOf, IsFirstLine, AreLines, FlagsOf, LengthOf;
    var text := r.body.text[..|r.body.text| - 1];
    if text == "" { FeedNothing(t); } else { BulkIdentity(t, text); }
  }

  lemma ChunksButLast(t: Session, r: RequestText, verb: Method)
    requires WellFormed(r) && r.body.InChunks?
    requires t.parser.state == ChunkSizeStart && t.parser.flags.chunked && t.parser.verb == r.verb
             && t.http == Awaiting(r, VALUE, verb)
    ensures var text := BodyOnWire(r.body);
            text != "" && Unfinished(Feed(t, text[..|text| - 1]))
  {
    hide Feed, TargetText, HostOf, HeadersOf, IsFirstLine, AreLines, FlagsOf, LengthOf, Wire;
    WireRead(t, r.body.chunks, r.body.last);
  }

  /** A request lacks its last byte. */
  lemma RequestButLast(s: Session, r: RequestText)
    requires WellFormed(r) && Waiting(s, |HeadText(r)|)
    ensures TextOf(r) != "" && Unfinished(Feed(s, TextOf(r)[..|TextOf(r)| - 1]))
  {
    hide Feed, HeadText, IsFirstLine, AreLines, FlagsOf, LengthOf, Wire, LinesText, HostOf, HeadersOf, TargetText;
    var head, body := HeadText(r), BodyOnWire(r.body);
    HeadButLast(s, r);
    if body == "" {
      assert head + body == head;
    } else {
      HeadRead(s, r);
      BodyMeansLines(r);
      var t := Feed(s, head).session;
      if r.body.Whole? { BodyButLast(t, r, s.http.verb); } else { ChunksButLast(t, r, s.http.verb); }
      FeedTwo(s, head, body[..|body| - 1], t);
      assert TextOf(r)[..|TextOf(r)| - 1] == head + body[..|body| - 1];
    }
  }

  lemma BodyMeansLines(r: RequestText)
    requires WellFormed(r) && BodyOnWire(r.body) != ""
    ensures r.lines != []
  {
    hide Wire, IsFirstLine, AreLines;
    if r.lines == [] { NoLengthWithoutLines(); }
  }

  /** The whole input at once. */
  lemma RequestRead(s: Session, r: RequestText)
    requires WellFormed(r) && Waiting(s, |HeadText(r)|)
    ensures r.lines == [] ==> !Accepted(Feed(s, TextOf(r)))
    ensures r.lines != [] ==> Yields(Feed(s, TextOf(r)), Ending(r))
  {
    hide Feed, HeadText, Ending, IsFirstLine, AreLines, FlagsOf, LengthOf, Wire, LinesText;
    HeadRead(s, r);
    var t := Feed(s, HeadText(r)).session;
    if r.lines == [] {
      FeedConcat(s, HeadText(r), BodyOnWire(r.body));
      AbortedStays(t, BodyOnWire(r.body));
    } else {
      match r.body
      case Whole(text) =>
        if text == "" {
          EndingIs(r, s.http.verb, "");
          assert Awaiting(r, VALUE, s.http.verb).body + "" == "";
          assert HeadText(r) + "" == HeadText(r);
        } else {
          WholeBodyRead(t, r, s.http.verb);
          FeedTwo(s, HeadText(r), text, t);
        }
      case InChunks(chunks, last) =>
        ChunksRead(t, r, s.http.verb);
        FeedTwo(s, HeadText(r), Wire(chunks, last), t);
    }
  }

  /** Every request that is written is delivered as it was written: its method, its target in both parts, all of
      its headers in their order, and its body, whether sent whole or in chunks.  The exceptions are requests without
      any header, and those with a method that is not served: they fail an assertion.  All of this however the bytes
      are cut into buffers; and reading stops with the last of them. */
  lemma RequestRoundTrip(s: Session, r: RequestText, pieces: seq<string>)
    requires WellFormed(r) && Waiting(s, |HeadText(r)|) && NoneEmpty(pieces) && Concat(pieces) == TextOf(r)
    ensures Read(s, pieces).Failed? <==> r.lines == [] || r.verb !in [GET, HEAD, POST, PUT, DELETE, MOVE]
    ensures r.lines != [] && r.verb in [GET, HEAD, POST, PUT, DELETE, MOVE] ==>
              Delivers(Read(s, pieces), Delivered(r))
  {
    hide Feed, Read, Concat, HeadText, WellFormed, TextOf;
    RequestButLast(s, r);
    ReadWhole(s, pieces, TextOf(r));
    RequestRead(s, r);
    DeliveredIsDone(r);
  }

  lemma DeliveredIsDone(r: RequestText)
    ensures Delivered(r).Http? && Delivered(r).done
  {
  }
}
