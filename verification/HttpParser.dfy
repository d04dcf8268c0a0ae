/** The parser's state machine, one byte at a time: what one byte does to the parser's registers, and which
    part of the request the byte belongs to. */
module HttpParser {
  import opened HttpTables
  import opened HttpCallbacks

  datatype State =
    | Dead | StartReq | ReqMethod | SpacesBeforeUrl
    | Schema | SchemaSlash | SchemaSlashSlash | Host | Port | Path
    | QueryStringStart | QueryString | FragmentStart | Fragment
    | HttpStart | HttpH | HttpHT | HttpHTT | HttpHTTP
    | FirstHttpMajor | HttpMajor | FirstHttpMinor | HttpMinor | ReqLineAlmostDone
    | HeaderFieldStart | HeaderField | HeaderValueStart | HeaderValue | HeaderAlmostDone | HeadersAlmostDone
    | ChunkSizeStart | ChunkSize | ChunkSizeAlmostDone | ChunkParameters
    | ChunkData | ChunkDataAlmostDone | ChunkDataDone
    | BodyIdentity

  datatype HeaderState =
    | General | C | CO | CON
    | MatchingConnection | MatchingProxyConnection | MatchingContentLength | MatchingTransferEncoding | MatchingUpgrade
    | Connection | ContentLength | TransferEncoding | Upgrade
    | MatchingChunked | MatchingKeepAlive | MatchingClose
    | Chunked | KeepAlive | Close

  datatype Flags = Flags(chunked: bool, keepAlive: bool, close: bool, trailing: bool, upgrade: bool)

  datatype Parser = Parser(
    state: State, headerState: HeaderState, index: nat, nread: nat,
    flags: Flags, contentLength: int, httpMajor: int, httpMinor: int, verb: Method, upgrade: bool)

  const NO_FLAGS := Flags(false, false, false, false, false)

  /** Why a byte is not taken: it does not belong there, an assertion fails, the name of the method is read
      behind its end, or the rest of the input is in another protocol. */
  datatype Refusal = BadInput | Assertion | OverRead | Upgraded

  /** The part of the request that a byte belongs to, or the event that it brings about. */
  datatype Tag =
    | Silent | Begin
    | InUrl | InPath | InQuery | InFragment | InField | InValue | EmptyValue
    | HeadersDone(complete: bool) | InBody(last: bool) | Complete

  datatype Move = Refused(why: Refusal) | Moved(next: Parser, tag: Tag)

  function To(q: Parser, state: State, tag: Tag): Move {
    Moved(q.(state := state), tag)
  }

  const BAD := Refused(BadInput)

  predicate InBodyStates(s: State) {
    match s
    case ChunkSizeStart | ChunkSize | ChunkSizeAlmostDone | ChunkParameters => true
    case ChunkData | ChunkDataAlmostDone | ChunkDataDone | BodyIdentity => true
    case _ => false
  }

  predicate ParsingHeader(q: Parser) {
    !InBodyStates(q.state) && !q.flags.trailing
  }

  predicate ShouldKeepAlive(q: Parser) {
    if q.httpMajor > 0 && q.httpMinor > 0 then !q.flags.close else q.flags.keepAlive
  }

  function NewMessage(q: Parser): (s: State)
    ensures s == StartReq || s == Dead
  {
    if ShouldKeepAlive(q) then StartReq else Dead
  }

  // The request line

  function MethodName(m: Method): string {
    match m
    case DELETE => "DELETE"
    case GET => "GET"
    case HEAD => "HEAD"
    case POST => "POST"
    case PUT => "PUT"
    case CONNECT => "CONNECT"
    case OPTIONS => "OPTIONS"
    case TRACE => "TRACE"
    case COPY => "COPY"
    case LOCK => "LOCK"
    case MKCOL => "MKCOL"
    case MOVE => "MOVE"
    case PROPFIND => "PROPFIND"
    case PROPPATCH => "PROPPATCH"
    case UNLOCK => "UNLOCK"
    case REPORT => "REPORT"
    case MKACTIVITY => "MKACTIVITY"
    case CHECKOUT => "CHECKOUT"
    case MERGE => "MERGE"
  }

  /** What the first letter of a method stands for until more is known. */
  function FirstLetter(q: Parser, ch: char): Move {
    match ch
    case 'C' => To(q.(verb := CONNECT), ReqMethod, Begin)
    case 'D' => To(q.(verb := DELETE), ReqMethod, Begin)
    case 'G' => To(q.(verb := GET), ReqMethod, Begin)
    case 'H' => To(q.(verb := HEAD), ReqMethod, Begin)
    case 'L' => To(q.(verb := LOCK), ReqMethod, Begin)
    case 'M' => To(q.(verb := MKCOL), ReqMethod, Begin)
    case 'O' => To(q.(verb := OPTIONS), ReqMethod, Begin)
    case 'P' => To(q.(verb := POST), ReqMethod, Begin)
    case 'R' => To(q.(verb := REPORT), ReqMethod, Begin)
    case 'T' => To(q.(verb := TRACE), ReqMethod, Begin)
    case 'U' => To(q.(verb := UNLOCK), ReqMethod, Begin)
    case _ => BAD
  }

  function StartMove(q: Parser, ch: char): Move {
    if ch == CR || ch == LF then Moved(q, Silent)
    else FirstLetter(q.(flags := NO_FLAGS, contentLength := -1, index := 1), ch)
  }

  function MethodMove(q: Parser, ch: char): Move {
    var matcher := MethodName(q.verb);
    var next := q.(index := q.index + 1);
    if ch == NONE then BAD
    else if q.index > |matcher| then Refused(OverRead)
    else if ch == ' ' && q.index == |matcher| then To(next, SpacesBeforeUrl, Silent)
    else if q.index < |matcher| && ch == matcher[q.index] then Moved(next, Silent)
    else if q.verb == CONNECT then
      if q.index == 1 && ch == 'H' then Moved(next.(verb := CHECKOUT), Silent)
      else if q.index == 2 && ch == 'P' then Moved(next.(verb := COPY), Silent)
      else Moved(next, Silent)
    else if q.verb == MKCOL then
      if q.index == 1 && ch == 'O' then Moved(next.(verb := MOVE), Silent)
      else if q.index == 1 && ch == 'E' then Moved(next.(verb := MERGE), Silent)
      else if q.index == 2 && ch == 'A' then Moved(next.(verb := MKACTIVITY), Silent)
      else Moved(next, Silent)
    else if q.index == 1 && q.verb == POST && ch == 'R' then Moved(next.(verb := PROPFIND), Silent)
    else if q.index == 1 && q.verb == POST && ch == 'U' then Moved(next.(verb := PUT), Silent)
    else if q.index == 4 && q.verb == PROPFIND && ch == 'P' then Moved(next.(verb := PROPPATCH), Silent)
    else BAD
  }

  /** The end of the URL: a space, or a line end, which stands for version x.9. */
  function UrlEnd(q: Parser, ch: char): Move {
    if ch == ' ' then To(q, HttpStart, Silent)
    else if ch == CR then To(q.(httpMinor := 9), ReqLineAlmostDone, Silent)
    else if ch == LF then To(q.(httpMinor := 9), HeaderFieldStart, Silent)
    else BAD
  }

  function HostMove(q: Parser, ch: char): Move {
    match q.state
    case SpacesBeforeUrl =>
      if ch == ' ' then Moved(q, Silent)
      else if ch == '/' then To(q, Path, InPath)
      else if IsLetter(Lower(ch)) then To(q, Schema, InUrl)
      else BAD
    case Schema =>
      var c := Lower(ch);
      if IsLetter(c) || IsDigit(c) || c == '-' then Moved(q, InUrl)
      else if ch == ':' then To(q, SchemaSlash, InUrl)
      else if ch == '.' then To(q, Host, InUrl)
      else BAD
    case SchemaSlash => if ch != '/' then BAD else To(q, SchemaSlashSlash, InUrl)
    case SchemaSlashSlash => if ch != '/' then BAD else To(q, Host, InUrl)
    case Host =>
      if IsLetter(Lower(ch)) || IsDigit(ch) || ch == '.' || ch == '-' then Moved(q, InUrl)
      else if ch == ':' then To(q, Port, InUrl)
      else if ch == '/' then To(q, Path, InPath)
      else if ch == ' ' then To(q, HttpStart, Silent)
      else BAD
    case _ =>
      if IsDigit(ch) then Moved(q, InUrl)
      else if ch == '/' then To(q, Path, InPath)
      else if ch == ' ' then To(q, HttpStart, Silent)
      else BAD
  }

  function PathMove(q: Parser, ch: char): Move {
    match q.state
    case Path =>
      if NormalUrlChar(ch) then Moved(q, InPath)
      else if ch == '?' then To(q, QueryStringStart, InUrl)
      else if ch == '#' then To(q, FragmentStart, InUrl)
      else UrlEnd(q, ch)
    case QueryStringStart =>
      if NormalUrlChar(ch) then To(q, QueryString, InQuery)
      else if ch == '?' then Moved(q, InUrl)
      else if ch == '#' then To(q, FragmentStart, InUrl)
      else UrlEnd(q, ch)
    case QueryString =>
      if NormalUrlChar(ch) || ch == '?' then Moved(q, InQuery)
      else if ch == '#' then To(q, FragmentStart, InUrl)
      else UrlEnd(q, ch)
    case FragmentStart =>
      if NormalUrlChar(ch) || ch == '?' then To(q, Fragment, InFragment)
      else if ch == '#' then Moved(q, InUrl)
      else UrlEnd(q, ch)
    case _ =>
      if NormalUrlChar(ch) || ch == '?' || ch == '#' then Moved(q, InFragment)
      else UrlEnd(q, ch)
  }

  function Expect(q: Parser, ch: char, wanted: char, state: State): Move {
    if ch == wanted then To(q, state, Silent) else BAD
  }

  function VersionMove(q: Parser, ch: char): Move {
    match q.state
    case HttpStart => if ch == ' ' then Moved(q, Silent) else Expect(q, ch, 'H', HttpH)
    case HttpH => Expect(q, ch, 'T', HttpHT)
    case HttpHT => Expect(q, ch, 'T', HttpHTT)
    case HttpHTT => Expect(q, ch, 'P', HttpHTTP)
    case HttpHTTP => Expect(q, ch, '/', FirstHttpMajor)
    case FirstHttpMajor => if IsDigit(ch) && ch != '0' then To(q.(httpMajor := DigitValue(ch)), HttpMajor, Silent)
        else BAD
    case HttpMajor =>
      if ch == '.' then To(q, FirstHttpMinor, Silent)
      else if !IsDigit(ch) || q.httpMajor * 10 + DigitValue(ch) > 999 then BAD
      else Moved(q.(httpMajor := q.httpMajor * 10 + DigitValue(ch)), Silent)
    case FirstHttpMinor => if IsDigit(ch) then To(q.(httpMinor := DigitValue(ch)), HttpMinor, Silent) else BAD
    case HttpMinor =>
      if ch == CR then To(q, ReqLineAlmostDone, Silent)
      else if ch == LF then To(q, HeaderFieldStart, Silent)
      else if !IsDigit(ch) || q.httpMinor * 10 + DigitValue(ch) > 999 then BAD
      else Moved(q.(httpMinor := q.httpMinor * 10 + DigitValue(ch)), Silent)
    case _ => Expect(q, ch, LF, HeaderFieldStart)
  }

  // The headers

  function FieldStartState(c: char): HeaderState {
    match c
    case 'c' => C
    case 'p' => MatchingProxyConnection
    case 't' => MatchingTransferEncoding
    case 'u' => MatchingUpgrade
    case _ => General
  }

  /** One more character of a word that is looked for: a mismatch, the word's end, or neither. */
  function Matching(q: Parser, c: char, word: string, found: HeaderState): Parser {
    var index := q.index + 1;
    if index >= |word| || c != word[index] then q.(index := index, headerState := General)
    else if index == |word| - 1 then q.(index := index, headerState := found)
    else q.(index := index)
  }

  /** The names of headers that mean something to the parser are spelled out along the way. */
  function FieldChar(q: Parser, ch: char): Move {
    var c := Token(ch);
    match q.headerState
    case General => Moved(q, InField)
    case C => Moved(q.(index := q.index + 1, headerState := if c == 'o' then CO else General), InField)
    case CO => Moved(q.(index := q.index + 1, headerState := if c == 'n' then CON else General), InField)
    case CON =>
      Moved(q.(index := q.index + 1,
               headerState := if c == 'n' then MatchingConnection else if c == 't' then MatchingContentLength
                   else General),
            InField)
    case MatchingConnection => Moved(Matching(q, c, "connection", Connection), InField)
    case MatchingProxyConnection => Moved(Matching(q, c, "proxy-connection", Connection), InField)
    case MatchingContentLength => Moved(Matching(q, c, "content-length", ContentLength), InField)
    case MatchingTransferEncoding => Moved(Matching(q, c, "transfer-encoding", TransferEncoding), InField)
    case MatchingUpgrade => Moved(Matching(q, c, "upgrade", Upgrade), InField)
    case Connection | ContentLength | TransferEncoding | Upgrade =>
      Moved(if ch != ' ' then q.(headerState := General) else q, InField)
    case _ => Refused(Assertion)
  }

  function FieldMove(q: Parser, ch: char): Move {
    if Token(ch) != NONE then FieldChar(q, ch)
    else if ch == ':' then To(q, HeaderValueStart, Silent)
    else if ch == CR then To(q, HeaderAlmostDone, Silent)
    else if ch == LF then To(q, HeaderFieldStart, Silent)
    else BAD
  }

  function ValueStartMove(q: Parser, ch: char): Move {
    var c := Acceptable(ch);
    var next := q.(state := HeaderValue, index := 0);
    if ch == ' ' then Moved(q, Silent)
    else if ch == CR then To(next.(headerState := General), HeaderAlmostDone, EmptyValue)
    else if ch == LF then To(next, HeaderFieldStart, EmptyValue)
    else if c == NONE then Moved(next.(headerState := General), InValue)
    else
      match q.headerState
      case Upgrade => Moved(next.(flags := q.flags.(upgrade := true), headerState := General), InValue)
      case TransferEncoding => Moved(next.(headerState := if c == 'c' then MatchingChunked else General), InValue)
      case ContentLength => if IsDigit(ch) then Moved(next.(contentLength := DigitValue(ch)), InValue) else BAD
      case Connection =>
        Moved(next.(headerState := if c == 'k' then MatchingKeepAlive else if c == 'c' then MatchingClose
            else General), InValue)
      case _ => Moved(next.(headerState := General), InValue)
  }

  function ValueChar(q: Parser, ch: char): Move {
    var c := Acceptable(ch);
    match q.headerState
    case General => Moved(q, InValue)
    case Connection | TransferEncoding => Refused(Assertion)
    case ContentLength =>
      if ch == ' ' then Moved(q, InValue)
      else if IsDigit(ch) then Moved(q.(contentLength := q.contentLength * 10 + DigitValue(ch)), InValue)
      else BAD
    case MatchingChunked => Moved(Matching(q, c, "chunked", Chunked), InValue)
    case MatchingKeepAlive => Moved(Matching(q, c, "keep-alive", KeepAlive), InValue)
    case MatchingClose => Moved(Matching(q, c, "close", Close), InValue)
    case Chunked | KeepAlive | Close => Moved(if ch != ' ' then q.(headerState := General) else q, InValue)
    case _ => Moved(q.(headerState := General), InValue)
  }

  function ValueMove(q: Parser, ch: char): Move {
    if Acceptable(ch) != NONE then ValueChar(q, ch)
    else if ch == CR then To(q, HeaderAlmostDone, Silent)
    else if ch == LF then LineDone(q, ch)
    else Moved(q, InValue)
  }

  /** The end of a header's line, where what its value was found to be takes effect. */
  function LineDone(q: Parser, ch: char): Move {
    if ch != LF then BAD
    else
      match q.headerState
      case KeepAlive => To(q.(flags := q.flags.(keepAlive := true)), HeaderFieldStart, Silent)
      case Close => To(q.(flags := q.flags.(close := true)), HeaderFieldStart, Silent)
      case Chunked => To(q.(flags := q.flags.(chunked := true)), HeaderFieldStart, Silent)
      case _ => To(q, HeaderFieldStart, Silent)
  }

  function FieldStartMove(q: Parser, ch: char): Move {
    var c := Token(ch);
    if ch == CR then To(q, HeadersAlmostDone, Silent)
    else if ch == LF then AllDone(q.(state := HeadersAlmostDone), ch)
    else if c == NONE then BAD
    else To(q.(index := 0, headerState := FieldStartState(c)), HeaderField, InField)
  }

  /** The empty line: the end of the headers, or of a chunked message. */
  function AllDone(q: Parser, ch: char): Move {
    if ch != LF then BAD
    else if q.flags.trailing then To(q, NewMessage(q), Complete)
    else
      var q' := q.(nread := 0, upgrade := q.upgrade || q.flags.upgrade || q.verb == CONNECT);
      if q'.upgrade then Refused(Upgraded)
      else if q.flags.chunked then To(q', ChunkSizeStart, HeadersDone(false))
      else if q.contentLength > 0 then To(q', BodyIdentity, HeadersDone(false))
      else To(q', NewMessage(q'), HeadersDone(true))
  }

  // The body

  function BodyMove(q: Parser): Move {
    if q.contentLength <= 0 then Moved(q, Silent)
    else
      var q' := q.(contentLength := q.contentLength - 1);
      if q'.contentLength == 0 then To(q', NewMessage(q'), InBody(true)) else Moved(q', InBody(false))
  }

  function ChunkDataMove(q: Parser): Move {
    if q.contentLength <= 0 then To(q.(contentLength := 0), ChunkDataAlmostDone, Silent)
    else if q.contentLength == 1 then To(q.(contentLength := 0), ChunkDataAlmostDone, InBody(false))
    else Moved(q.(contentLength := q.contentLength - 1), InBody(false))
  }

  function ChunkMove(q: Parser, ch: char): Move {
    if !q.flags.chunked then Refused(Assertion)
    else
      match q.state
      case ChunkSizeStart =>
        if Unhex(ch) == -1 then BAD else To(q.(contentLength := Unhex(ch)), ChunkSize, Silent)
      case ChunkSize =>
        if ch == CR then To(q, ChunkSizeAlmostDone, Silent)
        else if Unhex(ch) != -1 then Moved(q.(contentLength := q.contentLength * 16 + Unhex(ch)), Silent)
        else if ch == ';' || ch == ' ' then To(q, ChunkParameters, Silent)
        else BAD
      case ChunkParameters => if ch == CR then To(q, ChunkSizeAlmostDone, Silent) else Moved(q, Silent)
      case ChunkSizeAlmostDone =>
        if ch != LF then BAD
        else if q.contentLength == 0 then To(q.(flags := q.flags.(trailing := true)), HeaderFieldStart, Silent)
        else To(q, ChunkData, Silent)
      case ChunkData => ChunkDataMove(q)
      case ChunkDataAlmostDone => Expect(q, ch, CR, ChunkDataDone)
      case _ => Expect(q, ch, LF, ChunkSizeStart)
  }

  /** The states inside the URL. */
  predicate InUrlStates(s: State) {
    InHostStates(s) || InPathStates(s)
  }

  predicate InHostStates(s: State) {
    match s
    case Schema | SchemaSlash | SchemaSlashSlash | Host | Port => true
    case _ => false
  }

  predicate InPathStates(s: State) {
    match s
    case Path | QueryStringStart | QueryString | FragmentStart | Fragment => true
    case _ => false
  }

  predicate InHeaderStates(s: State) {
    match s
    case HeaderFieldStart | HeaderField | HeaderValueStart | HeaderValue | HeaderAlmostDone | HeadersAlmostDone => true
    case _ => false
  }

  function HeaderMove(q: Parser, ch: char): Move {
    if q.state == HeaderFieldStart then FieldStartMove(q, ch)
    else if q.state == HeaderField then FieldMove(q, ch)
    else if q.state == HeaderValueStart then ValueStartMove(q, ch)
    else if q.state == HeaderValue then ValueMove(q, ch)
    else if q.state == HeaderAlmostDone then LineDone(q, ch)
    else AllDone(q, ch)
  }

  function RequestLineMove(q: Parser, ch: char): Move {
    if q.state == Dead then BAD
    else if q.state == StartReq then StartMove(q, ch)
    else if q.state == ReqMethod then MethodMove(q, ch)
    else if q.state == SpacesBeforeUrl || InHostStates(q.state) then HostMove(q, ch)
    else if InPathStates(q.state) then PathMove(q, ch)
    else VersionMove(q, ch)
  }

  function Switch(q: Parser, ch: char): Move {
    if InHeaderStates(q.state) then HeaderMove(q, ch)
    else if q.state == BodyIdentity then BodyMove(q)
    else if InBodyStates(q.state) then ChunkMove(q, ch)
    else RequestLineMove(q, ch)
  }

  /** One byte is counted against the limit on headers. */
  function Counted(q: Parser): Parser {
    if ParsingHeader(q) then q.(nread := q.nread + 1) else q
  }

  /** What one byte does. */
  function Take(q: Parser, ch: char): Move {
    if ParsingHeader(q) && q.nread + 1 > MAX_HEADER_SIZE then BAD else Switch(Counted(q), ch)
  }
}
