/** Which bytes are taken in which state, and that no others are. */
module HttpRefusals {
  import opened HttpTables
  import opened HttpCallbacks
  import opened HttpParser
  import opened HttpSession
  import opened HttpSanity

  predicate AnyLetter(c: char) {
    'a' <= c <= 'z' || 'A' <= c <= 'Z'
  }

  /** In the name of a method: its letters, or one that tells another method from it; or, for the two methods that are
      checked loosely, anything, until the name has been passed by more than one byte. */
  predicate WelcomeInMethod(q: Parser, c: char) {
    var name := MethodName(q.verb);
    && c != '\0' && q.index <= |name|
    && (|| q.verb == CONNECT || q.verb == MKCOL
        || (q.index == |name| && c == ' ')
        || (q.index < |name| && c == name[q.index])
        || (q.index == 1 && q.verb == POST && (c == 'R' || c == 'U'))
        || (q.index == 4 && q.verb == PROPFIND && c == 'P'))
  }

  /** In a URL.  In a scheme, setting a bit turns some control characters into digits, and one into a hyphen. */
  predicate WelcomeInUrl(s: State, c: char) {
    match s
    case SpacesBeforeUrl => c == ' ' || c == '/' || AnyLetter(c)
    case Schema => AnyLetter(c) || '0' <= c <= '9' || c in "-:." || 16 <= c as int <= 25 || c as int == 13
    case SchemaSlash | SchemaSlashSlash => c == '/'
    case Host => AnyLetter(c) || '0' <= c <= '9' || c in ".-:/ "
    case Port => '0' <= c <= '9' || c == '/' || c == ' '
    case _ => 32 <= c as int <= 126 || c == '\r' || c == '\n'
  }

  predicate WelcomeInVersion(q: Parser, c: char) {
    match q.state
    case HttpStart => c == ' ' || c == 'H'
    case HttpH | HttpHT => c == 'T'
    case HttpHTT => c == 'P'
    case HttpHTTP => c == '/'
    case FirstHttpMajor => '1' <= c <= '9'
    case HttpMajor => c == '.' || ('0' <= c <= '9' && 10 * q.httpMajor + (c as int - 48) <= 999)
    case FirstHttpMinor => '0' <= c <= '9'
    case HttpMinor => c == '\r' || c == '\n' || ('0' <= c <= '9' && 10 * q.httpMinor + (c as int - 48) <= 999)
    case _ => c == '\n'
  }

  /** The empty line must not leave the protocol. */
  predicate Stays(q: Parser) {
    q.flags.trailing || (!q.upgrade && !q.flags.upgrade && q.verb != CONNECT)
  }

  predicate WelcomeInHeaders(q: Parser, c: char) {
    match q.state
    case HeaderFieldStart => c == '\r' || (c == '\n' && Stays(q)) || Token(c) != '\0'
    case HeaderField => c in ":\r\n" || Token(c) != '\0'
    case HeaderValueStart =>
      q.headerState == ContentLength && Acceptable(c) != '\0' ==> c == ' ' || '0' <= c <= '9'
    case HeaderValue =>
      q.headerState == ContentLength && Acceptable(c) != '\0' ==> c == ' ' || '0' <= c <= '9'
    case HeaderAlmostDone => c == '\n'
    case _ => c == '\n' && Stays(q)
  }

  predicate WelcomeInChunks(s: State, c: char) {
    match s
    case ChunkSizeStart => c in "0123456789abcdefABCDEF" || c as int >= 128
    case ChunkSize => c in "0123456789abcdefABCDEF\r; " || c as int >= 128
    case ChunkSizeAlmostDone | ChunkDataDone => c == '\n'
    case ChunkDataAlmostDone => c == '\r'
    case _ => true
  }

  /** The bytes that are taken next. */
  predicate Welcome(q: Parser, c: char) {
    if q.state == Dead then false
    else if q.state == StartReq then c in "\r\nCDGHLMOPRTU"
    else if q.state == ReqMethod then WelcomeInMethod(q, c)
    else if q.state == SpacesBeforeUrl || InUrlStates(q.state) then WelcomeInUrl(q.state, c)
    else if InHeaderStates(q.state) then WelcomeInHeaders(q, c)
    else if InBodyStates(q.state) then WelcomeInChunks(q.state, c)
    else WelcomeInVersion(q, c)
  }

  lemma StartWelcome(q: Parser, c: char)
    ensures StartMove(q, c).Moved? <==> c in "\r\nCDGHLMOPRTU"
  {
  }

  lemma MethodWelcome(q: Parser, c: char)
    ensures MethodMove(q, c).Moved? <==> WelcomeInMethod(q, c)
  {
    hide MethodName;
  }

  lemma HostWelcome(q: Parser, c: char)
    requires q.state == SpacesBeforeUrl || InHostStates(q.state)
    ensures HostMove(q, c).Moved? <==> WelcomeInUrl(q.state, c)
  {
  }

  lemma PathWelcome(q: Parser, c: char)
    requires InPathStates(q.state)
    ensures PathMove(q, c).Moved? <==> WelcomeInUrl(q.state, c)
  {
  }

  lemma VersionWelcome(q: Parser, c: char)
    requires !InHeaderStates(q.state) && !InBodyStates(q.state) && !InUrlStates(q.state)
    requires q.state != Dead && q.state != StartReq && q.state != ReqMethod && q.state != SpacesBeforeUrl
    ensures VersionMove(q, c).Moved? <==> WelcomeInVersion(q, c)
  {
  }

  lemma FieldWelcome(q: Parser, c: char)
    requires SaneParser(q) && (q.state == HeaderField || q.state == HeaderFieldStart)
    ensures HeaderMove(q, c).Moved? <==> WelcomeInHeaders(q, c)
  {
    hide Matching, ShouldKeepAlive, ValueStartMove, ValueMove, LineDone, Acceptable;
    NamesAvoidControls(c);
  }

  lemma NamesAvoidControls(c: char)
    ensures Token(c) != NONE ==> c !in ":\r\n"
  {
  }

  lemma ValueWelcome(q: Parser, c: char)
    requires SaneParser(q) && InHeaderStates(q.state) && q.state != HeaderField && q.state != HeaderFieldStart
    ensures HeaderMove(q, c).Moved? <==> WelcomeInHeaders(q, c)
  {
    hide Matching, ShouldKeepAlive, FieldStartMove, FieldMove, Token;
  }

  lemma ChunkWelcome(q: Parser, c: char)
    requires SaneParser(q) && InBodyStates(q.state) && q.state != BodyIdentity
    ensures ChunkMove(q, c).Moved? <==> WelcomeInChunks(q.state, c)
  {
    hide Unhex, ChunkDataMove;
    HexWelcome(c);
    DataWelcome(q);
  }

  lemma HexWelcome(c: char)
    ensures Unhex(c) != -1 <==> c in "0123456789abcdefABCDEF" || c as int >= 128
    ensures c in "0123456789abcdefABCDEF\r; " <==> c in "0123456789abcdefABCDEF" || c in "\r; "
  {
  }

  lemma DataWelcome(q: Parser)
    ensures ChunkDataMove(q).Moved?
  {
  }

  lemma SwitchWelcome(q: Parser, c: char)
    requires SaneParser(q)
    ensures Switch(q, c).Moved? <==> Welcome(q, c)
  {
    hide SaneParser, MethodMove, HostMove, PathMove, VersionMove, StartMove, HeaderMove, ChunkMove, WelcomeInMethod,
        WelcomeInUrl, WelcomeInVersion, WelcomeInHeaders, WelcomeInChunks;
    if q.state == Dead {
    } else if q.state == StartReq {
      StartWelcome(q, c);
    } else if q.state == ReqMethod {
      MethodWelcome(q, c);
    } else if q.state == SpacesBeforeUrl || InHostStates(q.state) {
      HostWelcome(q, c);
    } else if InPathStates(q.state) {
      PathWelcome(q, c);
    } else if q.state == HeaderField || q.state == HeaderFieldStart {
      FieldWelcome(q, c);
    } else if InHeaderStates(q.state) {
      ValueWelcome(q, c);
    } else if q.state == BodyIdentity {
      BodyWelcome(q, c);
    } else if InBodyStates(q.state) {
      ChunkWelcome(q, c);
    } else {
      VersionWelcome(q, c);
    }
  }

  lemma BodyWelcome(q: Parser, c: char)
    requires q.state == BodyIdentity
    ensures BodyMove(q).Moved? && WelcomeInChunks(q.state, c)
  {
  }

  /** In every reachable state a byte is taken exactly if it is one of those that are welcome there, and the head is not
      yet at its limit. */
  lemma TakenIff(s: Session, c: char, at: nat)
    requires Sane(s)
    ensures Step(s, c, at).Fed? <==>
              && Welcome(s.parser, c)
              && (!InBodyStates(s.parser.state) && !s.parser.flags.trailing ==> s.parser.nread < 81920)
  {
    hide Switch, Welcome, SaneParser, Effect;
    SaneCounted(s.parser, c);
    SwitchWelcome(Counted(s.parser), c);
  }

  lemma SaneCounted(q: Parser, c: char)
    requires SaneParser(q)
    ensures SaneParser(Counted(q)) && Welcome(Counted(q), c) == Welcome(q, c)
  {
  }
}
