/** A header line as a whole: what its bytes, taken one by one, come to. */
module HttpLines {
  import opened HttpTables
  import opened HttpCallbacks
  import opened HttpParser
  import opened HttpSession
  import opened HttpWords

  // Values of headers

  /** The characters of a value that the parser looks at, in lower case; all others are passed over. */
  function Letters(value: string): string
    decreases |value|
  {
    if value == "" then ""
    else
      var last := |value| - 1;
      Letters(value[..last]) + (if Acceptable(value[last]) == NONE then "" else [Acceptable(value[last])])
  }

  /** The value says `word`, for all that the parser sees of it. */
  predicate Says(value: string, word: string) {
    value != "" && Acceptable(value[0]) != NONE && WordAndBlanks(Letters(value), word)
  }

  /** The state of the search for one word after `x`. */
  function Toward(x: string, word: string, seeking: HeaderState, found: HeaderState): HeaderState {
    if |x| < |word| && IsPrefix(x, word) then seeking
    else if WordAndBlanks(x, word) then found
    else General
  }

  /** The state of the search in a value whose visible characters are `x`. */
  function ValueSearch(meaning: HeaderState, x: string): HeaderState
    requires x != ""
  {
    match meaning
    case TransferEncoding => Toward(x, "chunked", MatchingChunked, Chunked)
    case Connection =>
      if x[0] == 'k' then Toward(x, "keep-alive", MatchingKeepAlive, KeepAlive)
      else Toward(x, "close", MatchingClose, Close)
    case ContentLength => ContentLength
    case _ => General
  }

  predicate Seeks(h: HeaderState) {
    h == MatchingChunked || h == MatchingKeepAlive || h == MatchingClose
  }

  lemma TowardStep(q: Parser, x: string, c: char, word: string, seeking: HeaderState, found: HeaderState)
    requires x != "" && |word| >= 2 && c != NONE && q.headerState == Toward(x, word, seeking, found)
    requires |x| < |word| && IsPrefix(x, word) ==> q.index == |x| - 1
    ensures |x| < |word| && IsPrefix(x, word) ==>
              Matching(q, c, word, found) == q.(index := |x|, headerState := Toward(x + [c], word, seeking, found))
    ensures !(|x| < |word| && IsPrefix(x, word)) ==>
              Toward(x + [c], word, seeking, found) == if WordAndBlanks(x, word) && c == ' ' then found else General
  {
    Longer(x, c, word);
    var y := x + [c];
    assert y[|x|] == c && forall i :: 0 <= i < |x| ==> y[i] == x[i];
  }

  /** One more visible character of a value keeps the search in step. */
  lemma ValueSearchStep(q: Parser, meaning: HeaderState, x: string, ch: char)
    requires x != "" && Acceptable(ch) != NONE && meaning != ContentLength
    requires q.headerState == ValueSearch(meaning, x) && (Seeks(q.headerState) ==> q.index == |x| - 1)
    ensures var r, y := ValueChar(q, ch), x + [Acceptable(ch)];
            && r.Moved? && r.tag == InValue
            && r.next == q.(headerState := ValueSearch(meaning, y), index := r.next.index)
            && (Seeks(r.next.headerState) ==> r.next.index == |y| - 1)
  {
    hide Acceptable, WordAndBlanks, IsPrefix;
    var c := Acceptable(ch);
    Blank(ch);
    match meaning
    case TransferEncoding => TowardStep(q, x, c, "chunked", MatchingChunked, Chunked);
    case Connection =>
      if x[0] == 'k' { TowardStep(q, x, c, "keep-alive", MatchingKeepAlive, KeepAlive); }
      else { TowardStep(q, x, c, "close", MatchingClose, Close); }
    case _ =>
  }

  lemma Blank(ch: char)
    ensures Acceptable(ch) == ' ' <==> ch == ' '
  {
  }

  /** The first visible character of a value. */
  lemma ValueSearchStarts(q: Parser, ch: char)
    requires Acceptable(ch) != NONE && ch != ' ' && q.headerState != ContentLength
    ensures var r, x := ValueStartMove(q, ch), [Acceptable(ch)];
            && r.Moved? && r.tag == InValue && r.next.state == HeaderValue && r.next.index == 0
            && r.next.headerState == ValueSearch(q.headerState, x)
            && r.next == q.(state := HeaderValue, index := 0, headerState := r.next.headerState,
                            flags := if q.headerState == Upgrade then q.flags.(upgrade := true) else q.flags)
  {
    NotControl(ch);
    var x := [Acceptable(ch)];
    assert IsPrefix(x, "chunked") <==> x[0] == 'c';
    assert IsPrefix(x, "keep-alive") <==> x[0] == 'k';
    assert IsPrefix(x, "close") <==> x[0] == 'c';
  }

  lemma NotControl(ch: char)
    requires Acceptable(ch) != NONE
    ensures ch != CR && ch != LF
  {
  }

  // One byte of the headers

  predicate MayCount(q: Parser, n: nat) {
    !q.flags.trailing && q.nread + n <= 81920
  }

  /** One byte more, in a state of the headers. */
  lemma OneMore(s: Session, text: string, ch: char, t: Session)
    requires Feed(s, text) == Fed(t) && InHeaderStates(t.parser.state) && MayCount(t.parser, 1)
    ensures var r := HeaderMove(t.parser.(nread := t.parser.nread + 1), ch);
            Feed(s, text + [ch]) == match r
                                    case Refused(why) => Stopped(|text|, why)
                                    case Moved(next, tag) => Fed(Session(next, Effect(tag, t.http, ch, next.verb)))
  {
    hide HeaderMove, Effect, Feed;
    FeedMore(s, text, ch);
    HeaderTake(t.parser, ch);
  }

  lemma HeaderTake(q: Parser, ch: char)
    requires InHeaderStates(q.state) && MayCount(q, 1)
    ensures Take(q, ch) == HeaderMove(q.(nread := q.nread + 1), ch)
  {
    hide HeaderMove, BodyMove, ChunkMove, RequestLineMove;
  }

  // The name

  function Lowered(name: string): (x: string)
    ensures |x| == |name|
  {
    seq(|name|, i requires 0 <= i < |name| => Token(name[i]))
  }

  predicate IsName(name: string) {
    name != "" && forall i :: 0 <= i < |name| ==> Token(name[i]) != NONE
  }

  /** Between lines. */
  predicate AtLineStart(s: Session, n: nat) {
    && s.parser.state == HeaderFieldStart && MayCount(s.parser, n)
    && s.http.Http? && (s.http.state == HEADER || s.http.state == VALUE)
  }

  /** Behind the first `n` characters of a line, in state `state`; index and search are left open. */
  predicate InLine(s: Session, n: nat, state: State, q: Parser) {
    q == s.parser.(state := state, nread := s.parser.nread + n, headerState := q.headerState, index := q.index)
  }

  lemma FirstOfName(s: Session, ch: char)
    requires AtLineStart(s, 1) && Token(ch) != NONE
    ensures var r := FieldStartMove(s.parser.(nread := s.parser.nread + 1), ch);
            && r.Moved? && r.tag == InField
            && InLine(s, 1, HeaderField, r.next) && Follows(r.next, [Token(ch)])
  {
    hide Follows;
    NameCharacter(ch);
    SearchStarts(s.parser.(nread := s.parser.nread + 1, state := HeaderField), Token(ch));
  }

  lemma NameCharacter(ch: char)
    requires Token(ch) != NONE
    ensures ch != CR && ch != LF && ch != ':'
  {
  }

  lemma MoreOfName(q: Parser, x: string, ch: char)
    requires q.state == HeaderField && x != "" && Follows(q, x) && Token(ch) != NONE
    ensures var r := HeaderMove(q, ch);
            && r.Moved? && r.tag == InField
            && r.next == q.(headerState := r.next.headerState, index := r.next.index)
            && Follows(r.next, x + [Token(ch)])
  {
    hide Follows, FieldChar, FieldStartMove, ValueMove, ValueStartMove, LineDone, AllDone;
    SearchStep(q, x, ch);
  }

  lemma {:induction false} NameRead(s: Session, name: string)
    requires IsName(name) && AtLineStart(s, |name|)
    ensures var r := Feed(s, name);
            && r.Fed? && r.session.http == NewHeader(s.http, name)
            && InLine(s, |name|, HeaderField, r.session.parser) && Follows(r.session.parser, Lowered(name))
    decreases |name|
  {
    hide Feed, Follows, HeaderMove, Token, NewHeader, FieldText;
    var last := |name| - 1;
    var before, ch := name[..last], name[last];
    assert name == before + [ch];
    if last == 0 {
      assert before == "" && name == [ch];
      FirstOfName(s, ch);
      FeedNothing(s);
      OneMore(s, "", ch, s);
      StartHeader(s.http, [ch]);
      assert HeaderMove(s.parser.(nread := s.parser.nread + 1), ch)
          == FieldStartMove(s.parser.(nread := s.parser.nread + 1), ch) by { StartMoves(s.parser, ch); }
      assert "" + [ch] == name;
      assert Lowered(name) == [Token(ch)];
    } else {
      NameRead(s, before);
      var t := Feed(s, before).session;
      MoreOfName(t.parser.(nread := t.parser.nread + 1), Lowered(before),
          ch) by { FollowsCounted(t.parser, Lowered(before)); }
      OneMore(s, before, ch, t);
      LongerHeader(s.http, before, [ch]);
      assert Lowered(name) == Lowered(before) + [Token(ch)];
    }
  }

  /** What a name means to the parser is decided by its letters, in any case, and nothing behind them but blanks. */
  lemma NameMeans(s: Session, name: string)
    requires IsName(name) && AtLineStart(s, |name|)
    ensures var r, x := Feed(s, name), Lowered(name);
            && r.Fed?
            && var h := r.session.parser.headerState;
            && (h == Connection <==> WordAndBlanks(x, "connection") || WordAndBlanks(x, "proxy-connection"))
            && (h == ContentLength <==> WordAndBlanks(x, "content-length"))
            && (h == TransferEncoding <==> WordAndBlanks(x, "transfer-encoding"))
            && (h == Upgrade <==> WordAndBlanks(x, "upgrade"))
  {
    hide Feed, Search, WordAndBlanks, Lowered;
    NameRead(s, name);
    SearchFinds(Lowered(name));
  }

  lemma StartMoves(q: Parser, ch: char)
    requires q.state == HeaderFieldStart
    ensures HeaderMove(q.(nread := q.nread + 1), ch) == FieldStartMove(q.(nread := q.nread + 1), ch)
  {
  }

  lemma FollowsCounted(q: Parser, x: string)
    requires Follows(q, x)
    ensures Follows(q.(nread := q.nread + 1), x)
  {
  }

  lemma StartHeader(h: Http, s: string)
    requires h.Http? && (h.state == HEADER || h.state == VALUE)
    ensures FieldText(h, s) == NewHeader(h, s)
  {
  }

  lemma LongerHeader(h: Http, a: string, b: string)
    requires h.Http?
    ensures FieldText(NewHeader(h, a), b) == NewHeader(h, a + b)
  {
  }

  // The value

  /** The number that the digits of a text make, whatever stands between them. */
  function Decimal(text: string): int
    decreases |text|
  {
    if text == "" then 0
    else
      var last := |text| - 1;
      if IsDigit(text[last]) then Decimal(text[..last]) * 10 + DigitValue(text[last]) else Decimal(text[..last])
  }

  predicate AllDigits(value: string) {
    forall i :: 0 <= i < |value| ==> IsDigit(value[i])
  }

  /** A value that can follow a name with that meaning: no line ends, no leading blank, which would be dropped,
      and a number where a number is due. */
  predicate IsValue(meaning: HeaderState, value: string) {
    && (forall i :: 0 <= i < |value| ==> value[i] != CR && value[i] != LF)
    && (value != "" ==> value[0] != ' ')
    && (meaning == ContentLength ==> IsLength(value))
  }

  /** A value that can be a length: of the characters that are looked at, all are digits, or blanks behind them.  If the
      first is not looked at, none is. */
  predicate IsLength(value: string) {
    Visible(value) ==>
      && IsDigit(value[0])
      && forall i :: 0 <= i < |value| ==> IsDigit(value[i]) || value[i] == ' ' || Acceptable(value[i]) == NONE
  }

  predicate Visible(value: string) {
    value != "" && Acceptable(value[0]) != NONE
  }

  /** How far a value has been understood. */
  predicate Understood(q: Parser, meaning: HeaderState, value: string)
    requires value != ""
  {
    if !Visible(value) then q.headerState == General
    else if meaning == ContentLength then q.headerState == ContentLength
    else
      && Letters(value) != ""
      && q.headerState == ValueSearch(meaning, Letters(value))
      && (Seeks(q.headerState) ==> q.index == |Letters(value)| - 1)
  }

  /** The registers behind the first characters of a value; index and search are left open. */
  predicate InValueOf(u: Parser, value: string, q: Parser) {
    q == u.(state := HeaderValue, nread := u.nread + |value|, headerState := q.headerState, index := q.index,
            flags := if u.headerState == Upgrade && Visible(value) then u.flags.(upgrade := true) else u.flags,
            contentLength := if u.headerState == ContentLength && Visible(value) then Decimal(value)
                else u.contentLength)
  }

  lemma FirstOfValue(u: Parser, ch: char)
    requires u.state == HeaderValueStart && ch != ' ' && ch != CR && ch != LF
    requires u.headerState == ContentLength ==> IsLength([ch])
    ensures var r := HeaderMove(u.(nread := u.nread + 1), ch);
            r.Moved? && r.tag == InValue && InValueOf(u, [ch], r.next) && Understood(r.next, u.headerState, [ch])
  {
    hide ValueSearch, FieldStartMove, FieldMove, ValueMove, LineDone, AllDone;
    OneLetter(ch);
    OneDigit(ch);
    if u.headerState != ContentLength && Acceptable(ch) != NONE {
      ValueSearchStarts(u.(nread := u.nread + 1), ch);
    }
  }

  lemma OneLetter(ch: char)
    ensures Letters([ch]) == if Acceptable(ch) == NONE then "" else [Acceptable(ch)]
  {
    assert [ch][..0] == "";
    assert Letters("") == "";
  }

  lemma OneDigit(ch: char)
    ensures IsDigit(ch) ==> Decimal([ch]) == DigitValue(ch)
    ensures IsDigit(ch) ==> Acceptable(ch) != NONE && ch != ' '
  {
    assert [ch][..0] == "";
    assert Decimal("") == 0;
  }

  lemma MoreOfValue(u: Parser, q: Parser, value: string, ch: char)
    requires value != "" && InValueOf(u, value, q) && Understood(q, u.headerState, value)
    requires ch != CR && ch != LF && (u.headerState == ContentLength ==> IsLength(value + [ch]))
    ensures var r := HeaderMove(q.(nread := q.nread + 1), ch);
            r.Moved? && r.tag == InValue && InValueOf(u, value + [ch], r.next)
                && Understood(r.next, u.headerState, value + [ch])
  {
    hide ValueSearch, FieldStartMove, FieldMove, ValueStartMove, LineDone, AllDone, Letters, Decimal, Acceptable;
    var longer := value + [ch];
    assert longer[0] == value[0];
    LettersLonger(value, ch);
    assert Letters(value) + "" == Letters(value);
    DecimalLonger(value, ch);
    OneDigit(ch);
    var counted := q.(nread := q.nread + 1);
    if Visible(value) && u.headerState != ContentLength && Acceptable(ch) != NONE {
      ValueSearchStep(counted, u.headerState, Letters(value), ch);
    } else if Visible(value) && Acceptable(ch) != NONE {
      assert longer[|value|] == ch;
      NumberCharacter(counted, ch);
    } else if Acceptable(ch) != NONE {
      GeneralStays(counted, ch);
    } else if Visible(value) && u.headerState == ContentLength {
      NotSeenNoDigit(ch);
    }
  }

  lemma LettersLonger(value: string, ch: char)
    ensures Letters(value + [ch]) == Letters(value) + (if Acceptable(ch) == NONE then "" else [Acceptable(ch)])
  {
    assert (value + [ch])[..|value|] == value;
  }

  lemma DecimalLonger(value: string, ch: char)
    ensures Decimal(value + [ch]) == if IsDigit(ch) then Decimal(value) * 10 + DigitValue(ch) else Decimal(value)
  {
    assert (value + [ch])[..|value|] == value;
  }

  lemma NumberCharacter(q: Parser, ch: char)
    requires q.headerState == ContentLength && (IsDigit(ch) || ch == ' ')
    ensures ValueChar(q, ch)
            == Moved(if IsDigit(ch) then q.(contentLength := q.contentLength * 10 + DigitValue(ch)) else q, InValue)
  {
  }

  lemma NotSeenNoDigit(ch: char)
    requires Acceptable(ch) == NONE
    ensures !IsDigit(ch)
  {
  }

  lemma GeneralStays(q: Parser, ch: char)
    requires q.headerState == General
    ensures ValueChar(q, ch) == Moved(q, InValue)
  {
  }

  /** A header whose name has been read. */
  predicate AtValueStart(u: Session, n: nat) {
    && u.parser.state == HeaderValueStart && MayCount(u.parser, n)
    && u.http.Http? && u.http.state == FIELD && u.http.header.Header?
  }

  lemma ValueBefore(m: HeaderState, value: string)
    requires IsValue(m, value) && |value| > 1
    ensures IsValue(m, value[..|value| - 1])
  {
  }

  lemma {:induction false} ValueRead(u: Session, value: string)
    requires AtValueStart(u, |value|) && IsValue(u.parser.headerState, value) && value != ""
    ensures var r := Feed(u, value);
            && r.Fed? && r.session.http == ValueText(u.http, value)
            && InValueOf(u.parser, value, r.session.parser) && Understood(r.session.parser, u.parser.headerState, value)
    decreases |value|
  {
    hide Feed, Understood, HeaderMove, ValueText, Decimal, Visible;
    var last := |value| - 1;
    var before, ch := value[..last], value[last];
    assert value == before + [ch];
    if last == 0 {
      assert before == "" && value == [ch] && "" + [ch] == value;
      FirstOfValue(u.parser, ch);
      FeedNothing(u);
      OneMore(u, "", ch, u);
    } else {
      assert before[0] == value[0];
      assert forall i :: 0 <= i < last ==> before[i] == value[i];
      ValueBefore(u.parser.headerState, value);
      ValueRead(u, before);
      var t := Feed(u, before).session;
      MoreOfValue(u.parser, t.parser, before, ch);
      OneMore(u, before, ch, t);
      ValueInPieces(u.http, before, [ch]);
    }
  }

  lemma BadLength(q: Parser, ch: char)
    requires q.headerState == ContentLength && Acceptable(ch) != NONE && !IsDigit(ch) && ch != ' '
    ensures q.state == HeaderValueStart || q.state == HeaderValue ==> HeaderMove(q, ch) == BAD
  {
    NotControl(ch);
  }

  /** A length with any other character that is looked at is not taken. */
  lemma {:induction false} LengthRefused(u: Session, value: string)
    requires AtValueStart(u, |value|) && u.parser.headerState == ContentLength && value != "" && !IsLength(value)
    requires value[0] != ' ' && forall i :: 0 <= i < |value| ==> value[i] != CR && value[i] != LF
    ensures !Feed(u, value).Fed?
    decreases |value|
  {
    hide Feed, HeaderMove, Decimal;
    var last := |value| - 1;
    var before, ch := value[..last], value[last];
    assert value == before + [ch];
    if last == 0 {
      BadLength(u.parser.(nread := u.parser.nread + 1), ch);
      FeedNothing(u);
      OneMore(u, "", ch, u);
      assert "" + [ch] == value;
    } else if !IsLength(before) {
      LengthRefused(u, before);
      FeedConcat(u, before, [ch]);
    } else {
      ValueRead(u, before);
      var t := Feed(u, before).session;
      BadLength(t.parser.(nread := t.parser.nread + 1), ch);
      OneMore(u, before, ch, t);
    }
  }

  // The line

  /** A header line, with any blanks behind its colon, and either end. */
  datatype Line = Line(name: string, gap: nat, value: string, cr: bool)

  function LineText(l: Line): string {
    l.name + ":" + Blanks(l.gap) + l.value + EndText(l.cr)
  }

  /** Which header a name is, in any case and with any blanks behind it, as far as the parser cares. */
  function Meaning(name: string): HeaderState {
    var x := Lowered(name);
    if WordAndBlanks(x, "connection") || WordAndBlanks(x, "proxy-connection") then Connection
    else if WordAndBlanks(x, "content-length") then ContentLength
    else if WordAndBlanks(x, "transfer-encoding") then TransferEncoding
    else if WordAndBlanks(x, "upgrade") then Upgrade
    else General
  }

  predicate IsLine(l: Line) {
    IsName(l.name) && IsValue(Meaning(l.name), l.value)
  }

  /** What a line means to the parser. */
  function LineFlags(f: Flags, l: Line): Flags {
    var m := Meaning(l.name);
    Flags(f.chunked || (m == TransferEncoding && Says(l.value, "chunked")),
          f.keepAlive || (m == Connection && Says(l.value, "keep-alive")),
          f.close || (m == Connection && Says(l.value, "close")),
          f.trailing,
          f.upgrade || (m == Upgrade && Visible(l.value)))
  }

  function LineLength(length: int, l: Line): int {
    if Meaning(l.name) == ContentLength && Visible(l.value) then Decimal(l.value) else length
  }

  /** What a line is to the request: its name and its value. */
  function LineHttp(h: Http, l: Line): Http
    requires h.Http?
  {
    ValueText(NewHeader(h, l.name), l.value)
  }

  /** The registers behind a line; index and search are left open. */
  predicate BehindLine(p: Parser, l: Line, q: Parser) {
    q == p.(state := HeaderFieldStart, nread := p.nread + |LineText(l)|, headerState := q.headerState, index := q.index,
            flags := LineFlags(p.flags, l), contentLength := LineLength(p.contentLength, l))
  }

  lemma OneSilent(s: Session, ch: char, next: Parser)
    requires InHeaderStates(s.parser.state) && MayCount(s.parser, 1)
    requires HeaderMove(s.parser.(nread := s.parser.nread + 1), ch) == Moved(next, Silent)
    ensures Feed(s, [ch]) == Fed(Session(next, s.http))
  {
    hide HeaderMove, Feed;
    FeedNothing(s);
    OneMore(s, "", ch, s);
    assert "" + [ch] == [ch];
  }

  lemma ColonMoves(q: Parser)
    ensures q.state == HeaderField ==> HeaderMove(q, ':') == Moved(q.(state := HeaderValueStart), Silent)
    ensures q.state == HeaderValueStart ==> HeaderMove(q, ' ') == Moved(q, Silent)
  {
    hide FieldChar, FieldStartMove, ValueMove, LineDone, AllDone;
  }

  /** The colon, and the blanks behind it. */
  lemma {:induction false} ColonRead(s: Session, gap: nat)
    requires s.parser.state == HeaderField && MayCount(s.parser, 1 + gap)
    ensures Feed(s, ":" + Blanks(gap))
            == Fed(Session(s.parser.(state := HeaderValueStart, nread := s.parser.nread + 1 + gap), s.http))
    decreases gap
  {
    hide Feed, HeaderMove;
    if gap == 0 {
      ColonMoves(s.parser.(nread := s.parser.nread + 1));
      OneSilent(s, ':', s.parser.(state := HeaderValueStart, nread := s.parser.nread + 1));
      assert ":" + Blanks(0) == [':'];
    } else {
      ColonRead(s, gap - 1);
      var t := Session(s.parser.(state := HeaderValueStart, nread := s.parser.nread + gap), s.http);
      ColonMoves(t.parser.(nread := t.parser.nread + 1));
      OneSilent(t, ' ', t.parser.(nread := t.parser.nread + 1));
      FeedTwo(s, ":" + Blanks(gap - 1), [' '], t);
      assert ":" + Blanks(gap - 1) + [' '] == ":" + Blanks(gap);
    }
  }

  /** What the end of a line does to the flags. */
  function Concluded(q: Parser): Parser {
    match q.headerState
    case KeepAlive => q.(flags := q.flags.(keepAlive := true))
    case Close => q.(flags := q.flags.(close := true))
    case Chunked => q.(flags := q.flags.(chunked := true))
    case _ => q
  }

  lemma ValueEndMoves(q: Parser)
    requires q.state == HeaderValue
    ensures HeaderMove(q, '\r') == Moved(q.(state := HeaderAlmostDone), Silent)
    ensures HeaderMove(q, '\n') == Moved(Concluded(q).(state := HeaderFieldStart), Silent)
    ensures HeaderMove(q.(state := HeaderAlmostDone), '\n') == Moved(Concluded(q).(state := HeaderFieldStart), Silent)
  {
    hide FieldStartMove, FieldMove, ValueStartMove, ValueChar, AllDone;
  }

  lemma ConcludedCounted(q: Parser, n: nat)
    ensures Concluded(q.(nread := n)) == Concluded(q).(nread := n)
  {
  }

  lemma ValueEndRead(s: Session, cr: bool)
    requires s.parser.state == HeaderValue && MayCount(s.parser, |EndText(cr)|)
    ensures Feed(s, EndText(cr))
            == Fed(Session(Concluded(s.parser).(state := HeaderFieldStart, nread := s.parser.nread + |EndText(cr)|),
                           s.http))
  {
    hide Feed, HeaderMove, Concluded;
    var n := s.parser.nread;
    ValueEndMoves(s.parser.(nread := n + 1));
    ConcludedCounted(s.parser, n + 1);
    if cr {
      ValueEndMoves(s.parser.(nread := n + 2));
      ConcludedCounted(s.parser, n + 2);
      var t := Session(s.parser.(state := HeaderAlmostDone, nread := n + 1), s.http);
      OneSilent(s, '\r', t.parser);
      OneSilent(t, '\n', Concluded(s.parser).(state := HeaderFieldStart, nread := n + 2));
      FeedTwo(s, "\r", "\n", t);
      assert "\r" + "\n" == EndText(true);
    } else {
      OneSilent(s, '\n', Concluded(s.parser).(state := HeaderFieldStart, nread := n + 1));
    }
  }

  lemma EmptyValueMoves(q: Parser)
    requires q.state == HeaderValueStart
    ensures HeaderMove(q, '\r') == Moved(q.(state := HeaderAlmostDone, headerState := General, index := 0), EmptyValue)
    ensures HeaderMove(q, '\n') == Moved(q.(state := HeaderFieldStart, index := 0), EmptyValue)
    ensures HeaderMove(q.(state := HeaderAlmostDone, headerState := General, index := 0), '\n')
            == Moved(q.(state := HeaderFieldStart, headerState := General, index := 0), Silent)
  {
    hide FieldStartMove, FieldMove, ValueMove, AllDone;
  }

  /** An empty value ends where it starts. */
  lemma EmptyValueRead(u: Session, cr: bool)
    requires AtValueStart(u, |EndText(cr)|)
    ensures Feed(u, EndText(cr))
            == Fed(Session(u.parser.(state := HeaderFieldStart, nread := u.parser.nread + |EndText(cr)|,
                                     headerState := if cr then General else u.parser.headerState, index := 0),
                           ValueText(u.http, "")))
  {
    hide Feed, HeaderMove, ValueText;
    var n := u.parser.nread;
    EmptyValueMoves(u.parser.(nread := n + 1));
    FeedNothing(u);
    if cr {
      OneMore(u, "", '\r', u);
      assert "" + ['\r'] == "\r";
      var t := Session(u.parser.(state := HeaderAlmostDone, nread := n + 1, headerState := General, index := 0),
                       ValueText(u.http, ""));
      EmptyLineEnds(t);
      FeedTwo(u, "\r", "\n", t);
      assert "\r" + "\n" == EndText(true);
    } else {
      OneMore(u, "", '\n', u);
      assert "" + ['\n'] == EndText(false);
    }
  }

  lemma EmptyLineEnds(t: Session)
    requires t.parser.state == HeaderAlmostDone && t.parser.headerState == General && t.parser.index == 0
    requires MayCount(t.parser, 1)
    ensures Feed(t, "\n") == Fed(Session(t.parser.(state := HeaderFieldStart, nread := t.parser.nread + 1), t.http))
  {
    hide Feed, HeaderMove;
    EmptyValueMoves(t.parser.(state := HeaderValueStart, nread := t.parser.nread + 1));
    OneSilent(t, '\n', t.parser.(state := HeaderFieldStart, nread := t.parser.nread + 1));
  }

  /** What was understood of a value is what it says. */
  lemma Conclusion(q: Parser, meaning: HeaderState, value: string)
    requires value != "" && Understood(q, meaning, value)
    ensures q.headerState == Chunked <==> meaning == TransferEncoding && Says(value, "chunked")
    ensures q.headerState == KeepAlive <==> meaning == Connection && Says(value, "keep-alive")
    ensures q.headerState == Close <==> meaning == Connection && Says(value, "close")
  {
    hide Letters, Acceptable;
  }

  /** A value that is not spelled like "chunked", and yet counts as it: the tab is passed over. */
  lemma TabPassedOver()
    ensures Says("c\thunked", "chunked")
  {
    hide Letters;
    TabLetters();
    assert "c\thunked"[0] == 'c';
  }

  lemma TabLetters()
    ensures Letters("c\thunked") == "chunked"
  {
    hide Letters;
    OneLetter('c');
    LettersLonger("c", '\t');
    assert "c" + ['\t'] == "c\t" && "c" + "" == "c";
    LettersOnward("c\t", "hunked");
    assert "c\t" + "hunked" == "c\thunked" && "c" + "hunked" == "chunked";
  }

  /** Small letters and blanks are seen as they are. */
  lemma {:induction false} LettersOnward(value: string, more: string)
    requires forall i :: 0 <= i < |more| ==> IsLetter(more[i]) || more[i] == ' '
    ensures Letters(value + more) == Letters(value) + more
    decreases |more|
  {
    hide Letters, Acceptable;
    if more == "" {
      assert value + more == value && Letters(value) + more == Letters(value);
    } else {
      var last := |more| - 1;
      LettersOnward(value, more[..last]);
      LettersLonger(value + more[..last], more[last]);
      SeenAsItIs(more[last]);
      assert value + more == value + more[..last] + [more[last]];
      assert Letters(value) + more == Letters(value) + more[..last] + [more[last]];
    }
  }

  lemma SeenAsItIs(ch: char)
    requires IsLetter(ch) || ch == ' '
    ensures Acceptable(ch) == ch != NONE
  {
  }

  lemma MeaningFound(name: string)
    requires IsName(name)
    ensures var h, m := Search(Lowered(name)), Meaning(name);
            && (h == Connection <==> m == Connection) && (h == ContentLength <==> m == ContentLength)
            && (h == TransferEncoding <==> m == TransferEncoding) && (h == Upgrade <==> m == Upgrade)
  {
    hide Search, Lowered;
    SearchFinds(Lowered(name));
  }

  /** The registers behind the value of a header and the end of its line. */
  predicate BehindValue(p: Parser, l: Line, q: Parser) {
    q == p.(state := HeaderFieldStart, nread := p.nread + |l.value| + |EndText(l.cr)|, headerState := q.headerState,
            index := q.index, flags := LineFlags(p.flags, l), contentLength := LineLength(p.contentLength, l))
  }

  /** What was understood of a value takes effect at the end of its line. */
  lemma EffectOfValue(p: Parser, l: Line, q: Parser, meaning: HeaderState)
    requires l.value != "" && p.headerState == meaning && InValueOf(p, l.value, q) && Understood(q, meaning, l.value)
    requires var m := Meaning(l.name);
             && (meaning == Connection <==> m == Connection) && (meaning == ContentLength <==> m == ContentLength)
             && (meaning == TransferEncoding <==> m == TransferEncoding) && (meaning == Upgrade <==> m == Upgrade)
    ensures BehindValue(p, l, Concluded(q).(state := HeaderFieldStart, nread := q.nread + |EndText(l.cr)|))
  {
    hide Understood, Says, Visible, Meaning, Decimal;
    Conclusion(q, meaning, l.value);
  }

  lemma FullValueRead(u: Session, l: Line)
    requires IsLine(l) && l.value != "" && AtValueStart(u, |l.value| + |EndText(l.cr)|)
             && u.parser.headerState == Search(Lowered(l.name))
    ensures Yields(Feed(u, l.value + EndText(l.cr)), ValueText(u.http, l.value))
    ensures BehindValue(u.parser, l, Feed(u, l.value + EndText(l.cr)).session.parser)
  {
    hide Feed, Search, Lowered, IsValue, Meaning, ValueText, Understood, IsName, LineFlags, LineLength, Concluded;
    MeaningFound(l.name);
    ValueFits(Meaning(l.name), u.parser.headerState, l.value);
    ValueRead(u, l.value);
    var t := Feed(u, l.value).session;
    EffectOfValue(u.parser, l, t.parser, u.parser.headerState);
    ValueEndRead(t, l.cr);
    FeedTwo(u, l.value, EndText(l.cr), t);
  }

  /** The value of a header and the end of its line. */
  lemma ValueLineRead(u: Session, l: Line)
    requires IsLine(l) && AtValueStart(u, |l.value| + |EndText(l.cr)|)
             && u.parser.headerState == Search(Lowered(l.name))
    ensures Yields(Feed(u, l.value + EndText(l.cr)), ValueText(u.http, l.value))
    ensures BehindValue(u.parser, l, Feed(u, l.value + EndText(l.cr)).session.parser)
  {
    hide Feed, Search, Lowered, IsValue, ValueText, IsName, LineFlags;
    if l.value == "" {
      EmptyValueRead(u, l.cr);
      assert "" + EndText(l.cr) == EndText(l.cr);
      EmptyMeansNothing(l);
    } else {
      FullValueRead(u, l);
    }
  }

  lemma EmptyMeansNothing(l: Line)
    requires IsLine(l) && l.value == ""
    ensures forall f :: LineFlags(f, l) == f
    ensures forall n :: LineLength(n, l) == n
  {
  }

  lemma ValueFits(m: HeaderState, h: HeaderState, value: string)
    requires IsValue(m, value) && (m == ContentLength <==> h == ContentLength)
    ensures IsValue(h, value)
  {
  }

  /** What follows the name of a header in its line. */
  function RestText(l: Line): string {
    ":" + Blanks(l.gap) + (l.value + EndText(l.cr))
  }

  lemma LineTextIs(l: Line)
    ensures LineText(l) == l.name + RestText(l)
    ensures |RestText(l)| == 1 + l.gap + |l.value| + |EndText(l.cr)|
  {
    hide EndText, Blanks;
  }

  lemma RestRead(t: Session, l: Line)
    requires IsLine(l) && t.parser.state == HeaderField && t.parser.headerState == Search(Lowered(l.name))
    requires MayCount(t.parser, 1 + l.gap + |l.value| + |EndText(l.cr)|)
    requires t.http.Http? && t.http.state == FIELD && t.http.header.Header?
    ensures var r := Feed(t, RestText(l));
            Yields(r, ValueText(t.http, l.value))
            && BehindValue(t.parser.(state := HeaderValueStart, nread := t.parser.nread + 1 + l.gap), l,
                           r.session.parser)
  {
    hide Feed, Search, Lowered, IsLine, BehindValue, ValueText, EndText, Blanks;
    ColonRead(t, l.gap);
    var u := Session(t.parser.(state := HeaderValueStart, nread := t.parser.nread + 1 + l.gap), t.http);
    ValueLineRead(u, l);
    FeedTwo(t, ":" + Blanks(l.gap), l.value + EndText(l.cr), u);
  }

  lemma LineHasName(l: Line)
    requires IsLine(l)
    ensures IsName(l.name)
  {
  }

  /** One header line, read byte by byte, adds its name and value to the request and has the effect that its
      name and value call for. */
  lemma LineRead(s: Session, l: Line)
    requires IsLine(l) && AtLineStart(s, |LineText(l)|)
    ensures var r := Feed(s, LineText(l));
            && r.Fed? && r.session.http == LineHttp(s.http, l)
            && BehindLine(s.parser, l, r.session.parser)
  {
    hide Feed, Search, Lowered, IsLine, IsName, LineFlags, LineLength, ValueText, EndText, Blanks, LineText, RestText;
    LineTextIs(l);
    LineHasName(l);
    NameRead(s, l.name);
    var t := Feed(s, l.name).session;
    RestRead(t, l);
    FeedTwo(s, l.name, RestText(l), t);
  }

  // A line without a colon

  lemma NameEndMoves(q: Parser)
    requires q.state == HeaderField
    ensures HeaderMove(q, '\r') == Moved(q.(state := HeaderAlmostDone), Silent)
    ensures HeaderMove(q, '\n') == Moved(q.(state := HeaderFieldStart), Silent)
  {
    hide FieldChar, FieldStartMove, ValueStartMove, ValueMove, LineDone, AllDone;
  }

  lemma NameLineEnd(s: Session, cr: bool)
    requires s.parser.state == HeaderField && MayCount(s.parser, |EndText(cr)|)
    ensures var r := Feed(s, EndText(cr));
            && r.Fed? && r.session.http == s.http
            && r.session.parser.state == HeaderFieldStart && r.session.parser.nread == s.parser.nread + |EndText(cr)|
            && !r.session.parser.flags.trailing
  {
    hide Feed, HeaderMove;
    var n := s.parser.nread;
    NameEndMoves(s.parser.(nread := n + 1));
    if cr {
      var t := Session(s.parser.(state := HeaderAlmostDone, nread := n + 1), s.http);
      OneSilent(s, '\r', t.parser);
      LineDoneMoves(t.parser.(nread := n + 2));
      var q := Concluded(t.parser.(nread := n + 2)).(state := HeaderFieldStart);
      OneSilent(t, '\n', q);
      FeedTwo(s, "\r", "\n", t);
      assert "\r" + "\n" == EndText(true);
    } else {
      OneSilent(s, '\n', s.parser.(state := HeaderFieldStart, nread := n + 1));
    }
  }

  lemma LineDoneMoves(q: Parser)
    requires q.state == HeaderAlmostDone
    ensures HeaderMove(q, '\n') == Moved(Concluded(q).(state := HeaderFieldStart), Silent)
  {
    hide FieldMove, FieldStartMove, ValueStartMove, ValueMove, AllDone;
  }

  /** A line without a colon is taken, and its text is the start of the next line's name. */
  lemma NamesJoined(s: Session, name: string, cr: bool, ch: char)
    requires IsName(name) && AtLineStart(s, |name| + |EndText(cr)| + 1) && Token(ch) != NONE
    ensures var r := Feed(s, name + EndText(cr) + [ch]);
            && r.Fed? && r.session.parser.state == HeaderField
            && r.session.http == NewHeader(s.http, name + [ch])
  {
    hide Feed, HeaderMove, NewHeader, FieldText, Token, Follows;
    NameRead(s, name);
    var t := Feed(s, name).session;
    NameLineEnd(t, cr);
    FeedConcat(s, name, EndText(cr));
    var u := Feed(t, EndText(cr)).session;
    FeedTwo(s, name, EndText(cr), t);
    FirstOfNextName(u.parser.(nread := u.parser.nread + 1), ch);
    OneMore(s, name + EndText(cr), ch, u);
    LongerHeader(s.http, name, [ch]);
  }

  lemma FirstOfNextName(q: Parser, ch: char)
    requires q.state == HeaderFieldStart && Token(ch) != NONE
    ensures var r := HeaderMove(q, ch);
            r.Moved? && r.tag == InField && r.next.state == HeaderField
  {
    NameCharacter(ch);
  }
}
