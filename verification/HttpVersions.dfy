/** The rest of the request line, behind its target: a version, or none at all. */
module HttpVersions {
  import opened HttpTables
  import opened HttpParser
  import opened HttpSession
  import opened HttpLines
  import opened HttpTargets

  /** One byte that tells the request nothing. */
  lemma SilentByte(s: Session, ch: char, next: Parser)
    requires InRequestLine(s.parser.state) && MayCount(s.parser, 1)
    requires RequestLineMove(s.parser.(nread := s.parser.nread + 1), ch) == Moved(next, Silent)
    ensures Feed(s, [ch]) == Fed(Session(next, s.http))
  {
    hide Feed, RequestLineMove;
    FeedNothing(s);
    OneRequestByte(s, "", ch, s);
    assert "" + [ch] == [ch];
  }

  lemma BlankByte(q: Parser)
    requires q.state == SpacesBeforeUrl || q.state == HttpStart
    ensures RequestLineMove(q, ' ') == Moved(q, Silent)
  {
    hide MethodMove, StartMove, PathMove;
  }

  /** Blanks in front of the target, or in front of the version, are passed over. */
  lemma {:induction false} BlanksRead(s: Session, n: nat)
    requires (s.parser.state == SpacesBeforeUrl || s.parser.state == HttpStart) && MayCount(s.parser, n)
    ensures Feed(s, Blanks(n)) == Fed(Session(Along(s.parser, s.parser.state, n), s.http))
    decreases n
  {
    hide Feed, RequestLineMove;
    if n == 0 {
      FeedNothing(s);
    } else {
      BlanksRead(s, n - 1);
      var t := Session(Along(s.parser, s.parser.state, n - 1), s.http);
      BlankByte(t.parser.(nread := t.parser.nread + 1));
      SilentByte(t, ' ', t.parser.(nread := t.parser.nread + 1));
      FeedTwo(s, Blanks(n - 1), [' '], t);
      assert Blanks(n - 1) + [' '] == Blanks(n);
    }
  }

  // Numbers

  /** One or more digits that are at most 999 together. */
  predicate IsNumber(digits: string) {
    digits != "" && AllDigits(digits) && Decimal(digits) <= 999
  }

  lemma {:induction false} DecimalNonNegative(digits: string)
    requires AllDigits(digits)
    ensures Decimal(digits) >= 0
    decreases |digits|
  {
    if digits != "" { DecimalNonNegative(digits[..|digits| - 1]); }
  }

  lemma NumberBefore(digits: string)
    requires IsNumber(digits) && |digits| > 1
    ensures var last := |digits| - 1;
            && IsNumber(digits[..last]) && IsDigit(digits[last])
            && Decimal(digits) == Decimal(digits[..last]) * 10 + DigitValue(digits[last])
  {
    DecimalNonNegative(digits[..|digits| - 1]);
  }

  lemma MajorByte(q: Parser, ch: char)
    requires IsDigit(ch)
    ensures q.state == FirstHttpMajor && ch != '0'
            ==> RequestLineMove(q, ch) == Moved(q.(state := HttpMajor, httpMajor := DigitValue(ch)), Silent)
    ensures q.state == HttpMajor && q.httpMajor * 10 + DigitValue(ch) <= 999
            ==> RequestLineMove(q, ch) == Moved(q.(httpMajor := q.httpMajor * 10 + DigitValue(ch)), Silent)
  {
    hide MethodMove, StartMove, HostMove, PathMove, DigitValue;
  }

  lemma MinorByte(q: Parser, ch: char)
    requires IsDigit(ch)
    ensures q.state == FirstHttpMinor
            ==> RequestLineMove(q, ch) == Moved(q.(state := HttpMinor, httpMinor := DigitValue(ch)), Silent)
    ensures q.state == HttpMinor && q.httpMinor * 10 + DigitValue(ch) <= 999
            ==> RequestLineMove(q, ch) == Moved(q.(httpMinor := q.httpMinor * 10 + DigitValue(ch)), Silent)
  {
    hide MethodMove, StartMove, HostMove, PathMove, DigitValue;
  }

  lemma {:induction false} MajorRead(s: Session, digits: string)
    requires s.parser.state == FirstHttpMajor && IsNumber(digits) && digits[0] != '0' && MayCount(s.parser, |digits|)
    ensures Feed(s, digits)
            == Fed(Session(Along(s.parser, HttpMajor, |digits|).(httpMajor := Decimal(digits)), s.http))
    decreases |digits|
  {
    hide Feed, RequestLineMove, IsNumber, IsDigit, Decimal;
    var last := |digits| - 1;
    assert digits == digits[..last] + [digits[last]] by { NumberEnds(digits); }
    NumberEnds(digits);
    if last == 0 {
      OneDigit(digits[0]);
      MajorByte(Along(s.parser, FirstHttpMajor, 1), digits[0]);
      SilentByte(s, digits[0], Along(s.parser, HttpMajor, 1).(httpMajor := DigitValue(digits[0])));
      assert digits == [digits[0]];
    } else {
      NumberBefore(digits);
      assert digits[..last][0] == digits[0];
      MajorRead(s, digits[..last]);
      var t := Session(Along(s.parser, HttpMajor, last).(httpMajor := Decimal(digits[..last])), s.http);
      MajorByte(Along(t.parser, HttpMajor, 1), digits[last]);
      SilentByte(t, digits[last], Along(t.parser, HttpMajor, 1).(httpMajor := Decimal(digits)));
      FeedTwo(s, digits[..last], [digits[last]], t);
    }
  }

  lemma {:induction false} MinorRead(s: Session, digits: string)
    requires s.parser.state == FirstHttpMinor && IsNumber(digits) && MayCount(s.parser, |digits|)
    ensures Feed(s, digits)
            == Fed(Session(Along(s.parser, HttpMinor, |digits|).(httpMinor := Decimal(digits)), s.http))
    decreases |digits|
  {
    hide Feed, RequestLineMove, IsNumber, IsDigit, Decimal;
    var last := |digits| - 1;
    assert digits == digits[..last] + [digits[last]] by { NumberEnds(digits); }
    NumberEnds(digits);
    if last == 0 {
      OneDigit(digits[0]);
      MinorByte(Along(s.parser, FirstHttpMinor, 1), digits[0]);
      SilentByte(s, digits[0], Along(s.parser, HttpMinor, 1).(httpMinor := DigitValue(digits[0])));
      assert digits == [digits[0]];
    } else {
      NumberBefore(digits);
      MinorRead(s, digits[..last]);
      var t := Session(Along(s.parser, HttpMinor, last).(httpMinor := Decimal(digits[..last])), s.http);
      MinorByte(Along(t.parser, HttpMinor, 1), digits[last]);
      SilentByte(t, digits[last], Along(t.parser, HttpMinor, 1).(httpMinor := Decimal(digits)));
      FeedTwo(s, digits[..last], [digits[last]], t);
    }
  }

  /** Digits are taken as the major number only if they are at most 999 and do not start with '0'. */
  lemma {:induction false} MajorRefused(s: Session, digits: string)
    requires s.parser.state == FirstHttpMajor && digits != "" && AllDigits(digits) && MayCount(s.parser, |digits|)
    requires digits[0] == '0' || Decimal(digits) > 999
    ensures !Feed(s, digits).Fed?
    decreases |digits|
  {
    hide Feed, RequestLineMove, Decimal;
    var last := |digits| - 1;
    var before := digits[..last];
    assert digits == before + [digits[last]];
    if last == 0 {
      OneDigit(digits[0]);
      assert digits == [digits[0]] && "" + digits == digits;
      FeedNothing(s);
      MajorTooMuch(Along(s.parser, FirstHttpMajor, 1), digits[0]);
      OneRequestByte(s, "", digits[0], s);
    } else {
      assert before[0] == digits[0];
      if before[0] == '0' || Decimal(before) > 999 {
        MajorRefused(s, before);
        FeedConcat(s, before, [digits[last]]);
      } else {
        DecimalLonger(before, digits[last]);
        MajorRead(s, before);
        var t := Session(Along(s.parser, HttpMajor, last).(httpMajor := Decimal(before)), s.http);
        MajorTooMuch(Along(t.parser, HttpMajor, 1), digits[last]);
        OneRequestByte(s, before, digits[last], t);
      }
    }
  }

  lemma MajorTooMuch(q: Parser, ch: char)
    requires IsDigit(ch)
    ensures q.state == FirstHttpMajor && ch == '0' ==> RequestLineMove(q, ch) == BAD
    ensures q.state == HttpMajor && q.httpMajor * 10 + DigitValue(ch) > 999 ==> RequestLineMove(q, ch) == BAD
    ensures DigitValue(ch) <= 9
  {
    hide MethodMove, StartMove, HostMove, PathMove;
  }

  /** And as the minor number only if they are at most 999. */
  lemma {:induction false} MinorRefused(s: Session, digits: string)
    requires s.parser.state == FirstHttpMinor && digits != "" && AllDigits(digits) && MayCount(s.parser, |digits|)
    requires Decimal(digits) > 999
    ensures !Feed(s, digits).Fed?
    decreases |digits|
  {
    hide Feed, RequestLineMove, Decimal;
    var last := |digits| - 1;
    var before := digits[..last];
    assert digits == before + [digits[last]];
    if last == 0 {
      OneDigitIsSmall(digits);
    } else if Decimal(before) > 999 {
      MinorRefused(s, before);
      FeedConcat(s, before, [digits[last]]);
    } else {
      DecimalLonger(before, digits[last]);
      MinorRead(s, before);
      var t := Session(Along(s.parser, HttpMinor, last).(httpMinor := Decimal(before)), s.http);
      MinorTooMuch(Along(t.parser, HttpMinor, 1), digits[last]);
      OneRequestByte(s, before, digits[last], t);
    }
  }

  lemma OneDigitIsSmall(digits: string)
    requires |digits| == 1 && AllDigits(digits)
    ensures Decimal(digits) <= 9
  {
    OneDigit(digits[0]);
    assert digits == [digits[0]];
  }

  lemma MinorTooMuch(q: Parser, ch: char)
    requires IsDigit(ch)
    ensures q.state == HttpMinor && q.httpMinor * 10 + DigitValue(ch) > 999 ==> RequestLineMove(q, ch) == BAD
    ensures DigitValue(ch) <= 9
  {
    hide MethodMove, StartMove, HostMove, PathMove;
  }

  lemma NumberEnds(digits: string)
    requires IsNumber(digits)
    ensures |digits| > 0 && IsDigit(digits[|digits| - 1]) && IsDigit(digits[0]) && Decimal(digits) <= 999
  {
  }

  // The version

  /** A version, with any blanks in front of it besides the one that ends the target, or none; and whether the line
      ends with a carriage return in front of its line feed. */
  datatype Version = NoVersion(cr: bool) | Version(gap: nat, major: string, minor: string, cr: bool)

  function VersionText(v: Version): string {
    match v
    case NoVersion(cr) => EndText(cr)
    case Version(gap, major, minor, cr) => " " + Blanks(gap) + "HTTP/" + major + "." + minor + EndText(cr)
  }

  /** Behind a host alone, the version may not be missing. */
  predicate IsVersion(v: Version, end: State) {
    match v
    case NoVersion(_) => end == Path || end == QueryString
    case Version(_, major, minor, _) => MayEnd(end) && IsNumber(major) && major[0] != '0' && IsNumber(minor)
  }

  /** The registers behind the request line. */
  function BehindVersion(q: Parser, v: Version): Parser {
    var end := Along(q, HeaderFieldStart, |VersionText(v)|);
    match v
    case NoVersion(_) => end.(httpMinor := 9)
    case Version(_, major, minor, _) => end.(httpMajor := Decimal(major), httpMinor := Decimal(minor))
  }

  /** The state after the first `k` bytes of "HTTP/". */
  function ProtocolState(k: nat): State {
    if k == 0 then HttpStart
    else if k == 1 then HttpH
    else if k == 2 then HttpHT
    else if k == 3 then HttpHTT
    else if k == 4 then HttpHTTP
    else FirstHttpMajor
  }

  lemma ProtocolByte(q: Parser, k: nat)
    requires k < 5 && q.state == ProtocolState(k)
    ensures InRequestLine(q.state) && RequestLineMove(q, "HTTP/"[k]) == Moved(q.(state := ProtocolState(k + 1)), Silent)
  {
    hide MethodMove, StartMove, HostMove, PathMove;
  }

  lemma {:induction false} ProtocolRead(s: Session, k: nat)
    requires s.parser.state == HttpStart && MayCount(s.parser, k) && k <= 5
    ensures Feed(s, "HTTP/"[..k]) == Fed(Session(Along(s.parser, ProtocolState(k), k), s.http))
    decreases k
  {
    hide Feed, RequestLineMove;
    if k == 0 {
      FeedNothing(s);
    } else {
      ProtocolRead(s, k - 1);
      var t := Session(Along(s.parser, ProtocolState(k - 1), k - 1), s.http);
      ProtocolByte(t.parser.(nread := t.parser.nread + 1), k - 1);
      SilentByte(t, "HTTP/"[k - 1], Along(s.parser, ProtocolState(k), k));
      FeedTwo(s, "HTTP/"[..k - 1], ["HTTP/"[k - 1]], t);
      assert "HTTP/"[..k - 1] + ["HTTP/"[k - 1]] == "HTTP/"[..k];
    }
  }

  lemma PointByte(q: Parser)
    requires q.state == HttpMajor
    ensures RequestLineMove(q, '.') == Moved(q.(state := FirstHttpMinor), Silent)
  {
    hide MethodMove, StartMove, HostMove, PathMove;
  }

  lemma EndBytes(q: Parser)
    ensures q.state == HttpMinor ==> RequestLineMove(q, '\r') == Moved(q.(state := ReqLineAlmostDone), Silent)
    ensures q.state == HttpMinor ==> RequestLineMove(q, '\n') == Moved(q.(state := HeaderFieldStart), Silent)
    ensures q.state == ReqLineAlmostDone ==> RequestLineMove(q, '\n') == Moved(q.(state := HeaderFieldStart), Silent)
    ensures q.state == Path || q.state == QueryString
            ==> RequestLineMove(q, '\r') == Moved(q.(state := ReqLineAlmostDone, httpMinor := 9), Silent)
    ensures q.state == Path || q.state == QueryString
            ==> RequestLineMove(q, '\n') == Moved(q.(state := HeaderFieldStart, httpMinor := 9), Silent)
  {
    hide MethodMove, StartMove, HostMove;
  }

  lemma LineEndRead(s: Session, minor: int, cr: bool)
    requires s.parser.state in [HttpMinor, Path, QueryString] && MayCount(s.parser, |EndText(cr)|)
    requires minor == if s.parser.state == HttpMinor then s.parser.httpMinor else 9
    ensures Feed(s, EndText(cr))
            == Fed(Session(Along(s.parser, HeaderFieldStart, |EndText(cr)|).(httpMinor := minor), s.http))
  {
    hide Feed, RequestLineMove;
    EndBytes(Along(s.parser, s.parser.state, 1));
    if cr {
      var t := Session(Along(s.parser, ReqLineAlmostDone, 1).(httpMinor := minor), s.http);
      SilentByte(s, '\r', t.parser);
      EndBytes(Along(t.parser, ReqLineAlmostDone, 1));
      SilentByte(t, '\n', Along(t.parser, HeaderFieldStart, 1));
      FeedTwo(s, "\r", "\n", t);
      assert "\r" + "\n" == EndText(true);
    } else {
      SilentByte(s, '\n', Along(s.parser, HeaderFieldStart, 1).(httpMinor := minor));
    }
  }

  /** The major number and its point. */
  lemma MajorPointRead(s: Session, major: string)
    requires s.parser.state == FirstHttpMajor && MayCount(s.parser, |major| + 1) && IsNumber(major) && major[0] != '0'
    ensures Feed(s, major + ".")
            == Fed(Session(Along(s.parser, FirstHttpMinor, |major| + 1).(httpMajor := Decimal(major)), s.http))
  {
    hide Feed, RequestLineMove, IsNumber, Decimal;
    MajorRead(s, major);
    var t := Session(Along(s.parser, HttpMajor, |major|).(httpMajor := Decimal(major)), s.http);
    PointByte(Along(t.parser, HttpMajor, 1));
    SilentByte(t, '.', Along(t.parser, FirstHttpMinor, 1));
    FeedTwo(s, major, ".", t);
  }

  /** The minor number and the end of the line. */
  lemma MinorLineRead(s: Session, minor: string, cr: bool)
    requires s.parser.state == FirstHttpMinor && MayCount(s.parser, |minor + EndText(cr)|) && IsNumber(minor)
    ensures Feed(s, minor + EndText(cr))
            == Fed(Session(Along(s.parser, HeaderFieldStart, |minor + EndText(cr)|).(httpMinor := Decimal(minor)),
                           s.http))
  {
    hide Feed, RequestLineMove, IsNumber, Decimal, EndText;
    MinorRead(s, minor);
    var t := Session(Along(s.parser, HttpMinor, |minor|).(httpMinor := Decimal(minor)), s.http);
    LineEndRead(t, Decimal(minor), cr);
    FeedTwo(s, minor, EndText(cr), t);
  }

  /** All in front of the numbers. */
  lemma ProtocolBehind(s: Session, gap: nat)
    requires MayEnd(s.parser.state) && MayCount(s.parser, gap + 6)
    ensures Feed(s, " " + Blanks(gap) + "HTTP/") == Fed(Session(Along(s.parser, FirstHttpMajor, gap + 6), s.http))
  {
    hide Feed, RequestLineMove, Blanks;
    TargetEnd(s);
    var t := Session(Along(s.parser, HttpStart, 1), s.http);
    BlanksRead(t, gap);
    FeedTwo(s, " ", Blanks(gap), t);
    var u := Session(Along(s.parser, HttpStart, gap + 1), s.http);
    ProtocolRead(u, 5);
    assert "HTTP/"[..5] == "HTTP/";
    FeedTwo(s, " " + Blanks(gap), "HTTP/", u);
  }

  /** The numbers and the end of the line. */
  lemma NumbersRead(s: Session, major: string, minor: string, cr: bool)
    requires s.parser.state == FirstHttpMajor && MayCount(s.parser, |major| + 1 + |minor + EndText(cr)|)
    requires IsNumber(major) && major[0] != '0' && IsNumber(minor)
    ensures Feed(s, major + "." + (minor + EndText(cr)))
            == Fed(Session(Along(s.parser, HeaderFieldStart, |major| + 1 + |minor + EndText(cr)|)
                             .(httpMajor := Decimal(major), httpMinor := Decimal(minor)), s.http))
  {
    hide Feed, IsNumber, Decimal, EndText;
    MajorPointRead(s, major);
    var t := Session(Along(s.parser, FirstHttpMinor, |major| + 1).(httpMajor := Decimal(major)), s.http);
    MinorLineRead(t, minor, cr);
    FeedTwo(s, major + ".", minor + EndText(cr), t);
  }

  /** Whatever the version, its text is taken to the end of the line. */
  lemma VersionRead(s: Session, v: Version)
    requires MayEnd(s.parser.state) && IsVersion(v, s.parser.state) && MayCount(s.parser, |VersionText(v)|)
    ensures Feed(s, VersionText(v)) == Fed(Session(BehindVersion(s.parser, v), s.http))
  {
    hide Feed, IsNumber, Decimal, Blanks, EndText;
    match v
    case NoVersion(cr) => LineEndRead(s, 9, cr);
    case Version(gap, major, minor, cr) =>
      var front, numbers := " " + Blanks(gap) + "HTTP/", major + "." + (minor + EndText(cr));
      assert VersionText(v) == front + numbers;
      assert |numbers| == |major| + 1 + |minor + EndText(cr)|;
      ProtocolBehind(s, gap);
      var t := Session(Along(s.parser, FirstHttpMajor, gap + 6), s.http);
      NumbersRead(t, major, minor, cr);
      FeedTwo(s, front, numbers, t);
  }
}
