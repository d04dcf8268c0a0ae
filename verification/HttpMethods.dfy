/** When the parser compares a method's name beyond its end.  Two methods let a wrong letter pass, in the hope of
    another method with the same first letters; a word that is none of them is then compared past the name's end. */
module HttpMethods {
  import opened HttpTables
  import opened HttpCallbacks
  import opened HttpParser
  import opened HttpSession
  import opened HttpSanity

  predicate IsLineEnd(c: char) {
    c == CR || c == LF
  }

  /** The number of line ends in front of a text. */
  function LineEnds(text: string): (n: nat)
    ensures n <= |text|
    ensures forall j :: 0 <= j < n ==> IsLineEnd(text[j])
    ensures n < |text| ==> !IsLineEnd(text[n])
    decreases |text|
  {
    if text == "" then 0
    else
      var n := LineEnds(text[..|text| - 1]);
      if n == |text| - 1 && IsLineEnd(text[n]) then n + 1 else n
  }

  /** The first letters of a word leave it open whether it is CONNECT or MKCOL. */
  predicate StaysLoose(m: Method, w: string) {
    && w != "" && (forall j :: 0 <= j < |w| ==> w[j] != NONE)
    && match m
       case CONNECT => w[0] == 'C' && (|w| > 1 ==> w[1] != 'H') && (|w| > 2 ==> w[2] != 'P')
           && (|w| > 7 ==> w[7] != ' ')
       case MKCOL =>
         w[0] == 'M' && (|w| > 1 ==> w[1] != 'O' && w[1] != 'E') && (|w| > 2 ==> w[2] != 'A')
             && (|w| > 5 ==> w[5] != ' ')
       case _ => false
  }

  /** The method whose name a text leads beyond, if any. */
  predicate LeadsBeyond(m: Method, text: string) {
    Loose(m) && |text| >= |MethodName(m)| + 2 && StaysLoose(m, text[..|MethodName(m)| + 2])
  }

  /** The name of a method is compared beyond its end, and no assertion has failed before. */
  predicate ReadsBeyond(r: Fed, s: Session, text: string) {
    r.Stopped? && r.why == OverRead && r.at <= |text| && Accepted(Feed(s, text[..r.at]))
  }

  /** A parser that waits for its first request. */
  predicate AtFirst(s: Session) {
    && s.parser.state == StartReq && s.parser.index < 256 && !s.parser.flags.trailing
    && s.http.Http? && s.http.state == INIT && !s.http.done
  }

  // What stops

  lemma {:induction false} StoppedAt(s: Session, text: string)
    requires Feed(s, text).Stopped?
    ensures var r := Feed(s, text);
            && r.at < |text|
            && Feed(s, text[..r.at]).Fed?
            && Step(Feed(s, text[..r.at]).session, text[r.at], r.at) == r
    decreases |text|
  {
    hide Take, Effect;
    var last := |text| - 1;
    if Feed(s, text[..last]).Stopped? {
      StoppedAt(s, text[..last]);
      var at := Feed(s, text).at;
      assert text[..last][..at] == text[..at];
    }
  }

  lemma HeaderOverReads(q: Parser, ch: char)
    ensures HeaderMove(q, ch) != Refused(OverRead)
  {
    hide Token, Acceptable, ShouldKeepAlive, Matching;
  }

  lemma BodyOverReads(q: Parser, ch: char)
    ensures BodyMove(q) != Refused(OverRead) && ChunkMove(q, ch) != Refused(OverRead)
  {
    hide Unhex, ShouldKeepAlive;
  }

  lemma FirstLineOverReads(q: Parser, ch: char)
    requires RequestLineMove(q, ch) == Refused(OverRead)
    ensures q.state == ReqMethod && ch != NONE && q.index > |MethodName(q.verb)|
  {
    hide MethodName, Lower, NormalUrlChar;
  }

  lemma OverReadMove(q: Parser, ch: char)
    requires Take(q, ch) == Refused(OverRead)
    ensures q.state == ReqMethod && ch != NONE && q.index > |MethodName(q.verb)|
    ensures !q.flags.trailing ==> q.nread + 1 <= MAX_HEADER_SIZE
  {
    hide HeaderMove, RequestLineMove, BodyMove, ChunkMove, MethodName;
    var counted := Counted(q);
    HeaderOverReads(counted, ch);
    BodyOverReads(counted, ch);
    if RequestLineMove(counted, ch) == Refused(OverRead) { FirstLineOverReads(counted, ch); }
  }

  // What is known of a method's letters

  /** As long as nothing was refused, a method is only read before the first target, and its letters are known. */
  predicate Where(s: Session, text: string, t: Session) {
    t.http.Http? ==>
      && (t.http.state == INIT ==> t.parser.state == StartReq && LineEnds(text) == |text|)
      && (t.parser.state == ReqMethod ==>
            && t.parser.index == |text| - LineEnds(text) > 0
            && (Loose(t.parser.verb) ==> StaysLoose(t.parser.verb, text[LineEnds(text)..])))
      && (t.http.state == INIT || t.parser.state == ReqMethod ==>
            t.parser.nread == s.parser.nread + |text| && !t.parser.flags.trailing)
  }

  lemma LineEndsNext(text: string, ch: char)
    ensures LineEnds(text + [ch]) == if LineEnds(text) == |text| && IsLineEnd(ch) then |text| + 1 else LineEnds(text)
  {
    assert (text + [ch])[..|text|] == text;
  }

  lemma HeaderNotToMethod(q: Parser, ch: char)
    requires InHeaderStates(q.state)
    ensures HeaderMove(q, ch).Moved? ==> HeaderMove(q, ch).next.state != ReqMethod
  {
    hide Token, Acceptable, FieldChar, ValueChar, ShouldKeepAlive;
    FieldAndValue(q, ch);
  }

  lemma FirstLineNotToMethod(q: Parser, ch: char)
    requires q.state != StartReq && q.state != ReqMethod
    ensures RequestLineMove(q, ch).Moved? ==> RequestLineMove(q, ch).next.state != ReqMethod
  {
    hide Lower, NormalUrlChar, MethodMove, StartMove;
  }

  lemma BodyNotToMethod(q: Parser, ch: char)
    requires InBodyStates(q.state)
    ensures BodyMove(q).Moved? ==> BodyMove(q).next.state != ReqMethod
    ensures ChunkMove(q, ch).Moved? ==> ChunkMove(q, ch).next.state != ReqMethod
  {
    hide Unhex, ShouldKeepAlive;
  }

  /** Outside of the methods nothing leads to one, and a request that has begun has begun. */
  lemma NotToMethod(q: Parser, ch: char)
    requires q.state != StartReq && q.state != ReqMethod
    ensures Take(q, ch).Moved? ==> Take(q, ch).next.state != ReqMethod
  {
    hide HeaderMove, RequestLineMove, BodyMove, ChunkMove;
    var counted := Counted(q);
    if InHeaderStates(q.state) {
      HeaderNotToMethod(counted, ch);
    } else if InBodyStates(q.state) {
      BodyNotToMethod(counted, ch);
    } else {
      FirstLineNotToMethod(counted, ch);
    }
  }

  lemma FieldAndValue(q: Parser, ch: char)
    ensures FieldChar(q, ch).Moved? ==> FieldChar(q, ch).next.state == q.state
    ensures ValueChar(q, ch).Moved? ==> ValueChar(q, ch).next.state == q.state
  {
    hide Token, Acceptable;
  }

  lemma NotToInit(tag: Tag, h: Http, ch: char, verb: Method)
    requires h.Http? && h.state != INIT
    ensures var r := Effect(tag, h, ch, verb);
            r.Http? ==> r.state != INIT && tag != Begin
  {
  }

  lemma NextOutside(s: Session, text: string, ch: char, t: Session)
    requires Where(s, text, t) && t.parser.state != StartReq && t.parser.state != ReqMethod
    ensures var r := Step(t, ch, |text|);
            r.Fed? ==> Where(s, text + [ch], r.session)
  {
    hide Take, Effect;
    NotToMethod(t.parser, ch);
    if t.http.Http? && Take(t.parser, ch).Moved? {
      var r := Take(t.parser, ch);
      NotToInit(r.tag, t.http, ch, r.next.verb);
    } else if t.http.Aborted? {
      StaysAborted(t, ch, |text|);
    }
  }

  lemma StartTake(q: Parser, ch: char)
    requires q.state == StartReq
    ensures var r := Take(q, ch);
            r.Moved? ==>
              if IsLineEnd(ch) then r.tag == Silent && r.next == Counted(q)
              else r.tag == Begin && r.next.state == ReqMethod && r.next.index == 1 && r.next.flags == NO_FLAGS
                   && r.next.nread == Counted(q).nread && (Loose(r.next.verb) ==> StaysLoose(r.next.verb, [ch]))
  {
  }

  lemma NextAtStart(s: Session, text: string, ch: char, t: Session)
    requires Where(s, text, t) && t.parser.state == StartReq
    ensures var r := Step(t, ch, |text|);
            r.Fed? ==> Where(s, text + [ch], r.session)
  {
    hide Take, StaysLoose, LineEnds;
    StartTake(t.parser, ch);
    LineEndsNext(text, ch);
    if t.http.Http? && t.http.state == INIT && Take(t.parser, ch).Moved? {
      assert text + [ch] == (text + [ch])[..|text|] + [ch];
      if !IsLineEnd(ch) { assert (text + [ch])[|text|..] == [ch]; }
    }
  }

  lemma MethodTake(q: Parser, ch: char)
    requires q.state == ReqMethod && !q.flags.trailing
    ensures var r := Take(q, ch);
            r.Moved? ==>
              && r.tag == Silent && r.next.nread == q.nread + 1 && r.next.flags == q.flags
                  && r.next.index == q.index + 1
              && ch != NONE
              && (r.next.state == ReqMethod && Loose(r.next.verb) ==>
                    r.next.verb == q.verb && LooseByte(q.verb, q.index, ch))
              && (r.next.state == ReqMethod || r.next.state == SpacesBeforeUrl)
  {
    hide MethodMove, LooseByte, Loose;
    MethodMoveShape(Counted(q), ch);
  }

  lemma MethodMoveShape(q: Parser, ch: char)
    requires q.state == ReqMethod
    ensures var r := MethodMove(q, ch);
            r.Moved? ==>
              && r.tag == Silent && ch != NONE
              && r.next == q.(state := r.next.state, verb := r.next.verb, index := q.index + 1)
              && (r.next.state == q.state || r.next.state == SpacesBeforeUrl)
              && (r.next.state == q.state && Loose(r.next.verb)
                  ==> r.next.verb == q.verb && LooseByte(q.verb, q.index, ch))
  {
  }

  /** A letter that leaves it open. */
  predicate LooseByte(m: Method, k: nat, ch: char) {
    match m
    case CONNECT => (k == 1 ==> ch != 'H') && (k == 2 ==> ch != 'P') && (k == 7 ==> ch != ' ')
    case MKCOL => (k == 1 ==> ch != 'O' && ch != 'E') && (k == 2 ==> ch != 'A') && (k == 5 ==> ch != ' ')
    case _ => true
  }

  lemma LooseNext(m: Method, w: string, ch: char)
    requires Loose(m) && StaysLoose(m, w)
    ensures StaysLoose(m, w + [ch]) <==> ch != NONE && LooseByte(m, |w|, ch)
  {
    assert (w + [ch])[|w|] == ch && forall j :: 0 <= j < |w| ==> (w + [ch])[j] == w[j];
  }

  lemma NextInMethod(s: Session, text: string, ch: char, t: Session)
    requires Where(s, text, t) && t.parser.state == ReqMethod
    ensures var r := Step(t, ch, |text|);
            r.Fed? ==> Where(s, text + [ch], r.session)
  {
    hide Take, StaysLoose, LineEnds;
    if t.http.Http? {
      MethodTake(t.parser, ch);
      LineEndsNext(text, ch);
      var i := LineEnds(text);
      assert (text + [ch])[i..] == text[i..] + [ch];
      if Loose(t.parser.verb) { LooseNext(t.parser.verb, text[i..], ch); }
    } else {
      StaysAborted(t, ch, |text|);
    }
  }

  lemma {:induction false} WhereFed(s: Session, text: string)
    requires AtFirst(s)
    ensures Feed(s, text).Fed? ==> Where(s, text, Feed(s, text).session)
    decreases |text|
  {
    hide Step, Where;
    if text == "" {
      WhereFirst(s);
    } else {
      var last := |text| - 1;
      WhereFed(s, text[..last]);
      var r := Feed(s, text[..last]);
      assert text == text[..last] + [text[last]];
      if r.Fed? {
        if r.session.parser.state == StartReq {
          NextAtStart(s, text[..last], text[last], r.session);
        } else if r.session.parser.state == ReqMethod {
          NextInMethod(s, text[..last], text[last], r.session);
        } else {
          NextOutside(s, text[..last], text[last], r.session);
        }
      }
    }
  }

  lemma WhereFirst(s: Session)
    requires AtFirst(s)
    ensures Where(s, "", s)
  {
  }

  // What such a text does

  lemma LooseStart(q: Parser, m: Method, ch: char)
    requires q.state == StartReq && Loose(m) && StaysLoose(m, [ch]) && !q.flags.trailing && q.nread < MAX_HEADER_SIZE
    ensures Take(q, ch) == Moved(q.(state := ReqMethod, nread := q.nread + 1, flags := NO_FLAGS, contentLength := -1,
            index := 1, verb := m), Begin)
  {
  }

  lemma LooseTake(q: Parser, ch: char)
    requires q.state == ReqMethod && Loose(q.verb) && 1 <= q.index <= |MethodName(q.verb)| + 1
    requires ch != NONE && LooseByte(q.verb, q.index, ch) && !q.flags.trailing && q.nread < MAX_HEADER_SIZE
    ensures Take(q, ch) == if q.index > |MethodName(q.verb)| then Refused(OverRead)
                           else Moved(q.(nread := q.nread + 1, index := q.index + 1), Silent)
  {
  }

  /** Behind the first `n` bytes of a text that leads beyond a name. */
  predicate OnTheWay(s: Session, m: Method, i: nat, n: nat, t: Session) {
    if n <= i then t == Session(s.parser.(nread := s.parser.nread + n), s.http)
    else
      && t.http.Http? && t.http.state == HEADER
      && t.parser.state == ReqMethod && t.parser.verb == m && t.parser.index == n - i
      && t.parser.nread == s.parser.nread + n && !t.parser.flags.trailing
  }

  lemma LetterOf(m: Method, text: string, k: nat)
    requires LeadsBeyond(m, text) && k < |MethodName(m)| + 2
    ensures k == 0 ==> StaysLoose(m, [text[0]])
    ensures text[k] != NONE && LooseByte(m, k, text[k])
  {
    var w := text[..|MethodName(m)| + 2];
    assert w[k] == text[k] && w[0] == text[0];
  }

  lemma {:induction false} LeadsThere(s: Session, text: string, m: Method, n: nat)
    requires AtFirst(s) && var i := LineEnds(text); LeadsBeyond(m, text[i..]) && n <= i + |MethodName(m)| + 1
    requires s.parser.nread + n <= MAX_HEADER_SIZE
    ensures n <= |text| && Feed(s, text[..n]).Fed? && OnTheWay(s, m, LineEnds(text), n, Feed(s, text[..n]).session)
    decreases n
  {
    hide Take, Step, MethodName, StaysLoose, LineEnds, LooseByte, Loose, OnTheWay, LeadsBeyond, IsLineEnd;
    var i := LineEnds(text);
    LooseMethod(m, text[i..]);
    if n == 0 {
      assert text[..0] == "";
      AtTheStart(s, m, i);
    } else {
      LeadsThere(s, text, m, n - 1);
      assert text[..n][..n - 1] == text[..n - 1];
      if n > i { LetterOf(m, text[i..], n - 1 - i); }
      OneFurther(s, m, i, n, Feed(s, text[..n - 1]).session, text[n - 1]);
    }
  }

  lemma AtTheStart(s: Session, m: Method, i: nat)
    ensures OnTheWay(s, m, i, 0, s)
  {
  }

  lemma StepSilent(t: Session, ch: char, at: nat, next: Parser)
    requires Take(t.parser, ch) == Moved(next, Silent)
    ensures Step(t, ch, at) == Fed(Session(next, t.http))
  {
    hide Take;
  }

  lemma StepBegin(t: Session, ch: char, at: nat, next: Parser)
    requires Take(t.parser, ch) == Moved(next, Begin) && t.http.Http? && t.http.state == INIT
    ensures Step(t, ch, at) == Fed(Session(next, t.http.(state := HEADER)))
  {
    hide Take;
  }

  lemma OneFurther(s: Session, m: Method, i: nat, n: nat, t: Session, ch: char)
    requires AtFirst(s) && 0 < n <= i + |MethodName(m)| + 1 && s.parser.nread + n <= MAX_HEADER_SIZE
             && OnTheWay(s, m, i, n - 1, t)
    requires n <= i ==> IsLineEnd(ch)
    requires n > i ==> Loose(m) && ch != NONE && LooseByte(m, n - 1 - i, ch) && (n == i + 1 ==> StaysLoose(m, [ch]))
    ensures var r := Step(t, ch, n - 1);
            r.Fed? && OnTheWay(s, m, i, n, r.session)
  {
    hide Take, Step, MethodName, StaysLoose, LooseByte, Loose, IsLineEnd;
    var q := t.parser;
    if n <= i {
      SkipTake(q, ch);
      StepSilent(t, ch, n - 1, q.(nread := q.nread + 1));
    } else if n == i + 1 {
      LooseStart(q, m, ch);
      StepBegin(t, ch, n - 1, Take(q, ch).next);
    } else {
      LooseTake(q, ch);
      StepSilent(t, ch, n - 1, q.(nread := q.nread + 1, index := q.index + 1));
    }
  }

  lemma LooseMethod(m: Method, text: string)
    requires LeadsBeyond(m, text)
    ensures Loose(m) && |text| >= |MethodName(m)| + 2
  {
  }

  lemma SkipTake(q: Parser, ch: char)
    requires q.state == StartReq && IsLineEnd(ch) && !q.flags.trailing && q.nread < MAX_HEADER_SIZE
    ensures Take(q, ch) == Moved(q.(nread := q.nread + 1), Silent)
  {
  }

  // The condition

  /** The position of the byte that is compared beyond the end of the name. */
  function Beyond(m: Method, text: string): nat {
    LineEnds(text) + |MethodName(m)| + 1
  }

  /** The limit on headers does not come first. */
  predicate InTime(s: Session, m: Method, text: string) {
    s.parser.nread + Beyond(m, text) < MAX_HEADER_SIZE
  }

  lemma BeyondIsRead(s: Session, text: string, m: Method)
    requires AtFirst(s) && LeadsBeyond(m, text[LineEnds(text)..]) && InTime(s, m, text)
    ensures ReadsBeyond(Feed(s, text), s, text) && Feed(s, text).at == Beyond(m, text)
  {
    hide Step, Feed, MethodName, StaysLoose, LineEnds, LooseByte, Loose, LeadsBeyond;
    var i, p := LineEnds(text), Beyond(m, text);
    LooseMethod(m, text[i..]);
    LeadsThere(s, text, m, p);
    LetterOf(m, text[i..], p - i);
    StopsThere(s, text, p);
  }

  lemma StopsThere(s: Session, text: string, p: nat)
    requires p < |text| && Feed(s, text[..p]).Fed?
    requires var q := Feed(s, text[..p]).session.parser;
             && q.state == ReqMethod && Loose(q.verb) && q.index == |MethodName(q.verb)| + 1
             && text[p] != NONE && LooseByte(q.verb, q.index, text[p]) && !q.flags.trailing && q.nread < MAX_HEADER_SIZE
    ensures Feed(s, text) == Stopped(p, OverRead)
  {
    hide Step, Feed, MethodName, LooseByte, Loose;
    var t := Feed(s, text[..p]).session;
    LooseTake(t.parser, text[p]);
    FeedMore(s, text[..p], text[p]);
    assert text[..p] + [text[p]] == text[..p + 1];
    StepRefused(t, text[p], p);
    FeedConcat(s, text[..p + 1], text[p + 1..]);
    assert text[..p + 1] + text[p + 1..] == text;
  }

  lemma StepRefused(t: Session, ch: char, at: nat)
    requires Take(t.parser, ch) == Refused(OverRead)
    ensures Step(t, ch, at) == Stopped(at, OverRead)
  {
    hide Take;
  }

  lemma ReadIsBeyond(s: Session, text: string)
    requires AtFirst(s) && Sane(s) && ReadsBeyond(Feed(s, text), s, text)
    ensures exists m :: LeadsBeyond(m, text[LineEnds(text)..]) && InTime(s, m, text)
  {
    hide Feed, Take, Sane, LineEnds, LooseByte;
    StoppedAt(s, text);
    var p := Feed(s, text).at;
    var t := Feed(s, text[..p]).session;
    WhereFed(s, text[..p]);
    SaneFeed(s, text[..p]);
    SaneStep(t, text[p], p);
    OverReadMove(t.parser, text[p]);
    var m, i := t.parser.verb, LineEnds(text[..p]);
    SaneIndex(t);
    LineEndsOfPrefix(text, p);
    var w := text[i..p];
    assert text[..p][i..] == w;
    BeyondLoose(m, text[p]);
    LooseNext(m, w, text[p]);
    assert text[i..][..|MethodName(m)| + 2] == w + [text[p]];
    assert LeadsBeyond(m, text[i..]);
  }

  lemma SaneIndex(t: Session)
    requires Sane(t) && t.parser.state == ReqMethod && Loose(t.parser.verb)
    ensures t.parser.index <= |MethodName(t.parser.verb)| + 1
  {
  }

  lemma LineEndsOfPrefix(text: string, p: nat)
    requires p <= |text| && LineEnds(text[..p]) < p
    ensures LineEnds(text) == LineEnds(text[..p])
  {
    var n := LineEnds(text[..p]);
    assert text[..p][n] == text[n];
    assert forall j :: 0 <= j < n ==> text[j] == text[..p][j];
  }

  lemma BeyondLoose(m: Method, ch: char)
    requires Loose(m)
    ensures LooseByte(m, |MethodName(m)| + 1, ch)
  {
  }

  lemma FirstIsSane(s: Session)
    requires AtFirst(s)
    ensures Sane(s)
  {
  }

  /** The name of a method is compared beyond its end exactly if the input starts, behind any line ends, with a word
      that goes on past CONNECT or MKCOL, without a blank where the name ends and without a letter in its beginning
      that tells another method from it; two bytes more than the name are enough, none of them NUL, unless the limit
      on headers comes first.  All other input keeps within the names. */
  lemma ReadsBeyondIff(s: Session, text: string)
    requires AtFirst(s)
    ensures ReadsBeyond(Feed(s, text), s, text)
            <==> exists m :: LeadsBeyond(m, text[LineEnds(text)..]) && InTime(s, m, text)
    ensures forall m :: LeadsBeyond(m, text[LineEnds(text)..]) && InTime(s, m, text) ==>
              Feed(s, text) == Stopped(Beyond(m, text), OverRead)
  {
    hide Feed, LeadsBeyond, LineEnds, MethodName;
    FirstIsSane(s);
    if ReadsBeyond(Feed(s, text), s, text) { ReadIsBeyond(s, text); }
    forall m | LeadsBeyond(m, text[LineEnds(text)..]) && InTime(s, m, text)
      ensures ReadsBeyond(Feed(s, text), s, text) && Feed(s, text) == Stopped(Beyond(m, text), OverRead)
    {
      BeyondIsRead(s, text, m);
    }
  }

  /** An input for which it happens. */
  lemma NoMethodReadsBeyond(s: Session)
    requires AtFirst(s) && s.parser.nread + 7 <= MAX_HEADER_SIZE
    ensures Feed(s, "Maaaaaa") == Stopped(6, OverRead)
  {
    hide Feed;
    var text := "Maaaaaa";
    NoLineEnds(text);
    assert text[0..] == text && text[..7] == text;
    assert LeadsBeyond(MKCOL, text) && Beyond(MKCOL, text) == 6;
    ReadsBeyondIff(s, text);
  }

  /** The methods that are written in full are read within their names. */
  lemma MethodsStayWithin(s: Session, m: Method, rest: string)
    requires AtFirst(s)
    ensures !ReadsBeyond(Feed(s, MethodName(m) + " " + rest), s, MethodName(m) + " " + rest)
  {
    hide Feed, MethodName, LeadsBeyond;
    NameBegins(m);
    var text := MethodName(m) + " " + rest;
    ReadsBeyondIff(s, text);
    assert text[0] == MethodName(m)[0] && text[|MethodName(m)|] == ' ';
    NoLineEnds(text);
    assert text[0..] == text && text[..|MethodName(m)|] == MethodName(m);
    forall k: Method
      ensures !LeadsBeyond(k, text)
    {
      NotLoose(m, k, text);
    }
  }

  lemma NotLoose(m: Method, k: Method, text: string)
    requires |text| > |MethodName(m)| && text[..|MethodName(m)|] == MethodName(m) && text[|MethodName(m)|] == ' '
    ensures !LeadsBeyond(k, text)
  {
    var w := text[..|MethodName(m)|];
    assert forall j :: 0 <= j < |w| ==> text[j] == w[j];
    assert forall n, j :: 0 <= j < n <= |text| ==> text[..n][j] == text[j];
  }

  lemma NameBegins(m: Method)
    ensures |MethodName(m)| >= 3 && !IsLineEnd(MethodName(m)[0])
  {
  }

  lemma NoLineEnds(text: string)
    requires text != "" && !IsLineEnd(text[0])
    ensures LineEnds(text) == 0
  {
  }
}
