/** Parsing as a fold over bytes, and why the places where the input is cut cannot be observed. */
module HttpSession {
  import opened HttpCallbacks
  import opened HttpParser

  /** The parser and the request it puts together. */
  datatype Session = Session(parser: Parser, http: Http)

  /** What a byte does to the request, given where it belongs. */
  function Effect(tag: Tag, h: Http, ch: char, verb: Method): Http {
    match tag
    case Silent => h
    case Begin => MessageBegin(h)
    case InUrl => UrlText(h, [ch])
    case InPath => PathText(UrlText(h, [ch]), [ch])
    case InQuery => QueryText(UrlText(h, [ch]), [ch])
    case InFragment => FragmentText(UrlText(h, [ch]), [ch])
    case InField => FieldText(h, [ch])
    case InValue => ValueText(h, [ch])
    case EmptyValue => ValueText(h, "")
    case HeadersDone(complete) => if complete then MessageComplete(HeadersComplete(h), verb) else HeadersComplete(h)
    case InBody(last) => if last then MessageComplete(BodyText(h, [ch]), verb) else BodyText(h, [ch])
    case Complete => MessageComplete(h, verb)
  }

  /** A session after some input, or the position of the byte that was not taken. */
  datatype Fed = Fed(session: Session) | Stopped(at: nat, why: Refusal)

  function Step(s: Session, ch: char, at: nat): Fed {
    match Take(s.parser, ch)
    case Refused(why) => Stopped(at, why)
    case Moved(next, tag) => Fed(Session(next, Effect(tag, s.http, ch, next.verb)))
  }

  function Feed(s: Session, data: string): Fed
    decreases |data|
  {
    if data == "" then Fed(s)
    else
      var last := |data| - 1;
      match Feed(s, data[..last])
      case Fed(t) => Step(t, data[last], last)
      case Stopped(at, why) => Stopped(at, why)
  }

  /** The input is taken to its end, and no assertion fails on the way. */
  predicate Accepted(r: Fed) {
    r.Fed? && r.session.http.Http?
  }

  function Shifted(at: nat, r: Fed): Fed {
    match r
    case Fed(_) => r
    case Stopped(k, why) => Stopped(at + k, why)
  }

  lemma {:induction false} FeedConcat(s: Session, a: string, b: string)
    ensures Feed(s, a + b) == match Feed(s, a)
                              case Fed(t) => Shifted(|a|, Feed(t, b))
                              case Stopped(at, why) => Stopped(at, why)
    decreases |b|
  {
    hide Step;
    if b == "" {
      assert a + b == a;
    } else {
      var last := |b| - 1;
      FeedConcat(s, a, b[..last]);
      assert (a + b)[..|a| + last] == a + b[..last];
      if Feed(s, a).Fed? { StepMoved(s, a, b); }
    }
  }

  lemma StepMoved(s: Session, a: string, b: string)
    requires b != "" && Feed(s, a).Fed?
    ensures var t := Feed(s, a).session;
            Feed(t, b[..|b| - 1]).Fed? ==>
              var u, ch := Feed(t, b[..|b| - 1]).session, b[|b| - 1];
              Step(u, ch, |a| + |b| - 1) == Shifted(|a|, Step(u, ch, |b| - 1))
  {
    hide Take, Effect;
  }

  /** The input is taken to its end and makes that request. */
  predicate Yields(r: Fed, h: Http) {
    r.Fed? && r.session.http == h
  }

  lemma FeedTwo(s: Session, a: string, b: string, t: Session)
    requires Feed(s, a) == Fed(t) && Feed(t, b).Fed?
    ensures Feed(s, a + b) == Feed(t, b)
  {
    hide Step;
    FeedConcat(s, a, b);
  }

  lemma FeedNothing(s: Session)
    ensures Feed(s, "") == Fed(s)
  {
  }

  lemma FeedMore(s: Session, text: string, ch: char)
    ensures Feed(s, text).Fed? ==> Feed(s, text + [ch]) == Step(Feed(s, text).session, ch, |text|)
  {
    hide Step;
    assert (text + [ch])[..|text|] == text;
  }

  lemma Single(s: Session, ch: char)
    ensures Feed(s, [ch]) == Step(s, ch, 0)
  {
    hide Step;
    FeedNothing(s);
    FeedMore(s, "", ch);
    assert "" + [ch] == [ch];
  }

  lemma StaysAborted(s: Session, ch: char, at: nat)
    requires s.http.Aborted?
    ensures Step(s, ch, at).Fed? ==> Step(s, ch, at).session.http.Aborted?
  {
    hide Take;
  }

  /** An assertion that has failed stays failed. */
  lemma {:induction false} AbortedStays(s: Session, data: string)
    requires s.http.Aborted?
    ensures !Accepted(Feed(s, data))
    ensures Feed(s, data).Fed? ==> Feed(s, data).session.http.Aborted?
    decreases |data|
  {
    hide Take;
    if data != "" {
      AbortedStays(s, data[..|data| - 1]);
    }
  }
}
