/** Copying many bytes of a body at once comes to the same as taking them one by one. */
module HttpBulk {
  import opened HttpCallbacks
  import opened HttpParser
  import opened HttpSession

  /** What `n` bytes of a body of known length leave of the parser. */
  function AfterIdentity(q: Parser, n: nat): Parser {
    var left := q.(contentLength := q.contentLength - n);
    if n == q.contentLength then left.(state := NewMessage(q)) else left
  }

  function IdentityText(q: Parser, h: Http, text: string): Http {
    if |text| == q.contentLength then MessageComplete(BodyText(h, text), q.verb) else BodyText(h, text)
  }

  lemma IdentityStep(s: Session, ch: char, at: nat)
    requires s.parser.state == BodyIdentity && 0 < s.parser.contentLength
    ensures Step(s, ch, at) == Fed(Session(AfterIdentity(s.parser, 1), IdentityText(s.parser, s.http, [ch])))
  {
    hide BodyText, MessageComplete;
  }

  lemma IdentitySplit(q: Parser, h: Http, a: string, ch: char)
    requires 0 < |a| < q.contentLength
    ensures AfterIdentity(AfterIdentity(q, |a|), 1) == AfterIdentity(q, |a| + 1)
    ensures IdentityText(AfterIdentity(q, |a|), IdentityText(q, h, a), [ch]) == IdentityText(q, h, a + [ch])
  {
    hide BodyText, MessageComplete;
    BodyInPieces(h, a, [ch]);
  }

  lemma {:induction false} BulkIdentity(s: Session, text: string)
    requires s.parser.state == BodyIdentity && 0 < |text| <= s.parser.contentLength
    ensures Feed(s, text) == Fed(Session(AfterIdentity(s.parser, |text|), IdentityText(s.parser, s.http, text)))
    decreases |text|
  {
    hide Step, AfterIdentity, IdentityText;
    var last := |text| - 1;
    var before := text[..last];
    assert text == before + [text[last]];
    if before == "" {
      assert Feed(s, before) == Fed(s);
      assert text == [text[last]];
      IdentityStep(s, text[last], last);
    } else {
      BulkIdentity(s, before);
      IdentityLeft(s.parser, last);
      IdentitySplit(s.parser, s.http, before, text[last]);
      IdentityStep(Feed(s, before).session, text[last], last);
    }
  }

  lemma IdentityLeft(q: Parser, n: nat)
    requires 0 < n < q.contentLength && q.state == BodyIdentity
    ensures AfterIdentity(q, n).state == BodyIdentity && AfterIdentity(q, n).contentLength > 0
  {
  }

  function AfterChunk(q: Parser, n: nat): Parser {
    var left := q.(contentLength := q.contentLength - n);
    if n == q.contentLength then left.(state := ChunkDataAlmostDone) else left
  }

  lemma ChunkStep(s: Session, ch: char, at: nat)
    requires s.parser.state == ChunkData && s.parser.flags.chunked && 0 < s.parser.contentLength
    ensures Step(s, ch, at) == Fed(Session(AfterChunk(s.parser, 1), BodyText(s.http, [ch])))
  {
    hide BodyText;
  }

  lemma ChunkSplit(q: Parser, n: nat)
    requires 0 < n < q.contentLength && q.state == ChunkData && q.flags.chunked
    ensures AfterChunk(AfterChunk(q, n), 1) == AfterChunk(q, n + 1)
    ensures AfterChunk(q, n).state == ChunkData && AfterChunk(q, n).flags.chunked && AfterChunk(q, n).contentLength > 0
  {
  }

  lemma {:induction false} BulkChunk(s: Session, text: string)
    requires s.parser.state == ChunkData && s.parser.flags.chunked && 0 < |text| <= s.parser.contentLength
    ensures Feed(s, text) == Fed(Session(AfterChunk(s.parser, |text|), BodyText(s.http, text)))
    decreases |text|
  {
    hide Step, AfterChunk, BodyText;
    var last := |text| - 1;
    var before := text[..last];
    assert text == before + [text[last]];
    if before == "" {
      assert Feed(s, before) == Fed(s);
      assert text == [text[last]];
      ChunkStep(s, text[last], last);
    } else {
      BulkChunk(s, before);
      ChunkSplit(s.parser, last);
      BodyInPieces(s.http, before, [text[last]]);
      ChunkStep(Feed(s, before).session, text[last], last);
    }
  }
}
