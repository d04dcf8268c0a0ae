/** Bodies in chunks: what the writer sends is what the parser delivers. */
module HttpChunks {
  import opened HttpTables
  import opened HttpCallbacks
  import opened HttpParser
  import opened HttpSession
  import opened HttpBulk
  import opened HttpReading
  import opened Strings

  /** A number as the format "%x" prints it. */
  function Hex(n: nat): string {
    if n < 16 then [HexDigit(n)] else Hex(n / 16) + [HexDigit(n % 16)]
  }

  /** The text is one or more hexadecimal digits, small or capital, and their value is `n`. */
  ghost predicate HexOf(text: string, n: nat)
    decreases |text|
  {
    && text != ""
    && var last := |text| - 1;
    && (text[last] == "0123456789abcdef"[n % 16] || text[last] == "0123456789ABCDEF"[n % 16])
    && if last == 0 then n < 16 else HexOf(text[..last], n / 16)
  }

  /** Anything behind the length of a chunk, up to the end of the line. */
  predicate IsParameters(text: string) {
    text != "" ==> (text[0] == ';' || text[0] == ' ') && '\r' !in text
  }

  /** A chunk as it may be written: its length, perhaps with parameters, and its data. */
  datatype Chunk = Chunk(size: string, parameters: string, data: string)

  ghost predicate IsChunk(c: Chunk) {
    HexOf(c.size, |c.data|) && IsParameters(c.parameters)
  }

  function ChunkText(c: Chunk): string {
    c.size + c.parameters + LINE_END + c.data + LINE_END
  }

  /** A body in chunks: none of them is empty but the last. */
  ghost predicate IsChunked(chunks: seq<Chunk>, last: Chunk) {
    && (forall i :: 0 <= i < |chunks| ==> IsChunk(chunks[i]) && chunks[i].data != "")
    && IsChunk(last) && last.data == ""
  }

  /** All chunks, and the empty one behind them. */
  function Wire(chunks: seq<Chunk>, last: Chunk): string
    decreases |chunks|
  {
    if chunks == [] then ChunkText(last) else ChunkText(chunks[0]) + Wire(chunks[1..], last)
  }

  /** The data of all chunks. */
  function DataOf(chunks: seq<Chunk>): string
    decreases |chunks|
  {
    if chunks == [] then "" else chunks[0].data + DataOf(chunks[1..])
  }

  // Writing

  /** A chunk as the writer sends it. */
  function Sent(data: string): Chunk {
    Chunk(Hex(|data|), "", data)
  }

  function AllSent(pieces: seq<string>): (chunks: seq<Chunk>)
    ensures |chunks| == |pieces|
  {
    seq(|pieces|, i requires 0 <= i < |pieces| => Sent(pieces[i]))
  }

  /** The other end of a connection. */
  class Client {
    var sent: string

    constructor ()
      ensures sent == ""
    {
      sent := "";
    }

    method Write(s: string)
      modifies this
      ensures sent == old(sent) + s
    {
      sent := sent + s;
    }
  }

  method WriteChunk(client: Client, buf: string)
    modifies client
    ensures client.sent == old(client.sent) + Hex(|buf|) + "\r\n" + buf + "\r\n"
  {
    client.Write(Hex(|buf|) + LINE_END);
    if |buf| > 0 {
      client.Write(buf);
    }
    client.Write(LINE_END);
  }

  method WriteLastChunk(client: Client)
    modifies client
    ensures client.sent == old(client.sent) + "0\r\n\r\n"
  {
    WriteChunk(client, "");
  }

  lemma SentText(data: string)
    ensures ChunkText(Sent(data)) == Hex(|data|) + LINE_END + data + LINE_END
  {
    hide Hex;
    assert Hex(|data|) + "" == Hex(|data|);
  }

  lemma EmptySentText()
    ensures ChunkText(Sent("")) == "0\r\n\r\n"
  {
    hide Hex, ChunkText;
    SentText("");
    HexOfNothing();
    assert "0" + LINE_END + "" + LINE_END == "0\r\n\r\n";
  }

  lemma HexOfNothing()
    ensures Hex(0) == "0"
  {
  }

  /** A body in chunks, as a caller sends it: one call after the other, and the last chunk. */
  method WriteBody(client: Client, pieces: seq<string>)
    modifies client
    ensures client.sent == old(client.sent) + Wire(AllSent(pieces), Sent(""))
  {
    hide ChunkText, Hex;
    var i := 0;
    assert pieces[0..] == pieces;
    while i < |pieces|
      invariant 0 <= i <= |pieces|
      invariant client.sent + Wire(AllSent(pieces[i..]), Sent("")) == old(client.sent) + Wire(AllSent(pieces), Sent(""))
    {
      assert AllSent(pieces[i..])[1..] == AllSent(pieces[i + 1..]);
      SentText(pieces[i]);
      WriteChunk(client, pieces[i]);
      i := i + 1;
    }
    EmptySentText();
    WriteLastChunk(client);
  }

  lemma {:induction false} HexIsHex(n: nat)
    ensures HexOf(Hex(n), n)
    decreases n
  {
    if n >= 16 {
      HexIsHex(n / 16);
      assert Hex(n)[..|Hex(n)| - 1] == Hex(n / 16);
    }
  }

  /** What is sent is a body in chunks, and its data are the pieces put together. */
  lemma {:induction false} SentIsChunked(pieces: seq<string>)
    requires NoneEmpty(pieces)
    ensures IsChunked(AllSent(pieces), Sent("")) && DataOf(AllSent(pieces)) == Concat(pieces)
    decreases |pieces|
  {
    hide HexOf, Hex;
    HexIsHex(0);
    if pieces != [] {
      HexIsHex(|pieces[0]|);
      SentIsChunked(pieces[1..]);
      assert AllSent(pieces)[1..] == AllSent(pieces[1..]);
      assert forall i :: 1 <= i < |pieces| ==> AllSent(pieces)[i] == AllSent(pieces[1..])[i - 1];
    }
  }

  // Reading

  lemma HexDigitRead(ch: char, n: nat)
    requires n < 16 && (ch == "0123456789abcdef"[n] || ch == "0123456789ABCDEF"[n])
    ensures Unhex(ch) == n && ch != CR
  {
  }

  lemma SizeByte(s: Session, ch: char)
    requires s.parser.flags.chunked && Unhex(ch) != -1 && ch != CR
    ensures s.parser.state == ChunkSizeStart ==>
              Step(s, ch, 0) == Fed(Session(s.parser.(contentLength := Unhex(ch), state := ChunkSize), s.http))
    ensures s.parser.state == ChunkSize ==>
              var length := s.parser.contentLength * 16 + Unhex(ch);
              Step(s, ch, 0) == Fed(Session(s.parser.(contentLength := length), s.http))
  {
    hide Unhex, HeaderMove, RequestLineMove, BodyMove;
  }

  /** Whatever hexadecimal digits the length is written in, its value is what is read. */
  lemma {:induction false} HexRead(s: Session, text: string, n: nat)
    requires s.parser.state == ChunkSizeStart && s.parser.flags.chunked && HexOf(text, n)
    ensures Feed(s, text) == Fed(Session(s.parser.(contentLength := n, state := ChunkSize), s.http))
    decreases |text|
  {
    hide Feed, Step, Unhex;
    var last := |text| - 1;
    HexDigitRead(text[last], n % 16);
    if last == 0 {
      SizeByte(s, text[0]);
      Single(s, text[0]);
      assert text == [text[0]];
    } else {
      var t := Session(s.parser.(contentLength := n / 16, state := ChunkSize), s.http);
      HexRead(s, text[..last], n / 16);
      SizeByte(t, text[last]);
      Single(t, text[last]);
      FeedTwo(s, text[..last], [text[last]], t);
      assert text == text[..last] + [text[last]];
    }
  }

  lemma BadSizeByte(s: Session, ch: char)
    requires s.parser.flags.chunked && ch as int < 128 && ch !in "0123456789abcdefABCDEF"
    ensures s.parser.state == ChunkSizeStart ==> !Step(s, ch, 0).Fed?
    ensures s.parser.state == ChunkSize && ch !in "\r; " ==> !Step(s, ch, 0).Fed?
  {
    hide Unhex, HeaderMove, RequestLineMove, BodyMove;
    HexTable(ch);
  }

  /** Where a length is due, nothing else is taken: no chunk is without one, and only parameters or the end of the line
      can follow. */
  lemma SizeRefused(s: Session, text: string, n: nat, ch: char)
    requires s.parser.state == ChunkSizeStart && s.parser.flags.chunked
    requires ch as int < 128 && ch !in "0123456789abcdefABCDEF"
    requires text == "" || (HexOf(text, n) && ch !in "\r; ")
    ensures !Feed(s, text + [ch]).Fed?
  {
    hide Feed, Step, HexOf;
    if text == "" {
      BadSizeByte(s, ch);
      Single(s, ch);
      assert text + [ch] == [ch];
    } else {
      HexRead(s, text, n);
      var t := Session(s.parser.(contentLength := n, state := ChunkSize), s.http);
      BadSizeByte(t, ch);
      Single(t, ch);
      FeedConcat(s, text, [ch]);
    }
  }

  lemma ParameterByte(s: Session, ch: char)
    requires s.parser.flags.chunked && ch != '\r'
    requires s.parser.state == ChunkParameters || (s.parser.state == ChunkSize && (ch == ';' || ch == ' '))
    ensures Step(s, ch, 0) == Fed(Session(s.parser.(state := ChunkParameters), s.http))
  {
    hide HeaderMove, RequestLineMove, BodyMove;
  }

  /** Parameters are passed over. */
  lemma {:induction false} ParametersRead(s: Session, text: string)
    requires s.parser.state == ChunkSize && s.parser.flags.chunked && IsParameters(text)
    ensures Feed(s, text) == Fed(Session(s.parser.(state := if text == "" then ChunkSize else ChunkParameters), s.http))
    decreases |text|
  {
    hide Feed, Step;
    if text == "" {
      FeedNothing(s);
    } else {
      var last := |text| - 1;
      var before := text[..last];
      assert text == before + [text[last]];
      ParametersRead(s, before);
      var t := Session(s.parser.(state := if before == "" then ChunkSize else ChunkParameters), s.http);
      ParameterByte(t, text[last]);
      Single(t, text[last]);
      FeedTwo(s, before, [text[last]], t);
    }
  }

  /** What follows the length's line. */
  function AfterSize(q: Parser): Parser {
    if q.contentLength == 0 then q.(flags := q.flags.(trailing := true), state := HeaderFieldStart)
    else q.(state := ChunkData)
  }

  lemma LineEndSteps(s: Session, t: Session, u: Session)
    requires Step(s, '\r', 0) == Fed(t) && Step(t, '\n', 0) == Fed(u)
    ensures Feed(s, LINE_END) == Fed(u)
  {
    hide Step, Feed;
    Single(s, '\r');
    Single(t, '\n');
    FeedTwo(s, "\r", "\n", t);
    assert LINE_END == "\r" + "\n";
  }

  lemma SizeLineEnd(s: Session)
    requires (s.parser.state == ChunkSize || s.parser.state == ChunkParameters) && s.parser.flags.chunked
    ensures Feed(s, LINE_END) == Fed(Session(AfterSize(s.parser), s.http))
  {
    hide Feed, Unhex, HeaderMove, RequestLineMove, BodyMove;
    LineEndSteps(s, Session(s.parser.(state := ChunkSizeAlmostDone), s.http), Session(AfterSize(s.parser), s.http));
  }

  /** The first line of a chunk. */
  lemma SizeRead(s: Session, c: Chunk)
    requires s.parser.state == ChunkSizeStart && s.parser.flags.chunked && IsChunk(c)
    ensures Feed(s, c.size + c.parameters + LINE_END)
            == Fed(Session(AfterSize(s.parser.(contentLength := |c.data|)), s.http))
  {
    hide Feed, HexOf, IsParameters;
    HexRead(s, c.size, |c.data|);
    var t := Session(s.parser.(contentLength := |c.data|, state := ChunkSize), s.http);
    ParametersRead(t, c.parameters);
    FeedTwo(s, c.size, c.parameters, t);
    var u := Session(t.parser.(state := if c.parameters == "" then ChunkSize else ChunkParameters), s.http);
    SizeLineEnd(u);
    FeedTwo(s, c.size + c.parameters, LINE_END, u);
  }

  lemma DataLineEnd(s: Session)
    requires s.parser.state == ChunkDataAlmostDone && s.parser.flags.chunked
    ensures Feed(s, LINE_END) == Fed(Session(s.parser.(state := ChunkSizeStart), s.http))
  {
    hide Feed, Unhex, HeaderMove, RequestLineMove, BodyMove;
    LineEndSteps(s, Session(s.parser.(state := ChunkDataDone), s.http),
        Session(s.parser.(state := ChunkSizeStart), s.http));
  }

  /** One chunk: its data joins the body, and the parser is back where it was. */
  lemma ChunkRead(s: Session, c: Chunk)
    requires s.parser.state == ChunkSizeStart && s.parser.flags.chunked && IsChunk(c) && c.data != ""
    ensures Feed(s, ChunkText(c)) == Fed(Session(s.parser.(contentLength := 0), BodyText(s.http, c.data)))
  {
    hide Feed, IsChunk, BodyText;
    var t := Session(s.parser.(contentLength := |c.data|, state := ChunkData), s.http);
    var u := Session(s.parser.(contentLength := 0, state := ChunkDataAlmostDone), BodyText(s.http, c.data));
    SizeRead(s, c);
    BulkChunk(t, c.data);
    DataLineEnd(u);
    FeedTwo(s, c.size + c.parameters + LINE_END, c.data, t);
    FeedTwo(s, c.size + c.parameters + LINE_END + c.data, LINE_END, u);
  }

  /** The last chunk without its last byte. */
  function ButLast(c: Chunk): string {
    c.size + c.parameters + LINE_END + "\r"
  }

  // The empty line behind the last chunk.

  lemma TrailerReturn(q: Parser, h: Http)
    requires q.flags.trailing
    ensures Step(Session(q.(state := HeaderFieldStart), h), '\r', 0) == Fed(Session(q.(state := HeadersAlmostDone), h))
  {
    hide AllDone, FieldMove, ValueStartMove, ValueMove, LineDone, ChunkMove, BodyMove, RequestLineMove, Token;
  }

  lemma TrailerFeed(q: Parser, h: Http)
    requires q.flags.trailing
    ensures Step(Session(q.(state := HeadersAlmostDone), h), '\n', 0)
            == Fed(Session(q.(state := NewMessage(q)), MessageComplete(h, q.verb)))
  {
    hide MessageComplete, FieldStartMove, FieldMove, ValueStartMove, ValueMove, LineDone, ChunkMove, BodyMove,
        RequestLineMove;
  }

  /** The last chunk up to its last byte. */
  lemma LastChunkRead(s: Session, c: Chunk)
    requires s.parser.state == ChunkSizeStart && s.parser.flags.chunked && IsChunk(c) && c.data == ""
    ensures ChunkText(c) == ButLast(c) + "\n"
    ensures var q := s.parser.(contentLength := 0, flags := s.parser.flags.(trailing := true));
            && Feed(s, ButLast(c)) == Fed(Session(q.(state := HeadersAlmostDone), s.http))
            && Feed(s, ChunkText(c)) == Fed(Session(q.(state := NewMessage(q)), MessageComplete(s.http, q.verb)))
  {
    hide Feed, Step, IsChunk, MessageComplete, NewMessage;
    var q := s.parser.(contentLength := 0, flags := s.parser.flags.(trailing := true));
    var t := Session(q.(state := HeaderFieldStart), s.http);
    var u := Session(q.(state := HeadersAlmostDone), s.http);
    SizeRead(s, c);
    TrailerReturn(q, s.http);
    TrailerFeed(q, s.http);
    Single(t, '\r');
    FeedTwo(s, c.size + c.parameters + LINE_END, "\r", t);
    Single(u, '\n');
    FeedTwo(s, ButLast(c), "\n", u);
    assert ChunkText(c) == ButLast(c) + "\n";
  }

  /** A request whose headers are read, at the start of its first chunk. */
  predicate AtFirstChunk(s: Session) {
    && s.parser.state == ChunkSizeStart && s.parser.flags.chunked
    && s.http.Http? && s.http.state == VALUE && !s.http.done
  }

  function WithBody(h: Http, text: string): Http
    requires h.Http?
  {
    h.(body := h.body + text)
  }

  function Finished(h: Http, verb: Method): Http
    requires h.Http?
  {
    h.(state := DONE, verb := verb, done := true)
  }

  lemma {:induction false} WireRead(s: Session, chunks: seq<Chunk>, last: Chunk)
    requires AtFirstChunk(s) && IsChunked(chunks, last)
    ensures Wire(chunks, last) != ""
    ensures Yields(Feed(s, Wire(chunks, last)), MessageComplete(WithBody(s.http, DataOf(chunks)), s.parser.verb))
    ensures Yields(Feed(s, Wire(chunks, last)[..|Wire(chunks, last)| - 1]), WithBody(s.http, DataOf(chunks)))
    decreases |chunks|
  {
    hide Feed, IsChunk, ChunkText, ButLast, MessageComplete;
    LastChunkRead(s, last);
    if chunks == [] {
      assert s.http.body + "" == s.http.body;
      assert (ButLast(last) + "\n")[..|ButLast(last)|] == ButLast(last);
    } else {
      var t := Session(s.parser.(contentLength := 0), WithBody(s.http, chunks[0].data));
      ChunkRead(s, chunks[0]);
      WireRead(t, chunks[1..], last);
      var rest := Wire(chunks[1..], last);
      FeedTwo(s, ChunkText(chunks[0]), rest, t);
      FeedTwo(s, ChunkText(chunks[0]), rest[..|rest| - 1], t);
      assert Wire(chunks, last)[..|Wire(chunks, last)| - 1] == ChunkText(chunks[0]) + rest[..|rest| - 1];
      assert s.http.body + DataOf(chunks) == s.http.body + chunks[0].data + DataOf(chunks[1..]);
    }
  }

  /** The end of a message: requests with one of seven methods are finished, all others fail an assertion. */
  lemma CompletionOf(h: Http, m: Method)
    requires h.Http? && h.state == VALUE
    ensures MessageComplete(h, m)
            == if m in [GET, HEAD, POST, PUT, DELETE, MOVE, CONNECT] then Finished(h, m) else Aborted
  {
  }

  /** Whatever is written in chunks and ended by the last chunk is delivered, however the bytes are cut into
      buffers on their way: the body is all of the data in its order, the request is complete once all is read, and
      not before its last byte.  Only methods that no server takes fail, and not before the last byte either. */
  lemma ChunkedRoundTrip(s: Session, chunks: seq<Chunk>, last: Chunk, pieces: seq<string>)
    requires AtFirstChunk(s) && IsChunked(chunks, last) && NoneEmpty(pieces) && Concat(pieces) == Wire(chunks, last)
    ensures s.parser.verb in [GET, HEAD, POST, PUT, DELETE, MOVE, CONNECT] ==>
              Delivers(Read(s, pieces), Finished(WithBody(s.http, DataOf(chunks)), s.parser.verb))
    ensures s.parser.verb !in [GET, HEAD, POST, PUT, DELETE, MOVE, CONNECT] ==> Read(s, pieces).Failed?
    ensures forall k :: 0 <= k < |Wire(chunks, last)| ==> Unfinished(Feed(s, Wire(chunks, last)[..k]))
  {
    hide Feed, Wire, Read, Step, Concat, MessageComplete, IsChunked;
    var text := Wire(chunks, last);
    WireRead(s, chunks, last);
    CompletionOf(WithBody(s.http, DataOf(chunks)), s.parser.verb);
    ReadWhole(s, pieces, text);
    forall k | 0 <= k < |text|
      ensures Unfinished(Feed(s, text[..k]))
    {
      NotYet(s, text[..|text| - 1], k);
      assert text[..|text| - 1][..k] == text[..k];
    }
  }

  /** And so is whatever the writer sends. */
  lemma SentRoundTrip(s: Session, sent: seq<string>, pieces: seq<string>)
    requires AtFirstChunk(s) && NoneEmpty(sent) && NoneEmpty(pieces)
             && Concat(pieces) == Wire(AllSent(sent), Sent(""))
    requires s.parser.verb in [GET, HEAD, POST, PUT, DELETE, MOVE, CONNECT]
    ensures Delivers(Read(s, pieces), Finished(WithBody(s.http, Concat(sent)), s.parser.verb))
  {
    hide Feed, Wire, Read, Concat, IsChunked, AllSent, Sent, DataOf;
    SentIsChunked(sent);
    ChunkedRoundTrip(s, AllSent(sent), Sent(""), pieces);
  }
}
