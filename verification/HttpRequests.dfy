/** How the server reads a request from its connection: one call of the parser after the other. */
module HttpRequests {
  import opened HttpCallbacks
  import opened HttpParser
  import opened HttpSession
  import opened HttpSanity
  import opened HttpReading
  import opened HttpExecute

  /** The server's end of a connection: what each read will return. */
  class MySocket {
    var pieces: seq<string>

    constructor (pieces: seq<string>)
      ensures this.pieces == pieces
    {
      this.pieces := pieces;
    }

    /** The next piece, unless the connection gives out. */
    method Read() returns (ok: bool, data: string)
      modifies this
      ensures ok <==> old(pieces) != []
      ensures ok ==> data == old(pieces)[0] && pieces == old(pieces)[1..]
      ensures !ok ==> pieces == []
    {
      ok, data := pieces != [], "";
      if ok {
        data, pieces := pieces[0], pieces[1..];
      }
    }
  }

  /** A parser that died takes nothing more. */
  lemma DeadTakesNothing(s: Session, data: string)
    requires s.parser.state == Dead && data != ""
    ensures !Accepted(Feed(s, data))
    ensures forall at, why :: Feed(s, data) == Stopped(at, why) ==> at == 0
  {
    hide Step;
    assert data == data[..1] + data[1..];
    FeedConcat(s, data[..1], data[1..]);
    assert data[..1] == [data[0]];
    Single(s, data[0]);
    DeadStep(s, data[0]);
  }

  lemma DeadStep(s: Session, ch: char)
    requires s.parser.state == Dead
    ensures Step(s, ch, 0) == Stopped(0, BadInput)
  {
    hide HeaderMove, ChunkMove, BodyMove;
  }

  datatype Ending = Done | AssertionFailed | SocketError

  class HTTPRequest {
    const http: HTTP
    const sock: MySocket

    constructor (http: HTTP, sock: MySocket)
      ensures this.http == http && this.sock == sock
    {
      this.http, this.sock := http, sock;
    }

    ghost function Session(): Session
      reads this, http
    {
      HttpSession.Session.Session(http.parser, http.Request())
    }

    /** Parses one piece.  What the parser leaves is given to it once more, which fails, as the parser is dead by
        then; so a piece that is not taken to its end fails.  A line feed may be left over with the method CONNECT,
        but no request that is complete here has that method. */
    method OnRead(buffer: string) returns (ok: bool)
      requires http.Valid()
      modifies http
      ensures ok <==> buffer != "" && !old(http.done) && Accepted(Feed(old(Session()), buffer))
      ensures ok ==> http.Valid() && Feed(old(Session()), buffer) == Fed(Session())
    {
      hide Feed, Sane;
      if buffer == "" {
        return false;
      }
      var bytesRead := 0;
      while bytesRead < |buffer|
        invariant bytesRead <= |buffer| && http.Valid()
        invariant bytesRead == 0 ==> Session() == old(Session()) && http.done == old(http.done)
        invariant 0 < bytesRead < |buffer| ==>
                    http.parser.state == Dead && !(!old(http.done) && Accepted(Feed(old(Session()), buffer)))
        invariant bytesRead == |buffer| ==> !old(http.done) && Feed(old(Session()), buffer) == Fed(Session())
      {
        if http.done {
          return false;
        }
        assert bytesRead == 0 ==> buffer[bytesRead..] == buffer;
        if http.parser.state == Dead { DeadTakesNothing(Session(), buffer[bytesRead..]); }
        var r := http.AddData(buffer[bytesRead..]);
        match r {
          case All =>
            bytesRead := |buffer|;
          case Upto(at, why) =>
            if why != BadInput || at == 0 {
              return false;
            }
            bytesRead := bytesRead + at;
        }
        if http.done && bytesRead < |buffer| {
          if http.verb == CONNECT && |buffer| - bytesRead == 1 && buffer[bytesRead] == '\n' {
            DoneIsNoConnect();
            break;
          } else {
            return false;
          }
        }
      }
      ok := true;
    }

    lemma DoneIsNoConnect()
      requires http.Valid() && http.done
      ensures http.verb != CONNECT
    {
    }

    /** Reads until the request is complete.  Which pieces are read, how it ends, and the request are what the
        pieces, taken byte by byte, come to. */
    method ReadRequest() returns (r: Ending)
      requires http.Valid()
      modifies http, sock
      ensures old(http.done) ==> r == AssertionFailed
      ensures !old(http.done) ==>
                match r
                case Done => http.Valid() && old(Read(Session(), sock.pieces)) == Arrived(Session(), sock.pieces)
                case AssertionFailed => old(Read(Session(), sock.pieces)) == Failed
                case SocketError => http.Valid() && sock.pieces == []
                                    && old(Read(Session(), sock.pieces)) == Broken(Session())
    {
      hide Feed, Sane;
      if http.done {
        return AssertionFailed;
      }
      while !http.done
        invariant http.Valid() && Read(Session(), sock.pieces) == old(Read(Session(), sock.pieces))
        decreases |sock.pieces|
      {
        var got, data := sock.Read();
        if !got {
          return SocketError;
        }
        var ok := OnRead(data);
        if !ok {
          return AssertionFailed;
        }
      }
      r := Done;
    }
  }
}
