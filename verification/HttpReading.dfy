/** Reading a request from a connection that gives it in pieces, each parsed in a call of its own, until it is
    complete; and why the places where it is cut cannot be observed. */
module HttpReading {
  import opened HttpCallbacks
  import opened HttpParser
  import opened HttpSession
  import opened Strings

  /** How reading ends: the request is complete and the rest of the pieces was not read, the input is bad, or the
      connection gave out first. */
  datatype Reading = Arrived(session: Session, rest: seq<string>) | Failed | Broken(session: Session)

  /** A piece without bytes fails an assertion. */
  function Read(s: Session, pieces: seq<string>): Reading
    requires s.http.Http?
    decreases |pieces|
  {
    if s.http.done then Arrived(s, pieces)
    else if pieces == [] then Broken(s)
    else if pieces[0] == "" || !Accepted(Feed(s, pieces[0])) then Failed
    else Read(Feed(s, pieces[0]).session, pieces[1..])
  }

  /** The input is taken to its end, and the message is not complete. */
  predicate Unfinished(r: Fed) {
    Accepted(r) && !r.session.http.done
  }

  predicate Completed(r: Fed) {
    Accepted(r) && r.session.http.done
  }

  predicate NoneEmpty(pieces: seq<string>) {
    forall i :: 0 <= i < |pieces| ==> pieces[i] != ""
  }

  /** What reading the whole input at once comes to. */
  function Outcome(r: Fed): Reading {
    if !Accepted(r) then Failed
    else if r.session.http.done then Arrived(r.session, [])
    else Broken(r.session)
  }

  /** The request is read to its end, nothing is left, and it is `h`. */
  predicate Delivers(r: Reading, h: Http) {
    r.Arrived? && r.rest == [] && r.session.http == h
  }

  lemma FirstPiece(s: Session, pieces: seq<string>, k: nat)
    requires 0 < k <= |pieces| && Feed(s, pieces[0]).Fed?
    ensures Concat(pieces[..k]) == pieces[0] + Concat(pieces[1..][..k - 1])
    ensures var r, r1 := Feed(s, Concat(pieces[..k])), Feed(Feed(s, pieces[0]).session, Concat(pieces[1..][..k - 1]));
            (r.Fed? <==> r1.Fed?) && (r.Fed? ==> r == r1)
  {
    hide Feed;
    assert pieces[..k][1..] == pieces[1..][..k - 1];
    FeedConcat(s, pieces[0], Concat(pieces[1..][..k - 1]));
  }

  lemma BadPiece(s: Session, pieces: seq<string>)
    requires pieces != [] && !Accepted(Feed(s, pieces[0]))
    ensures !Accepted(Feed(s, Concat(pieces)))
  {
    hide Feed;
    FeedConcat(s, pieces[0], Concat(pieces[1..]));
    var r := Feed(s, pieces[0]);
    if r.Fed? { AbortedStays(r.session, Concat(pieces[1..])); }
  }

  /** Cut into any number of pieces, the input has the outcome that it has when it is read at once, with the same
      parser and the same request, provided that no piece follows the one that completes the request. */
  lemma {:induction false} CutsUnobservable(s: Session, pieces: seq<string>)
    requires s.http.Http? && !s.http.done && NoneEmpty(pieces)
    requires forall k :: 0 < k < |pieces| ==> !Completed(Feed(s, Concat(pieces[..k])))
    ensures Read(s, pieces) == Outcome(Feed(s, Concat(pieces)))
    decreases |pieces|
  {
    hide Feed, Concat;
    if pieces == [] {
      FeedNothing(s);
      assert Concat(pieces) == "" by { NoPieces(); }
    } else if !Accepted(Feed(s, pieces[0])) {
      BadPiece(s, pieces);
    } else {
      var t := Feed(s, pieces[0]).session;
      FirstPiece(s, pieces, 1);
      FirstPiece(s, pieces, |pieces|);
      assert pieces[..|pieces|] == pieces && pieces[1..][..|pieces| - 1] == pieces[1..];
      NoPieces();
      FeedNothing(t);
      if t.http.done {
        assert |pieces| == 1;
      } else {
        forall k | 0 < k < |pieces| - 1
          ensures !Completed(Feed(t, Concat(pieces[1..][..k])))
        {
          FirstPiece(s, pieces, k + 1);
        }
        CutsUnobservable(t, pieces[1..]);
      }
    }
  }

  lemma NoPieces()
    ensures Concat([]) == ""
    ensures forall pieces: seq<string> :: pieces[..0] == []
  {
  }

  /** Reading goes on with the next pieces where the first ones leave off. */
  lemma {:induction false} ReadOn(s: Session, a: seq<string>, b: seq<string>)
    requires s.http.Http?
    ensures Read(s, a).Broken? ==> Read(s, a).session.http.Http?
    ensures Read(s, a + b) == match Read(s, a)
                              case Arrived(t, rest) => Arrived(t, rest + b)
                              case Failed => Failed
                              case Broken(t) => Read(t, b)
    decreases |a|
  {
    hide Feed;
    if a == [] {
      assert a + b == b;
    } else if !s.http.done && a[0] != "" && Accepted(Feed(s, a[0])) {
      ReadOn(Feed(s, a[0]).session, a[1..], b);
      assert (a + b)[1..] == a[1..] + b;
    }
  }

  /** As soon as the request is complete, and not before, reading stops: the pieces behind are not touched. */
  lemma ReadStops(s: Session, pieces: seq<string>, k: nat)
    requires s.http.Http? && !s.http.done && k <= |pieces| && NoneEmpty(pieces[..k])
    requires Completed(Feed(s, Concat(pieces[..k])))
    requires forall j :: 0 < j < k ==> !Completed(Feed(s, Concat(pieces[..j])))
    ensures Read(s, pieces) == Arrived(Feed(s, Concat(pieces[..k])).session, pieces[k..])
  {
    hide Feed, Concat;
    forall j | 0 < j < k
      ensures !Completed(Feed(s, Concat(pieces[..k][..j])))
    {
      assert pieces[..k][..j] == pieces[..j];
    }
    CutsUnobservable(s, pieces[..k]);
    ReadOn(s, pieces[..k], pieces[k..]);
    assert pieces[..k] + pieces[k..] == pieces;
    assert [] + pieces[k..] == pieces[k..];
  }

  /** A piece without bytes before the request is complete fails. */
  lemma EmptyPieceFails(s: Session, before: seq<string>, behind: seq<string>)
    requires s.http.Http? && !Read(s, before).Arrived?
    ensures Read(s, before + [""] + behind) == Failed
  {
    ReadOn(s, before, [""] + behind);
    if Read(s, before).Broken? { ReadBroken(s, before); }
    assert before + [""] + behind == before + ([""] + behind);
  }

  lemma {:induction false} ReadBroken(s: Session, pieces: seq<string>)
    requires s.http.Http? && Read(s, pieces).Broken?
    ensures Read(s, pieces).session.http.Http? && !Read(s, pieces).session.http.done
    decreases |pieces|
  {
    hide Feed;
    if pieces != [] { ReadBroken(Feed(s, pieces[0]).session, pieces[1..]); }
  }

  /** A finished request stays finished. */
  lemma {:induction false} FinishedStays(s: Session, data: string)
    requires s.http.Http? ==> s.http.done
    ensures Feed(s, data).Fed? && Feed(s, data).session.http.Http? ==> Feed(s, data).session.http.done
    decreases |data|
  {
    hide Take;
    if data != "" {
      FinishedStays(s, data[..|data| - 1]);
    }
  }

  lemma NotYet(s: Session, data: string, k: nat)
    requires k <= |data| && Unfinished(Feed(s, data))
    ensures Unfinished(Feed(s, data[..k]))
  {
    hide Feed, Step;
    FeedConcat(s, data[..k], data[k..]);
    assert data[..k] + data[k..] == data;
    var r := Feed(s, data[..k]);
    if r.Fed? {
      if r.session.http.Aborted? { AbortedStays(r.session, data[k..]); }
      else if r.session.http.done { FinishedStays(r.session, data[k..]); }
    }
  }

  /** Input that completes a request at its last byte or not at all may be cut anywhere. */
  lemma ReadWhole(s: Session, pieces: seq<string>, text: string)
    requires s.http.Http? && !s.http.done && NoneEmpty(pieces) && Concat(pieces) == text != ""
    requires Unfinished(Feed(s, text[..|text| - 1]))
    ensures Read(s, pieces) == Outcome(Feed(s, text))
  {
    hide Feed, Concat, Read;
    forall k | 0 < k < |pieces|
      ensures !Completed(Feed(s, Concat(pieces[..k])))
    {
      var a := Concat(pieces[..k]);
      ConcatAppend(pieces[..k], pieces[k..]);
      assert pieces[..k] + pieces[k..] == pieces;
      assert Concat(pieces[k..]) != "" by { SomePieces(pieces[k..]); }
      NotYet(s, text[..|text| - 1], |a|);
      assert text[..|text| - 1][..|a|] == a;
    }
    CutsUnobservable(s, pieces);
  }

  lemma SomePieces(pieces: seq<string>)
    requires pieces != [] && pieces[0] != ""
    ensures Concat(pieces) != ""
  {
  }
}
