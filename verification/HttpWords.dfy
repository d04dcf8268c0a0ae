/** Which words the parser recognises: methods, names of headers, and values of headers, each a letter at a time. */
module HttpWords {
  import opened HttpTables
  import opened HttpCallbacks
  import opened HttpParser

  // Methods

  /** What the method is taken for after the first `k` letters of its name. */
  function Guess(m: Method, k: nat): Method {
    match m
    case COPY => if k < 3 then CONNECT else COPY
    case CHECKOUT => if k < 2 then CONNECT else CHECKOUT
    case MOVE => if k < 2 then MKCOL else MOVE
    case MERGE => if k < 2 then MKCOL else MERGE
    case MKACTIVITY => if k < 3 then MKCOL else MKACTIVITY
    case PUT => if k < 2 then POST else PUT
    case PROPFIND => if k < 2 then POST else PROPFIND
    case PROPPATCH => if k < 2 then POST else if k < 5 then PROPFIND else PROPPATCH
    case _ => m
  }

  lemma GuessStarts(q: Parser, m: Method)
    ensures |MethodName(m)| >= 3
    ensures FirstLetter(q, MethodName(m)[0]) == To(q.(verb := Guess(m, 1)), ReqMethod, Begin)
    ensures MethodName(m)[0] != CR && MethodName(m)[0] != LF
  {
  }

  lemma GuessStep(q: Parser, m: Method)
    requires 1 <= q.index < |MethodName(m)| && q.verb == Guess(m, q.index)
    ensures MethodMove(q, MethodName(m)[q.index])
            == Moved(q.(index := q.index + 1, verb := Guess(m, q.index + 1)), Silent)
  {
  }

  lemma GuessEnds(q: Parser, m: Method)
    requires q.index == |MethodName(m)| && q.verb == Guess(m, q.index)
    ensures MethodMove(q, ' ') == To(q.(index := q.index + 1, verb := m), SpacesBeforeUrl, Silent)
  {
  }

  // Names of headers

  /** The names that mean something to the parser. */
  function Word(i: nat): string
    requires i < 5
  {
    if i == 0 then "connection"
    else if i == 1 then "content-length"
    else if i == 2 then "proxy-connection"
    else if i == 3 then "transfer-encoding"
    else "upgrade"
  }

  /** The state on the way to a name, and the state behind it. */
  function Seeking(i: nat): HeaderState
    requires i < 5
  {
    if i == 0 then MatchingConnection
    else if i == 1 then MatchingContentLength
    else if i == 2 then MatchingProxyConnection
    else if i == 3 then MatchingTransferEncoding
    else MatchingUpgrade
  }

  function Sought(i: nat): HeaderState
    requires i < 5
  {
    if i == 0 || i == 2 then Connection
    else if i == 1 then ContentLength
    else if i == 3 then TransferEncoding
    else Upgrade
  }

  predicate IsPrefix(x: string, word: string) {
    |x| <= |word| && forall i :: 0 <= i < |x| ==> x[i] == word[i]
  }

  /** The first of the names, from number `i` on, that starts with `x`; 5 if there is none. */
  function Candidate(x: string, i: nat): (n: nat)
    requires i <= 5
    ensures i <= n <= 5 && (n < 5 ==> IsPrefix(x, Word(n)))
    ensures forall j :: i <= j < n ==> !IsPrefix(x, Word(j))
    decreases 5 - i
  {
    if i == 5 || IsPrefix(x, Word(i)) then i else Candidate(x, i + 1)
  }

  /** The word, and nothing but blanks behind it. */
  predicate WordAndBlanks(x: string, word: string) {
    |x| >= |word| && IsPrefix(word, x) && forall i :: |word| <= i < |x| ==> x[i] == ' '
  }

  /** The first of the names, from number `i` on, that `x` spells; 5 if there is none. */
  function Spelled(x: string, i: nat): (n: nat)
    requires i <= 5
    ensures i <= n <= 5 && (n < 5 ==> WordAndBlanks(x, Word(n)))
    ensures forall j :: i <= j < n ==> !WordAndBlanks(x, Word(j))
    decreases 5 - i
  {
    if i == 5 || WordAndBlanks(x, Word(i)) then i else Spelled(x, i + 1)
  }

  /** The state of the search after `x`, the name so far in lower case. */
  function Search(x: string): HeaderState {
    var n := Candidate(x, 0);
    if Spelled(x, 0) < 5 then Sought(Spelled(x, 0))
    else if n == 5 then General
    else if n == 0 && |x| == 1 then C
    else if n == 0 && |x| == 2 then CO
    else if n == 0 && |x| == 3 then CON
    else Seeking(n)
  }

  /** Only the first two names start alike, and only in their first three letters. */
  lemma WordsDiffer(i: nat, j: nat)
    requires i < j < 5
    ensures |Word(i)| >= 4 && |Word(j)| >= 4
    ensures i == 0 && j == 1 ==> Word(i)[3] != Word(j)[3]
    ensures j >= 2 ==> Word(i)[0] != Word(j)[0]
  {
  }

  lemma OneCandidate(x: string, i: nat, j: nat)
    requires i < 5 && j < 5 && x != "" && IsPrefix(x, Word(i)) && IsPrefix(x, Word(j))
    ensures i == j || (i + j == 1 && |x| <= 3)
  {
    hide Word;
    if i < j { WordsDiffer(i, j); }
    if j < i { WordsDiffer(j, i); }
  }

  lemma Longer(x: string, c: char, word: string)
    ensures IsPrefix(x + [c], word) <==> |x| < |word| && IsPrefix(x, word) && c == word[|x|]
  {
    assert (x + [c])[|x|] == c;
    assert forall i :: 0 <= i < |x| ==> (x + [c])[i] == x[i];
  }

  /** The candidate after one more letter: the same one, except that the third letter decides between the first
      two, or none. */
  lemma NextCandidate(x: string, c: char)
    requires x != ""
    ensures var n, m := Candidate(x, 0), Candidate(x + [c], 0);
            && (n == 5 ==> m == 5)
            && (n < 5 ==> |Word(n)| >= 4)
            && (n < 5 && (n > 0 || |x| >= 4) ==> m == if |x| < |Word(n)| && c == Word(n)[|x|] then n else 5)
            && (n == 0 && |x| == 1 ==> m == if c == 'o' then 0 else 5)
            && (n == 0 && |x| == 2 ==> m == if c == 'n' then 0 else 5)
            && (n == 0 && |x| == 3 ==> m == if c == 'n' then 0 else if c == 't' then 1 else 5)
  {
    hide Word;
    var n, m := Candidate(x, 0), Candidate(x + [c], 0);
    assert Word(0) == "connection" && Word(1) == "content-length" by { FirstWords(); }
    if n < 5 {
      Longer(x, c, Word(n));
      WordsDiffer(0, if n == 0 then 1 else n);
    }
    if m < 5 {
      Longer(x, c, Word(m));
      OneCandidate(x, n, m);
    }
    Longer(x, c, Word(0));
    Longer(x, c, Word(1));
  }

  lemma FirstWords()
    ensures Word(0) == "connection" && Word(1) == "content-length"
  {
  }

  /** The parser's search stands where `x` leads. */
  predicate Follows(q: Parser, x: string) {
    && q.headerState == Search(x)
    && (Candidate(x, 0) < 5 ==> q.index == |x| - 1)
  }

  lemma SearchStarts(q: Parser, c: char)
    ensures Follows(q.(index := 0, headerState := FieldStartState(c)), [c])
  {
    var n := Candidate([c], 0);
    assert forall i :: 0 <= i < 5 ==> (IsPrefix([c], Word(i)) <==> c == Word(i)[0]);
  }

  lemma SeekingIs(q: Parser, ch: char, n: nat)
    requires n < 5 && q.headerState == Seeking(n)
    ensures FieldChar(q, ch) == Moved(Matching(q, Token(ch), Word(n), Sought(n)), InField)
  {
    hide Token, Matching;
  }

  lemma SoughtIs(q: Parser, ch: char, n: nat)
    requires n < 5 && q.headerState == Sought(n)
    ensures FieldChar(q, ch) == Moved(if ch != ' ' then q.(headerState := General) else q, InField)
  {
    hide Token, Matching;
  }

  /** No name starts with another. */
  lemma NotNested(i: nat, j: nat)
    requires i < 5 && j < 5 && IsPrefix(Word(i), Word(j))
    ensures i == j
  {
    hide Word;
    WordsDiffer(if i < 4 then i else 3, if i < 4 then i + 1 else 4);
    OneCandidate(Word(i), i, j);
  }

  lemma OneBeginning(y: string, i: nat, j: nat)
    requires i < 5 && j < 5 && IsPrefix(Word(i), y) && IsPrefix(Word(j), y)
    ensures i == j
  {
    hide Word;
    if |Word(i)| <= |Word(j)| { NotNested(i, j); } else { NotNested(j, i); }
  }

  /** What spells a name goes on to spell it exactly with a blank, and is never on the way to another one. */
  lemma SpelledGoesOn(x: string, c: char)
    requires Spelled(x, 0) < 5
    ensures Spelled(x + [c], 0) == if c == ' ' then Spelled(x, 0) else 5
    ensures Candidate(x + [c], 0) == 5
  {
    hide Word;
    var y, n := x + [c], Spelled(x, 0);
    assert y[|x|] == c && forall i :: 0 <= i < |x| ==> y[i] == x[i];
    var m, k := Spelled(y, 0), Candidate(y, 0);
    if m < 5 { OneBeginning(y, n, m); }
    if k < 5 { NotNested(n, k); }
  }

  /** What spells no name spells one with one more letter exactly if that is the name's last. */
  lemma SpelledStarts(x: string, c: char)
    requires Spelled(x, 0) == 5
    ensures var m, k := Spelled(x + [c], 0), Candidate(x + [c], 0);
            m == if k < 5 && |x| + 1 == |Word(k)| then k else 5
  {
    hide Word;
    var y := x + [c];
    assert y[|x|] == c && forall i :: 0 <= i < |x| ==> y[i] == x[i];
    var m, k := Spelled(y, 0), Candidate(y, 0);
    if m < 5 {
      assert !WordAndBlanks(x, Word(m));
      assert IsPrefix(y, Word(m));
      WordsDiffer(if m < 4 then m else 3, if m < 4 then m + 1 else 4);
      OneCandidate(y, m, k);
    }
    if k < 5 && |y| == |Word(k)| {
      assert WordAndBlanks(y, Word(k));
      OneBeginning(y, k, m);
    }
  }

  lemma StepBehindWord(q: Parser, x: string, ch: char)
    requires x != "" && Token(ch) != NONE && Follows(q, x) && Spelled(x, 0) < 5
    ensures FieldChar(q, ch) == Moved(if ch != ' ' then q.(headerState := General) else q, InField)
    ensures Follows(FieldChar(q, ch).next, x + [Token(ch)])
  {
    hide Word, Sought, Seeking, Token, WordAndBlanks, IsPrefix, FieldChar;
    BlankStays(ch);
    SpelledGoesOn(x, Token(ch));
    SoughtIs(q, ch, Spelled(x, 0));
  }

  lemma StepInWord(q: Parser, x: string, ch: char)
    requires x != "" && Token(ch) != NONE && Follows(q, x) && Spelled(x, 0) == 5
    requires var n := Candidate(x, 0); n < 5 && (n > 0 || |x| >= 4)
    ensures var n := Candidate(x, 0); FieldChar(q, ch) == Moved(Matching(q, Token(ch), Word(n), Sought(n)), InField)
    ensures Follows(FieldChar(q, ch).next, x + [Token(ch)])
  {
    hide Word, Sought, Seeking, Token, WordAndBlanks, IsPrefix, FieldChar;
    var n, c := Candidate(x, 0), Token(ch);
    NextCandidate(x, c);
    SpelledStarts(x, c);
    WholeIsSpelled(x, n);
    SeekingIs(q, ch, n);
  }

  lemma WholeIsSpelled(x: string, n: nat)
    requires n < 5 && IsPrefix(x, Word(n)) && Spelled(x, 0) == 5
    ensures |x| < |Word(n)|
  {
    hide Word;
    assert !WordAndBlanks(x, Word(n));
  }

  lemma StepNowhere(q: Parser, x: string, ch: char)
    requires x != "" && Token(ch) != NONE && Follows(q, x) && Spelled(x, 0) == 5 && Candidate(x, 0) == 5
    ensures FieldChar(q, ch) == Moved(q, InField) && Follows(q, x + [Token(ch)])
  {
    hide Word, Sought, Seeking, Token, WordAndBlanks, IsPrefix, Matching;
    NextCandidate(x, Token(ch));
    SpelledStarts(x, Token(ch));
  }

  /** The state after up to three letters of the first two names. */
  function Beginning(length: nat): HeaderState {
    if length == 1 then C else if length == 2 then CO else CON
  }

  lemma WordsAreLong(x: string)
    requires 0 < |x| <= 4
    ensures Candidate(x, 0) < 5 ==> |Word(Candidate(x, 0))| > 4
    ensures Spelled(x, 0) == 5
  {
    hide IsPrefix;
    assert forall k :: 0 <= k < 5 ==> |Word(k)| > 4;
  }

  lemma SearchBegins(x: string)
    requires 0 < |x| <= 4
    ensures Search(x) == if Candidate(x, 0) == 5 then General
                         else if Candidate(x, 0) == 0 && |x| <= 3 then Beginning(|x|)
                         else Seeking(Candidate(x, 0))
  {
    hide Word, IsPrefix;
    WordsAreLong(x);
  }

  lemma StepAtStart(q: Parser, x: string, ch: char)
    requires Token(ch) != NONE && Follows(q, x) && Candidate(x, 0) == 0 && 0 < |x| <= 3
    ensures var r := FieldChar(q, ch);
            && r.Moved? && r.tag == InField
            && r.next == q.(headerState := r.next.headerState, index := r.next.index)
            && Follows(r.next, x + [Token(ch)])
  {
    hide Word, Sought, Token, WordAndBlanks, IsPrefix, Matching, Search, Spelled, Candidate;
    NextCandidate(x, Token(ch));
    SearchBegins(x);
    SearchBegins(x + [Token(ch)]);
  }

  /** One more character of a name keeps the search in step. */
  lemma SearchStep(q: Parser, x: string, ch: char)
    requires x != "" && Token(ch) != NONE && Follows(q, x)
    ensures var r := FieldChar(q, ch);
            && r.Moved? && r.tag == InField
            && r.next == q.(headerState := r.next.headerState, index := r.next.index)
            && Follows(r.next, x + [Token(ch)])
  {
    hide Token, WordAndBlanks, IsPrefix, FieldChar, Follows;
    if Spelled(x, 0) < 5 {
      StepBehindWord(q, x, ch);
    } else if Candidate(x, 0) < 5 && (Candidate(x, 0) > 0 || |x| >= 4) {
      StepInWord(q, x, ch);
    } else if Candidate(x, 0) == 5 {
      StepNowhere(q, x, ch);
    } else {
      StepAtStart(q, x, ch);
    }
  }

  lemma BlankStays(ch: char)
    requires Token(ch) != NONE
    ensures Token(ch) == ' ' <==> ch == ' '
  {
  }

  /** A name means something to the parser exactly if it is one of the five and nothing but blanks behind it. */
  lemma SearchFinds(x: string)
    requires x != ""
    ensures Search(x) == Connection <==> WordAndBlanks(x, "connection") || WordAndBlanks(x, "proxy-connection")
    ensures Search(x) == ContentLength <==> WordAndBlanks(x, "content-length")
    ensures Search(x) == TransferEncoding <==> WordAndBlanks(x, "transfer-encoding")
    ensures Search(x) == Upgrade <==> WordAndBlanks(x, "upgrade")
  {
    hide Word, Seeking, Sought;
    var n := Spelled(x, 0);
    forall i | 0 <= i < 5 && WordAndBlanks(x, Word(i))
      ensures n == i
    {
      OneBeginning(x, n, i);
    }
    AllWords();
  }

  lemma AllWords()
    ensures Word(0) == "connection" && Word(1) == "content-length" && Word(2) == "proxy-connection"
    ensures Word(3) == "transfer-encoding" && Word(4) == "upgrade"
    ensures Sought(0) == Connection && Sought(1) == ContentLength && Sought(2) == Connection
    ensures Sought(3) == TransferEncoding && Sought(4) == Upgrade
    ensures forall i :: 0 <= i < 5 ==> Seeking(i) !in {Connection, ContentLength, TransferEncoding, Upgrade}
  {
  }
}
