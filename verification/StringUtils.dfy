/** Cutting a string at a delimiter. */
module StringUtilsModel {
  import opened Strings

  /** The position of the first delimiter, or the length. */
  function FirstOf(s: string, d: char): (i: nat)
    ensures i <= |s| && (i < |s| ==> s[i] == d)
    ensures forall j :: 0 <= j < i ==> s[j] != d
  {
    if s == "" || s[0] == d then 0 else 1 + FirstOf(s[1..], d)
  }

  lemma FirstIs(s: string, d: char, i: nat)
    requires i <= |s| && (i < |s| ==> s[i] == d) && forall j :: 0 <= j < i ==> s[j] != d
    ensures FirstOf(s, d) == i
  {
    var k := FirstOf(s, d);
    assert k < |s| ==> s[k] == d;
    assert i < |s| ==> s[i] == d;
  }

  /** The pieces between the delimiters that are not empty, and the delimiters, in order. */
  function Tokens(s: string, d: char): seq<string>
    decreases |s|
  {
    if s == "" then []
    else
      var i := FirstOf(s, d);
      if i == |s| then [s]
      else (if i == 0 then [] else [s[..i]]) + [[d]] + Tokens(s[i + 1..], d)
  }

  method SplitWithDelimiter(str: string, delimiter: char) returns (result: seq<string>)
    ensures result == Tokens(str, delimiter)
  {
    hide Tokens, FirstOf;
    result := [];
    var start, idx := 0, 0;
    assert str[0..] == str;
    while idx < |str|
      invariant start <= idx <= |str|
      invariant forall j :: start <= j < idx ==> str[j] != delimiter
      invariant Tokens(str, delimiter) == result + Tokens(str[start..], delimiter)
    {
      if str[idx] == delimiter {
        NextToken(str[start..], delimiter, idx - start);
        assert str[start..][..idx - start] == str[start..idx];
        assert str[start..][idx - start + 1..] == str[idx + 1..];
        if idx != start {
          result := result + [str[start..idx]];
        }
        result := result + [[delimiter]];
        start := idx + 1;
      }
      idx := idx + 1;
    }
    LastToken(str[start..], delimiter);
    if idx != start {
      result := result + [str[start..idx]];
      assert str[start..idx] == str[start..];
    } else {
      assert str[start..] == "";
    }
  }

  lemma NextToken(s: string, d: char, i: nat)
    requires i < |s| && s[i] == d && forall j :: 0 <= j < i ==> s[j] != d
    ensures Tokens(s, d) == (if i == 0 then [] else [s[..i]]) + [[d]] + Tokens(s[i + 1..], d)
  {
    FirstIs(s, d, i);
  }

  lemma LastToken(s: string, d: char)
    requires forall j :: 0 <= j < |s| ==> s[j] != d
    ensures Tokens(s, d) == if s == "" then [] else [s]
  {
    FirstIs(s, d, |s|);
  }

  /** A delimiter, or a piece without one. */
  predicate IsToken(t: string, d: char) {
    t == [d] || (t != "" && d !in t)
  }

  /** No two pieces are neighbours. */
  predicate Alternate(ts: seq<string>, d: char) {
    && (forall k :: 0 <= k < |ts| ==> IsToken(ts[k], d))
    && (forall k :: 0 < k < |ts| ==> ts[k - 1] == [d] || ts[k] == [d])
  }

  /** The tokens up to and with the first delimiter. */
  function Head(s: string, d: char, i: nat): seq<string>
    requires i < |s|
  {
    if i == 0 then [[d]] else [s[..i], [d]]
  }

  lemma HeadConcat(s: string, d: char, i: nat)
    requires i < |s| && s[i] == d
    ensures Concat(Head(s, d, i)) == s[..i + 1]
  {
    assert Concat([[d]]) == [d] + Concat([]);
    if i > 0 {
      assert Head(s, d, i)[1..] == [[d]];
      assert s[..i] + [d] == s[..i + 1];
    }
  }

  lemma HeadAlternates(s: string, d: char, i: nat, rest: seq<string>)
    requires i < |s| && s[i] == d && (forall j :: 0 <= j < i ==> s[j] != d) && Alternate(rest, d)
    ensures Alternate(Head(s, d, i) + rest, d)
  {
    var head := Head(s, d, i);
    var ts := head + rest;
    assert d !in s[..i];
    forall k | 0 <= k < |ts|
      ensures IsToken(ts[k], d)
      ensures k > 0 ==> ts[k - 1] == [d] || ts[k] == [d]
    {
      if k > |head| { assert rest[k - 1 - |head|] == [d] || rest[k - |head|] == [d]; }
      if k >= |head| { assert IsToken(rest[k - |head|], d); }
    }
  }

  /** Nothing is lost and nothing is invented: the tokens put together are the string, each is a delimiter or a
      piece without one, and no two pieces are neighbours. */
  lemma {:induction false} TokensOf(s: string, d: char)
    ensures Concat(Tokens(s, d)) == s && Alternate(Tokens(s, d), d)
    decreases |s|
  {
    hide Concat, Alternate, Head, FirstOf;
    if s == "" {
      NoTokens(d);
    } else {
      var i := FirstOf(s, d);
      if i == |s| {
        OneToken(s, d);
      } else {
        var rest := s[i + 1..];
        TokensOf(rest, d);
        SplitHead(s, d, i);
        HeadAlternates(s, d, i, Tokens(rest, d));
        HeadConcat(s, d, i);
        ConcatAppend(Head(s, d, i), Tokens(rest, d));
        assert s[..i + 1] + rest == s;
      }
    }
  }

  lemma NoTokens(d: char)
    ensures Concat([]) == "" && Alternate([], d)
  {
  }

  lemma OneToken(s: string, d: char)
    requires s != "" && forall j :: 0 <= j < |s| ==> s[j] != d
    ensures Concat([s]) == s && Alternate([s], d)
  {
    assert Concat([s]) == s + Concat([]);
  }

  lemma SplitHead(s: string, d: char, i: nat)
    requires i < |s| && s[i] == d && forall j :: 0 <= j < i ==> s[j] != d
    ensures Tokens(s, d) == Head(s, d, i) + Tokens(s[i + 1..], d)
  {
    hide Tokens;
    NextToken(s, d, i);
    if i == 0 { assert [] + [[d]] == [[d]]; } else { assert [s[..i]] + [[d]] == [s[..i], [d]]; }
  }

  /** Those three properties leave no choice. */
  lemma {:induction false} TokensUnique(ts: seq<string>, d: char)
    requires Alternate(ts, d)
    ensures Tokens(Concat(ts), d) == ts
    decreases |ts|
  {
    hide Tokens, FirstOf;
    var s := Concat(ts);
    if ts == [] {
      LastToken("", d);
    } else if ts[0] == [d] {
      TokensUnique(ts[1..], d);
      NextToken(s, d, 0);
      assert s[1..] == Concat(ts[1..]);
      assert ts == [] + [[d]] + ts[1..];
    } else if |ts| == 1 {
      assert ts[1..] == [] && Concat(ts[1..]) == "";
      assert s == ts[0] + "" == ts[0];
      assert IsToken(ts[0], d);
      LastToken(s, d);
      assert ts == [ts[0]];
    } else {
      var n := |ts[0]|;
      assert IsToken(ts[0], d);
      assert ts[1 - 1] == [d] || ts[1] == [d];
      TokensUnique(ts[2..], d);
      assert ts[1..][1..] == ts[2..];
      assert Concat(ts[1..]) == [d] + Concat(ts[1..][1..]);
      assert s == ts[0] + ([d] + Concat(ts[2..]));
      NextToken(s, d, n);
      assert s[..n] == ts[0] && s[n + 1..] == Concat(ts[2..]);
      assert ts == [ts[0]] + [[d]] + ts[2..];
    }
  }

  /** The tokens without the delimiters. */
  function Pieces(ts: seq<string>, d: char): seq<string> {
    if ts == [] then []
    else (if ts[0] == [d] then [] else [ts[0]]) + Pieces(ts[1..], d)
  }

  function Fields(s: string, d: char): seq<string> {
    Pieces(Tokens(s, d), d)
  }

  method Split(str: string, delimiter: char) returns (result: seq<string>)
    ensures result == Fields(str, delimiter)
  {
    hide Tokens;
    result := [];
    var initial := SplitWithDelimiter(str, delimiter);
    var idx := 0;
    assert initial[0..] == initial;
    while idx < |initial|
      invariant 0 <= idx <= |initial|
      invariant Fields(str, delimiter) == result + Pieces(initial[idx..], delimiter)
    {
      assert initial[idx..][1..] == initial[idx + 1..];
      if initial[idx] != [delimiter] {
        result := result + [initial[idx]];
      }
      idx := idx + 1;
    }
  }

  lemma PiecesStep(t: string, ts: seq<string>, d: char)
    ensures Pieces([t] + ts, d) == (if t == [d] then [] else [t]) + Pieces(ts, d)
  {
    assert ([t] + ts)[1..] == ts;
  }

  /** A field and a delimiter in front of anything. */
  lemma FieldFirst(x: string, rest: string, d: char)
    requires d !in x
    ensures Fields(x + [d] + rest, d) == (if x == "" then [] else [x]) + Fields(rest, d)
  {
    hide Tokens, Pieces;
    var s := x + [d] + rest;
    NextToken(s, d, |x|);
    assert s[..|x|] == x && s[|x| + 1..] == rest;
    var ts := Tokens(rest, d);
    PiecesStep([d], ts, d);
    if x == "" {
      assert Tokens(s, d) == [[d]] + ts;
    } else {
      assert Tokens(s, d) == [x] + ([[d]] + ts);
      PiecesStep(x, [[d]] + ts, d);
    }
  }

  lemma FieldAlone(x: string, d: char)
    requires d !in x
    ensures Fields(x, d) == if x == "" then [] else [x]
  {
    LastToken(x, d);
    if x != "" { assert Pieces([x], d) == [x] + Pieces([], d); }
  }
}
