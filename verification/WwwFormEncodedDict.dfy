/** Dictionaries as the bodies of forms, with percent-encoding (section 2.1 of RFC 3986). */
module WwwFormEncodedDictModel {
  import opened Strings
  import opened StringUtilsModel

  predicate IsAlnum(c: char) {
    'a' <= c <= 'z' || 'A' <= c <= 'Z' || '0' <= c <= '9'
  }

  /** What one byte becomes.  A byte above 127 is a negative number, of whose eight hexadecimal digits the buffer
      holds the first three. */
  function Escaped(c: char): string {
    if IsAlnum(c) then [c]
    else if c as int < 128 then ['%', HexDigit(c as int / 16), HexDigit(c as int % 16)]
    else "%fff"
  }

  function UrlEncode(s: string): string {
    if s == "" then "" else Escaped(s[0]) + UrlEncode(s[1..])
  }

  method UrlEncodeString(str: string) returns (encoded: string)
    ensures encoded == UrlEncode(str)
  {
    hide Escaped;
    encoded := "";
    var i := 0;
    assert str[0..] == str;
    while i < |str|
      invariant 0 <= i <= |str|
      invariant UrlEncode(str) == encoded + UrlEncode(str[i..])
    {
      assert str[i..][1..] == str[i + 1..];
      encoded := encoded + Escaped(str[i]);
      i := i + 1;
    }
  }

  // What the encoded text is

  /** A character in its place: letters and digits stand for themselves, any other seven-bit character is a percent
      sign and its two hexadecimal digits, and what is in front and behind is encoded for itself. */
  lemma {:induction false} UrlEncodedAt(a: string, c: char, b: string)
    ensures 'a' <= c <= 'z' || 'A' <= c <= 'Z' || '0' <= c <= '9' ==>
              UrlEncode(a + [c] + b) == UrlEncode(a) + [c] + UrlEncode(b)
    ensures c as int < 128 && !('a' <= c <= 'z' || 'A' <= c <= 'Z' || '0' <= c <= '9') ==>
              UrlEncode(a + [c] + b)
              == UrlEncode(a) + ['%', "0123456789abcdef"[c as int / 16], "0123456789abcdef"[c as int % 16]]
                 + UrlEncode(b)
    ensures c as int >= 128 ==> UrlEncode(a + [c] + b) == UrlEncode(a) + "%fff" + UrlEncode(b)
  {
    hide Escaped, UrlEncode;
    UrlEncodedOne(c, b);
    EscapedIs(c);
    UrlEncodedConcat(a, [c] + b);
    assert a + [c] + b == a + ([c] + b);
    assert UrlEncode(a) + (Escaped(c) + UrlEncode(b)) == UrlEncode(a) + Escaped(c) + UrlEncode(b);
  }

  lemma UrlEncodedOne(c: char, b: string)
    ensures UrlEncode([c] + b) == Escaped(c) + UrlEncode(b)
  {
    assert ([c] + b)[1..] == b;
  }

  lemma EscapedIs(c: char)
    ensures Escaped(c) == if 'a' <= c <= 'z' || 'A' <= c <= 'Z' || '0' <= c <= '9' then [c]
                          else if c as int < 128
                          then ['%', "0123456789abcdef"[c as int / 16], "0123456789abcdef"[c as int % 16]]
                          else "%fff"
  {
  }

  lemma {:induction false} UrlEncodedConcat(a: string, b: string)
    ensures UrlEncode(a + b) == UrlEncode(a) + UrlEncode(b)
    decreases |a|
  {
    hide Escaped;
    if a == "" {
      assert a + b == b;
    } else {
      UrlEncodedConcat(a[1..], b);
      assert (a + b)[1..] == a[1..] + b;
    }
  }

  /** The encoded text has letters, digits and percent signs, and is the text itself exactly if that has only letters
      and digits. */
  lemma {:induction false} UrlEncodedText(s: string)
    ensures forall i :: 0 <= i < |UrlEncode(s)| ==>
              var c := UrlEncode(s)[i];
              c == '%' || 'a' <= c <= 'z' || 'A' <= c <= 'Z' || '0' <= c <= '9'
    ensures UrlEncode(s) == s <==>
              forall i :: 0 <= i < |s| ==> 'a' <= s[i] <= 'z' || 'A' <= s[i] <= 'Z' || '0' <= s[i] <= '9'
    ensures |UrlEncode(s)| >= |s|
    decreases |s|
  {
    hide Escaped;
    if s != "" {
      var rest := s[1..];
      UrlEncodedText(rest);
      EscapedIs(s[0]);
      EscapedChars(s[0]);
      assert forall i :: 1 <= i < |s| ==> s[i] == rest[i - 1];
      assert s == [s[0]] + rest;
      if Escaped(s[0]) == [s[0]] {
        assert UrlEncode(s) == s <==> UrlEncode(rest) == rest by {
          assert UrlEncode(s)[1..] == UrlEncode(rest);
        }
      }
    }
  }

  lemma EscapedChars(c: char)
    ensures |Escaped(c)| == 1 || |Escaped(c)| >= 3
    ensures forall i :: 0 <= i < |Escaped(c)| ==>
              var e := Escaped(c)[i];
              e == '%' || 'a' <= e <= 'z' || 'A' <= e <= 'Z' || '0' <= e <= '9'
  {
    if !IsAlnum(c) && c as int < 128 {
      HexDigitIs(c as int / 16);
      HexDigitIs(c as int % 16);
    }
  }

  lemma HexDigitIs(n: nat)
    requires n < 16
    ensures 'a' <= HexDigit(n) <= 'f' || '0' <= HexDigit(n) <= '9'
  {
  }

  // Decoding.  What `sscanf` makes of two characters is a parameter: of two hexadecimal digits it makes their
  // value, of anything else whatever it likes.

  datatype Scanned = Digits(value: int) | NoDigits

  type Scan = string -> Scanned

  ghost predicate ReadsHex(scan: Scan) {
    forall m, n :: 0 <= m < 16 && 0 <= n < 16 ==> scan([HexDigit(m), HexDigit(n)]) == Digits(16 * m + n)
  }

  datatype Text = Text(s: string) | Failure

  function Append(s: string, t: Text): Text {
    match t
    case Failure => Failure
    case Text(r) => Text(s + r)
  }

  /** The first two characters of a token behind a percent sign, as a byte, and the rest of it. */
  function Unescaped(scan: Scan, line: string): Text {
    match scan(if |line| < 2 then line else line[..2])
    case NoDigits => Failure
    case Digits(value) => if |line| < 2 then Failure else Text([(value % 256) as char] + line[2..])
  }

  function DecodeTokens(scan: Scan, lines: seq<string>, nextStartsWithHex: bool): Text
    decreases |lines|
  {
    if lines == [] then Text("")
    else if lines[0] == "%" then DecodeTokens(scan, lines[1..], true)
    else if nextStartsWithHex then
      match Unescaped(scan, lines[0])
      case Failure => Failure
      case Text(s) => Append(s, DecodeTokens(scan, lines[1..], false))
    else Append(lines[0], DecodeTokens(scan, lines[1..], false))
  }

  function UrlDecode(scan: Scan, s: string): Text {
    DecodeTokens(scan, Tokens(s, '%'), false)
  }

  method UrlDecodeString(scan: Scan, str: string) returns (r: Text)
    ensures r == UrlDecode(scan, str)
  {
    hide Tokens, Unescaped;
    var lines := SplitWithDelimiter(str, '%');
    var nextStartsWithHex := false;
    var decoded := "";
    var i := 0;
    assert lines[0..] == lines;
    AppendNothing(DecodeTokens(scan, lines, false));
    while i < |lines|
      invariant 0 <= i <= |lines|
      invariant UrlDecode(scan, str) == Append(decoded, DecodeTokens(scan, lines[i..], nextStartsWithHex))
    {
      var line := lines[i];
      assert lines[i..][1..] == lines[i + 1..];
      if line == "%" {
        nextStartsWithHex := true;
      } else if nextStartsWithHex {
        match Unescaped(scan, line)
        case Failure => return Failure;
        case Text(s) =>
          AppendTwice(decoded, s, DecodeTokens(scan, lines[i + 1..], false));
          decoded := decoded + s;
          nextStartsWithHex := false;
      } else {
        AppendTwice(decoded, line, DecodeTokens(scan, lines[i + 1..], false));
        decoded := decoded + line;
      }
      i := i + 1;
    }
    assert decoded + "" == decoded;
    r := Text(decoded);
  }

  lemma AppendTwice(a: string, b: string, t: Text)
    ensures Append(a, Append(b, t)) == Append(a + b, t)
  {
    if t.Text? { assert a + (b + t.s) == a + b + t.s; }
  }

  lemma AppendNothing(t: Text)
    ensures Append("", t) == t
  {
    if t.Text? { assert "" + t.s == t.s; }
  }

  // The round trip of one string

  /** A text without percent signs in front of any text joins its first token. */
  lemma TokensBehind(x: string, t: string)
    requires x != "" && '%' !in x
    ensures Tokens(x + t, '%') == if t == "" || t[0] == '%' then [x] + Tokens(t, '%')
                                  else [x + Tokens(t, '%')[0]] + Tokens(t, '%')[1..]
    ensures t != "" ==> Tokens(t, '%') != []
    ensures t != "" && t[0] != '%' ==> Tokens(t, '%')[0] != "%" && '%' !in Tokens(t, '%')[0]
    ensures t != "" && t[0] == '%' ==> Tokens(t, '%')[0] == "%"
  {
    hide Tokens;
    var i := FirstOf(t, '%');
    if t == "" {
      LastToken(x + t, '%');
      LastToken(t, '%');
      assert x + t == x;
      assert [x] + [] == [x];
    } else if i == |t| {
      LastToken(t, '%');
      LastToken(x + t, '%');
    } else {
      NextToken(t, '%', i);
      NextToken(x + t, '%', |x| + i);
      assert (x + t)[..|x| + i] == x + t[..i] && (x + t)[|x| + i + 1..] == t[i + 1..];
      if i == 0 {
        assert x + t[..0] == x;
        assert Tokens(t, '%') == [] + [['%']] + Tokens(t[1..], '%');
      }
    }
  }

  lemma DecodePlain(scan: Scan, x: string, t: string)
    requires x != "" && '%' !in x
    ensures UrlDecode(scan, x + t) == Append(x, UrlDecode(scan, t))
  {
    hide Tokens;
    TokensBehind(x, t);
    var ts := Tokens(t, '%');
    assert x[0] != '%';
    if t == "" || t[0] == '%' {
      assert ([x] + ts)[1..] == ts;
    } else {
      var first := x + ts[0];
      assert first[0] == x[0];
      assert ([first] + ts[1..])[1..] == ts[1..];
      AppendTwice(x, ts[0], DecodeTokens(scan, ts[1..], false));
    }
  }

  /** Behind a percent sign, two characters are taken together and the rest is taken as it would be alone. */
  lemma DecodeBehind(scan: Scan, x: string, t: string)
    requires |x| == 2 && '%' !in x
    ensures DecodeTokens(scan, Tokens(x + t, '%'), true) ==
              match Unescaped(scan, x) case Failure => Failure case Text(s) => Append(s, UrlDecode(scan, t))
  {
    hide Tokens, Unescaped;
    TokensBehind(x, t);
    var ts := Tokens(t, '%');
    if t == "" || t[0] == '%' {
      assert ([x] + ts)[1..] == ts;
    } else {
      assert ([x + ts[0]] + ts[1..])[1..] == ts[1..];
      UnescapedMore(scan, x, ts[0]);
      match Unescaped(scan, x)
      case Failure =>
      case Text(s) => AppendTwice(s, ts[0], DecodeTokens(scan, ts[1..], false));
    }
  }

  lemma UnescapedMore(scan: Scan, x: string, more: string)
    requires |x| == 2
    ensures Unescaped(scan, x + more) == match Unescaped(scan, x) case Failure => Failure case Text(s) => Text(s + more)
  {
    assert (x + more)[..2] == x && x[..2] == x && (x + more)[2..] == more && x[2..] == "";
    match scan(x)
    case NoDigits =>
    case Digits(value) => assert [(value % 256) as char] + "" + more == [(value % 256) as char] + more;
  }

  lemma HexRead(scan: Scan, m: nat, n: nat)
    requires ReadsHex(scan) && m < 16 && n < 16
    ensures '%' !in [HexDigit(m), HexDigit(n)]
    ensures Unescaped(scan, [HexDigit(m), HexDigit(n)]) == Text([(16 * m + n) as char])
  {
    var x := [HexDigit(m), HexDigit(n)];
    HexDigitIs(m);
    HexDigitIs(n);
    assert x[..2] == x && x[2..] == "";
    assert [(16 * m + n) as char] + "" == [(16 * m + n) as char];
  }

  lemma DecodeEscape(scan: Scan, m: nat, n: nat, t: string)
    requires ReadsHex(scan) && m < 16 && n < 16
    ensures UrlDecode(scan, ['%', HexDigit(m), HexDigit(n)] + t) == Append([(16 * m + n) as char], UrlDecode(scan, t))
  {
    hide Tokens, UrlDecode, Unescaped, HexDigit, ReadsHex;
    var x := [HexDigit(m), HexDigit(n)];
    assert ['%', HexDigit(m), HexDigit(n)] + t == ['%'] + (x + t);
    DecodePercent(scan, x + t);
    HexRead(scan, m, n);
    DecodeBehind(scan, x, t);
  }

  lemma DecodePercent(scan: Scan, t: string)
    ensures UrlDecode(scan, ['%'] + t) == DecodeTokens(scan, Tokens(t, '%'), true)
  {
    hide Tokens;
    var s := ['%'] + t;
    NextToken(s, '%', 0);
    assert s[1..] == t;
    assert ([] + [['%']] + Tokens(t, '%'))[1..] == Tokens(t, '%');
  }

  /** What a string comes back as. */
  function Returned(s: string): string {
    if s == "" then "" else (if s[0] as int < 128 then [s[0]] else [255 as char, 'f']) + Returned(s[1..])
  }

  predicate SevenBit(s: string) {
    forall i :: 0 <= i < |s| ==> s[i] as int < 128
  }

  lemma {:induction false} DecodeEncoded(scan: Scan, s: string)
    requires ReadsHex(scan)
    ensures UrlDecode(scan, UrlEncode(s)) == Text(Returned(s))
    decreases |s|
  {
    hide Tokens, UrlDecode, ReadsHex;
    if s == "" {
      DecodeNothing(scan);
    } else {
      DecodeEncoded(scan, s[1..]);
      var rest := UrlEncode(s[1..]);
      DecodeOne(scan, s[0], rest);
    }
  }

  lemma DecodeNothing(scan: Scan)
    ensures UrlDecode(scan, "") == Text("")
  {
  }

  lemma DecodeOne(scan: Scan, c: char, rest: string)
    requires ReadsHex(scan)
    ensures UrlDecode(scan, Escaped(c) + rest)
            == Append(if c as int < 128 then [c] else [255 as char, 'f'], UrlDecode(scan, rest))
  {
    hide Tokens, UrlDecode, ReadsHex;
    if IsAlnum(c) {
      DecodePlain(scan, [c], rest);
    } else if c as int < 128 {
      DecodeEscape(scan, c as int / 16, c as int % 16, rest);
    } else {
      assert HexDigit(15) == 'f';
      assert Escaped(c) + rest == ['%', 'f', 'f'] + (['f'] + rest);
      DecodeEscape(scan, 15, 15, ['f'] + rest);
      DecodePlain(scan, ['f'], rest);
      AppendTwice([255 as char], ['f'], UrlDecode(scan, rest));
    }
  }

  lemma {:induction false} ReturnedLength(s: string)
    ensures |Returned(s)| >= |s|
    ensures SevenBit(s) ==> Returned(s) == s
    ensures !SevenBit(s) ==> |Returned(s)| > |s|
    decreases |s|
  {
    if s != "" {
      ReturnedLength(s[1..]);
      assert SevenBit(s) <==> s[0] as int < 128 && SevenBit(s[1..]) by {
        assert forall i :: 1 <= i < |s| ==> s[i] == s[1..][i - 1];
      }
    }
  }

  /** Decoding gives back what was encoded, exactly for strings of seven-bit characters. */
  lemma UrlRoundTrip(scan: Scan, s: string)
    requires ReadsHex(scan)
    ensures UrlDecode(scan, UrlEncode(s)) == Text(s) <==> SevenBit(s)
  {
    hide UrlDecode, ReadsHex, SevenBit;
    DecodeEncoded(scan, s);
    ReturnedLength(s);
  }

  // Which texts are decoded

  /** Behind a percent sign there are two characters that are read as a number. */
  predicate Readable(scan: Scan, token: string) {
    |token| >= 2 && scan(token[..2]).Digits?
  }

  /** What a token adds to the text: a percent sign nothing, anything behind one a byte and its rest. */
  function Piece(scan: Scan, token: string, behind: bool): string {
    if token == "%" then ""
    else if behind && Readable(scan, token) then [(scan(token[..2]).value % 256) as char] + token[2..]
    else token
  }

  function DecodedPieces(scan: Scan, lines: seq<string>, behind: bool): (pieces: seq<string>)
    ensures |pieces| == |lines|
  {
    seq(|lines|, k requires 0 <= k < |lines| => Piece(scan, lines[k], k > 0 || behind))
  }

  predicate AllReadable(scan: Scan, lines: seq<string>, behind: bool) {
    forall k :: 0 <= k < |lines| && lines[k] != "%" && (k > 0 || behind) ==> Readable(scan, lines[k])
  }

  lemma PiecesNext(scan: Scan, lines: seq<string>, behind: bool, next: bool)
    requires lines != [] && (next || lines[1..] == [] || lines[1] == "%")
    ensures DecodedPieces(scan, lines, behind)
            == [Piece(scan, lines[0], behind)] + DecodedPieces(scan, lines[1..], next)
    ensures AllReadable(scan, lines, behind)
            <==> (lines[0] != "%" && behind ==> Readable(scan, lines[0])) && AllReadable(scan, lines[1..], next)
  {
    hide Readable;
    var rest := lines[1..];
    assert forall k :: 1 <= k < |lines| ==> lines[k] == rest[k - 1];
    if AllReadable(scan, lines, behind) {
      forall k | 0 <= k < |rest| && rest[k] != "%" && (k > 0 || next)
        ensures Readable(scan, rest[k])
      {
        assert lines[k + 1] == rest[k];
      }
    }
  }

  lemma ConcatFirst(first: string, rest: seq<string>)
    ensures Concat([first] + rest) == first + Concat(rest)
  {
    assert ([first] + rest)[1..] == rest;
  }

  lemma AlternateNext(lines: seq<string>)
    requires Alternate(lines, '%') && lines != []
    ensures Alternate(lines[1..], '%')
    ensures lines[0] != "%" && |lines| > 1 ==> lines[1] == "%"
  {
    assert forall k :: 0 <= k < |lines| - 1 ==> lines[1..][k] == lines[k + 1];
    if |lines| > 1 { assert lines[1 - 1] == ['%'] || lines[1] == ['%']; }
  }

  lemma {:induction false} DecodeTokensIs(scan: Scan, lines: seq<string>, behind: bool)
    requires Alternate(lines, '%')
    ensures var r := DecodeTokens(scan, lines, behind);
            r == if AllReadable(scan, lines, behind) then Text(Concat(DecodedPieces(scan, lines, behind))) else Failure
    decreases |lines|
  {
    hide Alternate, Readable, Concat, AllReadable, DecodedPieces, Piece, Unescaped;
    if lines == [] {
      ConcatNone();
      NothingToRead(scan, behind);
    } else {
      var next := lines[0] == "%";
      AlternateNext(lines);
      DecodeTokensIs(scan, lines[1..], next);
      PiecesNext(scan, lines, behind, next);
      ConcatFirst(Piece(scan, lines[0], behind), DecodedPieces(scan, lines[1..], next));
      PieceIs(scan, lines[0], behind);
      assert "" + Concat(DecodedPieces(scan, lines[1..], next)) == Concat(DecodedPieces(scan, lines[1..], next));
    }
  }

  lemma NothingToRead(scan: Scan, behind: bool)
    ensures AllReadable(scan, [], behind) && DecodedPieces(scan, [], behind) == []
  {
  }

  lemma PieceIs(scan: Scan, token: string, behind: bool)
    ensures token == "%" ==> Piece(scan, token, behind) == ""
    ensures token != "%" && !behind ==> Piece(scan, token, behind) == token
    ensures token != "%" && behind ==>
              Unescaped(scan, token) == if Readable(scan, token) then Text(Piece(scan, token, behind)) else Failure
  {
  }

  /** A text is decoded exactly if behind its percent signs there are two characters that are read as a number; then
      each such number is a byte, and the rest stays. */
  lemma DecodeAnswers(scan: Scan, s: string)
    ensures var lines := Tokens(s, '%');
            && (UrlDecode(scan, s) == Failure <==>
                  exists k :: 0 < k < |lines| && lines[k] != "%" && !(|lines[k]| >= 2 && scan(lines[k][..2]).Digits?))
            && (UrlDecode(scan, s).Text? ==> UrlDecode(scan, s).s == Concat(DecodedPieces(scan, lines, false)))
  {
    hide Tokens, Concat;
    TokensOf(s, '%');
    DecodeTokensIs(scan, Tokens(s, '%'), false);
  }

  // Dictionaries

  datatype Entry = Entry(key: string, value: string) | Bad

  datatype Parsed = Dict(values: map<string, string>) | ParseError

  function ParsePair(scan: Scan, pair: string): Entry {
    var keyValue := Fields(pair, '=');
    if |keyValue| != 2 then Bad
    else
      var key, value := UrlDecode(scan, keyValue[0]), UrlDecode(scan, keyValue[1]);
      if key.Failure? || value.Failure? then Bad else Entry(key.s, value.s)
  }

  function ParsePairs(scan: Scan, pairs: seq<string>, values: map<string, string>): Parsed
    decreases |pairs|
  {
    if pairs == [] then Dict(values)
    else
      match ParsePair(scan, pairs[0])
      case Bad => ParseError
      case Entry(key, value) => ParsePairs(scan, pairs[1..], values[key := value])
  }

  function Parse(scan: Scan, body: string): Parsed {
    ParsePairs(scan, Fields(body, '&'), map[])
  }

  function EncodePair(key: string, value: string): string {
    UrlEncode(key) + "=" + UrlEncode(value)
  }

  /** The entries in the order of `keys`. */
  function EncodeKeys(values: map<string, string>, keys: seq<string>): string
    requires forall i :: 0 <= i < |keys| ==> keys[i] in values
  {
    if keys == [] then ""
    else
      var first := EncodePair(keys[0], values[keys[0]]);
      if |keys| == 1 then first else first + "&" + EncodeKeys(values, keys[1..])
  }

  lemma EncodeNone(values: map<string, string>)
    ensures EncodeKeys(values, []) == ""
  {
  }

  /** One entry: its key, an equals sign and its value, behind an ampersand unless it is the first. */
  function EntryText(values: map<string, string>, keys: seq<string>, i: nat): string
    requires i < |keys| && keys[i] in values
  {
    (if i == 0 then "" else "&") + UrlEncode(keys[i]) + "=" + UrlEncode(values[keys[i]])
  }

  /** The text is that of the entries, one behind the other. */
  lemma {:induction false} EncodedEntries(values: map<string, string>, keys: seq<string>)
    requires forall i :: 0 <= i < |keys| ==> keys[i] in values
    ensures EncodeKeys(values, keys)
            == Concat(seq(|keys|, i requires 0 <= i < |keys| => EntryText(values, keys, i)))
    decreases |keys|
  {
    hide EncodeKeys, Concat, UrlEncode;
    var entries := seq(|keys|, i requires 0 <= i < |keys| => EntryText(values, keys, i));
    if keys == [] {
      EncodeNone(values);
      ConcatNone();
      assert entries == [];
    } else {
      var last := |keys| - 1;
      var front := keys[..last];
      EncodedEntries(values, front);
      EncodeNext(values, front, keys[last]);
      var before := seq(last, i requires 0 <= i < last => EntryText(values, front, i));
      assert keys == front + [keys[last]];
      assert entries == before + [entries[last]];
      ConcatLast(before, entries[last]);
      if front == [] {
        EncodeNone(values);
        assert "" + UrlEncode(keys[last]) == UrlEncode(keys[last]);
      } else {
        assert EncodeKeys(values, front) + "&" + EncodePair(keys[last], values[keys[last]])
            == EncodeKeys(values, front) + entries[last];
      }
    }
  }

  lemma {:induction false} EncodeNext(values: map<string, string>, keys: seq<string>, key: string)
    requires (forall i :: 0 <= i < |keys| ==> keys[i] in values) && key in values
    ensures EncodeKeys(values, keys + [key])
            == (if keys == [] then "" else EncodeKeys(values, keys) + "&") + EncodePair(key, values[key])
    decreases |keys|
  {
    hide EncodePair;
    var all := keys + [key];
    if keys == [] {
      assert all == [key];
    } else {
      EncodeNext(values, keys[1..], key);
      assert all[1..] == keys[1..] + [key];
    }
  }

  /** Every key of the map once. */
  ghost predicate IsOrder(keys: seq<string>, values: map<string, string>) {
    && (forall i, j :: 0 <= i < j < |keys| ==> keys[i] != keys[j])
    && (forall i :: 0 <= i < |keys| ==> keys[i] in values)
    && (forall k :: k in values ==> k in keys)
  }

  /** A pair is read exactly if it is two texts that are not empty, around equals signs, and both are decoded. */
  predicate PairReads(scan: Scan, pair: string) {
    var keyValue := Fields(pair, '=');
    |keyValue| == 2 && UrlDecode(scan, keyValue[0]).Text? && UrlDecode(scan, keyValue[1]).Text?
  }

  function KeyOf(scan: Scan, pair: string): string
    requires PairReads(scan, pair)
  {
    UrlDecode(scan, Fields(pair, '=')[0]).s
  }

  function ValueOf(scan: Scan, pair: string): string
    requires PairReads(scan, pair)
  {
    UrlDecode(scan, Fields(pair, '=')[1]).s
  }

  predicate AllRead(scan: Scan, pairs: seq<string>) {
    forall i :: 0 <= i < |pairs| ==> PairReads(scan, pairs[i])
  }

  function KeysOf(scan: Scan, pairs: seq<string>): (keys: seq<string>)
    requires AllRead(scan, pairs)
    ensures |keys| == |pairs|
  {
    seq(|pairs|, i requires 0 <= i < |pairs| => KeyOf(scan, pairs[i]))
  }

  function ValuesOf(scan: Scan, pairs: seq<string>): (values: seq<string>)
    requires AllRead(scan, pairs)
    ensures |values| == |pairs|
  {
    seq(|pairs|, i requires 0 <= i < |pairs| => ValueOf(scan, pairs[i]))
  }

  /** No later one is the same. */
  predicate LastOf(keys: seq<string>, i: nat)
    requires i < |keys|
  {
    keys[i] !in keys[i + 1..]
  }

  lemma LastOfNext(key: string, keys: seq<string>, i: nat)
    requires i <= |keys|
    ensures LastOf([key] + keys, i) <==> if i == 0 then key !in keys else LastOf(keys, i - 1)
  {
    var all := [key] + keys;
    if i == 0 { assert all[1..] == keys; } else { assert all[i + 1..] == keys[i - 1 + 1..]; }
  }

  /** The dictionary has the keys and, of several with one key, the last value; and what there was before. */
  ghost predicate Holds(keys: seq<string>, values: seq<string>, before: map<string, string>, dict: map<string, string>)
    requires |keys| == |values|
  {
    && (forall k :: k in dict <==> k in before || k in keys)
    && (forall i :: 0 <= i < |keys| && LastOf(keys, i) ==> dict[keys[i]] == values[i])
    && (forall k :: k in before && k !in keys ==> dict[k] == before[k])
  }

  lemma HoldsFirst(key: string, value: string, keys: seq<string>, values: seq<string>, before: map<string, string>,
                   dict: map<string, string>)
    requires |keys| == |values| && Holds(keys, values, before[key := value], dict)
    ensures Holds([key] + keys, [value] + values, before, dict)
  {
    hide LastOf;
    var all := [key] + keys;
    forall i | 0 <= i < |all| && LastOf(all, i)
      ensures dict[all[i]] == ([value] + values)[i]
    {
      LastOfNext(key, keys, i);
      if i > 0 { assert all[i] == keys[i - 1]; }
    }
  }

  lemma PairIs(scan: Scan, pair: string)
    ensures ParsePair(scan, pair)
            == if PairReads(scan, pair) then Entry(KeyOf(scan, pair), ValueOf(scan, pair)) else Bad
  {
    hide UrlDecode, Fields;
  }

  lemma KeysNext(scan: Scan, pairs: seq<string>)
    requires pairs != [] && AllRead(scan, pairs) && AllRead(scan, pairs[1..]) && PairReads(scan, pairs[0])
    ensures KeysOf(scan, pairs) == [KeyOf(scan, pairs[0])] + KeysOf(scan, pairs[1..])
    ensures ValuesOf(scan, pairs) == [ValueOf(scan, pairs[0])] + ValuesOf(scan, pairs[1..])
  {
    hide PairReads, KeyOf, ValueOf;
  }

  lemma AllReadNext(scan: Scan, pairs: seq<string>)
    requires pairs != []
    ensures AllRead(scan, pairs) <==> PairReads(scan, pairs[0]) && AllRead(scan, pairs[1..])
  {
    hide PairReads;
    assert forall i :: 1 <= i < |pairs| ==> pairs[i] == pairs[1..][i - 1];
  }

  lemma {:induction false} ParsePairsIs(scan: Scan, pairs: seq<string>, before: map<string, string>)
    ensures ParsePairs(scan, pairs, before).Dict? <==> AllRead(scan, pairs)
    ensures AllRead(scan, pairs) ==>
              Holds(KeysOf(scan, pairs), ValuesOf(scan, pairs), before, ParsePairs(scan, pairs, before).values)
    decreases |pairs|
  {
    hide AllRead, Holds, ParsePair, PairReads, KeyOf, ValueOf, KeysOf, ValuesOf;
    if pairs == [] {
      NoPairs(scan, before);
    } else {
      AllReadNext(scan, pairs);
      PairIs(scan, pairs[0]);
      if PairReads(scan, pairs[0]) {
        var after := before[KeyOf(scan, pairs[0]) := ValueOf(scan, pairs[0])];
        ParsePairsIs(scan, pairs[1..], after);
        if AllRead(scan, pairs) {
          KeysNext(scan, pairs);
          HoldsFirst(KeyOf(scan, pairs[0]), ValueOf(scan, pairs[0]), KeysOf(scan, pairs[1..]), ValuesOf(scan, pairs[1..]),
              before, ParsePairs(scan, pairs[1..], after).values);
        }
      }
    }
  }

  lemma NoPairs(scan: Scan, before: map<string, string>)
    ensures AllRead(scan, []) && KeysOf(scan, []) == [] && ValuesOf(scan, []) == []
    ensures Holds([], [], before, before)
  {
  }

  /** A body is parsed exactly if all its pairs are read, and then the dictionary holds what they say. */
  lemma ParseAnswers(scan: Scan, body: string)
    ensures var r, pairs := Parse(scan, body), Fields(body, '&');
            && (r.Dict? <==> AllRead(scan, pairs))
            && (r.Dict? ==> Holds(KeysOf(scan, pairs), ValuesOf(scan, pairs), map[], r.values))
  {
    hide AllRead, Holds, ParsePairs, Fields, KeysOf, ValuesOf;
    ParsePairsIs(scan, Fields(body, '&'), map[]);
  }

  // The order of the keys

  /** The order in which the code's map holds its keys: at the first difference the smaller character comes first, and
      a text comes in front of those that it starts. */
  predicate Before(a: string, b: string)
    decreases |a|
  {
    b != "" && (a == "" || a[0] < b[0] || (a[0] == b[0] && Before(a[1..], b[1..])))
  }

  predicate Ascending(keys: seq<string>) {
    forall i, j :: 0 <= i < j < |keys| ==> Before(keys[i], keys[j])
  }

  lemma {:induction false} BeforeTotal(a: string, b: string)
    ensures a == b || Before(a, b) || Before(b, a)
    decreases |a|
  {
    if a != "" && b != "" && a[0] == b[0] {
      BeforeTotal(a[1..], b[1..]);
      assert a == [a[0]] + a[1..] && b == [b[0]] + b[1..];
    }
  }

  lemma {:induction false} BeforeTransitive(a: string, b: string, c: string)
    requires Before(a, b) && Before(b, c)
    ensures Before(a, c)
    decreases |a|
  {
    if a != "" && a[0] == b[0] == c[0] { BeforeTransitive(a[1..], b[1..], c[1..]); }
  }

  lemma {:induction false} NotBeforeItself(a: string)
    ensures !Before(a, a)
    decreases |a|
  {
    if a != "" { NotBeforeItself(a[1..]); }
  }

  lemma AscendingDiffer(keys: seq<string>)
    requires Ascending(keys)
    ensures forall i, j :: 0 <= i < j < |keys| ==> keys[i] != keys[j]
  {
    hide Before;
    forall i, j | 0 <= i < j < |keys|
      ensures keys[i] != keys[j]
    {
      NotBeforeItself(keys[i]);
      assert Before(keys[i], keys[j]);
    }
  }

  ghost predicate AllBefore(keys: seq<string>, rest: set<string>) {
    forall i, k :: 0 <= i < |keys| && k in rest ==> Before(keys[i], k)
  }

  lemma NoKeys(rest: set<string>)
    ensures Ascending([]) && AllBefore([], rest)
  {
  }

  lemma NextKey(keys: seq<string>, rest: set<string>, key: string)
    requires Ascending(keys) && AllBefore(keys, rest) && key in rest && IsLeast(key, rest)
    ensures Ascending(keys + [key]) && AllBefore(keys + [key], rest - {key})
  {
    hide Before;
  }

  predicate IsLeast(key: string, keys: set<string>) {
    forall k :: k in keys ==> k == key || Before(key, k)
  }

  lemma {:induction false} HasLeast(keys: set<string>)
    requires keys != {}
    ensures exists key :: key in keys && IsLeast(key, keys)
    decreases |keys|
  {
    hide Before;
    var some :| some in keys;
    var others := keys - {some};
    if others == {} {
      assert keys == {some};
      assert IsLeast(some, keys);
    } else {
      HasLeast(others);
      var least :| least in others && IsLeast(least, others);
      BeforeTotal(some, least);
      var key := if Before(least, some) then least else some;
      forall k | k in keys
        ensures k == key || Before(key, k)
      {
        if k in others && k != least && key == some { BeforeTransitive(some, least, k); }
      }
      assert IsLeast(key, keys);
    }
  }

  class WwwFormEncodedDict {
    var values: map<string, string>

    constructor ()
      ensures values == map[]
    {
      values := map[];
    }

    /** The parsing constructor; a failure stands for its exceptions. */
    method Load(scan: Scan, body: string) returns (ok: bool)
      modifies this
      ensures ok <==> Parse(scan, body).Dict?
      ensures ok ==> Dict(values) == Parse(scan, body)
    {
      hide Tokens, UrlDecode;
      values := map[];
      var pairs := Split(body, '&');
      var i := 0;
      assert pairs[0..] == pairs;
      while i < |pairs|
        invariant 0 <= i <= |pairs|
        invariant Parse(scan, body) == ParsePairs(scan, pairs[i..], values)
      {
        assert pairs[i..][1..] == pairs[i + 1..];
        var keyValue := Split(pairs[i], '=');
        if |keyValue| != 2 {
          return false;
        }
        var key := UrlDecodeString(scan, keyValue[0]);
        if key.Failure? {
          return false;
        }
        var value := UrlDecodeString(scan, keyValue[1]);
        if value.Failure? {
          return false;
        }
        values := values[key.s := value.s];
        i := i + 1;
      }
      ok := true;
    }

    method Set(key: string, value: string)
      modifies this
      ensures values == old(values)[key := value]
    {
      values := values[key := value];
    }

    /** Encodes the entries one after the other, by ascending keys. */
    method Encode() returns (output: string, ghost keys: seq<string>)
      ensures IsOrder(keys, values) && Ascending(keys) && output == EncodeKeys(values, keys)
    {
      hide EncodeKeys, Ascending, AllBefore, IsLeast, UrlEncode;
      output := "";
      EncodeNone(values);
      keys := [];
      NoKeys(values.Keys);
      var rest := values.Keys;
      var atBegin := true;
      while rest != {}
        invariant rest <= values.Keys
        invariant Ascending(keys) && AllBefore(keys, rest)
        invariant forall i :: 0 <= i < |keys| ==> keys[i] in values
        invariant forall k :: k in values ==> k in keys || k in rest
        invariant atBegin <==> keys == []
        invariant output == EncodeKeys(values, keys)
        decreases |rest|
      {
        HasLeast(rest);
        var key: string :| key in rest && IsLeast(key, rest);
        EncodeNext(values, keys, key);
        NextKey(keys, rest, key);
        if !atBegin {
          output := output + "&";
        }
        atBegin := false;
        var encodedKey := UrlEncodeString(key);
        var encodedValue := UrlEncodeString(values[key]);
        output := output + encodedKey + "=" + encodedValue;
        keys := keys + [key];
        rest := rest - {key};
      }
      AscendingDiffer(keys);
    }
  }

  // The round trip of a dictionary

  lemma {:induction false} EncodedClean(s: string)
    ensures '&' !in UrlEncode(s) && '=' !in UrlEncode(s)
    ensures UrlEncode(s) == "" <==> s == ""
    decreases |s|
  {
    if s != "" {
      EncodedClean(s[1..]);
      EscapedClean(s[0]);
    }
  }

  lemma EscapedClean(c: char)
    ensures '&' !in Escaped(c) && '=' !in Escaped(c) && Escaped(c) != ""
  {
  }

  /** A pair is read back exactly if neither its key nor its value is empty: an empty one leaves no field. */
  lemma PairReturns(scan: Scan, key: string, value: string)
    requires ReadsHex(scan)
    ensures ParsePair(scan, EncodePair(key, value))
            == if key == "" || value == "" then Bad else Entry(Returned(key), Returned(value))
    ensures '&' !in EncodePair(key, value) && EncodePair(key, value) != ""
  {
    hide UrlEncode, UrlDecode, Fields, Returned, ReadsHex;
    EncodedClean(key);
    EncodedClean(value);
    FieldAlone(UrlEncode(value), '=');
    FieldFirst(UrlEncode(key), UrlEncode(value), '=');
    DecodeEncoded(scan, key);
    DecodeEncoded(scan, value);
    assert "=" == ['='];
  }

  lemma {:induction false} FieldsOfKeys(values: map<string, string>, keys: seq<string>, scan: Scan)
    requires ReadsHex(scan) && (forall i :: 0 <= i < |keys| ==> keys[i] in values) && keys != []
    ensures var first := EncodePair(keys[0], values[keys[0]]);
            Fields(EncodeKeys(values, keys), '&') == [first] + Fields(EncodeKeys(values, keys[1..]), '&')
  {
    hide EncodePair, Fields, ReadsHex;
    var first := EncodePair(keys[0], values[keys[0]]);
    PairReturns(scan, keys[0], values[keys[0]]);
    if |keys| == 1 {
      FieldAlone(first, '&');
      FieldAlone("", '&');
    } else {
      FieldFirst(first, EncodeKeys(values, keys[1..]), '&');
      assert "&" == ['&'];
    }
  }

  predicate SomeEmpty(values: map<string, string>, keys: seq<string>)
    requires forall i :: 0 <= i < |keys| ==> keys[i] in values
  {
    exists i :: 0 <= i < |keys| && (keys[i] == "" || values[keys[i]] == "")
  }

  /** What the entries come back as, added to a map. */
  function AddReturned(m: map<string, string>, values: map<string, string>, keys: seq<string>): map<string, string>
    requires forall i :: 0 <= i < |keys| ==> keys[i] in values
    decreases |keys|
  {
    if keys == [] then m
    else AddReturned(m[Returned(keys[0]) := Returned(values[keys[0]])], values, keys[1..])
  }

  lemma {:induction false} ParseKeys(scan: Scan, values: map<string, string>, keys: seq<string>, m: map<string, string>)
    requires ReadsHex(scan) && (forall i :: 0 <= i < |keys| ==> keys[i] in values)
    ensures ParsePairs(scan, Fields(EncodeKeys(values, keys), '&'), m)
            == if SomeEmpty(values, keys) then ParseError else Dict(AddReturned(m, values, keys))
    decreases |keys|
  {
    hide EncodePair, EncodeKeys, Fields, ReadsHex, ParsePair, Returned;
    if keys == [] {
      EncodeNone(values);
      FieldAlone("", '&');
    } else {
      var key, value := keys[0], values[keys[0]];
      var first, rest := EncodePair(key, value), Fields(EncodeKeys(values, keys[1..]), '&');
      FieldsOfKeys(values, keys, scan);
      PairReturns(scan, key, value);
      assert ([first] + rest)[1..] == rest;
      ParseKeys(scan, values, keys[1..], m[Returned(key) := Returned(value)]);
      assert SomeEmpty(values, keys) <==> key == "" || value == "" || SomeEmpty(values, keys[1..]) by {
        assert forall i :: 1 <= i < |keys| ==> keys[i] == keys[1..][i - 1];
      }
    }
  }

  predicate AllSevenBit(values: map<string, string>) {
    forall k :: k in values ==> SevenBit(k) && SevenBit(values[k])
  }

  /** With seven-bit entries only, the map that comes back is the map. */
  lemma {:induction false} ReturnedSame(m: map<string, string>, values: map<string, string>, keys: seq<string>)
    requires (forall i :: 0 <= i < |keys| ==> keys[i] in values) && AllSevenBit(values)
    ensures forall k :: k in AddReturned(m, values, keys) <==> k in m || k in keys
    ensures forall k :: k in AddReturned(m, values, keys) ==>
              AddReturned(m, values, keys)[k] == if k in keys then values[k] else m[k]
    decreases |keys|
  {
    hide Returned, SevenBit;
    if keys != [] {
      ReturnedLength(keys[0]);
      ReturnedLength(values[keys[0]]);
      ReturnedSame(m[keys[0] := values[keys[0]]], values, keys[1..]);
      assert forall k :: k in keys <==> k == keys[0] || k in keys[1..];
    }
  }

  /** Every key comes back in some form, and a map with the right keys has the right values only for values that
      come back the same. */
  lemma {:induction false} KeyReturns(m: map<string, string>, values: map<string, string>, keys: seq<string>, i: nat)
    requires (forall j :: 0 <= j < |keys| ==> keys[j] in values) && i < |keys|
    ensures Returned(keys[i]) in AddReturned(m, values, keys)
    decreases |keys|
  {
    hide Returned;
    var m' := m[Returned(keys[0]) := Returned(values[keys[0]])];
    if i == 0 {
      KeysStay(m', values, keys[1..], Returned(keys[0]));
    } else {
      KeyReturns(m', values, keys[1..], i - 1);
    }
  }

  lemma {:induction false} KeysStay(m: map<string, string>, values: map<string, string>, keys: seq<string>, k: string)
    requires (forall j :: 0 <= j < |keys| ==> keys[j] in values) && k in m
    ensures k in AddReturned(m, values, keys)
    decreases |keys|
  {
    hide Returned;
    if keys != [] {
      KeysStay(m[Returned(keys[0]) := Returned(values[keys[0]])], values, keys[1..], k);
    }
  }

  /** If all keys come back the same, so must the values. */
  lemma {:induction false} ValueReturns(m: map<string, string>, values: map<string, string>, keys: seq<string>, i: nat)
    requires (forall j :: 0 <= j < |keys| ==> keys[j] in values && SevenBit(keys[j])) && i < |keys|
    requires forall j, k :: 0 <= j < k < |keys| ==> keys[j] != keys[k]
    ensures keys[i] in AddReturned(m, values, keys)
            && AddReturned(m, values, keys)[keys[i]] == Returned(values[keys[i]])
    decreases |keys|
  {
    hide Returned, SevenBit;
    ReturnedLength(keys[0]);
    var m' := m[keys[0] := Returned(values[keys[0]])];
    if i == 0 {
      OthersStay(m', values, keys[1..], keys[0]);
    } else {
      ValueReturns(m', values, keys[1..], i - 1);
    }
  }

  lemma {:induction false} OthersStay(m: map<string, string>, values: map<string, string>, keys: seq<string>, k: string)
    requires (forall j :: 0 <= j < |keys| ==> keys[j] in values && SevenBit(keys[j]) && keys[j] != k) && k in m
    ensures k in AddReturned(m, values, keys) && AddReturned(m, values, keys)[k] == m[k]
    decreases |keys|
  {
    hide Returned, SevenBit;
    if keys != [] {
      ReturnedLength(keys[0]);
      OthersStay(m[keys[0] := Returned(values[keys[0]])], values, keys[1..], k);
    }
  }

  /** A longest key that is not seven-bit, if there is any. */
  lemma {:induction false} Longest(keys: seq<string>) returns (i: int)
    ensures -1 <= i < |keys|
    ensures i < 0 ==> forall j :: 0 <= j < |keys| ==> SevenBit(keys[j])
    ensures i >= 0 ==>
              !SevenBit(keys[i]) && forall j :: 0 <= j < |keys| && !SevenBit(keys[j]) ==> |keys[j]| <= |keys[i]|
    decreases |keys|
  {
    hide SevenBit;
    if keys == [] {
      return -1;
    }
    var last := |keys| - 1;
    i := Longest(keys[..last]);
    assert forall j :: 0 <= j < last ==> keys[..last][j] == keys[j];
    if !SevenBit(keys[last]) && (i < 0 || |keys[i]| < |keys[last]|) {
      i := last;
    }
  }

  /** What is not seven-bit comes back longer, and still not seven-bit. */
  lemma {:induction false} NeverSevenBit(s: string)
    requires !SevenBit(s)
    ensures !SevenBit(Returned(s))
    decreases |s|
  {
    var head := if s[0] as int < 128 then [s[0]] else [255 as char, 'f'];
    assert Returned(s) == head + Returned(s[1..]);
    if s[0] as int < 128 {
      var i :| 0 <= i < |s| && s[i] as int >= 128;
      assert s[1..][i - 1] == s[i];
      NeverSevenBit(s[1..]);
      var j :| 0 <= j < |Returned(s[1..])| && Returned(s[1..])[j] as int >= 128;
      assert Returned(s)[j + 1] == Returned(s[1..])[j];
    } else {
      assert Returned(s)[0] == 255 as char;
    }
  }

  /** Parsing what was encoded gives back the dictionary, in whatever order its entries were written, exactly if
      no key and no value is empty and all of their characters are seven-bit. */
  lemma DictRoundTrip(scan: Scan, values: map<string, string>, keys: seq<string>)
    requires ReadsHex(scan) && IsOrder(keys, values)
    ensures Parse(scan, EncodeKeys(values, keys)) == Dict(values)
            <==> AllSevenBit(values) && forall k :: k in values ==> k != "" && values[k] != ""
  {
    hide Fields, EncodeKeys, ReadsHex, Returned, SevenBit, ParsePairs;
    ParseKeys(scan, values, keys, map[]);
    var m := AddReturned(map[], values, keys);
    assert SomeEmpty(values, keys) <==> exists k :: k in values && (k == "" || values[k] == "");
    if AllSevenBit(values) {
      ReturnedSame(map[], values, keys);
      assert m == values;
    } else if !SomeEmpty(values, keys) {
      NotSevenBitDiffers(values, keys);
    }
  }

  lemma NotSevenBitDiffers(values: map<string, string>, keys: seq<string>)
    requires IsOrder(keys, values) && !AllSevenBit(values)
    ensures AddReturned(map[], values, keys) != values
  {
    hide Returned, SevenBit, AddReturned;
    var i := Longest(keys);
    if i >= 0 {
      KeyReturns(map[], values, keys, i);
      ReturnedLength(keys[i]);
      NeverSevenBit(keys[i]);
      assert Returned(keys[i]) !in keys;
    } else {
      var k :| k in values && (!SevenBit(k) || !SevenBit(values[k]));
      var j :| 0 <= j < |keys| && keys[j] == k;
      ValueReturns(map[], values, keys, j);
      ReturnedLength(values[k]);
    }
  }
}
