/** Base64, section 4 of RFC 4648.  Shifts and masks are written as divisions and remainders. */
module Base64Model {

  type Byte = b: int | 0 <= b < 256 witness 0

  type Digit = d: int | 0 <= d < 64 witness 0

  const INVALID_CHAR := "error_invalid_base64_char"
  const INVALID_LENGTH := "error_invalid_base64_string_length"

  function CharValue(bits: Digit): char {
    if bits <= 25 then ('A' as int + bits) as char
    else if bits <= 51 then ('a' as int + bits - 26) as char
    else if bits <= 61 then ('0' as int + bits - 52) as char
    else if bits == 62 then '+'
    else '/'
  }

  /** The value of a character; -1 stands for the exception. */
  function ByteValue(c: char): (v: int)
    ensures -1 <= v < 64
  {
    if 'A' <= c <= 'Z' then c as int - 'A' as int
    else if 'a' <= c <= 'z' then c as int - 'a' as int + 26
    else if '0' <= c <= '9' then c as int - '0' as int + 52
    else if c == '+' then 62
    else if c == '/' then 63
    else if c == '=' then 0
    else -1
  }

  lemma CharsAreDigits(d: Digit)
    ensures ByteValue(CharValue(d)) == d && CharValue(d) != '='
  {
  }

  /** The 64 characters by their values (table 1 of RFC 4648). */
  const ALPHABET := "ABCDEFGHIJKLMNOPQRSTUVWXYZ" + "abcdefghijklmnopqrstuvwxyz" + "0123456789+/"

  lemma AlphabetWritten(d: Digit)
    ensures |ALPHABET| == 64 && CharValue(d) == ALPHABET[d]
  {
    if d <= 25 {
    } else if d <= 51 {
    }
  }

  /** A character is read as its place in the alphabet; the padding is read as 0, and nothing else is read. */
  lemma AlphabetRead(c: char)
    ensures |ALPHABET| == 64
    ensures forall d :: 0 <= d < 64 && c == ALPHABET[d] ==> ByteValue(c) == d
    ensures ByteValue('=') == 0
    ensures c !in ALPHABET && c != '=' ==> ByteValue(c) == -1
  {
    hide ByteValue, CharValue;
    forall d | 0 <= d < 64 && c == ALPHABET[d]
      ensures ByteValue(c) == d
    {
      AlphabetWritten(d);
      CharsAreDigits(d);
    }
    PaddingIsZero();
    if ByteValue(c) != -1 && c != '=' {
      ReadIsWritten(c);
      AlphabetWritten(ByteValue(c));
    }
  }

  lemma ReadIsWritten(c: char)
    requires ByteValue(c) != -1 && c != '='
    ensures CharValue(ByteValue(c)) == c
  {
  }

  // Encoding

  function EncodeChunk(data: seq<Byte>): string
    requires 1 <= |data| <= 3
  {
    var bits: int := 65536 * (data[0] as int) + (if |data| > 1 then 256 * (data[1] as int) else 0)
        + (if |data| > 2 then data[2] else 0);
    [CharValue(bits / 262144), CharValue(bits / 4096 % 64),
     if |data| > 1 then CharValue(bits / 64 % 64) else '=',
     if |data| > 2 then CharValue(bits % 64) else '=']
  }

  function Encode(data: seq<Byte>): string {
    if data == [] then ""
    else if |data| <= 3 then EncodeChunk(data)
    else EncodeChunk(data[..3]) + Encode(data[3..])
  }

  /** The chunk of at most three bytes that starts at `idx`. */
  method EncodeBase64Chunk(data: array<Byte>, idx: nat) returns (chunk: string)
    requires idx < data.Length
    ensures chunk == EncodeChunk(data[idx..Min(idx + 3, data.Length)])
  {
    var len := data.Length - idx;
    if len > 3 {
      len := 3;
    }
    var bits: int := 65536 * (data[idx] as int);
    if len > 1 {
      bits := bits + 256 * (data[idx + 1] as int);
    }
    if len > 2 {
      bits := bits + data[idx + 2];
    }
    chunk := [CharValue(bits / 262144), CharValue(bits / 4096 % 64)];
    if len == 1 {
      chunk := chunk + "==";
    } else {
      chunk := chunk + [CharValue(bits / 64 % 64)];
      if len == 2 {
        chunk := chunk + "=";
      } else {
        chunk := chunk + [CharValue(bits % 64)];
      }
    }
  }

  function Min(a: int, b: int): int {
    if a < b then a else b
  }

  method BytesToBase64(data: array<Byte>) returns (ret: string)
    ensures ret == Encode(data[..])
  {
    hide Encode, EncodeChunk;
    ret := "";
    var idx := 0;
    assert data[..] == data[0..data.Length];
    while idx < data.Length
      invariant 0 <= idx
      invariant Encode(data[..]) == ret + Encode(data[Min(idx, data.Length)..data.Length])
    {
      var chunk := EncodeBase64Chunk(data, idx);
      NextChunk(data[..], idx);
      ret := ret + chunk;
      idx := idx + 3;
    }
    assert data[data.Length..data.Length] == [];
    NoMoreChunks();
  }

  lemma NextChunk(data: seq<Byte>, idx: nat)
    requires idx < |data|
    ensures var next := Min(idx + 3, |data|);
            Encode(data[idx..|data|]) == EncodeChunk(data[idx..next]) + Encode(data[next..|data|])
  {
    hide EncodeChunk;
    var rest, next := data[idx..|data|], Min(idx + 3, |data|);
    if |rest| <= 3 {
      assert data[idx..next] == rest && data[next..|data|] == [];
    } else {
      assert rest[..3] == data[idx..next] && rest[3..] == data[next..|data|];
    }
  }

  lemma NoMoreChunks()
    ensures Encode([]) == ""
  {
  }

  // Decoding

  datatype Decoding = Rejected(error: string) | Decoded(bytes: seq<Byte>)

  /** The number of bytes that four characters stand for, or -1 if a padding character is out of place. */
  function ChunkSize(str: string, last: bool): (n: int)
    requires |str| == 4
    ensures -1 <= n <= 3 && n != 0 && (!last && n > 0 ==> n == 3)
  {
    if str[0] == '=' || str[1] == '=' then -1
    else if last then
      if str[3] == '=' then (if str[2] == '=' then 1 else 2)
      else if str[2] == '=' then -1 else 3
    else if str[2] == '=' || str[3] == '=' then -1 else 3
  }

  predicate AllKnown(str: string) {
    forall i :: 0 <= i < |str| ==> ByteValue(str[i]) >= 0
  }

  function ChunkBits(str: string): (bits: int)
    requires |str| == 4 && AllKnown(str)
    ensures 0 <= bits < 16777216
  {
    262144 * ByteValue(str[0]) + 4096 * ByteValue(str[1]) + 64 * ByteValue(str[2]) + ByteValue(str[3])
  }

  function DecodeChunk(str: string, last: bool): Decoding
    requires |str| == 4
  {
    if ChunkSize(str, last) < 0 || !AllKnown(str) then Rejected(INVALID_CHAR)
    else
      var bits := ChunkBits(str);
      Decoded([bits / 65536, bits / 256 % 256, bits % 256][..ChunkSize(str, last)])
  }

  function Prepend(bytes: seq<Byte>, r: Decoding): Decoding {
    match r
    case Rejected(_) => r
    case Decoded(rest) => Decoded(bytes + rest)
  }

  function DecodeChunks(s: string): Decoding
    requires |s| % 4 == 0
  {
    if s == "" then Decoded([])
    else
      match DecodeChunk(s[..4], |s| == 4)
      case Rejected(error) => Rejected(error)
      case Decoded(bytes) => Prepend(bytes, DecodeChunks(s[4..]))
  }

  /** The text with the padding that it lacks. */
  function Padded(s: string): string {
    if |s| % 4 == 3 then s + "=" else if |s| % 4 == 2 then s + "==" else s
  }

  function Decode(s: string): Decoding {
    if |s| % 4 == 1 then Rejected(INVALID_LENGTH) else DecodeChunks(Padded(s))
  }

  /** The length that the decoder announces for a text whose length is not one more than a multiple of four. */
  function Size(s: string): int {
    var rem, size := |s| % 4, |s| / 4 * 3;
    if rem == 3 then size + 2
    else if rem == 2 then size + 1
    else if s != "" && s[|s| - 1] == '=' then
      if |s| >= 2 && s[|s| - 2] == '=' then size - 2 else size - 1
    else size
  }

  /** A padding character where another one is then added: one byte fewer is decoded than announced. */
  predicate HalfPadded(s: string) {
    |s| % 4 == 3 && s[|s| - 1] == '='
  }

  lemma PaddedLength(s: string)
    requires s != "" && |s| % 4 != 1
    ensures var k := |s| / 4;
            |Padded(s)| == if |s| % 4 == 0 then 4 * k else 4 * k + 4
    ensures |s| % 4 == 0 ==> |s| / 4 >= 1
  {
  }

  lemma LastChunkSize(s: string)
    requires s != "" && |s| % 4 != 1
    ensures var t := Padded(s);
            && |t| % 4 == 0 && |t| >= 4
            && var n := ChunkSize(t[|t| - 4..], true);
            n > 0 ==> |t| / 4 * 3 - 3 + n == Size(s) - (if HalfPadded(s) then 1 else 0)
  {
    PaddedLength(s);
    var t, k := Padded(s), |s| / 4;
    var chunk := t[|t| - 4..];
    assert chunk[2] == t[|t| - 2] && chunk[3] == t[|t| - 1];
    if |s| % 4 == 0 {
      assert |t| / 4 == k && t == s;
    } else if |s| % 4 == 2 {
      assert |t| / 4 == k + 1 && t[|t| - 2] == '=' && t[|t| - 1] == '=';
    } else {
      assert |s| % 4 == 3 && |t| / 4 == k + 1 && t[|t| - 1] == '=' && t[|t| - 2] == s[|s| - 1];
    }
  }

  /** Nothing but the last chunk can be short, so the decoded bytes never exceed the announced length, and fall
      short of it only by one, and only for a text that is padded by half. */
  lemma {:induction false} DecodedSize(s: string, k: nat)
    requires |s| == 4 * k && k > 0 && DecodeChunks(s).Decoded?
    ensures ChunkSize(s[|s| - 4..], true) > 0
    ensures |DecodeChunks(s).bytes| == 3 * k - 3 + ChunkSize(s[|s| - 4..], true)
    decreases k
  {
    hide DecodeChunk, ChunkSize;
    ChunkShape(s[..4], |s| == 4);
    if k > 1 {
      DecodedSize(s[4..], k - 1);
      assert s[4..][|s[4..]| - 4..] == s[|s| - 4..];
    } else {
      assert s[..4] == s && s[0..] == s;
      assert DecodeChunks(s[4..]) == Decoded([]);
    }
  }

  lemma AnnouncedSize(s: string)
    requires s != "" && Decode(s).Decoded?
    ensures |Decode(s).bytes| == Size(s) - (if HalfPadded(s) then 1 else 0)
  {
    LastChunkSize(s);
    DecodedSize(Padded(s), |Padded(s)| / 4);
  }

  /** How a decoding ends: without an array for the empty text, with an exception, or with an array. */
  datatype Status = Empty | Failed(error: string) | Succeeded

  /** Writes the bytes of four characters to `bytes` from `byteIdx` on. */
  method DecodeBase64Chunk(s: string, idx: nat, bytes: array<Byte>, byteIdx: nat, last: bool) returns (ok: bool)
    requires idx + 4 <= |s|
    requires ChunkSize(s[idx..idx + 4], last) > 0 ==> byteIdx + ChunkSize(s[idx..idx + 4], last) <= bytes.Length
    modifies bytes
    ensures ok <==> DecodeChunk(s[idx..idx + 4], last).Decoded?
    ensures !ok ==> bytes[..] == old(bytes[..])
    ensures ok ==> var now := DecodeChunk(s[idx..idx + 4], last).bytes;
                   byteIdx + |now| <= bytes.Length
                   && bytes[..] == old(bytes[..byteIdx]) + now
                       + old(bytes[byteIdx + |DecodeChunk(s[idx..idx + 4], last).bytes|..])
  {
    hide ByteValue, ChunkBits;
    var str := s[idx..idx + 4];
    var numBytes := ChunkSize(str, last);
    if numBytes < 0 || !Known(str[0]) || !Known(str[1]) || !Known(str[2]) || !Known(str[3]) {
      return false;
    }
    ok := true;
    var bits := ChunkBits(str);
    ghost var before := bytes[..];
    bytes[byteIdx] := bits / 65536;
    if numBytes >= 2 {
      bytes[byteIdx + 1] := bits / 256 % 256;
    }
    if numBytes == 3 {
      bytes[byteIdx + 2] := bits % 256;
    }
    ghost var now := [bits / 65536, bits / 256 % 256, bits % 256][..numBytes];
    assert bytes[byteIdx] == now[0] && (numBytes >= 2 ==> bytes[byteIdx + 1] == now[1])
        && (numBytes == 3 ==> bytes[byteIdx + 2] == now[2]);
    assert forall k :: 0 <= k < byteIdx || byteIdx + numBytes <= k < bytes.Length ==> bytes[k] == before[k];
    WrittenInto(before, byteIdx, now, bytes[..]);
  }

  lemma WrittenInto(before: seq<Byte>, i: nat, now: seq<Byte>, after: seq<Byte>)
    requires |after| == |before| && i + |now| <= |before| && 1 <= |now| <= 3
    requires after[i] == now[0] && (|now| >= 2 ==> after[i + 1] == now[1]) && (|now| == 3 ==> after[i + 2] == now[2])
    requires forall k :: 0 <= k < i || i + |now| <= k < |before| ==> after[k] == before[k]
    ensures after == before[..i] + now + before[i + |now|..]
  {
    var all := before[..i] + now + before[i + |now|..];
    forall k | 0 <= k < |after|
      ensures after[k] == all[k]
    {
      if i <= k < i + |now| { assert all[k] == now[k - i]; }
    }
  }

  predicate Known(c: char) {
    ByteValue(c) >= 0
  }

  lemma NextFour(t: string, idx: nat)
    requires |t| % 4 == 0 && idx % 4 == 0 && idx < |t|
    ensures DecodeChunks(t[idx..]) ==
              match DecodeChunk(t[idx..idx + 4], idx + 4 == |t|)
              case Rejected(error) => Rejected(error)
              case Decoded(bytes) => Prepend(bytes, DecodeChunks(t[idx + 4..]))
  {
    hide DecodeChunk;
    assert t[idx..][..4] == t[idx..idx + 4] && t[idx..][4..] == t[idx + 4..];
  }

  lemma Room(s: string, idx: nat)
    requires s != "" && |s| % 4 != 1 && idx % 4 == 0 && idx < |Padded(s)|
    ensures idx / 4 * 3 <= Size(s)
    ensures idx + 4 <= |Padded(s)|
    ensures var n := ChunkSize(Padded(s)[idx..idx + 4], idx + 4 == |Padded(s)|);
            n > 0 ==> idx / 4 * 3 + n <= Size(s)
    ensures Size(s) > 0
  {
    hide ChunkSize, Size, Padded;
    LastChunkSize(s);
    SizeBounds(s);
    var t := Padded(s);
    var j, k := idx / 4, |t| / 4;
    assert idx == 4 * j && |t| == 4 * k && j < k;
    if idx + 4 == |t| { assert t[idx..idx + 4] == t[|t| - 4..]; }
  }

  lemma SizeBounds(s: string)
    requires s != "" && |s| % 4 != 1
    ensures |Padded(s)| % 4 == 0 && |Padded(s)| / 4 * 3 - 2 <= Size(s) && Size(s) > 0
  {
  }

  lemma NothingLeft(t: string)
    ensures DecodeChunks(t[|t|..]) == Decoded([])
  {
    assert t[|t|..] == "";
  }

  lemma ChunkShape(str: string, last: bool)
    requires |str| == 4
    ensures match DecodeChunk(str, last)
            case Rejected(error) => error == INVALID_CHAR
            case Decoded(bytes) => |bytes| == ChunkSize(str, last) > 0 && (!last ==> |bytes| == 3)
  {
  }

  lemma PrependTwice(a: seq<Byte>, b: seq<Byte>, r: Decoding)
    ensures Prepend(a, Prepend(b, r)) == Prepend(a + b, r)
  {
    if r.Decoded? { assert a + (b + r.bytes) == a + b + r.bytes; }
  }

  /** Decodes any text.  Every write stays inside the array, whose length is the announced one; the decoded bytes
      are its contents, up to the last byte of a text that is padded by half, which is never written. */
  method Base64ToBytes(s: string) returns (r: Status, bytes: array<Byte>)
    ensures r == (if s == "" then Empty else if Decode(s).Rejected? then Failed(Decode(s).error) else Succeeded)
    ensures r.Succeeded? ==> bytes.Length == Size(s) && Decode(s).bytes <= bytes[..]
    ensures r.Succeeded? ==> |Decode(s).bytes| == bytes.Length - (if HalfPadded(s) then 1 else 0)
  {
    hide DecodeChunks, DecodeChunk, ChunkSize, Size, Padded, HalfPadded;
    bytes := new Byte[0];
    if s == "" {
      return Empty, bytes;
    }
    if |s| % 4 == 1 {
      return Failed(INVALID_LENGTH), bytes;
    }
    LastChunkSize(s);
    var t := Padded(s);
    Room(s, 0);
    bytes := new Byte[Size(s)];
    var idx, byteIdx := 0, 0;
    ghost var written: seq<Byte> := [];
    assert t[0..] == t;
    while idx < |t|
      invariant 0 <= idx <= |t| && idx % 4 == 0 && byteIdx == idx / 4 * 3
      invariant idx < |t| ==> |written| == byteIdx
      invariant bytes.Length == Size(s) && written <= bytes[..]
      invariant DecodeChunks(t) == Prepend(written, DecodeChunks(t[idx..]))
    {
      Room(s, idx);
      NextFour(t, idx);
      ChunkShape(t[idx..idx + 4], idx + 4 == |t|);
      var ok := DecodeBase64Chunk(t, idx, bytes, byteIdx, idx + 4 == |t|);
      if !ok {
        return Failed(INVALID_CHAR), bytes;
      }
      ghost var now := DecodeChunk(t[idx..idx + 4], idx + 4 == |t|).bytes;
      PrependTwice(written, now, DecodeChunks(t[idx + 4..]));
      written := written + now;
      idx := idx + 4;
      byteIdx := byteIdx + 3;
    }
    NothingLeft(t);
    AnnouncedSize(s);
    r := Succeeded;
  }

  // Which texts are decoded

  predicate InAlphabet(c: char) {
    c in ALPHABET
  }

  lemma KnownIs(c: char)
    ensures ByteValue(c) >= 0 <==> InAlphabet(c) || c == '='
  {
    hide ByteValue;
    AlphabetRead(c);
  }

  lemma PaddingIsNoDigit()
    ensures !InAlphabet('=')
  {
  }

  /** Character `i` belongs there: it is of the alphabet, or one of at most two padding characters at the end of what
      is to be `n` characters. */
  predicate InPlace(text: string, n: nat, i: nat)
    requires i < |text|
  {
    InAlphabet(text[i]) || (text[i] == '=' && i + 2 >= n && forall j :: i < j < |text| ==> text[j] == '=')
  }

  predicate AllInPlace(text: string, n: nat) {
    forall i :: 0 <= i < |text| ==> InPlace(text, n, i)
  }

  /** The length that counts for the places in four characters: none may be padding unless they are the last. */
  function Places(last: bool): nat {
    if last then 4 else 6
  }

  lemma FourInPlace(str: string, n: nat)
    requires |str| == 4
    ensures AllInPlace(str, n)
            <==> InPlace(str, n, 0) && InPlace(str, n, 1) && InPlace(str, n, 2) && InPlace(str, n, 3)
  {
    hide InPlace;
  }

  lemma ChunkAnswers(str: string, last: bool)
    requires |str| == 4
    ensures DecodeChunk(str, last).Rejected? ==> DecodeChunk(str, last).error == INVALID_CHAR
    ensures DecodeChunk(str, last).Decoded? <==> AllInPlace(str, Places(last))
  {
    hide ByteValue, InAlphabet, AllInPlace;
    FourInPlace(str, Places(last));
    PaddingIsNoDigit();
    KnownIs(str[0]);
    KnownIs(str[1]);
    KnownIs(str[2]);
    KnownIs(str[3]);
  }

  lemma {:induction false} ChunksAnswers(text: string, k: nat)
    requires |text| == 4 * k
    ensures DecodeChunks(text).Rejected? ==> DecodeChunks(text).error == INVALID_CHAR
    ensures DecodeChunks(text).Decoded? <==> AllInPlace(text, |text|)
    decreases k
  {
    hide DecodeChunk, InPlace, Places;
    if k > 0 {
      ChunkAnswers(text[..4], k == 1);
      ChunksAnswers(text[4..], k - 1);
      PlacesSplit(text, k);
    }
  }

  lemma PlacesSplit(text: string, k: nat)
    requires |text| == 4 * k && k > 0
    ensures AllInPlace(text, |text|) <==> AllInPlace(text[..4], Places(k == 1)) && AllInPlace(text[4..], |text| - 4)
  {
    hide InAlphabet, InPlace;
    var front, rest, n, m := text[..4], text[4..], Places(k == 1), |text| - 4;
    forall i | 0 <= i < 4
      ensures InPlace(text, |text|, i) <==> InPlace(front, n, i)
    {
      PlacesInFront(text, k, i);
    }
    forall i | 4 <= i < |text|
      ensures InPlace(text, |text|, i) <==> InPlace(rest, m, i - 4)
    {
      PlacesBehind(text, i);
    }
    if AllInPlace(text, |text|) {
      forall i | 0 <= i < |rest|
        ensures InPlace(rest, m, i)
      {
        assert InPlace(text, |text|, i + 4);
      }
    }
  }

  lemma PlacesInFront(text: string, k: nat, i: nat)
    requires |text| == 4 * k && k > 0 && i < 4
    ensures InPlace(text, |text|, i) <==> InPlace(text[..4], Places(k == 1), i)
  {
    hide InAlphabet;
    if k == 1 { assert text[..4] == text; }
  }

  lemma PlacesBehind(text: string, i: nat)
    requires 4 <= i < |text|
    ensures InPlace(text, |text|, i) <==> InPlace(text[4..], |text| - 4, i - 4)
  {
    hide InAlphabet;
    assert forall j :: i - 4 < j < |text| - 4 ==> text[4..][j] == text[j + 4];
    assert forall j :: i < j < |text| ==> text[j] == text[4..][j - 4];
  }

  /** The length is wrong exactly if it is one more than a multiple of four; a character is wrong exactly if it is not
      of the alphabet and not padding in its place. */
  lemma DecodeAnswers(s: string)
    ensures var n := (|s| + 3) / 4 * 4;
            && (Decode(s) == Rejected("error_invalid_base64_string_length") <==> |s| % 4 == 1)
            && (Decode(s).Decoded? <==> |s| % 4 != 1 && AllInPlace(s, n))
            && (Decode(s) == Rejected("error_invalid_base64_char") <==> |s| % 4 != 1 && !AllInPlace(s, n))
  {
    hide DecodeChunks, InPlace, AllInPlace;
    ErrorsDiffer();
    if |s| % 4 != 1 {
      PlacesPadded(s);
      ChunksAnswers(Padded(s), (|s| + 3) / 4);
    }
  }

  lemma ErrorsDiffer()
    ensures INVALID_CHAR != INVALID_LENGTH
  {
    assert |INVALID_CHAR| != |INVALID_LENGTH|;
  }

  lemma PlacesPadded(s: string)
    requires |s| % 4 != 1
    ensures |Padded(s)| == (|s| + 3) / 4 * 4
    ensures AllInPlace(s, |Padded(s)|) <==> AllInPlace(Padded(s), |Padded(s)|)
  {
    hide InAlphabet;
    PaddingIsNoDigit();
    var t := Padded(s);
    forall i | 0 <= i < |t|
      ensures i < |s| ==> (InPlace(s, |t|, i) <==> InPlace(t, |t|, i))
      ensures i >= |s| ==> InPlace(t, |t|, i)
    {
    }
  }

  // Round trips

  lemma SplitDigits(bits: int)
    requires 0 <= bits < 16777216
    ensures 262144 * (bits / 262144) + 4096 * (bits / 4096 % 64) + 64 * (bits / 64 % 64) + bits % 64 == bits
  {
    assert bits / 4096 == 64 * (bits / 262144) + bits / 4096 % 64;
    assert bits / 64 == 64 * (bits / 4096) + bits / 64 % 64;
  }

  lemma SplitBytes(a: Byte, b: Byte, c: Byte)
    ensures var bits := 65536 * (a as int) + 256 * (b as int) + c;
            0 <= bits < 16777216 && bits / 65536 == a && bits / 256 % 256 == b && bits % 256 == c
  {
    var bits := 65536 * (a as int) + 256 * (b as int) + c;
    assert bits / 256 == 256 * (a as int) + b;
  }

  /** The three bytes of a chunk; a byte that is not there is a zero. */
  function Third(data: seq<Byte>, k: nat): Byte {
    if k < |data| then data[k] else 0
  }

  /** With fewer than three bytes, the digits that are not written are zeros, as padding is read. */
  lemma ShortChunk(bits: int, n: nat)
    requires 0 <= bits < 16777216
    ensures bits % 65536 == 0 ==> bits / 64 % 64 == 0 && bits % 64 == 0
    ensures bits % 256 == 0 ==> bits % 64 == 0
  {
  }

  lemma ChunkRoundTrip(data: seq<Byte>, last: bool)
    requires 1 <= |data| <= 3 && (last || |data| == 3)
    ensures |EncodeChunk(data)| == 4 && DecodeChunk(EncodeChunk(data), last) == Decoded(data)
  {
    hide CharValue, ByteValue;
    var a, b, c := Third(data, 0), Third(data, 1), Third(data, 2);
    SplitBytes(a, b, c);
    var bits := 65536 * (a as int) + 256 * (b as int) + c;
    SplitDigits(bits);
    ShortChunk(bits, |data|);
    var str := EncodeChunk(data);
    CharsAreDigits(bits / 262144);
    CharsAreDigits(bits / 4096 % 64);
    CharsAreDigits(bits / 64 % 64);
    CharsAreDigits(bits % 64);
    PaddingIsZero();
    assert ChunkBits(str) == bits;
    assert ChunkSize(str, last) == |data|;
  }

  lemma PaddingIsZero()
    ensures ByteValue('=') == 0
  {
  }

  lemma {:induction false} ChunksRoundTrip(data: seq<Byte>, k: nat)
    requires data != [] && 3 * k - 3 < |data| <= 3 * k
    ensures |Encode(data)| == 4 * k && DecodeChunks(Encode(data)) == Decoded(data)
    decreases k
  {
    hide EncodeChunk, DecodeChunk;
    if |data| <= 3 {
      ChunkRoundTrip(data, true);
      assert EncodeChunk(data)[..4] == EncodeChunk(data) && EncodeChunk(data)[4..] == "";
      assert data + [] == data;
    } else {
      ChunkRoundTrip(data[..3], false);
      ChunksRoundTrip(data[3..], k - 1);
      var t := Encode(data);
      assert t[..4] == EncodeChunk(data[..3]) && t[4..] == Encode(data[3..]);
      assert data[..3] + data[3..] == data;
    }
  }

  /** How many padding characters end the text of `n` bytes. */
  function Pads(n: nat): nat {
    if n % 3 == 0 then 0 else 3 - n % 3
  }

  lemma Suffix<T>(a: seq<T>, b: seq<T>, n: nat)
    requires n <= |b|
    ensures (a + b)[|a| + n..] == b[n..]
  {
  }

  lemma Suffixes<T>(s: seq<T>, m: nat, n: nat)
    requires m + n <= |s|
    ensures s[m..][n..] == s[m + n..]
  {
  }

  /** The last four characters are those of the last bytes. */
  lemma {:induction false} EncodedEnd(data: seq<Byte>, k: nat)
    requires data != [] && 3 * k < |data| <= 3 * k + 3
    ensures |Encode(data)| == 4 * k + 4 && Encode(data)[4 * k..] == EncodeChunk(data[3 * k..])
    decreases k
  {
    hide EncodeChunk;
    if k == 0 {
      ChunkRoundTrip(data, true);
      assert data[0..] == data && Encode(data)[0..] == Encode(data);
    } else {
      var rest, head := data[3..], EncodeChunk(data[..3]);
      EncodedEnd(rest, k - 1);
      ChunkRoundTrip(data[..3], false);
      Suffixes(data, 3, 3 * (k - 1));
      Suffix(head, Encode(rest), 4 * (k - 1));
    }
  }

  lemma EndOfChunk(data: seq<Byte>)
    requires 1 <= |data| <= 3
    ensures |EncodeChunk(data)| == 4
    ensures forall i :: 2 <= i < 4 ==> (EncodeChunk(data)[i] == '=' <==> i >= 4 - Pads(|data|))
  {
    hide CharValue;
    var bits: int := 65536 * (data[0] as int) + (if |data| > 1 then 256 * (data[1] as int) else 0)
        + (if |data| > 2 then data[2] else 0);
    CharsAreDigits(bits / 64 % 64);
    CharsAreDigits(bits % 64);
  }

  /** Encoding and decoding gives back the bytes, with all of the padding or with some or all of it removed; the
      announced length is right unless one of two padding characters is left. */
  lemma RoundTrip(data: seq<Byte>, removed: nat)
    requires data != [] && removed <= Pads(|data|)
    ensures |Encode(data)| >= 4
    ensures var text := Encode(data)[..|Encode(data)| - removed];
            && Decode(text) == Decoded(data)
            && Size(text) == |data| + (if removed == 1 && |data| % 3 == 1 then 1 else 0)
  {
    hide Encode, EncodeChunk, DecodeChunks, Size, Padded, HalfPadded;
    var k := (|data| + 2) / 3;
    ChunksRoundTrip(data, k);
    EncodedEnd(data, k - 1);
    EndOfChunk(data[3 * k - 3..]);
    var text := Encode(data)[..4 * k - removed];
    PaddedAgain(Encode(data), k, EncodeChunk(data[3 * k - 3..]), Pads(|data|), removed);
    assert text != "";
    AnnouncedSize(text);
    assert Pads(|data|) == 2 <==> |data| % 3 == 1;
  }

  lemma PaddedAgain(t: string, k: nat, end: string, pads: nat, removed: nat)
    requires |t| == 4 * k && k > 0 && |end| == 4 && t[4 * k - 4..] == end
    requires removed <= pads <= 2 && forall i :: 2 <= i < 4 ==> (end[i] == '=' <==> i >= 4 - pads)
    ensures |t[..4 * k - removed]| % 4 != 1
    ensures Padded(t[..4 * k - removed]) == t
    ensures HalfPadded(t[..4 * k - removed]) <==> removed == 1 && pads == 2
  {
    assert t[4 * k - 1] == end[3] && t[4 * k - 2] == end[2];
    var text := t[..4 * k - removed];
    assert t == text + t[4 * k - removed..];
    if removed == 1 { assert t[4 * k - 1..] == "="; }
    if removed == 2 { assert t[4 * k - 2..] == "=="; }
  }

  // The URL-safe form

  function Replaced(text: string, original: char, replacement: char): (r: string)
    ensures |r| == |text|
  {
    seq(|text|, i requires 0 <= i < |text| => if text[i] == original then replacement else text[i])
  }

  /** The position of a character from `n` on, or the length. */
  function FindFrom(text: string, c: char, n: nat): (i: nat)
    requires n <= |text|
    ensures n <= i <= |text| && (i < |text| ==> text[i] == c)
    ensures forall j :: n <= j < i ==> text[j] != c
    decreases |text| - n
  {
    if n == |text| || text[n] == c then n else FindFrom(text, c, n + 1)
  }

  /** Replaces one character by another. */
  method ReplaceAll(text: string, original: char, replacement: char) returns (str: string)
    ensures str == Replaced(text, original, replacement)
  {
    str := text;
    var n := FindFrom(str, original, 0);
    while n < |str|
      invariant n <= |str| == |text|
      invariant forall i :: 0 <= i < n ==> str[i] == Replaced(text, original, replacement)[i]
      invariant forall i :: n <= i < |str| ==> str[i] == text[i]
      invariant n < |str| ==> str[n] == original
      decreases |str| - n
    {
      str := str[n := replacement];
      n := n + 1;
      n := FindFrom(str, original, n);
    }
  }

  method BytesToBase64UrlSafe(data: array<Byte>) returns (ret: string)
    ensures ret == UrlSafe(Encode(data[..]))
  {
    ret := BytesToBase64(data);
    ret := ReplaceAll(ret, '+', '-');
    ret := ReplaceAll(ret, '/', '_');
  }

  function UrlSafe(text: string): string {
    Replaced(Replaced(text, '+', '-'), '/', '_')
  }

  /** The two characters that mean something in a URL are gone, and nothing is lost. */
  lemma UrlSafeRoundTrip(data: seq<Byte>)
    ensures forall i :: 0 <= i < |UrlSafe(Encode(data))| ==>
              UrlSafe(Encode(data))[i] != '+' && UrlSafe(Encode(data))[i] != '/'
    ensures Replaced(Replaced(UrlSafe(Encode(data)), '-', '+'), '_', '/') == Encode(data)
  {
    hide Encode;
    OnlyBase64(data);
  }

  lemma {:induction false} OnlyBase64(data: seq<Byte>)
    ensures forall i :: 0 <= i < |Encode(data)| ==> Encode(data)[i] != '-' && Encode(data)[i] != '_'
    decreases |data|
  {
    if |data| > 3 {
      OnlyBase64(data[3..]);
      ChunkIsBase64(data[..3]);
    } else if data != [] {
      ChunkIsBase64(data);
    }
  }

  lemma ChunkIsBase64(data: seq<Byte>)
    requires 1 <= |data| <= 3
    ensures forall i :: 0 <= i < |EncodeChunk(data)| ==> EncodeChunk(data)[i] != '-' && EncodeChunk(data)[i] != '_'
  {
  }

  lemma {:induction false} DecodedIsKnown(s: string)
    requires |s| % 4 == 0 && DecodeChunks(s).Decoded?
    ensures AllKnown(s)
    decreases |s|
  {
    hide ByteValue;
    if s != "" {
      DecodedIsKnown(s[4..]);
      assert forall i :: 0 <= i < 4 ==> s[i] == s[..4][i];
      assert forall i :: 4 <= i < |s| ==> s[i] == s[4..][i - 4];
    }
  }

  /** Six bits of the data, from bit `6 * k` on; behind the end of the data the bits are zeros. */
  function SixBits(data: seq<Byte>, k: nat): Digit {
    var i := 3 * (k / 4);
    var a, b, c := Third(data, i), Third(data, i + 1), Third(data, i + 2);
    if k % 4 == 0 then a / 4
    else if k % 4 == 1 then a % 4 * 16 + b / 16
    else if k % 4 == 2 then b % 16 * 4 + c / 64
    else c % 64
  }

  /** How many groups of six bits hold the data. */
  function Groups(data: seq<Byte>): nat {
    (8 * |data| + 5) / 6
  }

  lemma GroupsBehind(n: nat)
    requires n > 3
    ensures (8 * n + 5) / 6 == (8 * (n - 3) + 5) / 6 + 4
  {
  }

  lemma SixParts(p: int, q: int, r: int, t: int, u: int, w: int)
    requires 0 <= p < 64 && 0 <= q < 4 && 0 <= r < 16 && 0 <= t < 16 && 0 <= u < 4 && 0 <= w < 64
    ensures var bits := 262144 * p + 65536 * q + 4096 * r + 256 * t + 64 * u + w;
            bits / 262144 == p && bits / 4096 == 64 * p + 16 * q + r
            && bits / 64 == 4096 * p + 1024 * q + 64 * r + 4 * t + u && bits % 64 == w
  {
  }

  lemma BitsOfChunk(a: Byte, b: Byte, c: Byte)
    ensures var bits := 65536 * (a as int) + 256 * (b as int) + c;
            && bits / 262144 == a / 4 && bits / 4096 % 64 == a % 4 * 16 + b / 16
            && bits / 64 % 64 == b % 16 * 4 + c / 64 && bits % 64 == c % 64
  {
    var p, q, r, t, u, w := a / 4, a % 4, b / 16, b % 16, c / 64, c % 64;
    SixParts(p, q, r, t, u, w);
    assert 65536 * (a as int) + 256 * (b as int) + c == 262144 * p + 65536 * q + 4096 * r + 256 * t + 64 * u + w;
    Remainder(p, 16 * q + r);
    Remainder(64 * p + 16 * q + r, 4 * t + u);
  }

  lemma Remainder(a: int, b: int)
    requires 0 <= b < 64
    ensures (64 * a + b) % 64 == b
  {
  }

  lemma CharOfChunk(data: seq<Byte>, k: nat)
    requires 1 <= |data| <= 3 && k < 4
    ensures EncodeChunk(data)[k] == if k < Groups(data) then CharValue(SixBits(data, k)) else '='
  {
    hide CharValue;
    BitsOfChunk(Third(data, 0), Third(data, 1), Third(data, 2));
  }

  lemma SixBitsBehind(data: seq<Byte>, k: nat)
    requires |data| > 3 && k >= 4
    ensures SixBits(data, k) == SixBits(data[3..], k - 4)
  {
    assert 3 * (k / 4) == 3 * ((k - 4) / 4) + 3;
  }

  lemma SixBitsInFront(data: seq<Byte>, k: nat)
    requires |data| > 3 && k < 4
    ensures SixBits(data, k) == SixBits(data[..3], k)
  {
  }

  /** Character `k` of the encoding stands for six bits of the data, or is padding. */
  lemma {:induction false} EncodedAt(data: seq<Byte>, k: nat)
    requires k < |Encode(data)|
    ensures |ALPHABET| == 64
    ensures Encode(data)[k] == if k < Groups(data) then ALPHABET[SixBits(data, k)] else '='
    decreases |data|
  {
    hide EncodeChunk, CharValue, SixBits;
    AlphabetWritten(SixBits(data, k));
    if |data| <= 3 {
      ChunkLength(data);
      CharOfChunk(data, k);
    } else {
      ChunkLength(data[..3]);
      GroupsBehind(|data|);
      if k < 4 {
        CharOfChunk(data[..3], k);
        SixBitsInFront(data, k);
      } else {
        EncodedAt(data[3..], k - 4);
        SixBitsBehind(data, k);
      }
    }
  }

  lemma ChunkLength(data: seq<Byte>)
    requires 1 <= |data| <= 3
    ensures |EncodeChunk(data)| == 4
  {
  }

  lemma LastTwoDigits(d: Digit)
    ensures |ALPHABET| == 64
    ensures ALPHABET[d] == '+' <==> d == 62
    ensures ALPHABET[d] == '/' <==> d == 63
  {
    AlphabetWritten(d);
  }

  /** No group of six bits has the value 62 or 63, whose characters mean something in a URL. */
  predicate AvoidsLastTwo(data: seq<Byte>) {
    forall k :: 0 <= k < Groups(data) ==> SixBits(data, k) < 62
  }

  lemma GroupsAreWritten(data: seq<Byte>)
    requires data != []
    ensures Groups(data) <= |Encode(data)|
  {
    hide EncodeChunk, DecodeChunks;
    ChunksRoundTrip(data, (|data| + 2) / 3);
  }

  lemma AvoidsIff(data: seq<Byte>)
    requires data != []
    ensures AvoidsLastTwo(data) <==> '+' !in Encode(data) && '/' !in Encode(data)
  {
    hide Encode, SixBits;
    GroupsAreWritten(data);
    forall k: nat | k < |Encode(data)|
      ensures Encode(data)[k] == '+' || Encode(data)[k] == '/' <==> k < Groups(data) && SixBits(data, k) >= 62
    {
      EncodedAt(data, k);
      if k < Groups(data) { LastTwoDigits(SixBits(data, k)); }
    }
  }

  /** The decoder does not know the URL-safe characters: it takes a URL-safe text back exactly if no six bits of the
      data call for one of the two characters that were replaced. */
  lemma UrlSafeDecodes(data: seq<Byte>)
    requires data != []
    ensures Decode(UrlSafe(Encode(data))) == Decoded(data) <==> AvoidsLastTwo(data)
  {
    hide Encode, DecodeChunks, AvoidsLastTwo;
    AvoidsIff(data);
    var k := (|data| + 2) / 3;
    ChunksRoundTrip(data, k);
    var t, u := Encode(data), UrlSafe(Encode(data));
    if '+' !in t && '/' !in t {
      assert u == t;
    } else {
      var i :| 0 <= i < |t| && (t[i] == '+' || t[i] == '/');
      assert u[i] == '-' || u[i] == '_';
      if DecodeChunks(u).Decoded? { DecodedIsKnown(u); }
    }
  }

  /** One byte that the decoder does not take back. */
  lemma UrlSafeLoses()
    ensures Decode(UrlSafe(Encode([251]))) != Decoded([251])
  {
    UrlSafeDecodes([251]);
    assert SixBits([251], 0) == 62;
  }
}
