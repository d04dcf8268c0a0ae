/** The character tables of the HTTP parser.  A char stands for a byte; all bytes above 127 are treated alike. */
module HttpTables {

  const CR := '\r'
  const LF := '\n'
  const LINE_END := "\r\n"
  const MAX_HEADER_SIZE := 81920

  /** The end of a line: a line feed, with or without a carriage return in front. */
  function EndText(cr: bool): string {
    if cr then "\r\n" else "\n"
  }

  function Blanks(n: nat): (text: string)
    ensures |text| == n
  {
    seq(n, _ => ' ')
  }

  // Entry 0 of the tables below.
  const NONE := '\0'

  /** Setting bit 5, which turns capital letters into small ones and some other bytes into others. */
  function Lower(c: char): char {
    if c < 128 as char && (c as int) % 64 < 32 then (c as int + 32) as char else c
  }

  predicate IsDigit(c: char) {
    '0' <= c <= '9'
  }

  predicate IsLetter(c: char) {
    'a' <= c <= 'z'
  }

  predicate IsCapital(c: char) {
    'A' <= c <= 'Z'
  }

  /** The characters of a header's name, in lower case.  The blank is one of them. */
  function Token(c: char): char {
    if IsCapital(c) then Lower(c)
    else if ' ' <= c <= '\'' || c == '*' || c == '+' || '-' <= c <= '9' || '^' <= c <= 'z' || '|' <= c <= '~' then c
    else NONE
  }

  /** The characters of a header's value that the parser looks at, in lower case. */
  function Acceptable(c: char): char {
    if IsCapital(c) then Lower(c)
    else if c == ' ' || c == '-' || c == '_' || IsDigit(c) || IsLetter(c) then c
    else NONE
  }

  predicate NormalUrlChar(c: char) {
    '!' <= c <= '~' && c != '#' && c != '?'
  }

  /** The value of a hexadecimal digit, or -1; the table has no entries for bytes above 127, which read as 0. */
  function Unhex(c: char): int {
    if IsDigit(c) then c as int - '0' as int
    else if 'a' <= c <= 'f' then c as int - 'a' as int + 10
    else if 'A' <= c <= 'F' then c as int - 'A' as int + 10
    else if c as int >= 128 then 0
    else -1
  }

  function DigitValue(c: char): int {
    c as int - '0' as int
  }

  // The tables of the code, written out row by row from the blank on; what is in front of it, or behind the last row,
  // has the entry 0.

  const TOKENS := [
    " !\"#$%&'\0\0*+\0-./",
    "0123456789\0\0\0\0\0\0",
    "\0abcdefghijklmno",
    "pqrstuvwxyz\0\0\0^_",
    "`abcdefghijklmno",
    "pqrstuvwxyz\0|}~\0"]

  const ACCEPTABLE := [
    " \0\0\0\0\0\0\0\0\0\0\0\0-\0\0",
    "0123456789\0\0\0\0\0\0",
    "\0abcdefghijklmno",
    "pqrstuvwxyz\0\0\0\0_",
    "\0abcdefghijklmno",
    "pqrstuvwxyz\0\0\0\0\0"]

  /** What the code reads in its table for names is what is read here. */
  lemma TokenTable(c: char)
    ensures forall i :: 0 <= i < 6 ==> |TOKENS[i]| == 16
    ensures Token(c) == if 32 <= c as int < 128 then TOKENS[c as int / 16 - 2][c as int % 16] else NONE
  {
    hide Token;
    if 32 <= c as int < 80 {
      TokenSignsAndDigits(c, c as int / 16);
    } else if 80 <= c as int < 128 {
      TokenLetters(c, c as int / 16);
    } else {
      TokenOthers(c);
    }
  }

  lemma TokenSignsAndDigits(c: char, row: int)
    requires 2 <= row < 5 && 16 * row <= c as int < 16 * row + 16
    ensures |TOKENS[row - 2]| == 16 && Token(c) == TOKENS[row - 2][c as int - 16 * row]
  {
    if row == 2 {
    } else if row == 3 {
    }
  }

  lemma TokenLetters(c: char, row: int)
    requires 5 <= row < 8 && 16 * row <= c as int < 16 * row + 16
    ensures |TOKENS[row - 2]| == 16 && Token(c) == TOKENS[row - 2][c as int - 16 * row]
  {
    if row == 5 {
    } else if row == 6 {
    }
  }

  lemma TokenOthers(c: char)
    requires c as int < 32 || c as int >= 128
    ensures Token(c) == NONE
  {
  }

  /** And in its table for values. */
  lemma AcceptableTable(c: char)
    ensures forall i :: 0 <= i < 6 ==> |ACCEPTABLE[i]| == 16
    ensures Acceptable(c) == if 32 <= c as int < 128 then ACCEPTABLE[c as int / 16 - 2][c as int % 16] else NONE
  {
    hide Acceptable;
    if 32 <= c as int < 80 {
      AcceptableSignsAndDigits(c, c as int / 16);
    } else if 80 <= c as int < 128 {
      AcceptableLetters(c, c as int / 16);
    } else {
      AcceptableOthers(c);
    }
  }

  lemma AcceptableSignsAndDigits(c: char, row: int)
    requires 2 <= row < 5 && 16 * row <= c as int < 16 * row + 16
    ensures |ACCEPTABLE[row - 2]| == 16 && Acceptable(c) == ACCEPTABLE[row - 2][c as int - 16 * row]
  {
    if row == 2 {
    } else if row == 3 {
    }
  }

  lemma AcceptableLetters(c: char, row: int)
    requires 5 <= row < 8 && 16 * row <= c as int < 16 * row + 16
    ensures |ACCEPTABLE[row - 2]| == 16 && Acceptable(c) == ACCEPTABLE[row - 2][c as int - 16 * row]
  {
    if row == 5 {
    } else if row == 6 {
    }
  }

  lemma AcceptableOthers(c: char)
    requires c as int < 32 || c as int >= 128
    ensures Acceptable(c) == NONE
  {
  }

  /** The characters of a URL: all that can be seen, without '#' and '?'. */
  lemma UrlTable(c: char)
    ensures NormalUrlChar(c) <==> 33 <= c as int <= 126 && c as int != 35 && c as int != 63
  {
  }

  /** The values of hexadecimal digits. */
  lemma HexTable(c: char)
    ensures forall i :: 0 <= i < 16 && (c == "0123456789abcdef"[i] || c == "0123456789ABCDEF"[i]) ==> Unhex(c) == i
    ensures c as int < 128 && c !in "0123456789abcdefABCDEF" ==> Unhex(c) == -1
    ensures c as int >= 128 ==> Unhex(c) == 0
  {
  }
}
