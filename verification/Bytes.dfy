/**
 Byte classes of the parser. A byte is a `char`: the tables below are total, and code points
 above 255, which the original never sees, fall in the same class as the bytes 0x80-0xFF.
 */
module Bytes {

  const CR: char := '\r'
  const LF: char := '\n'
  const CRLF: string := [CR, LF]

  // 2^64 and the sentinel "no length given"
  const TWO_TO_THE_64: nat := 0x1_0000_0000_0000_0000
  const NO_LENGTH: nat := TWO_TO_THE_64 - 1
  const TWO_TO_THE_32: nat := 0x1_0000_0000

  // Bitwise "or" with 0x20 on a byte.
  function Lower(c: char): char {
    if c as int < 256 && (c as int / 32) % 2 == 0 then (c as int + 32) as char else c
  }

  predicate NoLineEnd(s: string) {
    forall i :: 0 <= i < |s| ==> s[i] != CR && s[i] != LF
  }

  predicate IsNum(c: char) {
    '0' <= c <= '9'
  }

  function Digit(c: char): nat
    requires IsNum(c)
  {
    c as int - '0' as int
  }

  predicate IsAlpha(c: char) {
    'a' <= Lower(c) <= 'z'
  }

  predicate IsAlphaNum(c: char) {
    IsAlpha(c) || IsNum(c)
  }

  predicate IsMark(c: char) {
    c == '-' || c == '_' || c == '.' || c == '!' || c == '~' || c == '*' || c == '\'' || c == '(' || c == ')'
  }

  predicate IsUserinfoChar(c: char) {
    IsAlphaNum(c) || IsMark(c) || c == '%' || c == ';' || c == ':' || c == '&' || c == '=' || c == '+' || c == '$' ||
    c == ','
  }

  predicate IsHostChar(c: char) {
    IsAlphaNum(c) || c == '.' || c == '-'
  }

  predicate IsHex(c: char) {
    IsNum(c) || 'a' <= Lower(c) <= 'f'
  }

  // The strict table: printable ASCII but '#' and '?'.
  predicate IsUrlChar(c: char) {
    '!' <= c <= '~' && c != '#' && c != '?'
  }

  // The token table: 0 for a separator or control byte, else the byte with letters in lower case.
  function Token(c: char): char {
    if 'A' <= c <= 'Z' then Lower(c)
    else if 'a' <= c <= 'z' || IsNum(c) || c == '!' || ('#' <= c <= '\'') || c == '*' || c == '+' || c == '-' ||
            c == '.' || c == '^' || c == '_' || c == '`' || c == '|' || c == '~' then c
    else '\0'
  }

  predicate IsToken(c: char) {
    Token(c) != '\0'
  }

  // The unhex table: only the first 128 of its 256 entries are initialised, so every other byte reads as 0.
  function Unhex(c: char): int {
    if IsNum(c) then c as int - '0' as int
    else if 'a' <= c <= 'f' then c as int - 'a' as int + 10
    else if 'A' <= c <= 'F' then c as int - 'A' as int + 10
    else if c as int >= 128 then 0
    else -1
  }

  function LowerToken(s: string): (t: string)
    ensures |t| == |s|
  {
    seq(|s|, i requires 0 <= i < |s| => Token(s[i]))
  }
}
