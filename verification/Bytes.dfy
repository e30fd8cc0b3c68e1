/**
 Byte strings, and the two result types every other module uses.
 Bytes are integers in range, so that positions, code points and lengths live in one arithmetic.
 */
module Bytes {
  type byte = b: int | 0 <= b < 256

  // ASCII, by name
  const TAB: byte := 9
  const LF: byte := 10
  const FF: byte := 12
  const CR: byte := 13
  const SPACE: byte := 32
  const BANG: byte := 33
  const DQUOTE: byte := 34
  const HASH: byte := 35
  const PERCENT: byte := 37
  const SQUOTE: byte := 39
  const COMMA: byte := 44
  const DASH: byte := 45
  const DOT: byte := 46
  const SLASH: byte := 47
  const COLON: byte := 58
  const SEMICOLON: byte := 59
  const LT: byte := 60
  const EQUALS: byte := 61
  const GT: byte := 62
  const QUESTION: byte := 63

  datatype Option<+T> = None | Some(value: T)

  function Zeros(n: nat): (s: seq<byte>)
    ensures |s| == n
  {
    if n == 0 then [] else [0] + Zeros(n - 1)
  }

  /** `starts_with` on a byte string. */
  predicate StartsWith(s: seq<byte>, prefix: seq<byte>) {
    |prefix| <= |s| && s[..|prefix|] == prefix
  }

  function Lower(b: byte): byte {
    if 65 <= b <= 90 then b + 32 else b
  }

  predicate IsLower(b: byte) { 97 <= b <= 122 }
  predicate IsAlpha(b: byte) { 97 <= b <= 122 || 65 <= b <= 90 }
  predicate IsDigit(b: byte) { 48 <= b <= 57 }

  /** `eq_ignore_ascii_case`. */
  predicate EqIgnoreCase(a: seq<byte>, b: seq<byte>) {
    |a| == |b| && forall i :: 0 <= i < |a| ==> Lower(a[i]) == Lower(b[i])
  }
}
