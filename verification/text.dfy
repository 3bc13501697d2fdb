/** The parts of .NET's `Char` and `String` that the string checks rely on. */
module Text {

  /** `Char.IsWhiteSpace` for a character of the Basic Multilingual Plane: the
      Unicode space, line and paragraph separators, the controls U+0009 to
      U+000D, and U+0085. Among ASCII characters that is the space and the
      controls TAB, LF, VT, FF and CR, and no letter or digit. */
  function IsWhiteSpace(c: char): (ws: bool)
    ensures c as int < 0x80 ==> (ws <==> c == ' ' || '\t' <= c <= '\r')
    ensures ('a' <= c <= 'z') || ('A' <= c <= 'Z') || ('0' <= c <= '9') ==> !ws
    ensures ws ==> c as int <= 0x3000
  {
    var n := c as int;
    || n == 0x20
    || (0x09 <= n <= 0x0D)
    || n == 0x85
    || n == 0xA0
    || n == 0x1680
    || (0x2000 <= n <= 0x200A)
    || n == 0x2028
    || n == 0x2029
    || n == 0x202F
    || n == 0x205F
    || n == 0x3000
  }

  /** Every character of `s` is white space (vacuously true of ""). */
  predicate AllWhiteSpace(s: string) {
    forall i :: 0 <= i < |s| ==> IsWhiteSpace(s[i])
  }

  /** The two culture-independent `StringComparison` modes. */
  datatype StringComparison = Ordinal | OrdinalIgnoreCase

  /** Upper-case folding used by `OrdinalIgnoreCase`, restricted to ASCII letters. */
  function AsciiToUpper(c: char): (u: char)
    ensures 'a' <= c <= 'z' ==> u as int == c as int - 32
    ensures !('a' <= c <= 'z') ==> u == c
  {
    if 'a' <= c <= 'z' then (c as int - 32) as char else c
  }

  /** Whether two characters compare equal under `mode`: equal characters
      always do; under `Ordinal` nothing else does; under `OrdinalIgnoreCase`
      a lower-case ASCII letter matches itself and its upper-case form only. */
  function CharEquals(mode: StringComparison, a: char, b: char): (eq: bool)
    ensures a == b ==> eq
    ensures mode == Ordinal ==> (eq <==> a == b)
    ensures mode == OrdinalIgnoreCase && 'a' <= a <= 'z' ==> (eq <==> b == a || b as int == a as int - 32)
  {
    match mode
    case Ordinal => a == b
    case OrdinalIgnoreCase => AsciiToUpper(a) == AsciiToUpper(b)
  }

  /** `sub` occurs in `s` starting at index `k`, character by character under `mode`. */
  predicate MatchesAt(s: string, sub: string, k: nat, mode: StringComparison) {
    && k + |sub| <= |s|
    && forall j :: 0 <= j < |sub| ==> CharEquals(mode, s[k + j], sub[j])
  }

  /** `String.StartsWith(sub, mode)`: under `Ordinal` it is the sequence
      prefix relation; the empty needle is a prefix of every string. */
  function StartsWith(s: string, sub: string, mode: StringComparison): (b: bool)
    ensures mode == Ordinal ==> (b <==> sub <= s)
    ensures sub == [] ==> b
  {
    MatchesAt(s, sub, 0, mode)
  }

  /** `String.EndsWith(sub, mode)`: under `Ordinal` the needle is the tail of
      the value; the empty needle ends every string. */
  function EndsWith(s: string, sub: string, mode: StringComparison): (b: bool)
    ensures mode == Ordinal ==> (b <==> |sub| <= |s| && s[|s| - |sub|..] == sub)
    ensures sub == [] ==> b
  {
    |sub| <= |s| && MatchesAt(s, sub, |s| - |sub|, mode)
  }

  /** `sub` occurs somewhere in `s`: the reference definition `IndexOf` is proved against. */
  ghost predicate Occurs(s: string, sub: string, mode: StringComparison) {
    exists k: nat :: MatchesAt(s, sub, k, mode)
  }

  /** The first index at or after `from` where `sub` occurs, or -1. */
  function IndexOfFrom(s: string, sub: string, mode: StringComparison, from: nat): (r: int)
    requires from <= |s|
    ensures r == -1 || from <= r
    ensures r >= 0 ==> MatchesAt(s, sub, r, mode)
    ensures r >= 0 ==> forall k :: from <= k < r ==> !MatchesAt(s, sub, k, mode)
    ensures r == -1 ==> forall k: nat :: from <= k ==> !MatchesAt(s, sub, k, mode)
    decreases |s| - from
  {
    if from + |sub| > |s| then -1
    else if MatchesAt(s, sub, from, mode) then from
    else IndexOfFrom(s, sub, mode, from + 1)
  }

  /** `String.IndexOf(sub, mode)`: the first index where `sub` occurs, or -1
      when it occurs nowhere. */
  function IndexOf(s: string, sub: string, mode: StringComparison): (r: int)
    ensures r >= 0 ==> MatchesAt(s, sub, r, mode)
    ensures r >= 0 ==> forall k :: 0 <= k < r ==> !MatchesAt(s, sub, k, mode)
    ensures r < 0 <==> !Occurs(s, sub, mode)
  {
    IndexOfFrom(s, sub, mode, 0)
  }

  /** A match under `Ordinal` is also a match under `OrdinalIgnoreCase`. */
  lemma OrdinalMatchIgnoresCase(s: string, sub: string, k: nat)
    requires MatchesAt(s, sub, k, Ordinal)
    ensures MatchesAt(s, sub, k, OrdinalIgnoreCase)
  {
  }
}
