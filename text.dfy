/**
 * Shared vocabulary of the tag compiler: optional values and results, the
 * character classes its regular expressions use, and the longest-run scan
 * that every greedy quantifier of those expressions reduces to.
 */
module Text {

  datatype Option<+T> = None | Some(value: T)

  datatype Result<+T, +E> = Ok(value: T) | Err(error: E)

  /** JavaScript `\w` (no `u` flag): ASCII letters, digits and underscore. */
  predicate IsWordChar(c: char) {
    ('a' <= c <= 'z') || ('A' <= c <= 'Z') || ('0' <= c <= '9') || c == '_'
  }

  /** The class `[\w-:.]` (the `-` after `\w` is a literal): word characters, `-`, `:` and `.`. */
  predicate IsNameChar(c: char) {
    IsWordChar(c) || c == '-' || c == ':' || c == '.'
  }

  /** JavaScript `\s`: the ECMAScript white space and line terminator code points. */
  predicate IsSpace(c: char) {
    var n := c as int;
    n == 0x09 || n == 0x0A || n == 0x0B || n == 0x0C || n == 0x0D || n == 0x20
    || n == 0xA0 || n == 0x1680 || (0x2000 <= n <= 0x200A) || n == 0x2028 || n == 0x2029
    || n == 0x202F || n == 0x205F || n == 0x3000 || n == 0xFEFF
  }

  /** JavaScript line terminators, the code points that `.` does not match. */
  predicate IsLineTerminator(c: char) {
    var n := c as int;
    n == 0x0A || n == 0x0D || n == 0x2028 || n == 0x2029
  }

  /** The class `[^'"=<>\s]` of an unquoted attribute value. */
  predicate IsBareChar(c: char) {
    c != '\'' && c != '"' && c != '=' && c != '<' && c != '>' && !IsSpace(c)
  }

  /** The character classes that occur under a greedy quantifier. */
  datatype CharClass = Space | Word | Name | Bare | Except(excluded: char)

  /** Membership in a character class. */
  predicate InClass(k: CharClass, c: char) {
    match k
    case Space => IsSpace(c)
    case Word => IsWordChar(c)
    case Name => IsNameChar(c)
    case Bare => IsBareChar(c)
    case Except(x) => c != x
  }

  /**
   * End of the longest run of class `k` starting at `i`: where a greedy
   * `k*` that starts at `i` stops.
   */
  function Span(k: CharClass, s: string, i: nat): (e: nat)
    requires i <= |s|
    ensures i <= e <= |s|
    ensures forall j :: i <= j < e ==> InClass(k, s[j])
    ensures e < |s| ==> !InClass(k, s[e])
    decreases |s| - i
  {
    if i < |s| && InClass(k, s[i]) then Span(k, s, i + 1) else i
  }

  /** Every character of `s` is in class `k`. */
  predicate All(k: CharClass, s: string) {
    forall j :: 0 <= j < |s| ==> InClass(k, s[j])
  }

  /** A run of class `k` followed by a character outside `k` ends exactly there. */
  lemma {:induction false} SpanOver(k: CharClass, s: string, i: nat, e: nat)
    requires i <= e <= |s|
    requires forall j :: i <= j < e ==> InClass(k, s[j])
    requires e < |s| ==> !InClass(k, s[e])
    ensures Span(k, s, i) == e
    decreases e - i
  {
    if i < e {
      SpanOver(k, s, i + 1, e);
    }
  }

  // Regroupings of concatenations, kept apart so that proofs about the
  // passes do not have to rediscover them.

  lemma Regroup3(a: string, b: string, c: string)
    ensures a + b + c == a + (b + c)
  {
  }

  /** Regrouping five concatenated pieces. */
  lemma Regroup5(a: string, b: string, c: string, d: string, e: string)
    ensures a + b + (c + d + e) == a + b + c + d + e
  {
  }

  /** The first character of `m + t` and what follows it. */
  lemma SplitHead(m: string, t: string)
    requires m != []
    ensures (m + t)[0] == m[0] && (m + t)[1..] == m[1..] + t && [m[0]] + m[1..] == m
  {
  }

  /** Moving the cut between `s[..k - 1]` and `s[k - 1..]` one character on. */
  lemma CutStep(s: string, k: nat)
    requires 0 < k <= |s|
    ensures s[k - 1..] != [] && s[k - 1..][0] == s[k - 1] && s[k - 1..][1..] == s[k..]
    ensures s[..k - 1] + [s[k - 1]] == s[..k]
  {
  }

  /** What follows `m` in `m + t`. */
  lemma AfterPrefix(m: string, t: string)
    ensures (m + t)[|m|..] == t
  {
  }

  /** `s` holds no `<`, so no tag of any kind can start in it. */
  predicate NoAngle(s: string) {
    '<' !in s
  }
}
