/**
 * Character and string primitives of the JavaScript host that the notation
 * engine relies on: the `[a-zA-Z]` letter class, the `\s` class (which is
 * also what `String.prototype.trim` strips), ASCII lower-casing, substring
 * search and `lastIndexOf`.
 *
 * A `char` is a Unicode scalar value. A JavaScript string counts UTF-16
 * code units instead, so a character outside the Basic Multilingual Plane
 * is one `char` here and two units there; the engine only classifies,
 * orders and counts characters, which that difference does not affect.
 */
module JsText {

  /** A value, or JavaScript's `null`. */
  datatype Option<T> = None | Some(value: T)

  /** The regular-expression class `[a-zA-Z]`. */
  predicate IsLetter(c: char) {
    ('a' <= c <= 'z') || ('A' <= c <= 'Z')
  }

  /** The regular-expression class `\s`: ECMAScript WhiteSpace and LineTerminator. */
  predicate IsSpace(c: char) {
    c == ' ' || c == '\t' || c == '\n' || c == '\r' || c == '\U{B}' || c == '\U{C}'
    || c == '\U{A0}' || c == '\U{1680}' || ('\U{2000}' <= c <= '\U{200A}')
    || c == '\U{2028}' || c == '\U{2029}' || c == '\U{202F}' || c == '\U{205F}'
    || c == '\U{3000}' || c == '\U{FEFF}'
  }

  /** The characters the regular-expression `.` refuses to match. */
  predicate IsLineTerminator(c: char) {
    c == '\n' || c == '\r' || c == '\U{2028}' || c == '\U{2029}'
  }

  /** `toLowerCase` on one character, for the ASCII range. */
  function LowerAscii(c: char): (r: char)
    ensures 'A' <= c <= 'Z' ==> r as int == c as int + 32
    ensures !('A' <= c <= 'Z') ==> r == c
  {
    if 'A' <= c <= 'Z' then (c as int + 32) as char else c
  }

  function Lower(s: string): (r: string)
    ensures |r| == |s|
    ensures forall k :: 0 <= k < |s| ==> r[k] == LowerAscii(s[k])
  {
    if s == [] then [] else [LowerAscii(s[0])] + Lower(s[1..])
  }

  /** Number of `[a-zA-Z]` characters in `s`, counted from the back. */
  function CountLetters(s: string): nat
  {
    if s == [] then 0
    else CountLetters(s[..|s| - 1]) + (if IsLetter(s[|s| - 1]) then 1 else 0)
  }

  /** Number of occurrences of `c` in `s`. */
  function CountChar(s: string, c: char): nat
  {
    if s == [] then 0 else (if s[0] == c then 1 else 0) + CountChar(s[1..], c)
  }

  lemma {:induction false} CountCharAppend(a: string, b: string, c: char)
    ensures CountChar(a + b, c) == CountChar(a, c) + CountChar(b, c)
  {
    if a == [] {
      assert a + b == b;
    } else {
      assert (a + b)[1..] == a[1..] + b;
      CountCharAppend(a[1..], b, c);
    }
  }

  lemma {:induction false} CountCharAbsent(s: string, c: char)
    requires c !in s
    ensures CountChar(s, c) == 0
  {
    if s != [] {
      assert s[0] != c;
      assert forall k :: 0 <= k < |s[1..]| ==> s[1..][k] == s[k + 1];
      CountCharAbsent(s[1..], c);
    }
  }

  /** `s.includes(sub)`: `sub` occurs at some position of `s`. */
  predicate Contains(s: string, sub: string)
    decreases |s|
  {
    |sub| <= |s| && (s[..|sub|] == sub || Contains(s[1..], sub))
  }

  /** `s.lastIndexOf(c)` for a one-character needle: -1 when absent. */
  function LastIndexOf(s: string, c: char): (r: int)
    ensures -1 <= r < |s|
    ensures r >= 0 ==> s[r] == c
    ensures forall k :: r < k < |s| ==> s[k] != c
  {
    if s == [] then -1
    else if s[|s| - 1] == c then |s| - 1
    else LastIndexOf(s[..|s| - 1], c)
  }

  /** `s.trim()`: strip `\s` characters at both ends. */
  function TrimStart(s: string): (r: string)
    ensures |r| <= |s| && r == s[|s| - |r|..]
    ensures r != [] ==> !IsSpace(r[0])
  {
    if s != [] && IsSpace(s[0]) then TrimStart(s[1..]) else s
  }

  function TrimEnd(s: string): (r: string)
    ensures |r| <= |s| && r == s[..|r|]
    ensures r != [] ==> !IsSpace(r[|r| - 1])
  {
    if s != [] && IsSpace(s[|s| - 1]) then TrimEnd(s[..|s| - 1]) else s
  }

  function Trim(s: string): (r: string)
    ensures r != [] ==> !IsSpace(r[0]) && !IsSpace(r[|r| - 1])
  {
    TrimEnd(TrimStart(s))
  }

  /** `TrimStart` drops a whitespace prefix and nothing else. */
  lemma {:induction false} TrimStartDropsSpaces(s: string)
    ensures |TrimStart(s)| <= |s| && TrimStart(s) == s[|s| - |TrimStart(s)|..]
    ensures forall k :: 0 <= k < |s| - |TrimStart(s)| ==> IsSpace(s[k])
    ensures TrimStart(s) != [] ==> !IsSpace(TrimStart(s)[0])
  {
    if s != [] && IsSpace(s[0]) {
      TrimStartDropsSpaces(s[1..]);
    }
  }

  /** `TrimEnd` drops a whitespace suffix and nothing else. */
  lemma {:induction false} TrimEndDropsSpaces(s: string)
    ensures |TrimEnd(s)| <= |s| && TrimEnd(s) == s[..|TrimEnd(s)|]
    ensures forall k :: |TrimEnd(s)| <= k < |s| ==> IsSpace(s[k])
    ensures TrimEnd(s) != [] ==> !IsSpace(TrimEnd(s)[|TrimEnd(s)| - 1])
  {
    if s != [] && IsSpace(s[|s| - 1]) {
      TrimEndDropsSpaces(s[..|s| - 1]);
    }
  }

  /** `r` sits at position `i` of `s`, with only whitespace before and after it. */
  predicate TrimmedAt(s: string, r: string, i: int) {
    && 0 <= i <= |s| && r <= s[i..]
    && (forall k :: 0 <= k < i ==> IsSpace(s[k]))
    && (forall k :: i + |r| <= k < |s| ==> IsSpace(s[k]))
  }

  /**
   * `trim()` returns the input with its leading and trailing whitespace
   * removed: an infix with only whitespace around it, itself starting and
   * ending with a non-space character.
   */
  lemma {:induction false} TrimSpan(s: string)
    ensures TrimmedAt(s, Trim(s), |s| - |TrimStart(s)|)
  {
    var t := TrimStart(s);
    var r := TrimEnd(t);
    assert Trim(s) == r;
    TrimStartDropsSpaces(s);
    TrimEndDropsSpaces(t);
    SpanInSuffix(s, t, r, |s| - |t|);
  }

  /** A prefix `r` of the suffix `t` of `s` from `i` sits at `i`, with whitespace around it as `t` has. */
  lemma {:induction false} SpanInSuffix(s: string, t: string, r: string, i: nat)
    requires i <= |s| && t == s[i..] && |r| <= |t| && r == t[..|r|]
    requires forall k :: 0 <= k < i ==> IsSpace(s[k])
    requires forall k :: |r| <= k < |t| ==> IsSpace(t[k])
    ensures TrimmedAt(s, r, i)
  {
    forall k | i + |r| <= k < |s|
      ensures IsSpace(s[k])
    {
      assert s[k] == t[k - i];
    }
  }

  /** `sub` occurs in `s` starting at position `i`. */
  predicate OccursAt(s: string, sub: string, i: int) {
    0 <= i <= |s| && sub <= s[i..]
  }

  /** `includes` holds exactly when the needle occurs at some position. */
  lemma {:induction false} ContainsAt(s: string, sub: string)
    ensures Contains(s, sub) <==> exists i :: OccursAt(s, sub, i)
    decreases |s|
  {
    if Contains(s, sub) {
      if s[..|sub|] == sub {
        assert s[0..] == s;
        assert OccursAt(s, sub, 0);
      } else {
        ContainsAt(s[1..], sub);
        var i :| OccursAt(s[1..], sub, i);
        assert s[1..][i..] == s[i + 1..];
        assert OccursAt(s, sub, i + 1);
      }
    }
    if exists i :: OccursAt(s, sub, i) {
      var i :| OccursAt(s, sub, i);
      if i == 0 {
        assert s[0..] == s;
      } else {
        assert s[1..][i - 1..] == s[i..];
        assert OccursAt(s[1..], sub, i - 1);
        ContainsAt(s[1..], sub);
      }
    }
  }

  /** `k` is the position of the last non-whitespace character of `s`. */
  predicate LastNonSpaceAt(s: string, k: int) {
    0 <= k < |s| && !IsSpace(s[k]) && forall j :: k < j < |s| ==> IsSpace(s[j])
  }

  /**
   * `s.trim().endsWith(c)`, for a non-space `c`, holds exactly when the
   * last non-whitespace character of `s` is `c`.
   */
  lemma TrimEndsWith(s: string, c: char)
    requires !IsSpace(c)
    ensures EndsWith(Trim(s), c) <==> exists k :: LastNonSpaceAt(s, k) && s[k] == c
  {
    var r := Trim(s);
    var i := |s| - |TrimStart(s)|;
    TrimSpan(s);
    assert TrimmedAt(s, r, i);
    if r != [] {
      var m := i + |r| - 1;
      assert s[m] == s[i..][|r| - 1] == r[|r| - 1];
      assert LastNonSpaceAt(s, m);
      if exists k :: LastNonSpaceAt(s, k) && s[k] == c {
        var k :| LastNonSpaceAt(s, k) && s[k] == c;
        assert k == m;
      }
    }
  }

  /** `s.endsWith(c)` for a one-character suffix. */
  predicate EndsWith(s: string, c: char) {
    s != [] && s[|s| - 1] == c
  }

  /** Position of the first `c` in `s` at or after `k`; `|s|` when there is none. */
  function FirstFrom(s: string, c: char, k: nat): (r: nat)
    requires k <= |s|
    ensures k <= r <= |s|
    ensures r < |s| ==> s[r] == c
    ensures forall t :: k <= t < r ==> s[t] != c
    decreases |s| - k
  {
    if k == |s| || s[k] == c then k else FirstFrom(s, c, k + 1)
  }

  lemma {:induction false} CountLettersAppend(a: string, b: string)
    ensures CountLetters(a + b) == CountLetters(a) + CountLetters(b)
    decreases |b|
  {
    if b == [] {
      assert a + b == a;
    } else {
      var b' := b[..|b| - 1];
      assert (a + b)[..|a + b| - 1] == a + b';
      CountLettersAppend(a, b');
    }
  }

  /** A longer prefix never holds fewer letters, and one letter more when the extra character is one. */
  lemma CountLettersPrefix(s: string, i: nat, j: nat)
    requires i < j <= |s|
    ensures CountLetters(s[..j]) >= CountLetters(s[..i]) + (if IsLetter(s[i]) then 1 else 0)
  {
    assert s[..j] == s[..i] + [s[i]] + s[i + 1..j];
    CountLettersAppend(s[..i] + [s[i]], s[i + 1..j]);
    CountLettersAppend(s[..i], [s[i]]);
    assert ([s[i]])[..0] == [];
  }
}
