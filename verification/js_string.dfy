/**
 * The JavaScript string built-ins the application uses: `trim`,
 * `toUpperCase`, `split` with a one-character separator, `join` and
 * `slice(0, n)`. Strings are sequences of characters; whitespace,
 * upper-casing and digits are the ASCII ones.
 */
module JsString {
  import opened Sequences

  /** The ASCII characters `String.prototype.trim` removes: space, tab and the line terminators. */
  predicate IsWhitespace(c: char) {
    c == ' ' || c == '\t' || c == '\n' || c == '\r' || c == '\U{000B}' || c == '\U{000C}'
  }

  predicate AllWhitespace(s: string) {
    forall k :: 0 <= k < |s| ==> IsWhitespace(s[k])
  }

  /** A string `trim` leaves alone: no whitespace at either end. */
  predicate IsTrimmed(s: string) {
    s == [] || (!IsWhitespace(s[0]) && !IsWhitespace(s[|s| - 1]))
  }

  predicate WhitespaceBetween(s: string, lo: nat, hi: nat)
    requires lo <= hi <= |s|
  {
    forall k :: lo <= k < hi ==> IsWhitespace(s[k])
  }

  /** The index of the first non-whitespace character at or after `i`, or `|s|`. */
  function FirstNonWhitespace(s: string, i: nat): (a: nat)
    requires i <= |s|
    ensures i <= a <= |s| && WhitespaceBetween(s, i, a)
    ensures a == |s| || !IsWhitespace(s[a])
    decreases |s| - i
  {
    if i == |s| || !IsWhitespace(s[i]) then i else FirstNonWhitespace(s, i + 1)
  }

  /** The end of `s[a..j]` once the whitespace at its end is removed. */
  function EndOfNonWhitespace(s: string, a: nat, j: nat): (b: nat)
    requires a <= j <= |s|
    ensures a <= b <= j && WhitespaceBetween(s, b, j)
    ensures b == a || !IsWhitespace(s[b - 1])
  {
    if j == a || !IsWhitespace(s[j - 1]) then j else EndOfNonWhitespace(s, a, j - 1)
  }

  /**
   * `String.prototype.trim`: the result is the part of `s` left after
   * removing the whitespace at both ends; it is empty exactly when `s` is
   * all whitespace.
   */
  function Trim(s: string): (r: string)
    ensures IsTrimmed(r)
    ensures r == [] <==> AllWhitespace(s)
    ensures exists i :: 0 <= i <= |s| - |r| && s[i..i + |r|] == r
                     && WhitespaceBetween(s, 0, i) && WhitespaceBetween(s, i + |r|, |s|)
  {
    var a := FirstNonWhitespace(s, 0);
    var b := EndOfNonWhitespace(s, a, |s|);
    assert a < |s| ==> a < b;
    assert s[a..b] == s[a..a + |s[a..b]|];
    s[a..b]
  }

  lemma {:induction false} TrimOfTrimmed(s: string)
    requires IsTrimmed(s)
    ensures Trim(s) == s
  {
  }

  /** `trim` is idempotent. */
  lemma TrimIdempotent(s: string)
    ensures Trim(Trim(s)) == Trim(s)
  {
    TrimOfTrimmed(Trim(s));
  }

  /** ASCII `toUpperCase` of one character. */
  function UpperChar(c: char): (u: char)
    ensures 'a' <= c <= 'z' ==> 'A' <= u <= 'Z' && u as int == c as int - 32
    ensures !('a' <= c <= 'z') ==> u == c
  {
    if 'a' <= c <= 'z' then (c as int - 32) as char else c
  }

  /** `String.prototype.toUpperCase`, character by character. */
  function ToUpperCase(s: string): (r: string)
    ensures |r| == |s|
    ensures forall k :: 0 <= k < |s| ==> r[k] == UpperChar(s[k])
  {
    if s == [] then [] else [UpperChar(s[0])] + ToUpperCase(s[1..])
  }

  /** `s.slice(0, n)` for a non-negative `n`: the first `n` characters, or all of `s` if it is shorter. */
  function Slice(s: string, n: nat): (r: string)
    ensures |r| == if |s| <= n then |s| else n
    ensures r == s[..|r|]
  {
    if |s| <= n then s else s[..n]
  }

  /**
   * `s.split(sep)` for a one-character separator: the pieces between the
   * separators, including empty pieces for adjacent, leading or trailing
   * separators; the empty string splits into one empty piece.
   */
  function Split(s: string, sep: char): (words: seq<string>)
    ensures |words| >= 1
    ensures forall k :: 0 <= k < |words| ==> sep !in words[k]
  {
    if s == [] then [""]
    else
      var rest := Split(s[1..], sep);
      if s[0] == sep then [""] + rest
      else [[s[0]] + rest[0]] + rest[1..]
  }

  /** `words.join(sep)`. */
  function Join(words: seq<string>, sep: char): string
    requires |words| >= 1
  {
    if |words| == 1 then words[0] else words[0] + [sep] + Join(words[1..], sep)
  }

  /** Joining the pieces of a split with the same separator gives back the string. */
  lemma {:induction false} SplitJoin(s: string, sep: char)
    ensures Join(Split(s, sep), sep) == s
  {
    if s != [] {
      var rest := Split(s[1..], sep);
      SplitJoin(s[1..], sep);
      if s[0] == sep {
        assert Split(s, sep)[1..] == rest;
      } else {
        var w := Split(s, sep);
        assert w[1..] == rest[1..];
        if |rest| == 1 {
          assert Join(w, sep) == [s[0]] + rest[0];
        } else {
          var tail := [sep] + Join(rest[1..], sep);
          ConcatAssoc([s[0]] + rest[0], [sep], Join(rest[1..], sep));
          ConcatAssoc([s[0]], rest[0], tail);
          ConcatAssoc(rest[0], [sep], Join(rest[1..], sep));
          assert Join(w, sep) == [s[0]] + (rest[0] + tail);
        }
        assert s == [s[0]] + s[1..];
      }
    }
  }
}
