/**
 * The JavaScript string operations the chat decoder relies on, over strings
 * seen as sequences of characters: `trim`, `indexOf`, `startsWith`, `endsWith`.
 */
module Text {

  /** The characters `String.prototype.trim` removes: ECMAScript WhiteSpace and LineTerminator. */
  predicate IsWhitespace(c: char) {
    || c == '\t' || c == '\n' || c == '\U{000B}' || c == '\U{000C}' || c == '\r' || c == ' '
    || c == '\U{00A0}' || c == '\U{1680}' || ('\U{2000}' <= c <= '\U{200A}')
    || c == '\U{2028}' || c == '\U{2029}' || c == '\U{202F}' || c == '\U{205F}'
    || c == '\U{3000}' || c == '\U{FEFF}'
  }

  predicate AllWhitespace(s: string) {
    forall i :: 0 <= i < |s| ==> IsWhitespace(s[i])
  }

  /** `s.trimStart()`: drops the leading whitespace. */
  function TrimStart(s: string): (r: string)
    ensures |r| <= |s|
  {
    if s != [] && IsWhitespace(s[0]) then TrimStart(s[1..]) else s
  }

  /** `s.trimEnd()`: drops the trailing whitespace. */
  function TrimEnd(s: string): (r: string)
    ensures |r| <= |s|
  {
    if s != [] && IsWhitespace(s[|s| - 1]) then TrimEnd(s[..|s| - 1]) else s
  }

  /** `s.trim()`: drops the whitespace at both ends. */
  function Trim(s: string): (r: string)
    ensures |r| <= |s|
  {
    TrimEnd(TrimStart(s))
  }

  /** The result of `TrimStart` is the suffix of `s` that starts at its first non-whitespace character. */
  lemma {:induction false} TrimStartSpec(s: string)
    ensures var r := TrimStart(s);
            && r == s[|s| - |r|..]
            && AllWhitespace(s[..|s| - |r|])
            && (r == [] || !IsWhitespace(r[0]))
    decreases |s|
  {
    if s != [] && IsWhitespace(s[0]) {
      TrimStartSpec(s[1..]);
      var r := TrimStart(s);
      assert s[|s| - |r|..] == s[1..][|s| - 1 - |r|..];
      assert s[..|s| - |r|] == [s[0]] + s[1..][..|s| - 1 - |r|];
    }
  }

  /** The result of `TrimEnd` is the prefix of `s` that ends at its last non-whitespace character. */
  lemma {:induction false} TrimEndSpec(s: string)
    ensures var r := TrimEnd(s);
            && r == s[..|r|]
            && AllWhitespace(s[|r|..])
            && (r == [] || !IsWhitespace(r[|r| - 1]))
    decreases |s|
  {
    if s != [] && IsWhitespace(s[|s| - 1]) {
      var p := s[..|s| - 1];
      TrimEndSpec(p);
      var r := TrimEnd(s);
      assert s[..|r|] == p[..|r|];
      assert s[|r|..] == p[|r|..] + [s[|s| - 1]];
    }
  }

  /**
   * The result of `trim` is the slice of `s` left once the whitespace at
   * both ends is dropped: empty exactly when `s` is all whitespace, and
   * otherwise starting and ending with a non-whitespace character.
   */
  lemma TrimSpec(s: string)
    ensures var r := Trim(s);
            && (r == [] <==> AllWhitespace(s))
            && (r == [] || (!IsWhitespace(r[0]) && !IsWhitespace(r[|r| - 1])))
            && (exists i :: 0 <= i <= |s| - |r| && r == s[i..i + |r|]
                 && AllWhitespace(s[..i]) && AllWhitespace(s[i + |r|..]))
  {
    var t := TrimStart(s);
    TrimStartSpec(s);
    TrimEndSpec(t);
    var r := TrimEnd(t);
    var i := |s| - |t|;
    assert r == s[i..i + |r|] by {
      assert t == s[i..];
    }
    assert s[i + |r|..] == t[|r|..];
    if t == [] {
      assert s[..i] == s;
    }
    if r != [] {
      assert r[0] == t[0];
      assert !AllWhitespace(s) by { assert s[i] == r[0]; }
    }
  }

  predicate StartsWith(s: string, prefix: string) {
    |prefix| <= |s| && s[..|prefix|] == prefix
  }

  predicate EndsWith(s: string, suffix: string) {
    |suffix| <= |s| && s[|s| - |suffix|..] == suffix
  }

  /** Cutting a concatenation inside its left part cuts that part. */
  lemma SliceAppend(a: string, b: string, i: nat)
    requires i <= |a|
    ensures (a + b)[..i] == a[..i] && (a + b)[i..] == a[i..] + b
  {
  }

  /** Concatenation is associative; stated once so that proofs can cite it instead of rediscovering it. */
  lemma AppendAssoc(a: string, b: string, c: string)
    ensures (a + b) + c == a + (b + c)
  {
  }

  lemma StartsWithTransitive(a: string, b: string, c: string)
    requires StartsWith(a, b) && StartsWith(b, c)
    ensures StartsWith(a, c)
  {
    assert a[..|c|] == a[..|b|][..|c|];
  }

  /** `s.indexOf(c)`: the position of the first `c` in `s`, or -1 when there is none. */
  function IndexOf(s: string, c: char): (i: int)
    ensures -1 <= i < |s|
    ensures i == -1 <==> c !in s
    ensures 0 <= i ==> s[i] == c && c !in s[..i]
  {
    if s == [] then -1
    else if s[0] == c then 0
    else
      var j := IndexOf(s[1..], c);
      assert s[1..][..if j < 0 then 0 else j] == s[1..1 + if j < 0 then 0 else j];
      if j == -1 then -1 else j + 1
  }

  /** The first `c` of `x + [c] + y` is the one after `x` when `x` holds none. */
  lemma IndexOfFirst(x: string, c: char, y: string)
    requires c !in x
    ensures IndexOf(x + [c] + y, c) == |x|
  {
    var s := x + [c] + y;
    assert s[|x|] == c && s[..|x|] == x;
  }

  /** Appending a whitespace character does not change what `trim` returns. */
  lemma {:induction false} TrimIgnoresTrailingWhitespace(s: string, c: char)
    requires IsWhitespace(c)
    ensures Trim(s + [c]) == Trim(s)
  {
    TrimStartAppend(s, c);
    var t := TrimStart(s);
    if t == [] {
      assert TrimStart(s + [c]) == TrimStart([c]);
      assert TrimStart([c]) == TrimStart([c][1..]);
    } else {
      assert TrimStart(s + [c]) == t + [c];
      assert (t + [c])[..|t|] == t;
    }
  }

  /** Helper: trimming the start of `s + [c]` trims `s` and keeps `c`, unless `s` is all whitespace. */
  lemma {:induction false} TrimStartAppend(s: string, c: char)
    ensures TrimStart(s) != [] ==> TrimStart(s + [c]) == TrimStart(s) + [c]
    ensures TrimStart(s) == [] ==> TrimStart(s + [c]) == TrimStart([c])
    decreases |s|
  {
    if s == [] {
      assert s + [c] == [c];
    } else {
      var sc := s + [c];
      assert sc[0] == s[0];
      assert sc[1..] == s[1..] + [c];
      if IsWhitespace(s[0]) {
        assert TrimStart(s) == TrimStart(s[1..]);
        assert TrimStart(sc) == TrimStart(s[1..] + [c]);
        TrimStartAppend(s[1..], c);
      } else {
        assert TrimStart(s) == s;
        assert TrimStart(sc) == sc;
      }
    }
  }
}
