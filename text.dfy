/**
  The java.lang.String operations the plugin relies on, over `seq<char>`:
  `replace` of a single character by nothing, `replace` of a substring,
  `toLowerCase(Locale.ROOT)` (ASCII letters only), `trim`, `endsWith` and
  `equalsIgnoreCase`.
 */
module Text {

  /** `Character.toLowerCase` restricted to the ASCII upper-case letters. */
  function LowerChar(c: char): char {
    if 'A' <= c <= 'Z' then (c as int + 32) as char else c
  }

  predicate IsUpper(c: char) {
    'A' <= c <= 'Z'
  }

  /** `s.toLowerCase(Locale.ROOT)`. */
  function ToLower(s: string): (r: string)
    ensures |r| == |s|
    ensures forall i :: 0 <= i < |s| ==> r[i] == LowerChar(s[i])
  {
    seq(|s|, i requires 0 <= i < |s| => LowerChar(s[i]))
  }

  /** No ASCII upper-case letter occurs in `s`. */
  predicate IsLowerCase(s: string) {
    forall i :: 0 <= i < |s| ==> !IsUpper(s[i])
  }

  /** `s.replace(String.valueOf(c), "")`: every occurrence of `c` dropped. */
  function RemoveAll(s: string, c: char): (r: string)
    ensures c !in r
    ensures |r| <= |s|
    ensures forall x :: x in r ==> x in s
  {
    if s == [] then []
    else (if s[0] == c then [] else [s[0]]) + RemoveAll(s[1..], c)
  }

  /**
    `s.replace(t, u)` for a non-empty target `t`: scanning left to right,
    each occurrence of `t` that does not overlap an earlier one becomes `u`.
   */
  function Replace(s: string, t: string, u: string): string
    requires t != []
    decreases |s|
  {
    if |s| < |t| then s
    else if s[..|t|] == t then u + Replace(s[|t|..], t, u)
    else [s[0]] + Replace(s[1..], t, u)
  }

  /** `s.endsWith(suffix)`. */
  predicate EndsWith(s: string, suffix: string) {
    |suffix| <= |s| && s[|s| - |suffix|..] == suffix
  }

  /** Java's `trim` drops leading and trailing characters up to U+0020. */
  predicate IsTrimmed(c: char) {
    c <= ' '
  }

  function TrimStart(s: string): (r: string)
    ensures |r| <= |s|
    ensures r != [] ==> !IsTrimmed(r[0])
    ensures forall x :: x in r ==> x in s
  {
    if s != [] && IsTrimmed(s[0]) then TrimStart(s[1..]) else s
  }

  function TrimEnd(s: string): (r: string)
    ensures |r| <= |s|
    ensures r != [] ==> !IsTrimmed(r[|r| - 1])
    ensures r == s[..|r|]
    ensures s != [] && !IsTrimmed(s[0]) ==> r != []
    ensures forall x :: x in r ==> x in s
  {
    if s != [] && IsTrimmed(s[|s| - 1]) then TrimEnd(s[..|s| - 1]) else s
  }

  /** `s.trim()`. */
  function Trim(s: string): (r: string)
    ensures |r| <= |s|
    ensures r != [] ==> !IsTrimmed(r[0]) && !IsTrimmed(r[|r| - 1])
    ensures forall x :: x in r ==> x in s
  {
    TrimEnd(TrimStart(s))
  }

  /** `a.equalsIgnoreCase(b)` for ASCII text. */
  predicate EqualsIgnoreCase(a: string, b: string) {
    ToLower(a) == ToLower(b)
  }

  // ---------------------------------------------------------------------
  // Facts about the helpers.

  lemma {:induction false} RemoveAllAbsent(s: string, c: char)
    requires c !in s
    ensures RemoveAll(s, c) == s
  {
    if s != [] {
      assert s[1..] + [] == s[1..];
      assert c !in s[1..];
      RemoveAllAbsent(s[1..], c);
    }
  }

  lemma ToLowerIsLowerCase(s: string)
    ensures IsLowerCase(ToLower(s))
  {
  }

  lemma ToLowerOfLowerCase(s: string)
    requires IsLowerCase(s)
    ensures ToLower(s) == s
  {
  }

  /** Lower-casing leaves every non-letter where it was. */
  lemma ToLowerKeepsAbsent(s: string, d: char)
    requires d !in s && !IsUpper(d) && d !in "abcdefghijklmnopqrstuvwxyz"
    ensures d !in ToLower(s)
  {
  }

  /** A target whose first character never occurs is never found. */
  lemma {:induction false} ReplaceAbsent(s: string, t: string, u: string)
    requires t != [] && t[0] !in s
    ensures Replace(s, t, u) == s
    decreases |s|
  {
    if |s| >= |t| {
      assert s[..|t|][0] == s[0] != t[0];
      assert t[0] !in s[1..];
      ReplaceAbsent(s[1..], t, u);
      assert [s[0]] + s[1..] == s;
    }
  }

  /** Replacing a target by itself changes nothing. */
  lemma {:induction false} ReplaceBySelf(s: string, t: string)
    requires t != []
    ensures Replace(s, t, t) == s
    decreases |s|
  {
    if |s| >= |t| {
      if s[..|t|] == t {
        ReplaceBySelf(s[|t|..], t);
        assert s[..|t|] + s[|t|..] == s;
      } else {
        ReplaceBySelf(s[1..], t);
        assert [s[0]] + s[1..] == s;
      }
    }
  }

  lemma {:induction false} RemoveAllConcat(a: string, b: string, c: char)
    ensures RemoveAll(a + b, c) == RemoveAll(a, c) + RemoveAll(b, c)
  {
    if a == [] {
      assert a + b == b;
    } else {
      assert (a + b)[0] == a[0];
      assert (a + b)[1..] == a[1..] + b;
      RemoveAllConcat(a[1..], b, c);
    }
  }

  lemma ToLowerConcat(a: string, b: string)
    ensures ToLower(a + b) == ToLower(a) + ToLower(b)
  {
  }

  lemma TrimNoOp(s: string)
    requires s == [] || (!IsTrimmed(s[0]) && !IsTrimmed(s[|s| - 1]))
    ensures Trim(s) == s
  {
  }
}
