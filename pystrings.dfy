/**
 * The Python `str` operations the payment and webhook code relies on:
 * whitespace splitting and joining, splitting on a separator, stripping,
 * and deleting a character.
 */
module PyStrings {

  /** `c.isspace()`: the characters `str.split()` and `str.strip()` treat as whitespace. */
  predicate IsSpace(c: char) {
    || ('\U{0009}' <= c <= '\U{000D}') || ('\U{001C}' <= c <= '\U{001F}') || c == ' '
    || c == '\U{0085}' || c == '\U{00A0}' || c == '\U{1680}' || ('\U{2000}' <= c <= '\U{200A}')
    || c == '\U{2028}' || c == '\U{2029}' || c == '\U{202F}' || c == '\U{205F}' || c == '\U{3000}'
  }

  /** A non-empty run of non-whitespace characters. */
  predicate IsToken(t: string) {
    t != [] && forall k :: 0 <= k < |t| ==> !IsSpace(t[k])
  }

  /** The longest prefix of `s` free of whitespace. */
  function LeadingToken(s: string): (t: string)
    ensures t <= s
    ensures forall k :: 0 <= k < |t| ==> !IsSpace(t[k])
    ensures |t| < |s| ==> IsSpace(s[|t|])
    ensures s != [] && !IsSpace(s[0]) ==> |t| >= 1
  {
    if s == [] || IsSpace(s[0]) then [] else [s[0]] + LeadingToken(s[1..])
  }

  /** `s.split()`: the maximal whitespace-free runs of `s`, in order. */
  function Tokens(s: string): (ts: seq<string>)
    ensures forall i :: 0 <= i < |ts| ==> IsToken(ts[i])
    decreases |s|
  {
    if s == [] then []
    else if IsSpace(s[0]) then Tokens(s[1..])
    else
      var t := LeadingToken(s);
      [t] + Tokens(s[|t|..])
  }

  /** `" ".join(ts)`. */
  function JoinSpace(ts: seq<string>): string {
    if ts == [] then ""
    else if |ts| == 1 then ts[0]
    else ts[0] + " " + JoinSpace(ts[1..])
  }

  /** `s.split()` is empty exactly when `s` holds only whitespace. */
  lemma {:induction false} TokensEmpty(s: string)
    ensures Tokens(s) == [] <==> forall k :: 0 <= k < |s| ==> IsSpace(s[k])
    decreases |s|
  {
    if s != [] && IsSpace(s[0]) {
      TokensEmpty(s[1..]);
      assert forall k :: 1 <= k < |s| ==> s[k] == s[1..][k - 1];
    }
  }

  /** A token glued in front of whitespace-led text comes back as the first word. */
  lemma LeadingTokenOfJoin(t: string, rest: string)
    requires IsToken(t)
    requires rest == [] || IsSpace(rest[0])
    ensures LeadingToken(t + rest) == t
    decreases |t|
  {
    if |t| > 1 {
      assert (t + rest)[1..] == t[1..] + rest;
      LeadingTokenOfJoin(t[1..], rest);
    } else {
      assert (t + rest)[1..] == rest;
    }
  }

  /** Leading whitespace does not change the split. */
  lemma TokensAfterSpace(s: string)
    requires s != [] && IsSpace(s[0])
    ensures Tokens(s) == Tokens(s[1..])
  {
  }

  /** Splitting a single-space join of words gives back the words. */
  lemma {:induction false} TokensOfJoin(ts: seq<string>)
    requires forall i :: 0 <= i < |ts| ==> IsToken(ts[i])
    ensures Tokens(JoinSpace(ts)) == ts
  {
    if ts == [] {
    } else if |ts| == 1 {
      LeadingTokenOfJoin(ts[0], "");
      assert ts[0] + "" == ts[0];
      assert ts[0][|ts[0]|..] == [];
    } else {
      var rest := " " + JoinSpace(ts[1..]);
      var s := ts[0] + rest;
      assert JoinSpace(ts) == s;
      LeadingTokenOfJoin(ts[0], rest);
      assert s[|ts[0]|..] == rest;
      assert rest[1..] == JoinSpace(ts[1..]);
      TokensAfterSpace(rest);
      TokensOfJoin(ts[1..]);
      assert ts == [ts[0]] + ts[1..];
    }
  }

  /** The index of the first `c` in `s`, if any. */
  function IndexOf(s: string, c: char): (r: int)
    ensures -1 <= r < |s|
    ensures r == -1 <==> c !in s
    ensures r >= 0 ==> s[r] == c && c !in s[..r]
  {
    if s == [] then -1
    else if s[0] == c then 0
    else
      var r := IndexOf(s[1..], c);
      if r == -1 then -1 else r + 1
  }

  /** `s.split(sep)`: the pieces between the separators; always at least one. */
  function Split(s: string, sep: char): (parts: seq<string>)
    ensures |parts| >= 1
    ensures forall i :: 0 <= i < |parts| ==> sep !in parts[i]
    decreases |s|
  {
    var i := IndexOf(s, sep);
    if i == -1 then [s] else [s[..i]] + Split(s[i + 1..], sep)
  }

  /** `sep.join(parts)`. */
  function Join(parts: seq<string>, sep: char): string {
    if parts == [] then ""
    else if |parts| == 1 then parts[0]
    else parts[0] + [sep] + Join(parts[1..], sep)
  }

  /** Joining the pieces of a split with the separator gives back the string. */
  lemma {:induction false} SplitJoin(s: string, sep: char)
    ensures Join(Split(s, sep), sep) == s
    decreases |s|
  {
    var i := IndexOf(s, sep);
    if i != -1 {
      var rest := Split(s[i + 1..], sep);
      SplitJoin(s[i + 1..], sep);
      var parts := Split(s, sep);
      assert parts == [s[..i]] + rest;
      assert parts[1..] == rest;
      assert Join(parts, sep) == s[..i] + [sep] + Join(rest, sep);
      assert s == s[..i] + [sep] + s[i + 1..];
    }
  }

  /** `s.split(sep, 1)`: the text before the first separator and the rest, or `[s]` when there is none. */
  function SplitOnce(s: string, sep: char): (parts: seq<string>)
    ensures |parts| == 1 || |parts| == 2
    ensures |parts| == 1 <==> sep !in s
    ensures |parts| == 1 ==> parts[0] == s
    ensures |parts| == 2 ==> sep !in parts[0] && parts[0] + [sep] + parts[1] == s
  {
    var i := IndexOf(s, sep);
    if i == -1 then [s]
    else
      assert s == s[..i] + [sep] + s[i + 1..];
      [s[..i], s[i + 1..]]
  }

  /** `s.lstrip()`. */
  function StripLeft(s: string): (r: string)
    ensures r == [] || !IsSpace(r[0])
    ensures exists k :: 0 <= k <= |s| && r == s[k..] && forall j :: 0 <= j < k ==> IsSpace(s[j])
  {
    if s != [] && IsSpace(s[0]) then
      var r := StripLeft(s[1..]);
      var k :| 0 <= k <= |s[1..]| && r == s[1..][k..] && forall j :: 0 <= j < k ==> IsSpace(s[1..][j]);
      assert r == s[k + 1..];
      r
    else
      assert s == s[0..];
      s
  }

  /** `s.rstrip()`. */
  function StripRight(s: string): (r: string)
    ensures r == [] || !IsSpace(r[|r| - 1])
    ensures exists k :: 0 <= k <= |s| && r == s[..k] && forall j :: k <= j < |s| ==> IsSpace(s[j])
  {
    if s != [] && IsSpace(s[|s| - 1]) then
      var init := s[..|s| - 1];
      var r := StripRight(init);
      var k :| 0 <= k <= |init| && r == init[..k] && forall j :: k <= j < |init| ==> IsSpace(init[j]);
      assert r == s[..k];
      r
    else
      assert s == s[..|s|];
      s
  }

  /** `s.strip()`: the slice of `s` left once the whitespace at both ends is cut off. */
  function Strip(s: string): (r: string)
    ensures r == [] || (!IsSpace(r[0]) && !IsSpace(r[|r| - 1]))
    ensures exists i, j ::
              && 0 <= i <= j <= |s| && r == s[i..j]
              && (forall k :: 0 <= k < i ==> IsSpace(s[k])) && (forall k :: j <= k < |s| ==> IsSpace(s[k]))
  {
    StripIsSlice(s);
    StripRight(StripLeft(s))
  }

  /** Stripping the right end of the left-stripped text cuts whitespace only, from both ends. */
  lemma {:induction false} StripIsSlice(s: string)
    ensures exists i, j ::
              && 0 <= i <= j <= |s| && StripRight(StripLeft(s)) == s[i..j]
              && (forall k :: 0 <= k < i ==> IsSpace(s[k])) && (forall k :: j <= k < |s| ==> IsSpace(s[k]))
  {
    var l := StripLeft(s);
    var i :| 0 <= i <= |s| && l == s[i..] && forall k :: 0 <= k < i ==> IsSpace(s[k]);
    var n :| 0 <= n <= |l| && StripRight(l) == l[..n] && forall k :: n <= k < |l| ==> IsSpace(l[k]);
    InnerSlice(s, i, n, StripRight(l));
  }

  /** Dropping whitespace from the front and then from the back leaves an inner slice. */
  lemma InnerSlice(s: string, i: nat, n: nat, r: string)
    requires i <= |s| && n <= |s| - i && r == s[i..][..n]
    requires forall k :: 0 <= k < i ==> IsSpace(s[k])
    requires forall k :: n <= k < |s[i..]| ==> IsSpace(s[i..][k])
    ensures exists i', j ::
              && 0 <= i' <= j <= |s| && r == s[i'..j]
              && (forall k :: 0 <= k < i' ==> IsSpace(s[k])) && (forall k :: j <= k < |s| ==> IsSpace(s[k]))
  {
    forall k | i + n <= k < |s| ensures IsSpace(s[k]) {
      assert s[k] == s[i..][k - i];
    }
    assert r == s[i..i + n];
  }

  /** `s.replace(c, '')`. */
  function Remove(s: string, c: char): (r: string)
    ensures c !in r
    ensures |r| <= |s|
    ensures forall x :: x != c ==> (x in r <==> x in s)
  {
    if s == [] then []
    else (if s[0] == c then [] else [s[0]]) + Remove(s[1..], c)
  }

  /**
   * Removal deletes exactly the `c`s: every other character stays as often
   * as it occurs in `s`, so the length drops by the number of `c`s, and a
   * string without `c` comes back as it was.
   */
  lemma {:induction false} RemoveCount(s: string, c: char)
    ensures multiset(Remove(s, c)) == multiset(s)[c := 0]
    ensures |Remove(s, c)| == |s| - multiset(s)[c]
    ensures c !in s ==> Remove(s, c) == s
    decreases |s|
  {
    if s != [] {
      assert s == [s[0]] + s[1..];
      RemoveCount(s[1..], c);
    }
  }

  /** Removal works piecewise, so the characters that stay keep their order. */
  lemma {:induction false} RemoveConcat(a: string, b: string, c: char)
    ensures Remove(a + b, c) == Remove(a, c) + Remove(b, c)
    decreases |a|
  {
    if a == [] {
      assert a + b == b;
    } else {
      var t := a[1..];
      assert a == [a[0]] + t && a + b == [a[0]] + (t + b);
      RemoveCons(a[0], t + b, c);
      RemoveCons(a[0], t, c);
      RemoveConcat(t, b, c);
      var head := if a[0] == c then [] else [a[0]];
      assert head + (Remove(t, c) + Remove(b, c)) == (head + Remove(t, c)) + Remove(b, c);
    }
  }

  /** Removal from a string with a known first character. */
  lemma RemoveCons(x: char, t: string, c: char)
    ensures Remove([x] + t, c) == (if x == c then [] else [x]) + Remove(t, c)
  {
    assert ([x] + t)[0] == x && ([x] + t)[1..] == t;
  }
}
