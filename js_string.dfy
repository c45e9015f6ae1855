/**
 * The JavaScript string operations the fish-image resolver relies on:
 * `toLowerCase`, `trim` and `includes`, on strings of characters.
 */
module JsString {

  /** Lower case for ASCII letters; every other character is kept. */
  function ToLowerChar(c: char): char {
    if 'A' <= c <= 'Z' then (c as int + 32) as char else c
  }

  /** `s` holds no ASCII upper-case letter. */
  predicate NoUpper(s: string) {
    forall i :: 0 <= i < |s| ==> !('A' <= s[i] <= 'Z')
  }

  /** `s.toLowerCase()`: each character lower-cased on its own, leaving no upper-case letter. */
  function ToLower(s: string): (r: string)
    ensures |r| == |s| && forall i :: 0 <= i < |s| ==> r[i] == ToLowerChar(s[i])
    ensures NoUpper(r)
  {
    seq(|s|, i requires 0 <= i < |s| => ToLowerChar(s[i]))
  }

  /** The characters `String.prototype.trim` removes: white space and line terminators. */
  predicate IsWhitespace(c: char) {
    || c == ' ' || '\t' <= c <= '\r'
    || c == '\U{00A0}' || c == '\U{1680}' || '\U{2000}' <= c <= '\U{200A}'
    || c == '\U{2028}' || c == '\U{2029}' || c == '\U{202F}' || c == '\U{205F}'
    || c == '\U{3000}' || c == '\U{FEFF}'
  }

  predicate AllWhitespace(s: string) {
    forall i :: 0 <= i < |s| ==> IsWhitespace(s[i])
  }

  /** `s` without its leading white space. */
  function TrimStart(s: string): (r: string)
    ensures |r| <= |s| && r == s[|s| - |r|..] && AllWhitespace(s[..|s| - |r|])
    ensures r != [] ==> !IsWhitespace(r[0])
    decreases |s|
  {
    if s != [] && IsWhitespace(s[0]) then
      var r := TrimStart(s[1..]);
      TailSlices(s, |s| - |r|);
      WhitespaceCons(s[0], s[1..][..|s[1..]| - |r|]);
      r
    else
      s
  }

  /** How the slices of `s[1..]` sit in `s`. */
  lemma TailSlices(s: string, k: nat)
    requires 1 <= k <= |s|
    ensures s[1..][k - 1..] == s[k..] && s[..k] == [s[0]] + s[1..][..k - 1]
  {
  }

  lemma WhitespaceCons(c: char, w: string)
    requires IsWhitespace(c) && AllWhitespace(w)
    ensures AllWhitespace([c] + w)
  {
    assert forall i :: 0 < i <= |w| ==> ([c] + w)[i] == w[i - 1];
  }

  /** `s` without its trailing white space. */
  function TrimEnd(s: string): (r: string)
    ensures |r| <= |s| && r == s[..|r|] && AllWhitespace(s[|r|..])
    ensures r != [] ==> !IsWhitespace(r[|r| - 1])
    decreases |s|
  {
    if s != [] && IsWhitespace(s[|s| - 1]) then
      var r := TrimEnd(s[..|s| - 1]);
      assert s[|r|..] == s[..|s| - 1][|r|..] + [s[|s| - 1]];
      r
    else
      s
  }

  /** `s` without white space at either end. */
  function Trim(s: string): (r: string)
    ensures |r| <= |s|
    ensures exists i, j :: 0 <= i <= j <= |s| && r == s[i..j]
                           && AllWhitespace(s[..i]) && AllWhitespace(s[j..])
    ensures r != [] ==> !IsWhitespace(r[0]) && !IsWhitespace(r[|r| - 1])
  {
    var start := TrimStart(s);
    var r := TrimEnd(start);
    SliceBetweenWhitespace(s, start, r);
    assert r != [] ==> r[0] == start[0];
    r
  }

  /** A prefix `r` of a suffix `start` of `s`, each cut off only white space, is such a slice of `s`. */
  lemma SliceBetweenWhitespace(s: string, start: string, r: string)
    requires |start| <= |s| && start == s[|s| - |start|..] && AllWhitespace(s[..|s| - |start|])
    requires |r| <= |start| && r == start[..|r|] && AllWhitespace(start[|r|..])
    ensures exists i, j :: 0 <= i <= j <= |s| && r == s[i..j]
                           && AllWhitespace(s[..i]) && AllWhitespace(s[j..])
  {
    var i := |s| - |start|;
    SliceOfSuffix(s, i, |r|);
    assert r == s[i..i + |r|] && AllWhitespace(s[..i]) && AllWhitespace(s[i + |r|..]);
  }

  /** A prefix of a suffix of `s` is a slice of `s`, and what follows it is the rest of `s`. */
  lemma SliceOfSuffix(s: string, i: nat, n: nat)
    requires i + n <= |s|
    ensures s[i..][..n] == s[i..i + n] && s[i..][n..] == s[i + n..]
  {
  }

  predicate StartsWith(s: string, prefix: string) {
    |prefix| <= |s| && s[..|prefix|] == prefix
  }

  /** `needle` occurs in `hay` starting at position `i`. */
  predicate OccursAt(hay: string, needle: string, i: int) {
    0 <= i && i + |needle| <= |hay| && hay[i..i + |needle|] == needle
  }

  /** `hay.includes(needle)`: `needle` occurs somewhere in `hay`; the empty string occurs everywhere. */
  function Includes(hay: string, needle: string): (r: bool)
    ensures r <==> exists i :: OccursAt(hay, needle, i)
    decreases |hay|
  {
    if StartsWith(hay, needle) then
      assert OccursAt(hay, needle, 0);
      true
    else if hay == [] then
      assert forall i :: !OccursAt(hay, needle, i);
      false
    else
      var r := Includes(hay[1..], needle);
      assert forall i :: OccursAt(hay, needle, i) ==> i >= 1 && OccursAt(hay[1..], needle, i - 1);
      assert forall k :: OccursAt(hay[1..], needle, k) ==> OccursAt(hay, needle, k + 1);
      r
  }

  // ---------------------------------------------------------------------------
  // Properties
  // ---------------------------------------------------------------------------

  /** Lower-casing distributes over concatenation. */
  lemma ToLowerAppend(a: string, b: string)
    ensures ToLower(a + b) == ToLower(a) + ToLower(b)
  {
  }

  /** White space has no upper case, so lower-casing keeps it. */
  lemma ToLowerKeepsWhitespace(w: string)
    requires AllWhitespace(w)
    ensures ToLower(w) == w
  {
  }

  /** Lower-casing a string without upper-case letters changes nothing. */
  lemma NoUpperUnchanged(s: string)
    requires NoUpper(s)
    ensures ToLower(s) == s
  {
  }

  /** A string made of white space trims to nothing from the start. */
  lemma {:induction false} TrimStartOfWhitespace(w: string)
    requires AllWhitespace(w)
    ensures TrimStart(w) == []
    decreases |w|
  {
    if w != [] {
      TrimStartOfWhitespace(w[1..]);
    }
  }

  /** Leading white space is dropped whatever follows it. */
  lemma {:induction false} TrimStartSkipsLead(w: string, x: string)
    requires AllWhitespace(w)
    ensures TrimStart(w + x) == TrimStart(x)
    decreases |w|
  {
    if w == [] {
      assert w + x == x;
    } else {
      assert (w + x)[0] == w[0];
      assert (w + x)[1..] == w[1..] + x;
      TrimStartSkipsLead(w[1..], x);
    }
  }

  /** Trailing white space survives `TrimStart` unless everything before it is white space too. */
  lemma {:induction false} TrimStartKeepsTrail(x: string, w: string)
    requires AllWhitespace(w)
    ensures TrimStart(x + w) == if TrimStart(x) == [] then [] else TrimStart(x) + w
    decreases |x|
  {
    if x == [] {
      assert x + w == w;
      TrimStartOfWhitespace(w);
    } else if IsWhitespace(x[0]) {
      assert (x + w)[1..] == x[1..] + w;
      TrimStartKeepsTrail(x[1..], w);
    }
  }

  /** Trailing white space is dropped whatever precedes it. */
  lemma {:induction false} TrimEndSkipsTrail(x: string, w: string)
    requires AllWhitespace(w)
    ensures TrimEnd(x + w) == TrimEnd(x)
    decreases |w|
  {
    if w == [] {
      assert x + w == x;
    } else {
      var init := w[..|w| - 1];
      assert (x + w)[..|x + w| - 1] == x + init;
      TrimEndSkipsTrail(x, init);
    }
  }

  /** White space around a name does not change its trimmed form. */
  lemma TrimIgnoresPadding(lead: string, x: string, trail: string)
    requires AllWhitespace(lead) && AllWhitespace(trail)
    ensures Trim(lead + x + trail) == Trim(x)
  {
    assert lead + x + trail == lead + (x + trail);
    TrimStartSkipsLead(lead, x + trail);
    TrimStartKeepsTrail(x, trail);
    if TrimStart(x) != [] {
      TrimEndSkipsTrail(TrimStart(x), trail);
    }
  }

  /** A trimmed string neither starts nor ends with white space, so trimming it again changes nothing. */
  lemma TrimIdempotent(t: string)
    ensures Trim(Trim(t)) == Trim(t)
  {
    var u := Trim(t);
    if u != [] {
      assert u[0] == TrimStart(t)[0];
    }
  }

  /** A string without white space at either end is its own trimmed form. */
  lemma TrimKeeps(s: string)
    requires s != [] ==> !IsWhitespace(s[0]) && !IsWhitespace(s[|s| - 1])
    ensures Trim(s) == s
  {
  }

  /** Trimming keeps a contiguous slice, so it introduces no upper-case letter. */
  lemma TrimKeepsNoUpper(t: string)
    requires NoUpper(t)
    ensures NoUpper(Trim(t))
  {
    var v := TrimStart(t);
    NoUpperSlice(t, |t| - |v|, |t|);
    var u := TrimEnd(v);
    NoUpperSlice(v, 0, |u|);
    assert u == Trim(t);
  }

  lemma NoUpperSlice(s: string, lo: nat, hi: nat)
    requires NoUpper(s) && lo <= hi <= |s|
    ensures NoUpper(s[lo..hi])
  {
    forall i | 0 <= i < hi - lo ensures !('A' <= s[lo..hi][i] <= 'Z') {
      assert s[lo..hi][i] == s[lo + i];
    }
  }
}
