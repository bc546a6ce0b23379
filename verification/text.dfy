/**
 * The few Python string operations the integration relies on: `str.strip()`,
 * `str.lower()` (used before hashing an email) and `str.startswith`.
 */
module Text {

  /** Python's `str.isspace` for one character: the characters `str.strip()` removes. */
  predicate IsSpace(c: char) {
    || c == ' '
    || ('\t' <= c <= '\r')
    || ('\U{1C}' <= c <= '\U{1F}')
    || c == '\U{85}' || c == '\U{A0}' || c == '\U{1680}'
    || ('\U{2000}' <= c <= '\U{200A}')
    || c == '\U{2028}' || c == '\U{2029}' || c == '\U{202F}' || c == '\U{205F}' || c == '\U{3000}'
  }

  ghost predicate AllSpace(s: string) {
    forall i :: 0 <= i < |s| ==> IsSpace(s[i])
  }

  /** Where the kept text starts: the first non-space position at or after `i`, or `|s|`. */
  function SkipSpace(s: string, i: nat): (k: nat)
    requires i <= |s|
    ensures i <= k <= |s|
    ensures forall x :: i <= x < k ==> IsSpace(s[x])
    ensures k < |s| ==> !IsSpace(s[k])
    decreases |s| - i
  {
    if i < |s| && IsSpace(s[i]) then SkipSpace(s, i + 1) else i
  }

  /** Where the kept text ends: scanning back from `j`, the position after the last non-space, or `lo`. */
  function SkipSpaceBack(s: string, lo: nat, j: nat): (k: nat)
    requires lo <= j <= |s|
    ensures lo <= k <= j
    ensures forall x :: k <= x < j ==> IsSpace(s[x])
    ensures lo < k ==> !IsSpace(s[k - 1])
    decreases j
  {
    if lo < j && IsSpace(s[j - 1]) then SkipSpaceBack(s, lo, j - 1) else j
  }

  /** Python's `s.strip()`: whitespace removed from both ends. */
  function Strip(s: string): (r: string)
    ensures |r| <= |s|
    ensures r == [] || (!IsSpace(r[0]) && !IsSpace(r[|r| - 1]))
  {
    var a := SkipSpace(s, 0);
    s[a..SkipSpaceBack(s, a, |s|)]
  }

  /**
   * `s[i..j]` is what remains of `s` once the whitespace on both sides is gone: only
   * whitespace lies outside it and it starts and ends with a non-space character.
   */
  ghost predicate StripWindow(s: string, i: nat, j: nat) {
    && i <= j <= |s|
    && (forall x :: 0 <= x < i ==> IsSpace(s[x]))
    && (forall x :: j <= x < |s| ==> IsSpace(s[x]))
    && (i == j || (!IsSpace(s[i]) && !IsSpace(s[j - 1])))
  }

  /** `Strip(s)` is the slice of `s` inside the one window of `s`, whichever window is given. */
  lemma StripUnique(s: string, i: nat, j: nat)
    requires StripWindow(s, i, j)
    ensures Strip(s) == s[i..j]
  {
    var a := SkipSpace(s, 0);
    if i == j {
      assert a == |s|;
    } else {
      assert a == i;
      assert SkipSpaceBack(s, a, |s|) == j;
    }
  }

  /** Stripping twice is stripping once. */
  lemma StripIdempotent(s: string)
    ensures Strip(Strip(s)) == Strip(s)
  {
    var r := Strip(s);
    assert StripWindow(r, 0, |r|);
    StripUnique(r, 0, |r|);
    assert r[0..|r|] == r;
  }

  /** Whitespace added around an answer does not change what `strip()` keeps. */
  lemma StripIgnoresPadding(p: string, s: string, q: string)
    requires AllSpace(p) && AllSpace(q)
    ensures Strip(p + s + q) == Strip(s)
  {
    var w := p + s + q;
    forall x | 0 <= x < |s| ensures w[|p| + x] == s[x] { }
    forall x | 0 <= x < |p| ensures IsSpace(w[x]) {
      assert w[x] == p[x];
    }
    forall x | |p| + |s| <= x < |w| ensures IsSpace(w[x]) {
      assert w[x] == q[x - |p| - |s|];
    }
    StripEmbedded(w, s, |p|);
  }

  /** `s` sits at offset `off` of `w` with only whitespace around it, so both strip alike. */
  lemma StripEmbedded(w: string, s: string, off: nat)
    requires off + |s| <= |w|
    requires forall x :: 0 <= x < |s| ==> w[off + x] == s[x]
    requires forall x :: 0 <= x < off ==> IsSpace(w[x])
    requires forall x :: off + |s| <= x < |w| ==> IsSpace(w[x])
    ensures Strip(w) == Strip(s)
  {
    var i, j := StrippedWindowMoved(w, s, off);
    StripUnique(w, i, j);
  }

  /** The window `Strip(s)` keeps, moved to offset `off`, is a window of `w`. */
  lemma StrippedWindowMoved(w: string, s: string, off: nat) returns (i: nat, j: nat)
    requires off + |s| <= |w|
    requires forall x :: 0 <= x < |s| ==> w[off + x] == s[x]
    requires forall x :: 0 <= x < off ==> IsSpace(w[x])
    requires forall x :: off + |s| <= x < |w| ==> IsSpace(w[x])
    ensures StripWindow(w, i, j) && w[i..j] == Strip(s)
  {
    var a, b := WindowOf(s);
    EmbeddedWindow(w, s, off, a, b);
    i, j := off + a, off + b;
  }

  /** The window `Strip` keeps. */
  lemma WindowOf(s: string) returns (a: nat, b: nat)
    ensures StripWindow(s, a, b) && Strip(s) == s[a..b]
  {
    a := SkipSpace(s, 0);
    b := SkipSpaceBack(s, a, |s|);
  }

  /** A window of `s`, moved to offset `off`, is a window of `w` holding the same text. */
  lemma EmbeddedWindow(w: string, s: string, off: nat, a: nat, b: nat)
    requires off + |s| <= |w|
    requires forall x :: 0 <= x < |s| ==> w[off + x] == s[x]
    requires forall x :: 0 <= x < off ==> IsSpace(w[x])
    requires forall x :: off + |s| <= x < |w| ==> IsSpace(w[x])
    requires StripWindow(s, a, b)
    ensures StripWindow(w, off + a, off + b)
    ensures w[off + a..off + b] == s[a..b]
  {
    SpaceBefore(w, s, off, a);
    SpaceAfter(w, s, off, b);
    if a < b {
      assert w[off + a] == s[a] && w[off + (b - 1)] == s[b - 1];
    }
    ShiftedSlice(w, s, off, a, b);
  }

  /** Leading whitespace of `s` at offset `off`, after whitespace in `w`, leaves only whitespace before `off + a`. */
  lemma SpaceBefore(w: string, s: string, off: nat, a: nat)
    requires off + |s| <= |w| && a <= |s|
    requires forall x :: 0 <= x < |s| ==> w[off + x] == s[x]
    requires forall x :: 0 <= x < off ==> IsSpace(w[x])
    requires forall x :: 0 <= x < a ==> IsSpace(s[x])
    ensures forall x :: 0 <= x < off + a ==> IsSpace(w[x])
  {
    forall x | off <= x < off + a ensures IsSpace(w[x]) {
      assert w[off + (x - off)] == s[x - off];
    }
  }

  /** Trailing whitespace of `s` from `b`, followed by whitespace in `w`, leaves only whitespace from `off + b`. */
  lemma SpaceAfter(w: string, s: string, off: nat, b: nat)
    requires off + |s| <= |w| && b <= |s|
    requires forall x :: 0 <= x < |s| ==> w[off + x] == s[x]
    requires forall x :: off + |s| <= x < |w| ==> IsSpace(w[x])
    requires forall x :: b <= x < |s| ==> IsSpace(s[x])
    ensures forall x :: off + b <= x < |w| ==> IsSpace(w[x])
  {
    forall x | off + b <= x < off + |s| ensures IsSpace(w[x]) {
      assert w[off + (x - off)] == s[x - off];
    }
  }

  /** A slice of `s` read at offset `off` of `w`, where `s` sits, is the same text. */
  lemma ShiftedSlice(w: string, s: string, off: nat, a: nat, b: nat)
    requires off + |s| <= |w| && a <= b <= |s|
    requires forall x :: 0 <= x < |s| ==> w[off + x] == s[x]
    ensures w[off + a..off + b] == s[a..b]
  {
    forall x | 0 <= x < b - a ensures w[off + a..off + b][x] == s[a..b][x] {
      assert w[off + (a + x)] == s[a + x];
    }
  }

  /** Python's `str.lower()` on one character, for ASCII and the Latin-1 capitals. */
  function LowerChar(c: char): (d: char)
    ensures d == c || d as int == c as int + 32
    ensures !('A' <= d <= 'Z') && !('\U{C0}' <= d <= '\U{DE}' && d != '\U{D7}')
    ensures d != c <==> ('A' <= c <= 'Z' || ('\U{C0}' <= c <= '\U{DE}' && c != '\U{D7}'))
  {
    if 'A' <= c <= 'Z' || ('\U{C0}' <= c <= '\U{DE}' && c != '\U{D7}') then
      (c as int + 32) as char
    else
      c
  }

  /** Python's `s.lower()`: every character folded on its own, length unchanged. */
  function Lower(s: string): (r: string)
    ensures |r| == |s|
    ensures forall i :: 0 <= i < |s| ==> r[i] == LowerChar(s[i])
  {
    if s == [] then [] else [LowerChar(s[0])] + Lower(s[1..])
  }

  /** The two strings are the same once both are lower-cased, position by position. */
  ghost predicate EqualIgnoringCase(a: string, b: string) {
    |a| == |b| && forall i :: 0 <= i < |a| ==> LowerChar(a[i]) == LowerChar(b[i])
  }

  /** Lower-casing identifies exactly the strings that differ only in letter case. */
  lemma LowerEqualIff(a: string, b: string)
    ensures Lower(a) == Lower(b) <==> EqualIgnoringCase(a, b)
  {
    if Lower(a) == Lower(b) {
      forall i | 0 <= i < |a| ensures LowerChar(a[i]) == LowerChar(b[i]) {
        assert Lower(a)[i] == Lower(b)[i];
      }
    }
  }

  /** Every spelling of `s` in another letter case lower-cases to what `s` does. */
  lemma CaseVariantsLowerAlike(s: string)
    ensures forall e :: EqualIgnoringCase(e, s) ==> Lower(e) == Lower(s)
  {
    forall e | EqualIgnoringCase(e, s) ensures Lower(e) == Lower(s) {
      LowerEqualIff(e, s);
    }
  }

  /** Lower-casing an already lower-cased string changes nothing. */
  lemma LowerIdempotent(s: string)
    ensures Lower(Lower(s)) == Lower(s)
  {
    var r := Lower(s);
    forall i | 0 <= i < |r| ensures Lower(r)[i] == r[i] {
      assert LowerChar(LowerChar(s[i])) == LowerChar(s[i]);
    }
  }

  /** Python's `s.startswith(prefix)`. */
  predicate StartsWith(s: string, prefix: string): (b: bool)
    ensures b <==> |prefix| <= |s| && forall i :: 0 <= i < |prefix| ==> s[i] == prefix[i]
  {
    prefix <= s
  }
}
