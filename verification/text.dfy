/** The string primitives the source relies on, restricted to ASCII:
    `str.strip()`, `str.lower()`, `str.removeprefix` and `str.removesuffix`. */
module Text {

  /** Python's `str.isspace` on ASCII: tab, line feed, vertical tab, form feed and
      carriage return (9..13), the separators 0x1C..0x1F, and space. */
  predicate IsSpace(c: char) {
    ('\t' <= c <= '\r') || ('\U{1C}' <= c <= ' ')
  }

  ghost predicate AllSpace(s: string) {
    forall i :: 0 <= i < |s| ==> IsSpace(s[i])
  }

  /** Neither end of `s` is whitespace. */
  predicate Trimmed(s: string) {
    |s| == 0 || (!IsSpace(s[0]) && !IsSpace(s[|s| - 1]))
  }

  /** The number of whitespace characters at the front of `s`. */
  function LeadCount(s: string): (n: nat)
    ensures n <= |s|
    ensures AllSpace(s[..n])
    ensures n == |s| || !IsSpace(s[n])
  {
    if |s| > 0 && IsSpace(s[0]) then
      var m := LeadCount(s[1..]);
      assert forall i :: 1 <= i < m + 1 ==> s[i] == s[1..][..m][i - 1];
      1 + m
    else 0
  }

  /** The number of whitespace characters at the back of `s`. */
  function TrailCount(s: string): (n: nat)
    ensures n <= |s|
    ensures AllSpace(s[|s| - n..])
    ensures n == |s| || !IsSpace(s[|s| - n - 1])
  {
    if |s| > 0 && IsSpace(s[|s| - 1]) then
      var t := s[..|s| - 1];
      var m := TrailCount(t);
      assert s[|s| - m - 1..] == t[|t| - m..] + [s[|s| - 1]];
      1 + m
    else 0
  }

  /** `s` is `r` with only whitespace around it, `r` starting at offset `a`. */
  ghost predicate StripsTo(s: string, a: int, r: string) {
    && 0 <= a && a + |r| <= |s|
    && s[a..a + |r|] == r
    && AllSpace(s[..a])
    && AllSpace(s[a + |r|..])
  }

  /** Python's `s.strip()` with no argument. */
  function Strip(s: string): (r: string)
    ensures Trimmed(r)
    ensures StripsTo(s, LeadCount(s), r)
  {
    var a := LeadCount(s);
    var t := s[a..];
    var b := TrailCount(t);
    var r := t[..|t| - b];
    assert s[a + |r|..] == t[|t| - b..];
    assert |r| > 0 ==> !IsSpace(r[0]) by {
      if |r| > 0 {
        assert a < |s| && r[0] == s[a];
      }
    }
    r
  }

  /** Where the first non-whitespace character is, `LeadCount` finds it. */
  lemma {:induction false} LeadCountUnique(s: string, n: nat)
    requires n <= |s| && AllSpace(s[..n])
    requires n == |s| || !IsSpace(s[n])
    ensures LeadCount(s) == n
  {
    if n > 0 {
      assert s[..n][0] == s[0];
      assert s[1..][..n - 1] == s[..n][1..];
      LeadCountUnique(s[1..], n - 1);
    }
  }

  /** Where the last non-whitespace character is, `TrailCount` finds it. */
  lemma {:induction false} TrailCountUnique(s: string, n: nat)
    requires n <= |s| && AllSpace(s[|s| - n..])
    requires n == |s| || !IsSpace(s[|s| - n - 1])
    ensures TrailCount(s) == n
  {
    if n > 0 {
      var t := s[..|s| - 1];
      var tail := s[|s| - n..];
      assert IsSpace(s[|s| - 1]) by { assert tail[n - 1] == s[|s| - 1]; }
      var rest := t[|t| - (n - 1)..];
      forall i | 0 <= i < |rest| ensures IsSpace(rest[i]) {
        assert rest[i] == tail[i];
      }
      assert n - 1 == |t| || !IsSpace(t[|t| - (n - 1) - 1]) by {
        if n - 1 < |t| { assert t[|t| - n] == s[|s| - n - 1]; }
      }
      TrailCountUnique(t, n - 1);
    }
  }

  /** Stripping is characterised by its contract: whatever trimmed text is surrounded
      only by whitespace in `s` is what `Strip` returns. */
  lemma {:induction false} StripUnique(s: string, a: int, r: string)
    requires StripsTo(s, a, r) && Trimmed(r)
    ensures Strip(s) == r
  {
    if |r| == 0 {
      assert s == s[..a] + s[a..];
      assert AllSpace(s);
      assert s[..|s|] == s;
      LeadCountUnique(s, |s|);
    } else {
      assert s[a] == r[0];
      LeadCountUnique(s, a);
      var t := s[a..];
      assert t == r + s[a + |r|..];
      assert t[|t| - (|t| - |r|)..] == s[a + |r|..];
      assert t[|r| - 1] == r[|r| - 1];
      TrailCountUnique(t, |t| - |r|);
    }
  }

  /** Whitespace around already trimmed text is exactly what `strip()` removes. */
  lemma StripSurrounded(w1: string, x: string, w2: string)
    requires AllSpace(w1) && AllSpace(w2) && Trimmed(x)
    ensures Strip(w1 + x + w2) == x
  {
    var s := w1 + x + w2;
    assert s[|w1|..|w1| + |x|] == x;
    assert s[..|w1|] == w1;
    assert s[|w1| + |x|..] == w2;
    StripUnique(s, |w1|, x);
  }

  /** Text with no whitespace at either end is left alone by `strip()`. */
  lemma StripTrimmed(s: string)
    requires Trimmed(s)
    ensures Strip(s) == s
  {
    assert s[0..|s|] == s;
    StripUnique(s, 0, s);
  }

  /** Stripping leaves nothing exactly when the text is all whitespace. */
  lemma StripEmptyIffAllSpace(s: string)
    ensures Strip(s) == "" <==> AllSpace(s)
  {
    var a := LeadCount(s);
    if Strip(s) == "" {
      assert s == s[..a] + s[a..];
    } else {
      assert Strip(s)[0] == s[a];
    }
  }

  lemma AllSpaceAppend(a: string, b: string)
    ensures AllSpace(a + b) <==> AllSpace(a) && AllSpace(b)
  {
    if AllSpace(a + b) {
      forall i | 0 <= i < |a| ensures IsSpace(a[i]) { assert a[i] == (a + b)[i]; }
      forall i | 0 <= i < |b| ensures IsSpace(b[i]) { assert b[i] == (a + b)[|a| + i]; }
    }
    if AllSpace(a) && AllSpace(b) {
      forall i | 0 <= i < |a + b| ensures IsSpace((a + b)[i]) {
        if i >= |a| { assert (a + b)[i] == b[i - |a|]; }
      }
    }
  }

  /** `strip()` is idempotent. */
  lemma StripIdempotent(s: string)
    ensures Strip(Strip(s)) == Strip(s)
  {
    var r := Strip(s);
    assert r[0..|r|] == r;
    StripUnique(r, 0, r);
  }

  predicate StartsWith(s: string, p: string) {
    |p| <= |s| && s[..|p|] == p
  }

  predicate EndsWith(s: string, p: string) {
    |p| <= |s| && s[|s| - |p|..] == p
  }

  /** Python's `s.removeprefix(p)`: one occurrence, only at the front. */
  function RemovePrefix(s: string, p: string): (r: string)
    ensures StartsWith(s, p) ==> p + r == s
    ensures !StartsWith(s, p) ==> r == s
  {
    if StartsWith(s, p) then s[|p|..] else s
  }

  /** Python's `s.removesuffix(p)`: one occurrence, only at the back. */
  function RemoveSuffix(s: string, p: string): (r: string)
    ensures EndsWith(s, p) ==> r + p == s
    ensures !EndsWith(s, p) ==> r == s
  {
    if EndsWith(s, p) then s[..|s| - |p|] else s
  }

  /** `r` occurs in `s` starting at offset `a`. */
  ghost predicate InfixAt(r: string, s: string, a: int) {
    0 <= a && a + |r| <= |s| && s[a..a + |r|] == r
  }

  /** `r` occurs contiguously in `s`. */
  ghost predicate IsInfix(r: string, s: string) {
    exists a :: InfixAt(r, s, a)
  }

  lemma InfixTransitive(r: string, t: string, s: string)
    requires IsInfix(r, t) && IsInfix(t, s)
    ensures IsInfix(r, s)
  {
    var a :| InfixAt(r, t, a);
    var b :| InfixAt(t, s, b);
    forall i | 0 <= i < |r| ensures s[b + a + i] == r[i] {
      assert r[i] == t[a..a + |r|][i] == t[a + i];
      assert t[a + i] == s[b..b + |t|][a + i] == s[b + a + i];
    }
    assert s[b + a..b + a + |r|] == r;
    assert InfixAt(r, s, b + a);
  }

  /** Python's `str.lower()` on one ASCII character. */
  function LowerChar(c: char): (r: char)
    ensures 'A' <= c <= 'Z' ==> 'a' <= r <= 'z' && r as int == c as int + 32
    ensures !('A' <= c <= 'Z') ==> r == c
  {
    if 'A' <= c <= 'Z' then (c as int + 32) as char else c
  }

  /** Python's `str.lower()`, ASCII only. */
  function Lower(s: string): (r: string)
    ensures |r| == |s|
    ensures forall i :: 0 <= i < |s| ==> r[i] == LowerChar(s[i])
  {
    if |s| == 0 then [] else [LowerChar(s[0])] + Lower(s[1..])
  }

  /** `s` and `t` spell the same word when letter case is ignored. */
  predicate SameIgnoringCase(s: string, t: string) {
    |s| == |t| && forall i :: 0 <= i < |s| ==> LowerChar(s[i]) == LowerChar(t[i])
  }

  /** Comparing `s.lower()` against a lower-case word is a case-insensitive comparison. */
  lemma LowerEqualsIff(s: string, w: string)
    requires Lower(w) == w
    ensures Lower(s) == w <==> SameIgnoringCase(s, w)
  {
    if SameIgnoringCase(s, w) {
      assert forall i :: 0 <= i < |s| ==> Lower(s)[i] == w[i] by {
        forall i | 0 <= i < |s| ensures Lower(s)[i] == w[i] {
          assert Lower(w)[i] == LowerChar(w[i]);
        }
      }
    }
  }

  /** Python's `s[:n]`. */
  function Take(s: string, n: nat): (r: string)
    ensures |r| == if |s| <= n then |s| else n
    ensures StartsWith(s, r)
  {
    if |s| <= n then s else s[..n]
  }
}
