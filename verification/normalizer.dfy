/** The clean-up applied to the language model's reply before it is parsed as JSON,
    shared by requirement analysis and document comparison (analyzer.py). */
module Normalizer {
  import opened Wrappers
  import opened Text

  const Fence: string := "```"
  const JsonFence: string := "```json"

  /** Drop one leading "```json", then one leading "```", then one trailing "```":
      the input is the result with at most those fences around it, and text with no
      fence at either end comes back unchanged. */
  function Unfence(t: string): (r: string)
    ensures IsInfix(r, t)
    ensures exists p, q :: && (p == "" || p == JsonFence || p == Fence || p == JsonFence + Fence)
                           && (q == "" || q == Fence)
                           && t == p + r + q
    ensures !StartsWith(t, Fence) && !EndsWith(t, Fence) ==> r == t
  {
    var u1 := RemovePrefix(t, JsonFence);
    var u2 := RemovePrefix(u1, Fence);
    var r := RemoveSuffix(u2, Fence);
    UnfenceShape(t, u1, u2, r);
    assert !StartsWith(t, Fence) && !EndsWith(t, Fence) ==> r == t by {
      if !StartsWith(t, Fence) && !EndsWith(t, Fence) { NoFenceUnchanged(t, u1, u2, r); }
    }
    PrefixRemovalIsInfix(t, JsonFence);
    PrefixRemovalIsInfix(u1, Fence);
    assert InfixAt(r, u2, 0);
    InfixTransitive(u2, u1, t);
    InfixTransitive(r, u2, t);
    r
  }

  /** What the prefix removals take off: nothing, "```json", "```", or both in turn. */
  lemma PrefixesPeeled(t: string, u1: string, u2: string) returns (p: string)
    requires u1 == RemovePrefix(t, JsonFence) && u2 == RemovePrefix(u1, Fence)
    ensures (p == "" || p == JsonFence || p == Fence || p == JsonFence + Fence) && t == p + u2
    ensures !StartsWith(t, Fence) ==> u2 == t
  {
    var p1 := if StartsWith(t, JsonFence) then JsonFence else "";
    var p2 := if StartsWith(u1, Fence) then Fence else "";
    p := p1 + p2;
    assert t == p + u2;
  }

  /** The removals together: the fences taken off, and nothing when there are none. */
  lemma UnfenceShape(t: string, u1: string, u2: string, r: string)
    requires u1 == RemovePrefix(t, JsonFence) && u2 == RemovePrefix(u1, Fence)
    requires r == RemoveSuffix(u2, Fence)
    ensures exists p, q :: && (p == "" || p == JsonFence || p == Fence || p == JsonFence + Fence)
                           && (q == "" || q == Fence)
                           && t == p + r + q
  {
    var p := PrefixesPeeled(t, u1, u2);
    var q := SuffixPeeled(u2, r);
    ConcatThree(t, p, u2, r, q);
  }

  /** What the suffix removal takes off: nothing or one "```". */
  lemma SuffixPeeled(u2: string, r: string) returns (q: string)
    requires r == RemoveSuffix(u2, Fence)
    ensures (q == "" || q == Fence) && u2 == r + q
  {
    q := if EndsWith(u2, Fence) then Fence else "";
  }

  lemma ConcatThree(t: string, p: string, u: string, r: string, q: string)
    requires t == p + u && u == r + q
    ensures t == p + r + q
  {
  }

  /** Text with no fence at either end passes through the removals unchanged. */
  lemma NoFenceUnchanged(t: string, u1: string, u2: string, r: string)
    requires u1 == RemovePrefix(t, JsonFence) && u2 == RemovePrefix(u1, Fence)
    requires r == RemoveSuffix(u2, Fence)
    requires !StartsWith(t, Fence) && !EndsWith(t, Fence)
    ensures r == t
  {
    var _ := PrefixesPeeled(t, u1, u2);
  }

  lemma PrefixRemovalIsInfix(s: string, p: string)
    ensures IsInfix(RemovePrefix(s, p), s)
  {
    if StartsWith(s, p) { assert InfixAt(RemovePrefix(s, p), s, |p|); }
    else { assert InfixAt(s, s, 0); }
  }

  lemma StripIsInfix(s: string)
    ensures IsInfix(Strip(s), s)
  {
    assert InfixAt(Strip(s), s, LeadCount(s));
  }

  /** Strip, remove the fences once, and strip again (analyzer.py line 76 and 104). */
  function Normalize(raw: string): (r: string)
    ensures Trimmed(r)
  {
    Strip(Unfence(Strip(raw)))
  }

  /** The normalised reply is a contiguous piece of the raw reply, never longer. */
  lemma NormalizeIsInfix(raw: string)
    ensures IsInfix(Normalize(raw), raw)
    ensures |Normalize(raw)| <= |raw|
  {
    var t := Strip(raw);
    var v := Unfence(t);
    StripIsInfix(raw);
    StripIsInfix(v);
    InfixTransitive(v, t, raw);
    InfixTransitive(Normalize(raw), v, raw);
  }

  /** The reply handed to `json.loads`: the normalised text and nothing else; a
      decoding error is passed on unchanged, never repaired. */
  function DecodeReply<T>(raw: string, parse: string -> Result<T, string>): (r: Result<T, string>)
    ensures exists s :: Trimmed(s) && IsInfix(s, raw) && r == parse(s)
    ensures !StartsWith(Strip(raw), Fence) && !EndsWith(Strip(raw), Fence) ==> r == parse(Strip(raw))
  {
    NormalizeIsInfix(raw);
    assert !StartsWith(Strip(raw), Fence) && !EndsWith(Strip(raw), Fence) ==> Normalize(raw) == Strip(raw) by {
      if !StartsWith(Strip(raw), Fence) && !EndsWith(Strip(raw), Fence) { UnfencedOnlyStripped(raw); }
    }
    parse(Normalize(raw))
  }

  /** A block fenced as markdown code, with an optional language tag. */
  function Fenced(tag: string, body: string): string {
    Fence + tag + "\n" + body + "\n" + Fence
  }

  lemma FencedIsTrimmed(tag: string, body: string)
    ensures Trimmed(Fenced(tag, body))
  {
    var f := Fenced(tag, body);
    assert f[0] == '`' && f[|f| - 1] == '`';
  }

  /** Whitespace, then `x`, then whitespace strips to `x`; and for a fenced reply
      the surrounding whitespace is gone after the first strip. */
  lemma StripAroundFence(w1: string, tag: string, body: string, w2: string)
    requires AllSpace(w1) && AllSpace(w2)
    ensures Strip(w1 + Fenced(tag, body) + w2) == Fenced(tag, body)
  {
    FencedIsTrimmed(tag, body);
    StripSurrounded(w1, Fenced(tag, body), w2);
  }

  lemma NewlineBodyStrips(body: string)
    requires Trimmed(body)
    ensures Strip("\n" + body + "\n") == body
  {
    StripSurrounded("\n", body, "\n");
  }

  /** Removing the fences of a "```json" or bare "```" block leaves the body between
      its two newlines. */
  lemma UnfenceFenced(tag: string, body: string)
    requires tag == "json" || tag == ""
    ensures Unfence(Fenced(tag, body)) == "\n" + body + "\n"
  {
    var f := Fenced(tag, body);
    var inner := "\n" + body + "\n";
    var u2 := inner + Fence;
    assert u2[0] == '\n';
    assert u2[|u2| - 3..] == Fence;
    if tag == "json" {
      assert f == JsonFence + u2;
      assert RemovePrefix(f, JsonFence) == u2;
    } else {
      assert f == Fence + u2;
      assert f[3] == '\n';
      assert RemovePrefix(f, JsonFence) == f;
      assert RemovePrefix(f, Fence) == u2;
    }
    assert RemoveSuffix(u2, Fence) == inner;
  }

  /** Round trip: a trimmed JSON text fenced as "```json" or as a bare "```" block comes
      back unchanged, with or without whitespace around the fence. */
  lemma FenceRoundTrip(w1: string, tag: string, body: string, w2: string)
    requires tag == "json" || tag == ""
    requires AllSpace(w1) && AllSpace(w2) && Trimmed(body)
    ensures Normalize(w1 + Fenced(tag, body) + w2) == body
  {
    StripAroundFence(w1, tag, body, w2);
    UnfenceFenced(tag, body);
    NewlineBodyStrips(body);
  }

  /** A reply that does not start or end with a fence only loses its outer whitespace. */
  lemma UnfencedOnlyStripped(raw: string)
    requires !StartsWith(Strip(raw), Fence) && !EndsWith(Strip(raw), Fence)
    ensures Normalize(raw) == Strip(raw)
  {
    var t := Strip(raw);
    assert !StartsWith(t, JsonFence);
    StripIdempotent(raw);
  }

  /** Fenced JSON, with or without a "json" tag and outer whitespace, reaches the
      parser exactly as the bare JSON text does. */
  lemma FencedDecodesLikeBare<T>(w1: string, tag: string, body: string, w2: string,
                                 parse: string -> Result<T, string>)
    requires tag == "json" || tag == ""
    requires AllSpace(w1) && AllSpace(w2) && Trimmed(body)
    requires !StartsWith(body, Fence) && !EndsWith(body, Fence)
    ensures DecodeReply(w1 + Fenced(tag, body) + w2, parse) == DecodeReply(body, parse)
  {
    FenceRoundTrip(w1, tag, body, w2);
    assert body[0..|body|] == body;
    StripUnique(body, 0, body);
    UnfencedOnlyStripped(body);
  }

  /** The round trip without surrounding whitespace. */
  lemma BareFenceRoundTrip(tag: string, body: string)
    requires tag == "json" || tag == ""
    requires Trimmed(body)
    ensures Normalize(Fenced(tag, body)) == body
  {
    FencedIsTrimmed(tag, body);
    StripTrimmed(Fenced(tag, body));
    UnfenceFenced(tag, body);
    NewlineBodyStrips(body);
  }

  /** Fences are removed once, not repeatedly: a doubly fenced reply keeps its inner
      fence, so normalising is not idempotent. */
  lemma OneFenceLayerRemoved(body: string)
    requires Trimmed(body)
    ensures Normalize(Fenced("", Fenced("", body))) == Fenced("", body)
    ensures Normalize(Normalize(Fenced("", Fenced("", body)))) == body
  {
    FencedIsTrimmed("", body);
    BareFenceRoundTrip("", Fenced("", body));
    BareFenceRoundTrip("", body);
  }

  /** Both prefixes go in one call when they are adjacent: "```json```" is removed
      as "```json" followed by "```". */
  lemma BothPrefixesRemoved(body: string)
    requires Trimmed(body)
    ensures Normalize(JsonFence + Fence + body + Fence) == body
  {
    var f := JsonFence + Fence + body + Fence;
    assert Strip(f) == f by {
      assert f[0] == '`' && f[|f| - 1] == '`';
      StripUnique(f, 0, f);
      assert f[0..|f|] == f;
    }
    UnfenceBoth(body);
    assert Strip(body) == body by {
      assert body[0..|body|] == body;
      StripUnique(body, 0, body);
    }
  }

  lemma UnfenceBoth(body: string)
    ensures Unfence(JsonFence + Fence + body + Fence) == body
  {
    var f := JsonFence + Fence + body + Fence;
    var u1 := Fence + body + Fence;
    var u2 := body + Fence;
    assert RemovePrefix(f, JsonFence) == u1 by {
      assert f == JsonFence + u1;
      assert f[..|JsonFence|] == JsonFence;
    }
    assert RemovePrefix(u1, Fence) == u2 by {
      assert u1 == Fence + u2;
      assert u1[..3] == Fence;
    }
    assert RemoveSuffix(u2, Fence) == body by {
      assert u2[|u2| - 3..] == Fence;
    }
  }

  /** The language tag is matched case-sensitively: "```JSON" loses only its backticks. */
  lemma UpperCaseTagKept(body: string)
    requires Trimmed(body) && |body| > 0
    ensures Normalize(Fenced("JSON", body)) == "JSON\n" + body
  {
    var f := Fenced("JSON", body);
    var x := "JSON\n" + body;
    FencedIsTrimmed("JSON", body);
    StripTrimmed(f);
    assert Unfence(f) == x + "\n" by {
      assert f[3] == 'J';
      assert !StartsWith(f, JsonFence);
      var u2 := x + "\n" + Fence;
      assert f == Fence + u2;
      assert RemovePrefix(f, Fence) == u2;
      assert u2[|u2| - 3..] == Fence;
      assert RemoveSuffix(u2, Fence) == x + "\n";
    }
    assert Strip(x + "\n") == x by {
      assert x[0] == 'J' && x[|x| - 1] == body[|body| - 1];
      StripSurrounded("", x, "\n");
      assert "" + x + "\n" == x + "\n";
    }
  }
}
