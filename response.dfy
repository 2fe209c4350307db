/**
 * The first two tiers every response parser tries: the body of a fenced
 * `json` block (the regular expression ```` ```json\n([\s\S]*?)\n``` ````),
 * decoded, and otherwise the whole response text, decoded. What a parser
 * does when the fenced body does not decode, or when neither tier applies,
 * is the parser's own.
 */
module Response {
  import opened Base
  import opened Text
  import opened Json
  import opened Llm

  const FenceOpen: string := "```json\n"
  const FenceClose: string := "\n```"

  /**
   * `re.search` of the fence pattern: the leftmost opener, then the first
   * closer after it (the group is lazy and may be empty). Only the body is returned.
   */
  function FindFence(text: string): (body: Option<string>)
  {
    var i := FindFrom(text, FenceOpen, 0);
    if i.None? then None
    else
      var k := FindFrom(text, FenceClose, i.value + |FenceOpen|);
      if k.None? then None
      else Some(text[i.value + |FenceOpen|..k.value])
  }

  /**
   * The fence is found exactly when an opener is followed, at or after its
   * end, by a closer; the body then lies between the leftmost opener and
   * the first closer after it.
   */
  lemma {:induction false} FindFenceMatches(text: string)
    ensures FindFence(text).Some? <==>
              exists i, k :: IsInfixAt(text, FenceOpen, i) && i + |FenceOpen| <= k && IsInfixAt(text, FenceClose, k)
    ensures FindFence(text).Some? ==>
              exists i, k ::
                && IsInfixAt(text, FenceOpen, i) && (forall j :: 0 <= j < i ==> !IsInfixAt(text, FenceOpen, j))
                && i + |FenceOpen| <= k && IsInfixAt(text, FenceClose, k)
                && (forall j :: i + |FenceOpen| <= j < k ==> !IsInfixAt(text, FenceClose, j))
                && FindFence(text).value == text[i + |FenceOpen|..k]
  {
    var i := FindFrom(text, FenceOpen, 0);
    if i.Some? {
      var k := FindFrom(text, FenceClose, i.value + |FenceOpen|);
      if k.Some? {
        assert IsInfixAt(text, FenceOpen, i.value) && IsInfixAt(text, FenceClose, k.value);
      } else {
        forall i', k' | IsInfixAt(text, FenceOpen, i') && i' + |FenceOpen| <= k'
          ensures !IsInfixAt(text, FenceClose, k')
        {
          assert i.value <= i';
        }
      }
    }
  }

  /** Which tier a response reached. */
  datatype Tier =
    | Decoded(value: JValue)  // the fenced body, or else the whole text, decoded
    | FenceUndecodable        // a fenced body was found but does not decode
    | Unparsed                // no fenced body, and the whole text does not decode

  function ResponseTier(text: string, decode: Decoder): (t: Tier)
  {
    match FindFence(text)
    case Some(body) => if decode(body).Some? then Decoded(decode(body).value) else FenceUndecodable
    case None => if decode(text).Some? then Decoded(decode(text).value) else Unparsed
  }

  /**
   * The tiers are tried in a fixed order and the first that applies wins:
   * a fenced body shadows the whole text even when the body does not
   * decode, and the whole text is decoded only when there is no fence.
   */
  lemma {:induction false} TierOrder(text: string, decode: Decoder)
    ensures FindFence(text).Some? ==>
              ResponseTier(text, decode) != Unparsed
              && (ResponseTier(text, decode).Decoded? <==> decode(FindFence(text).value).Some?)
              && (ResponseTier(text, decode).Decoded? ==>
                    Some(ResponseTier(text, decode).value) == decode(FindFence(text).value))
    ensures FindFence(text).None? ==>
              ResponseTier(text, decode) != FenceUndecodable
              && (ResponseTier(text, decode).Decoded? <==> decode(text).Some?)
              && (ResponseTier(text, decode).Decoded? ==> Some(ResponseTier(text, decode).value) == decode(text))
  {
  }

  /** Two closers never overlap: the newline of the later one would be a back-tick of the earlier. */
  lemma {:induction false} ClosersApart(text: string, j: int, k: int)
    requires IsInfixAt(text, FenceClose, k) && j < k < j + |FenceClose|
    ensures !IsInfixAt(text, FenceClose, j)
  {
    assert text[k] == text[k..k + |FenceClose|][0] == '\n';
    if 0 <= j && j + |FenceClose| <= |text| {
      assert text[j..j + |FenceClose|][k - j] == text[k];
    }
  }

  /** A fenced block around exactly `body` (with no closer inside it) is the body found. */
  lemma {:induction false} FenceAround(prefix: string, body: string, suffix: string)
    requires !Contains(prefix + FenceOpen[..|FenceOpen| - 1], FenceOpen)
    requires !Contains(body, FenceClose)
    ensures FindFence(prefix + FenceOpen + body + FenceClose + suffix) == Some(body)
  {
    var text := prefix + FenceOpen + body + FenceClose + suffix;
    var n := |prefix|;
    var start := n + |FenceOpen|;
    var k := start + |body|;
    FencedShape(prefix, body, suffix);
    assert text[start..k] == body;
    PrefixFree(text, prefix + FenceOpen[..|FenceOpen| - 1], FenceOpen);
    FirstAt(text, FenceOpen, 0, n);
    NoCloserInside(text, body, start);
    FirstAt(text, FenceClose, start, k);
    assert FindFence(text) == Some(text[start..k]);
  }

  /** The closer does not start inside a body free of closers that a closer follows. */
  lemma {:induction false} NoCloserInside(text: string, body: string, start: nat)
    requires start + |body| <= |text| && text[start..start + |body|] == body && !Contains(body, FenceClose)
    requires IsInfixAt(text, FenceClose, start + |body|)
    ensures forall j :: start <= j < start + |body| ==> !IsInfixAt(text, FenceClose, j)
  {
    var k := start + |body|;
    InsideFree(text, body, start, FenceClose);
    forall j | start <= j < k ensures !IsInfixAt(text, FenceClose, j) {
      if k < j + |FenceClose| {
        ClosersApart(text, j, k);
      }
    }
  }

  /** `find` from `from` returns an occurrence with none between `from` and it. */
  lemma {:induction false} FirstAt(text: string, w: string, from: nat, n: nat)
    requires from <= n && IsInfixAt(text, w, n)
    requires forall j :: from <= j < n ==> !IsInfixAt(text, w, j)
    ensures FindFrom(text, w, from) == Some(n)
  {
  }

  /** Where the opener, the body and the closer sit in a fenced block. */
  lemma {:induction false} FencedShape(prefix: string, body: string, suffix: string)
    ensures var text := prefix + FenceOpen + body + FenceClose + suffix;
            var start := |prefix| + |FenceOpen|;
            && text[..start - 1] == prefix + FenceOpen[..|FenceOpen| - 1]
            && IsInfixAt(text, FenceOpen, |prefix|)
            && text[start..start + |body|] == body
            && IsInfixAt(text, FenceClose, start + |body|)
  {
    var text := prefix + FenceOpen + body + FenceClose + suffix;
    var n := |prefix|;
    assert text[n..n + |FenceOpen|] == FenceOpen;
    assert text[..n + |FenceOpen| - 1] == prefix + FenceOpen[..|FenceOpen| - 1];
    var k := n + |FenceOpen| + |body|;
    assert text[n + |FenceOpen|..k] == body;
    assert text[k..k + |FenceClose|] == FenceClose;
  }

  /** A word that does not occur in a prefix occurs in the text at no index from which it would fit in that prefix. */
  lemma {:induction false} PrefixFree(text: string, p: string, w: string)
    requires |p| <= |text| && text[..|p|] == p && !Contains(p, w)
    ensures forall j :: 0 <= j && j + |w| <= |p| ==> !IsInfixAt(text, w, j)
  {
    ContainsIff(p, w);
    forall j | 0 <= j && j + |w| <= |p| ensures !IsInfixAt(text, w, j) {
      assert !IsInfixAt(p, w, j);
      var here, there := text[j..j + |w|], p[j..j + |w|];
      forall t | 0 <= t < |w| ensures here[t] == there[t] {
        assert p[j + t] == text[..|p|][j + t];
      }
      assert here == there;
    }
  }

  /** A word that does not occur in a slice of the text occurs at no index from which it would fit in that slice. */
  lemma {:induction false} InsideFree(text: string, body: string, start: nat, w: string)
    requires start + |body| <= |text| && text[start..start + |body|] == body && !Contains(body, w)
    ensures forall j :: start <= j && j + |w| <= start + |body| ==> !IsInfixAt(text, w, j)
  {
    ContainsIff(body, w);
    forall j | start <= j && j + |w| <= start + |body| ensures !IsInfixAt(text, w, j) {
      assert !IsInfixAt(body, w, j - start);
      var here, there := text[j..j + |w|], body[j - start..j - start + |w|];
      forall t | 0 <= t < |w| ensures here[t] == there[t] {
        assert body[j - start + t] == text[start..start + |body|][j - start + t];
      }
      assert here == there;
    }
  }
}
