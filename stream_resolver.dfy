/** Choosing the audio stream to open for a link: a link naming YouTube or
    Twitch is handed to an extractor (the `yt_dlp` library, here an arbitrary
    function given by the caller), any other link is used as it is. */
module StreamResolver {
  import opened Wrappers

  /** The services whose links need extraction, matched as lower-case substrings. */
  const ComplexServices: seq<string> := ["youtube", "twitch"]

  /** What the extractor reports about a link; the stream `url` may be absent. */
  datatype Info = Info(url: Option<string>)

  /** An exception raised by the extractor. */
  datatype ExtractError = ExtractError(message: string)

  /** Python's `p in s` on strings: `p` occurs in `s` at some position. */
  function Contains(s: string, p: string): (r: bool)
    ensures |p| <= |s| && s[..|p|] == p ==> r
    ensures r ==> |p| <= |s|
    decreases |s|
  {
    if |p| <= |s| && s[..|p|] == p then true
    else if s == [] then false
    else Contains(s[1..], p)
  }

  predicate IsComplex(url: string)
    ensures IsComplex(url) <==> Contains(url, "youtube") || Contains(url, "twitch")
  {
    exists service :: service in ComplexServices && Contains(url, service)
  }

  /** The stream URL for `target`, `None` when the extractor found none, or
      the extractor's exception, which is passed on. */
  function GetAudioStreamUrl(target: string, extract: string -> Result<Info, ExtractError>)
    : (r: Result<Option<string>, ExtractError>)
    ensures !IsComplex(target) ==> r == Success(Some(target))
    ensures IsComplex(target) && extract(target).Success? ==> r == Success(extract(target).value.url)
    ensures IsComplex(target) && extract(target).Failure? ==> r == Failure(extract(target).error)
  {
    if IsComplex(target) then
      match extract(target)
      case Success(info) => Success(info.url)
      case Failure(e) => Failure(e)
    else Success(Some(target))
  }

  /** `p` is the slice of `s` starting at `i`. */
  predicate OccursAt(s: string, p: string, i: int) {
    0 <= i <= |s| - |p| && s[i..i + |p|] == p
  }

  /** `Contains` is substring search: it holds exactly when `p` is the slice
      of `s` at some position. */
  lemma {:induction false} ContainsAt(s: string, p: string)
    ensures Contains(s, p) <==> exists i :: OccursAt(s, p, i)
    decreases |s|
  {
    if |p| <= |s| && s[..|p|] == p {
      assert OccursAt(s, p, 0);
    } else if s != [] {
      ContainsAt(s[1..], p);
      if exists i :: OccursAt(s, p, i) {
        var i :| OccursAt(s, p, i);
        assert i != 0;
        assert OccursAt(s[1..], p, i - 1) by {
          assert s[1..][i - 1..i - 1 + |p|] == s[i..i + |p|];
        }
      }
      if exists i :: OccursAt(s[1..], p, i) {
        var i :| OccursAt(s[1..], p, i);
        assert OccursAt(s, p, i + 1) by {
          assert s[1..][i..i + |p|] == s[1..][i..][..|p|] == s[i + 1..][..|p|];
        }
      }
    }
  }

  /** A string without the first letter of `p` does not contain `p`. */
  lemma LetterMissing(s: string, p: string)
    requires p != [] && forall i :: 0 <= i < |s| ==> s[i] != p[0]
    ensures !Contains(s, p)
  {
    forall i | OccursAt(s, p, i) ensures s[i] == p[0] {
      assert s[i..i + |p|][0] == s[i];
    }
    ContainsAt(s, p);
  }

  /** A link naming neither service is returned unchanged; the extractor is not consulted. */
  lemma DirectUrlUnchanged(target: string, extract: string -> Result<Info, ExtractError>)
    requires !Contains(target, "youtube") && !Contains(target, "twitch")
    ensures GetAudioStreamUrl(target, extract) == Success(Some(target))
  {
  }

  /** A link naming either service yields the extractor's `url` (possibly
      absent), and an extractor failure reaches the caller: there is no
      fallback to the original link. */
  lemma ComplexUrlExtracted(target: string, extract: string -> Result<Info, ExtractError>)
    requires Contains(target, "youtube") || Contains(target, "twitch")
    ensures extract(target).Success? ==> GetAudioStreamUrl(target, extract) == Success(extract(target).value.url)
    ensures extract(target).Failure? ==> GetAudioStreamUrl(target, extract) == Failure(extract(target).error)
  {
  }

  /** The service name may stand anywhere in the link. */
  lemma EmbeddedServiceIsComplex(before: string, after: string)
    ensures IsComplex(before + "twitch" + after)
    ensures IsComplex(before + "youtube" + after)
  {
    var s, t := before + "twitch" + after, before + "youtube" + after;
    assert OccursAt(s, "twitch", |before|) by {
      assert s[|before|..|before| + 6] == "twitch";
    }
    assert OccursAt(t, "youtube", |before|) by {
      assert t[|before|..|before| + 7] == "youtube";
    }
    ContainsAt(s, "twitch");
    ContainsAt(t, "youtube");
    assert "youtube" in ComplexServices && "twitch" in ComplexServices;
  }

  /** Matching is case-sensitive: "YouTube.com" is used as it is. */
  lemma MixedCaseIsDirect(extract: string -> Result<Info, ExtractError>)
    ensures GetAudioStreamUrl("YouTube.com", extract) == Success(Some("YouTube.com"))
  {
    var s := "YouTube.com";
    assert forall i :: 0 <= i < |s| ==> s[i] != 'y' && s[i] != 't';
    LetterMissing(s, "youtube");
    LetterMissing(s, "twitch");
  }
}
