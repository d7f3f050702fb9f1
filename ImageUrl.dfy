/**
 * The image-reference sanitiser (app.js formatImageUrl). The remote service
 * often wraps image URLs in stray JSON-array artefacts such as ["...";
 * the sanitiser deletes every `[`, `]`, `"` and `\` from the first image and
 * falls back to a placeholder when nothing usable is left.
 */
module ImageUrl {
  import opened Wrappers
  import opened Text

  const Placeholder: string := "https://placehold.co/100"

  /** The characters the sanitiser deletes. */
  predicate IsStray(c: char) {
    c == '[' || c == ']' || c == '"' || c == '\\'
  }

  /** No stray character anywhere in s. */
  predicate Clean(s: string) {
    forall i :: 0 <= i < |s| ==> !IsStray(s[i])
  }

  /** `s.startsWith('http')`. */
  predicate StartsWithHttp(s: string) {
    |s| >= 4 && s[..4] == "http"
  }

  /** `s.replace(/[\[\]"\\]/g, '')`: s with every stray character deleted. */
  function Strip(s: string): (r: string)
    ensures Clean(r) && |r| <= |s|
  {
    if s == [] then []
    else (if IsStray(s[0]) then [] else [s[0]]) + Strip(s[1..])
  }

  /**
   * The display image of a product whose raw image list is `images`
   * (None: the field is absent). The result is always a usable URL.
   */
  function FormatImageUrl(images: Option<seq<string>>): (r: string)
    ensures |r| >= 4 && StartsWithHttp(r) && Clean(r)
    ensures images.None? || images.value == [] ==> r == Placeholder
  {
    PlaceholderIsUsable();
    if images.None? || |images.value| == 0 then Placeholder
    else
      var url := Strip(images.value[0]);
      if !StartsWithHttp(url) then Placeholder else url
  }

  lemma PlaceholderIsUsable()
    ensures StartsWithHttp(Placeholder) && Clean(Placeholder)
  {
  }

  /** Unless it is the placeholder, the result is the first image with its stray characters deleted. */
  lemma FormatImageUrlKeepsUsableFirst(images: Option<seq<string>>)
    requires images.Some? && images.value != []
    ensures StartsWithHttp(Strip(images.value[0])) ==> FormatImageUrl(images) == Strip(images.value[0])
    ensures !StartsWithHttp(Strip(images.value[0])) ==> FormatImageUrl(images) == Placeholder
  {
  }

  /** Strip keeps every other character, as many times as it occurs in s. */
  lemma {:induction false} StripKeepsOthers(s: string)
    ensures forall c :: !IsStray(c) ==> multiset(Strip(s))[c] == multiset(s)[c]
    decreases |s|
  {
    if s != [] {
      StripKeepsOthers(s[1..]);
      assert s == [s[0]] + s[1..];
      assert multiset(s) == multiset([s[0]]) + multiset(s[1..]);
    }
  }

  /** Strip leaves a string unchanged exactly when it has no stray character. */
  lemma {:induction false} StripFixesExactlyClean(s: string)
    ensures Strip(s) == s <==> Clean(s)
    decreases |s|
  {
    if s != [] {
      StripFixesExactlyClean(s[1..]);
      if IsStray(s[0]) {
        assert |Strip(s)| < |s|;
      } else {
        assert Strip(s) == [s[0]] + Strip(s[1..]);
        assert Clean(s) <==> Clean(s[1..]) by {
          if Clean(s[1..]) {
            forall i | 0 <= i < |s| ensures !IsStray(s[i]) {
              if i > 0 { assert s[i] == s[1..][i - 1]; }
            }
          }
          if Clean(s) {
            forall i | 0 <= i < |s[1..]| ensures !IsStray(s[1..][i]) {
              assert s[1..][i] == s[i + 1];
            }
          }
        }
        assert Strip(s) == s <==> Strip(s[1..]) == s[1..] by {
          assert s == [s[0]] + s[1..];
          if Strip(s) == s {
            assert Strip(s)[1..] == Strip(s[1..]);
          }
        }
      }
    }
  }

  /** Stripping twice is stripping once. */
  lemma StripIdempotent(s: string)
    ensures Strip(Strip(s)) == Strip(s)
  {
    StripFixesExactlyClean(Strip(s));
  }

  /** Sanitising an already sanitised image gives it back unchanged. */
  lemma FormatImageUrlIdempotent(images: Option<seq<string>>)
    ensures FormatImageUrl(Some([FormatImageUrl(images)])) == FormatImageUrl(images)
  {
    var r := FormatImageUrl(images);
    StripFixesExactlyClean(r);
  }

  /** A URL wrapped as a one-element JSON array in a string is unwrapped. */
  lemma FormatImageUrlUnwrapsExample()
    ensures FormatImageUrl(Some(["[\"" + "http://x/1.png" + "\"]"])) == "http://x/1.png"
    ensures FormatImageUrl(Some([])) == Placeholder
    ensures FormatImageUrl(None) == Placeholder
  {
    var url := "http://x/1.png";
    ExampleUrlIsClean();
    StripUnwrapsWrapped(url);
    assert StartsWithHttp(url) by { assert url[..4] == "http"; }
  }

  /** The `["…"]` wrapper the service puts around a URL is removed, and a clean URL inside it is kept whole. */
  lemma StripUnwrapsWrapped(url: string)
    requires Clean(url)
    ensures Strip("[\"" + url + "\"]") == url
  {
    var open, close := "[\"", "\"]";
    StripFixesExactlyClean(url);
    StripConcat(open, url + close);
    StripConcat(url, close);
    StripDropsWrapper();
    Assoc(open, url, close);
  }

  lemma ExampleUrlIsClean()
    ensures Clean("http://x/1.png")
  {
    var url := "http://x/1.png";
    forall i | 0 <= i < |url| ensures !IsStray(url[i]) {
      assert url[i] in "http:/x1.png";
    }
  }

  lemma StripDropsWrapper()
    ensures Strip("[\"") == [] && Strip("\"]") == []
  {
    assert "[\""[1..] == "\"";
    assert "\"]"[1..] == "]";
  }

  /** Strip works character by character, so it distributes over concatenation. */
  lemma {:induction false} StripConcat(a: string, b: string)
    ensures Strip(a + b) == Strip(a) + Strip(b)
    decreases |a|
  {
    if a == [] {
      assert a + b == b;
    } else {
      assert (a + b)[1..] == a[1..] + b;
      StripConcat(a[1..], b);
    }
  }
}
