/** Destination normalisation done by `add_link` before it stores a link. */
module Urls {

  const HttpScheme: string := "http://"
  const HttpsScheme: string := "https://"

  /** The test `re.match(r"^https?://", url)`: the URL starts, case-sensitively,
      with `http://` or `https://`. */
  predicate HasScheme(url: string): (b: bool)
    ensures b ==> |url| >= |HttpScheme|
  {
    HttpScheme <= url || HttpsScheme <= url
  }

  /** The pattern `^https?://` read character by character: `http`, an optional
      `s`, then `://`. */
  lemma HasSchemeMatchesPattern(url: string)
    ensures HasScheme(url) <==> && |url| >= 7 && url[..4] == "http"
                                && (url[4..7] == "://" || (|url| >= 8 && url[4..8] == "s://"))
  {
    if |url| >= 7 {
      assert HttpScheme <= url <==> url[..7] == HttpScheme;
      assert url[..7] == url[..4] + url[4..7];
    }
    if |url| >= 8 {
      assert HttpsScheme <= url <==> url[..8] == HttpsScheme;
      assert url[..8] == url[..4] + url[4..8];
    }
  }

  /** Keeps a URL that already has an http(s) scheme, otherwise prepends `http://`. */
  function NormalizeUrl(url: string): (r: string)
    ensures HasScheme(r)
    ensures HasScheme(url) ==> r == url
    ensures !HasScheme(url) ==> r == HttpScheme + url
  {
    if HasScheme(url) then url else HttpScheme + url
  }

  /** Normalising a normalised URL changes nothing. */
  lemma NormalizeUrlIdempotent(url: string)
    ensures NormalizeUrl(NormalizeUrl(url)) == NormalizeUrl(url)
  {
  }

  /** Normalisation never rewrites the given text: the URL is the suffix of the
      result, after either nothing or the seven characters of `http://`. */
  lemma NormalizeUrlKeepsOriginal(url: string)
    ensures var r := NormalizeUrl(url);
            (|r| == |url| || |r| == |url| + |HttpScheme|) && r[|r| - |url|..] == url
  {
  }

  /** A bare host gains `http://`; an https URL is stored as given. */
  lemma NormalizeUrlExamples()
    ensures NormalizeUrl("example.com") == "http://example.com"
    ensures NormalizeUrl("https://example.com") == "https://example.com"
    ensures NormalizeUrl("HTTP://example.com") == "http://HTTP://example.com"
  {
    assert "example.com"[0] != HttpScheme[0] && "example.com"[0] != HttpsScheme[0];
    assert "https://example.com"[..|HttpsScheme|] == HttpsScheme;
    assert "HTTP://example.com"[0] != HttpScheme[0] && "HTTP://example.com"[0] != HttpsScheme[0];
    assert !HasScheme("example.com") && HasScheme("https://example.com") && !HasScheme("HTTP://example.com");
  }
}
