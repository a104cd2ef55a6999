/** The route handlers `add_short_url`, `get_link_info` and
    `redirect_to_the_url`: each lower-cases the slug before calling the
    registry, which is what makes lookups case-insensitive. */
module Routes {
  import opened Wrappers
  import opened Slugs
  import opened Registry

  /** The slug the route hands to `add_link`: lower-cased when present. The
      source calls `.lower()` on an absent slug too (main.py:117), which fails;
      an absent slug is passed on as absent here. */
  function RouteSlug(slug: Option<string>): (r: Option<string>)
    ensures Provided(r) <==> Provided(slug)
    ensures Provided(slug) ==> r.value == Lower(slug.value) && Lower(r.value) == r.value
  {
    match slug
    case None => None
    case Some(s) => LowerProperties(s); Some(Lower(s))
  }

  /** What the routes keep true of the table: every key is a string over the
      36-character alphabet, hence lower case and reachable by a lookup. */
  ghost predicate KeysInAlphabet(links: map<string, Link>) {
    forall s :: s in links ==> InAlphabet(s)
  }

  /** Under the route invariant, the lower-cased form of a request slug names a
      stored link exactly when some capitalisation of that key was requested. */
  lemma LookupIsCaseInsensitive(links: map<string, Link>, slug: string, key: string)
    requires KeysInAlphabet(links) && key in links
    ensures Lower(slug) == key <==> Lower(slug) == Lower(key)
  {
    AlphabetStringIsLower(key);
  }

  /** `add_short_url`. */
  method AddShortUrl(reg: LinkRegistry, url: string, slug: Option<string>, draws: seq<seq<nat>>)
    returns (r: Result<Created, Error>)
    requires reg.Valid() && KeysInAlphabet(reg.links)
    requires forall i :: 0 <= i < |draws| ==> IsDraw(draws[i])
    requires !Provided(slug) ==> exists i :: 0 <= i < |draws| && GenUrlSlug(draws[i]) !in reg.links
    modifies reg
    ensures reg.Valid() && KeysInAlphabet(reg.links)
    ensures r.Err? ==> reg.links == old(reg.links)
    ensures r.Ok? ==> && r.value.slug !in old(reg.links)
                      && r.value.url == Urls.NormalizeUrl(url)
                      && reg.links == old(reg.links)[r.value.slug := Link(r.value.url, 0)]
    ensures Provided(slug) ==>
              match CheckSlug(old(reg.links).Keys, Lower(slug.value))
              case None => r.Ok? && r.value.slug == Lower(slug.value)
              case Some(e) => r == Err(e)
    ensures !Provided(slug) ==> && r.Ok? && IsGeneratedShape(r.value.slug)
                                && exists i :: && 0 <= i < |draws| && r.value.slug == GenUrlSlug(draws[i])
                                               && forall j :: 0 <= j < i ==> GenUrlSlug(draws[j]) in old(reg.links)
  {
    var theSlug := RouteSlug(slug);
    r := reg.AddLink(url, theSlug, draws);
    if r.Ok? {
      if Provided(slug) {
        LoweredSlugCharactersAreAlphabet(slug.value);
      }
      assert InAlphabet(r.value.slug);
    }
  }

  /** `get_link_info`. */
  method GetLinkInfo(reg: LinkRegistry, slug: string) returns (r: Result<LinkView, Error>)
    ensures Lower(slug) in reg.links ==>
              r == Ok(LinkView(Lower(slug), reg.links[Lower(slug)].url, reg.links[Lower(slug)].views))
    ensures Lower(slug) !in reg.links ==> r == Err(SlugDoesNotExist)
  {
    r := reg.GetLink(Lower(slug));
  }

  /** `redirect_to_the_url`. */
  method RedirectToTheUrl(reg: LinkRegistry, slug: string) returns (r: Result<string, Error>)
    requires reg.Valid() && KeysInAlphabet(reg.links)
    modifies reg
    ensures reg.Valid() && KeysInAlphabet(reg.links)
    ensures Lower(slug) in old(reg.links) ==>
              r == Ok(old(reg.links)[Lower(slug)].url) && reg.links == Redirected(old(reg.links), Lower(slug))
    ensures Lower(slug) !in old(reg.links) ==> r == Err(SlugDoesNotExist) && reg.links == old(reg.links)
  {
    r := reg.RedirectLink(Lower(slug));
  }

  /** Creating `abcd` -> `http://a.com` and then following `ABCD` yields that
      URL and one view, as a caller can derive from the contracts alone. */
  method MixedCaseScenario() returns (view: Result<LinkView, Error>)
    ensures view == Ok(LinkView("abcd", "http://a.com", 1))
  {
    var reg := new LinkRegistry();
    assert Lower("abcd") == "abcd" && Lower("ABCD") == "abcd";
    assert CheckSlug({}, "abcd") == None by {
      assert forall i :: 0 <= i < 4 ==> IsSlugCharacter("abcd"[i]);
    }
    assert Urls.NormalizeUrl("http://a.com") == "http://a.com" by {
      assert Urls.HttpScheme <= "http://a.com";
    }
    var created := AddShortUrl(reg, "http://a.com", Some("abcd"), []);
    assert reg.links == map["abcd" := Link("http://a.com", 0)];
    var target := RedirectToTheUrl(reg, "ABCD");
    assert target == Ok("http://a.com");
    assert reg.links == map["abcd" := Link("http://a.com", 1)];
    view := GetLinkInfo(reg, "abcd");
  }
}
