/** The link registry: the table slug -> {url, views} and the operations
    `add_link`, `get_link`, `redirect_link`, `get_links_count` and the
    generator loop `gen_valid_url_slug` that query or change it. */
module Registry {
  import opened Wrappers
  import opened Slugs
  import opened Urls

  /** One row of the Links table; the creation and last-change timestamps are not modelled. */
  datatype Link = Link(url: string, views: nat)

  /** Why `InvalidSlugError` was raised: the character check or the length check. */
  datatype InvalidReason = BadCharacters | BadLength

  /** The exceptions of the core: `InvalidSlugError`, `SlugAlreadyExistsError`, `SlugDosentExistsError`. */
  datatype Error = InvalidSlug(reason: InvalidReason) | SlugAlreadyExists | SlugDoesNotExist

  /** What `add_link` returns (the host-prefixed `link` field is not modelled). */
  datatype Created = Created(slug: string, url: string)

  /** What `get_link` returns (host-prefixed link and timestamps are not modelled). */
  datatype LinkView = LinkView(slug: string, url: string, views: nat)

  /** Python's `slug or ...`: an absent or empty slug asks for a generated one. */
  predicate Provided(slug: Option<string>): (b: bool)
    ensures !b <==> slug == None || slug == Some("")
  {
    slug.Some? && slug.value != ""
  }

  /** A slug that passes the character and length checks. */
  predicate LegalSlug(slug: string) {
    AllSlugCharacters(slug) && MinSlugLength <= |slug| <= MaxSlugLength
  }

  /** The checks of `add_link` in their order: characters, then length, then
      existence. The first that fails decides the error; None means all pass. */
  function CheckSlug(taken: set<string>, slug: string): (e: Option<Error>)
    ensures e == None <==> LegalSlug(slug) && slug !in taken
  {
    if !AllSlugCharacters(slug) then Some(InvalidSlug(BadCharacters))
    else if |slug| < MinSlugLength || |slug| > MaxSlugLength then Some(InvalidSlug(BadLength))
    else if slug in taken then Some(SlugAlreadyExists)
    else None
  }

  /** A bad character is reported whatever the length and whatever the registry holds. */
  lemma CharacterCheckComesFirst(taken: set<string>, slug: string)
    requires !AllSlugCharacters(slug)
    ensures CheckSlug(taken, slug) == Some(InvalidSlug(BadCharacters))
  {
  }

  /** A bad length is reported before the registry is consulted. */
  lemma LengthCheckPrecedesExistence(taken: set<string>, slug: string)
    requires AllSlugCharacters(slug)
    requires |slug| < MinSlugLength || |slug| > MaxSlugLength
    ensures CheckSlug(taken, slug) == Some(InvalidSlug(BadLength))
  {
  }

  /** A syntactic rejection does not depend on the registry, so it leaks
      nothing about which slugs exist. */
  lemma SyntaxErrorsIgnoreRegistry(taken1: set<string>, taken2: set<string>, slug: string)
    requires CheckSlug(taken1, slug).Some? && CheckSlug(taken1, slug) != Some(SlugAlreadyExists)
    ensures CheckSlug(taken2, slug) == CheckSlug(taken1, slug)
  {
  }

  /** The registry invariant: every key passes the syntactic checks (so fits the
      20-character key column) and every stored URL carries an http(s) scheme. */
  ghost predicate WellFormed(links: map<string, Link>) {
    forall s :: s in links ==> LegalSlug(s) && HasScheme(links[s].url)
  }

  /** Against a well-formed registry, re-submitting a stored slug is always the
      existence error: it passes the earlier checks. */
  lemma StoredSlugIsAlreadyExists(links: map<string, Link>, slug: string)
    requires WellFormed(links) && slug in links
    ensures CheckSlug(links.Keys, slug) == Some(SlugAlreadyExists)
  {
  }

  /** A generated slug that is not yet a key passes every check of `add_link`. */
  lemma FreshGeneratedSlugPassesChecks(taken: set<string>, slug: string)
    requires IsGeneratedShape(slug) && slug !in taken
    ensures CheckSlug(taken, slug) == None
  {
    GeneratedShapeIsValidSyntax(slug);
  }

  /** The table after one view of `slug`. */
  function Redirected(links: map<string, Link>, slug: string): (r: map<string, Link>)
    requires slug in links
    ensures r.Keys == links.Keys
  {
    links[slug := links[slug].(views := links[slug].views + 1)]
  }

  /** The table after `n` successive views of `slug`. */
  function RedirectedTimes(links: map<string, Link>, slug: string, n: nat): (r: map<string, Link>)
    requires slug in links
    ensures r.Keys == links.Keys
    decreases n
  {
    if n == 0 then links else Redirected(RedirectedTimes(links, slug, n - 1), slug)
  }

  /** `n` sequential views raise that link's counter by exactly `n`, keep its
      URL, and leave every other link as it was. */
  lemma {:induction false} RedirectedTimesCounts(links: map<string, Link>, slug: string, n: nat)
    requires slug in links
    ensures RedirectedTimes(links, slug, n)[slug] == Link(links[slug].url, links[slug].views + n)
    ensures forall k :: k in links && k != slug ==> RedirectedTimes(links, slug, n)[k] == links[k]
  {
    if n > 0 {
      RedirectedTimesCounts(links, slug, n - 1);
    }
  }

  /** Views keep the registry well formed. */
  lemma RedirectedWellFormed(links: map<string, Link>, slug: string)
    requires WellFormed(links) && slug in links
    ensures WellFormed(Redirected(links, slug))
  {
  }

  /** Inserting a fresh key grows the table by exactly one. */
  lemma InsertGrowsByOne(links: map<string, Link>, slug: string, link: Link)
    requires slug !in links
    ensures |links[slug := link]| == |links| + 1
  {
    assert links[slug := link].Keys == links.Keys + {slug};
  }

  /** A caller following the same short link `n` times in a row: the table ends
      up as RedirectedTimes describes, so the link gains exactly `n` views. */
  method RepeatedRedirects(reg: LinkRegistry, slug: string, n: nat)
    requires reg.Valid() && slug in reg.links
    modifies reg
    ensures reg.Valid()
    ensures reg.links == RedirectedTimes(old(reg.links), slug, n)
    ensures reg.links[slug] == Link(old(reg.links)[slug].url, old(reg.links)[slug].views + n)
  {
    var i := 0;
    while i < n
      invariant 0 <= i <= n
      invariant reg.Valid() && slug in reg.links
      invariant reg.links == RedirectedTimes(old(reg.links), slug, i)
    {
      var url := reg.RedirectLink(slug);
      i := i + 1;
    }
    RedirectedTimesCounts(old(reg.links), slug, n);
  }

  /** The Links table, held in memory as a map from slug to record. */
  class LinkRegistry {
    var links: map<string, Link>

    ghost predicate Valid()
      reads this
    {
      WellFormed(links)
    }

    constructor ()
      ensures Valid() && links == map[]
    {
      links := map[];
    }

    /** `gen_valid_url_slug`: draws candidates in order until one is not a key.
        The random source is the sequence `draws`; the source's loop returns
        only when a free candidate comes up, which is what the second requires says. */
    method GenValidUrlSlug(draws: seq<seq<nat>>) returns (slug: string)
      requires forall i :: 0 <= i < |draws| ==> IsDraw(draws[i])
      requires exists i :: 0 <= i < |draws| && GenUrlSlug(draws[i]) !in links
      ensures IsGeneratedShape(slug) && slug !in links
      ensures exists i :: 0 <= i < |draws| && slug == GenUrlSlug(draws[i]) &&
                          forall j :: 0 <= j < i ==> GenUrlSlug(draws[j]) in links
    {
      var i := 0;
      slug := GenUrlSlug(draws[0]);
      while slug in links
        invariant 0 <= i < |draws| && slug == GenUrlSlug(draws[i])
        invariant forall j :: 0 <= j < i ==> GenUrlSlug(draws[j]) in links
        invariant exists k :: i <= k < |draws| && GenUrlSlug(draws[k]) !in links
        decreases |draws| - i
      {
        i := i + 1;
        slug := GenUrlSlug(draws[i]);
      }
    }

    /** `add_link`: resolve the slug (generate one when none is given), run the
        checks in order, normalise the URL and insert a record with no views.
        The source's existence check reads the raw argument `slug` (main.py:74);
        this model checks the resolved slug, which is what was meant. */
    method AddLink(url: string, slug: Option<string>, draws: seq<seq<nat>>) returns (r: Result<Created, Error>)
      requires Valid()
      requires forall i :: 0 <= i < |draws| ==> IsDraw(draws[i])
      requires !Provided(slug) ==> exists i :: 0 <= i < |draws| && GenUrlSlug(draws[i]) !in links
      modifies this
      ensures Valid()
      ensures r.Err? ==> links == old(links)
      ensures r.Ok? ==> && r.value.slug !in old(links)
                        && r.value.url == NormalizeUrl(url)
                        && links == old(links)[r.value.slug := Link(r.value.url, 0)]
                        && |links| == |old(links)| + 1
      ensures Provided(slug) ==>
                match CheckSlug(old(links).Keys, slug.value)
                case None => r.Ok? && r.value.slug == slug.value
                case Some(e) => r == Err(e)
      ensures Provided(slug) && slug.value in old(links) ==> r == Err(SlugAlreadyExists)
      ensures !Provided(slug) ==> && r.Ok? && IsGeneratedShape(r.value.slug)
                                  && exists i :: && 0 <= i < |draws| && r.value.slug == GenUrlSlug(draws[i])
                                                 && forall j :: 0 <= j < i ==> GenUrlSlug(draws[j]) in old(links)
    {
      var theSlug: string;
      if Provided(slug) {
        theSlug := slug.value;
      } else {
        // The source calls the misspelled `gen_calid_url_slug` here (main.py:63).
        theSlug := GenValidUrlSlug(draws);
        FreshGeneratedSlugPassesChecks(links.Keys, theSlug);
      }
      if Provided(slug) && slug.value in links {
        StoredSlugIsAlreadyExists(links, slug.value);
      }
      var charactersOk := ScanSlugCharacters(theSlug);
      if !charactersOk {
        return Err(InvalidSlug(BadCharacters));
      }
      if |theSlug| < MinSlugLength || |theSlug| > MaxSlugLength {
        return Err(InvalidSlug(BadLength));
      }
      if theSlug in links {
        return Err(SlugAlreadyExists);
      }
      var theUrl := NormalizeUrl(url);
      InsertGrowsByOne(links, theSlug, Link(theUrl, 0));
      links := links[theSlug := Link(theUrl, 0)];
      r := Ok(Created(theSlug, theUrl));
    }

    /** `get_link`: the stored record, or `SlugDosentExistsError`. Reads only. */
    method GetLink(slug: string) returns (r: Result<LinkView, Error>)
      ensures slug in links ==> r == Ok(LinkView(slug, links[slug].url, links[slug].views))
      ensures slug !in links ==> r == Err(SlugDoesNotExist)
    {
      if slug !in links {
        return Err(SlugDoesNotExist);
      }
      var link := links[slug];
      r := Ok(LinkView(slug, link.url, link.views));
    }

    /** `redirect_link`: the stored URL, after adding one to that link's views.
        The source reads the count, adds one and writes it back in a separate
        update; here that happens as one sequential step. */
    method RedirectLink(slug: string) returns (r: Result<string, Error>)
      requires Valid()
      modifies this
      ensures Valid()
      ensures slug in old(links) ==> r == Ok(old(links)[slug].url) && links == Redirected(old(links), slug)
      ensures slug !in old(links) ==> r == Err(SlugDoesNotExist) && links == old(links)
    {
      if slug !in links {
        return Err(SlugDoesNotExist);
      }
      var link := links[slug];
      var theViews := link.views + 1;
      RedirectedWellFormed(links, slug);
      links := links[slug := link.(views := theViews)];
      r := Ok(link.url);
    }

    /** `get_links_count`: the number of stored links. */
    method Count() returns (n: nat)
      ensures n == |links|
    {
      n := |links|;
    }
  }
}
