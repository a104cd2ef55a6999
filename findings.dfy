/** The slug handling of `add_short_url` and `add_link` exactly as written,
    next to the intended behaviour modelled in Routes and Registry. */
module Findings {
  import opened Wrappers
  import opened Slugs
  import opened Registry
  import opened Routes

  /** Python errors raised before any check of the core runs. */
  datatype PythonError = AttributeError | NameError

  /** As written: `slug.lower()` at main.py:117 fails on an absent slug, and
      `slug or gen_calid_url_slug()` at main.py:63 looks up a name that does
      not exist whenever the lower-cased slug is empty. Otherwise the
      lower-cased slug goes on to the checks. */
  function SlugForChecksAsWritten(slug: Option<string>): (r: Result<string, PythonError>)
    ensures r.Ok? ==> slug.Some? && r.value == Lower(slug.value)
  {
    match slug
    case None => Err(AttributeError)
    case Some(s) => if Lower(s) == "" then Err(NameError) else Ok(Lower(s))
  }

  /** As written, a request without a slug, or with an empty one, never reaches
      the generator; the intended route hands both on to generation. */
  lemma OmittedSlugFailsAsWritten()
    ensures SlugForChecksAsWritten(None) == Err(AttributeError) && !Provided(RouteSlug(None))
    ensures SlugForChecksAsWritten(Some("")) == Err(NameError) && !Provided(RouteSlug(Some("")))
  {
  }

  /** Whenever a non-empty slug is given, the code as written and the intended
      route pass the same slug to the checks. */
  lemma GivenSlugAgreesAsWritten(slug: Option<string>)
    requires Provided(slug)
    ensures SlugForChecksAsWritten(slug) == Ok(RouteSlug(slug).value)
  {
    LowerProperties(slug.value);
  }

  /** As written, the existence check of `add_link` asks about the raw argument
      (main.py:74), never about a generated slug. */
  function ExistenceCheckAsWritten(links: map<string, Link>, slug: Option<string>): (b: bool)
    ensures slug.None? ==> !b
    ensures Provided(slug) ==> (b <==> slug.value in links)
    ensures slug == Some("") ==> (b <==> "" in links)
  {
    slug.Some? && slug.value in links
  }

  /** In a sequential run that check still gives the answer the resolved slug
      would: a given slug is the resolved one, and when the slug is absent or
      empty the check is false while the generator already ensured the
      generated slug is not a key. */
  lemma RawSlugExistenceCheckAgrees(links: map<string, Link>, slug: Option<string>, theSlug: string)
    requires WellFormed(links)
    requires Provided(slug) ==> theSlug == slug.value
    requires !Provided(slug) ==> theSlug !in links
    ensures ExistenceCheckAsWritten(links, slug) == (theSlug in links)
  {
    if slug == Some("") {
      assert !LegalSlug("");
    }
  }
}
