/** Slugs: the fixed generator alphabet, the character classes the validator
    uses, the lower-casing done by the route handlers, and the random slug
    generator with its randomness supplied by the caller. */
module Slugs {

  /** The 36 characters a generated slug is drawn from. */
  const SlugAllowedCharacters: string := "abcdefghijklmnopqrstuvwxyz0123456789"

  /** Bounds of the length drawn for a generated slug. */
  const MinGeneratedLength: nat := 4
  const MaxGeneratedLength: nat := 6

  /** Bounds a user-supplied slug must respect; 20 is also the key column's max_length. */
  const MinSlugLength: nat := 4
  const MaxSlugLength: nat := 20

  // Python's str.isalpha / str.isdigit / str.lower, restricted to ASCII.
  // Python also accepts non-ASCII letters and digits (e.g. 'é', '٣'); those
  // are rejected here.

  /** `str.isalpha`: the letters are exactly the characters that lower-case into a-z. */
  predicate IsAlpha(c: char): (b: bool)
    ensures b <==> 'a' <= LowerChar(c) <= 'z'
  {
    'a' <= c <= 'z' || 'A' <= c <= 'Z'
  }

  /** `str.isdigit`: the digits are exactly the last ten characters of the alphabet. */
  predicate IsDigit(c: char): (b: bool)
    ensures b <==> c in SlugAllowedCharacters[26..]
  {
    assert SlugAllowedCharacters[26..] == "0123456789";
    '0' <= c <= '9'
  }

  /** The per-character test of the validator: a letter or a digit. It accepts
      at least every character of the generator's alphabet. */
  predicate IsSlugCharacter(c: char): (b: bool)
    ensures c in SlugAllowedCharacters ==> b
  {
    AlphabetIsLowerAlphanumeric(c);
    IsAlpha(c) || IsDigit(c)
  }

  predicate AllSlugCharacters(s: string) {
    forall i :: 0 <= i < |s| ==> IsSlugCharacter(s[i])
  }

  /** `str.lower` on one character: upper-case ASCII letters become their
      lower-case form; every other character is left alone. */
  function LowerChar(c: char): (r: char)
    ensures !('A' <= r <= 'Z')
    ensures !('A' <= c <= 'Z') ==> r == c
    ensures 'A' <= c <= 'Z' ==> 'a' <= r <= 'z' && r as int - c as int == 'a' as int - 'A' as int
  {
    if 'A' <= c <= 'Z' then (c as int - 'A' as int + 'a' as int) as char else c
  }

  /** The route handlers' `slug.lower()`: same length, and no upper-case ASCII letter remains. */
  function Lower(s: string): (r: string)
    ensures |r| == |s|
    ensures forall i :: 0 <= i < |r| ==> !('A' <= r[i] <= 'Z')
  {
    seq(|s|, i requires 0 <= i < |s| => LowerChar(s[i]))
  }

  /** Every character is one of the 36 alphabet characters. */
  predicate InAlphabet(s: string) {
    forall i :: 0 <= i < |s| ==> s[i] in SlugAllowedCharacters
  }

  /** A slug the generator can produce: 4 to 6 characters of the alphabet. */
  predicate IsGeneratedShape(s: string) {
    MinGeneratedLength <= |s| <= MaxGeneratedLength && InAlphabet(s)
  }

  /** A draw of the random source: its length is what `randint(4, 6)` returned,
      and each entry is the index `choice` picked in the alphabet. */
  predicate IsDraw(d: seq<nat>) {
    && MinGeneratedLength <= |d| <= MaxGeneratedLength
    && forall i :: 0 <= i < |d| ==> d[i] < |SlugAllowedCharacters|
  }

  /** The slug `gen_url_slug` builds from one draw of the random source. */
  function GenUrlSlug(d: seq<nat>): (slug: string)
    requires IsDraw(d)
    ensures IsGeneratedShape(slug)
  {
    seq(|d|, i requires 0 <= i < |d| => SlugAllowedCharacters[d[i]])
  }

  /** Position of an alphabet character in the alphabet. */
  function AlphabetIndex(c: char): (k: nat)
    requires c in SlugAllowedCharacters
    ensures k < |SlugAllowedCharacters| && SlugAllowedCharacters[k] == c
  {
    if 'a' <= c <= 'z' then c as int - 'a' as int else 26 + (c as int - '0' as int)
  }

  /** The draw that makes the generator produce `slug`: the inverse of GenUrlSlug. */
  function DrawOf(slug: string): (d: seq<nat>)
    requires IsGeneratedShape(slug)
    ensures IsDraw(d)
  {
    seq(|slug|, i requires 0 <= i < |slug| => AlphabetIndex(slug[i]))
  }

  /** Every 4-to-6 character string over the alphabet is reachable by the generator. */
  lemma GenUrlSlugReachesEveryShape(slug: string)
    requires IsGeneratedShape(slug)
    ensures GenUrlSlug(DrawOf(slug)) == slug
  {
  }

  /** Different draws give different slugs: the alphabet has no repeated character. */
  lemma GenUrlSlugInjective(d: seq<nat>)
    requires IsDraw(d)
    ensures DrawOf(GenUrlSlug(d)) == d
  {
    var s := GenUrlSlug(d);
    forall i | 0 <= i < |d|
      ensures AlphabetIndex(s[i]) == d[i]
    {
      AlphabetPositionsDistinct(d[i]);
    }
  }

  /** The alphabet lists each character once. */
  lemma AlphabetPositionsDistinct(k: nat)
    requires k < |SlugAllowedCharacters|
    ensures AlphabetIndex(SlugAllowedCharacters[k]) == k
  {
  }

  /** Every alphabet position holds a lower-case letter or a digit. */
  lemma AlphabetEntry(k: nat)
    requires k < |SlugAllowedCharacters|
    ensures 'a' <= SlugAllowedCharacters[k] <= 'z' || IsDigit(SlugAllowedCharacters[k])
  {
  }

  /** Every lower-case letter and digit sits at its computed alphabet position. */
  lemma AlphabetCovers(c: char)
    requires 'a' <= c <= 'z' || IsDigit(c)
    ensures var k := if 'a' <= c <= 'z' then c as int - 'a' as int else 26 + (c as int - '0' as int);
            0 <= k < |SlugAllowedCharacters| && SlugAllowedCharacters[k] == c
  {
  }

  /** The alphabet holds exactly the lower-case ASCII letters and the digits. */
  lemma AlphabetIsLowerAlphanumeric(c: char)
    ensures c in SlugAllowedCharacters <==> ('a' <= c <= 'z' || IsDigit(c))
  {
    if c in SlugAllowedCharacters {
      var k :| 0 <= k < |SlugAllowedCharacters| && SlugAllowedCharacters[k] == c;
      AlphabetEntry(k);
    }
    if 'a' <= c <= 'z' || IsDigit(c) {
      AlphabetCovers(c);
    }
  }

  /** A generated slug passes the validator's character and length checks. */
  lemma GeneratedShapeIsValidSyntax(slug: string)
    requires IsGeneratedShape(slug)
    ensures AllSlugCharacters(slug)
    ensures MinSlugLength <= |slug| <= MaxSlugLength
  {
    forall i | 0 <= i < |slug|
      ensures IsSlugCharacter(slug[i])
    {
      AlphabetIsLowerAlphanumeric(slug[i]);
    }
  }

  /** Lower-casing keeps the length, is idempotent and keeps letters and digits as they are classed. */
  lemma LowerProperties(s: string)
    ensures |Lower(s)| == |s|
    ensures Lower(Lower(s)) == Lower(s)
    ensures AllSlugCharacters(Lower(s)) <==> AllSlugCharacters(s)
  {
    assert forall i :: 0 <= i < |s| ==> (IsSlugCharacter(Lower(s)[i]) <==> IsSlugCharacter(s[i]));
  }

  /** After lower-casing, the validator's letter-or-digit test is exactly
      membership in the 36-character alphabet. */
  lemma LoweredSlugCharactersAreAlphabet(s: string)
    ensures AllSlugCharacters(Lower(s)) <==> InAlphabet(Lower(s))
  {
    var l := Lower(s);
    forall i | 0 <= i < |l|
      ensures IsSlugCharacter(l[i]) <==> l[i] in SlugAllowedCharacters
    {
      AlphabetIsLowerAlphanumeric(l[i]);
    }
  }

  /** A string over the alphabet is already lower case, so the route handlers'
      lower-casing leaves it as it is. */
  lemma AlphabetStringIsLower(s: string)
    requires InAlphabet(s)
    ensures Lower(s) == s
  {
    forall i | 0 <= i < |s|
      ensures LowerChar(s[i]) == s[i]
    {
      AlphabetIsLowerAlphanumeric(s[i]);
    }
  }

  /** The character loop of `add_link`: stops at the first character that is
      neither a letter nor a digit. */
  method ScanSlugCharacters(slug: string) returns (ok: bool)
    ensures ok <==> AllSlugCharacters(slug)
  {
    var i := 0;
    while i < |slug|
      invariant 0 <= i <= |slug|
      invariant forall j :: 0 <= j < i ==> IsSlugCharacter(slug[j])
    {
      if !IsAlpha(slug[i]) && !IsDigit(slug[i]) {
        return false;
      }
      i := i + 1;
    }
    return true;
  }
}
