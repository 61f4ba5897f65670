/**
 * The slug rule of `save_article_to_db`: lower-case the title, turn spaces
 * into hyphens, drop double quotes, single quotes and question marks, keep
 * only alphanumerics and hyphens, and cut the result to 80 characters.
 */
module Slug {
  import opened Text

  const MaxSlugLength := 80

  /** The characters a slug may contain. */
  predicate IsSlugChar(c: char) { IsLowerLetter(c) || IsDigit(c) || c == '-' }

  /** `''.join(c for c in s if c.isalnum() or c == '-')`. */
  function KeepSlugChars(s: string): (r: string)
    ensures |r| <= |s|
    ensures forall x :: x in r ==> x in s && (IsAlnum(x) || x == '-')
  {
    if s == [] then []
    else
      assert forall x :: x in s ==> x == s[0] || x in s[1..];
      if IsAlnum(s[0]) || s[0] == '-' then [s[0]] + KeepSlugChars(s[1..])
      else KeepSlugChars(s[1..])
  }

  /** Every alphanumeric and every hyphen of `s` is kept. */
  lemma {:induction false} KeepSlugCharsKeeps(s: string)
    ensures forall x :: x in s && (IsAlnum(x) || x == '-') ==> x in KeepSlugChars(s)
  {
    if s != [] {
      assert forall x :: x in s ==> x == s[0] || x in s[1..];
      KeepSlugCharsKeeps(s[1..]);
    }
  }

  /** The filter works piece by piece, so the kept characters stay in their order. */
  lemma {:induction false} KeepSlugCharsAppend(a: string, b: string)
    ensures KeepSlugChars(a + b) == KeepSlugChars(a) + KeepSlugChars(b)
  {
    if a != [] {
      assert (a + b)[0] == a[0];
      assert (a + b)[1..] == a[1..] + b;
      KeepSlugCharsAppend(a[1..], b);
    } else {
      assert a + b == b;
    }
  }

  /** The untruncated slug. */
  function SlugBody(title: string): string {
    var hyphenated := ReplaceChar(LowerString(title), ' ', '-');
    KeepSlugChars(RemoveChar(RemoveChar(RemoveChar(hyphenated, '"'), '\''), '?'))
  }

  /** The slug stored for an article with this title (services.py:83-84). */
  function Slugify(title: string): (r: string)
    ensures |r| <= MaxSlugLength
    ensures forall x :: x in r ==> IsSlugChar(x)
    ensures ' ' !in r && '"' !in r && '\'' !in r && '?' !in r
    ensures forall x :: x in r ==> !IsUpper(x)
  {
    var body := SlugBody(title);
    SlugBodyChars(title);
    if |body| <= MaxSlugLength then body else body[..MaxSlugLength]
  }

  /** The untruncated slug holds only slug characters. */
  lemma SlugBodyChars(title: string)
    ensures forall x :: x in SlugBody(title) ==> IsSlugChar(x)
  {
    var hyphenated := ReplaceChar(LowerString(title), ' ', '-');
    assert forall x :: x in hyphenated ==> !IsUpper(x);
    var stripped := RemoveChar(RemoveChar(RemoveChar(hyphenated, '"'), '\''), '?');
    assert forall x :: x in stripped ==> x in hyphenated;
  }

  /** Keeping slug characters from a string made only of them changes nothing. */
  lemma {:induction false} KeepSlugCharsOfSlug(s: string)
    requires forall x :: x in s ==> IsSlugChar(x)
    ensures KeepSlugChars(s) == s
  {
    if s != [] {
      assert s[0] in s;
      assert forall x :: x in s[1..] ==> x in s;
      KeepSlugCharsOfSlug(s[1..]);
    }
  }

  /** A slug is its own slug: slugifying is idempotent. */
  lemma SlugifyIdempotent(title: string)
    ensures Slugify(Slugify(title)) == Slugify(title)
  {
    var s := Slugify(title);
    assert LowerString(s) == s;
    assert ReplaceChar(s, ' ', '-') == s;
    assert RemoveChar(RemoveChar(RemoveChar(s, '"'), '\''), '?') == s;
    KeepSlugCharsOfSlug(s);
    assert SlugBody(s) == s;
  }
}
