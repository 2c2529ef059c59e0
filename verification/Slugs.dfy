/** The address vocabulary: what a slug is and where each kind of content lives. */
module Slugs {
  predicate IsSlugChar(c: char) {
    'a' <= c <= 'z' || '0' <= c <= '9'
  }

  /** Letters and digits in groups, joined by single hyphens. */
  predicate SlugGroups(s: string) {
    && s != ""
    && (forall i :: 0 <= i < |s| ==> IsSlugChar(s[i]) || s[i] == '-')
    && s[0] != '-' && s[|s| - 1] != '-'
    && (forall i :: 0 <= i < |s| - 1 ==> !(s[i] == '-' && s[i + 1] == '-'))
  }

  const SLUG_MAX := 96

  predicate IsSlug(s: string) {
    1 <= |s| <= SLUG_MAX && SlugGroups(s)
  }

  datatype Kind = Page | Post | Brand

  function ContentPath(kind: Kind, slug: string): string {
    match kind
    case Page => "/" + slug
    case Post => "/blog/" + slug
    case Brand => "/brands/" + slug
  }

  /** Two pieces of content share an address only when they share kind and slug. */
  lemma ContentPathInjective(k: Kind, s: string, l: Kind, t: string)
    requires IsSlug(s) && IsSlug(t)
    ensures ContentPath(k, s) == ContentPath(l, t) <==> k == l && s == t
  {
    var p, q := ContentPath(k, s), ContentPath(l, t);
    SlashCount(k, s);
    SlashCount(l, t);
    assert p[PrefixLength(k)..] == s && q[PrefixLength(l)..] == t;
  }

  /** A page lives at the root, a post under `/blog` and a brand under `/brands`. */
  lemma ContentPathsAre(slug: string)
    ensures ContentPath(Page, slug) == "/" + slug
    ensures ContentPath(Post, slug) == "/blog/" + slug && ContentPath(Brand, slug) == "/brands/" + slug
  {
  }

  function PrefixLength(k: Kind): nat {
    match k case Page => 1 case Post => 6 case Brand => 8
  }

  /** A slug holds no slash, so the last slash of an address ends the prefix of its kind. */
  lemma SlashCount(k: Kind, s: string)
    requires IsSlug(s)
    ensures var p := ContentPath(k, s);
            && |p| == PrefixLength(k) + |s|
            && p[PrefixLength(k) - 1] == '/'
            && forall i :: PrefixLength(k) <= i < |p| ==> p[i] != '/'
  {
  }

  const PINNED_PAGE_SLUGS: set<string> := {"golden-warranty", "contact"}

  const RESERVED_PAGE_SLUGS: set<string> := {
    "ar", "en", "api", "store", "cart", "checkout", "account", "search", "blog", "brands",
    "collections", "orders", "guides", "compare", "glossary", "tools", "deals", "product-tag"
  }
}
