/** The storefront's block vocabulary: which stored values it will render. */
module BlockSchema {
  import opened Json
  import opened Slugs

  type Fields = map<string, Json>

  /** The length JavaScript measures: characters beyond the first plane count twice. */
  function Utf16Length(s: string): nat {
    if s == "" then 0 else (if s[0] as int >= 0x1_0000 then 2 else 1) + Utf16Length(s[1..])
  }

  predicate HasText(f: Fields, key: string) {
    key in f && f[key].Str?
  }

  predicate HasWords(f: Fields, key: string) {
    HasText(f, key) && f[key].text != ""
  }

  predicate MayHaveText(f: Fields, key: string) {
    key in f ==> f[key].Str?
  }

  predicate HasSlug(f: Fields, key: string) {
    HasText(f, key) && IsSlug(f[key].text)
  }

  predicate HasList(f: Fields, key: string, min: nat, max: nat) {
    key in f && f[key].Arr? && min <= |f[key].items| <= max
  }

  predicate MayBeOneOf(f: Fields, key: string, allowed: set<string>) {
    key in f ==> f[key].Str? && f[key].text in allowed
  }

  /** Whole numbers below a hundred, as they are printed. */
  function Decimal(n: nat): string
    requires n < 100
  {
    if n < 10 then ['0' + n as char] else ['0' + (n / 10) as char, '0' + (n % 10) as char]
  }

  predicate MayBeCount(f: Fields, key: string, max: nat)
    requires max < 100
  {
    key in f ==> f[key].Num? && exists n :: 1 <= n <= max && f[key].literal == Decimal(n)
  }

  predicate AcceptsHeading(f: Fields) {
    && "level" in f && f["level"] in {Num("2"), Num("3"), Num("4")}
    && HasWords(f, "text")
    && ("id" in f ==> HasSlug(f, "id"))
  }

  predicate AcceptsAnswer(f: Fields) {
    HasText(f, "text") && 40 <= Utf16Length(f["text"].text) <= 600
  }

  predicate AcceptsSteps(f: Fields) {
    && MayHaveText(f, "title")
    && HasList(f, "steps", 1, 12)
    && forall s :: s in f["steps"].items ==>
         s.Obj? && HasWords(s.fields, "text") && MayHaveText(s.fields, "assetId")
  }

  predicate AcceptsFaq(f: Fields) {
    && MayHaveText(f, "title")
    && HasList(f, "items", 1, 20)
    && forall i :: i in f["items"].items ==>
         i.Obj? && HasWords(i.fields, "q") && HasWords(i.fields, "a")
  }

  predicate AcceptsSpecTable(f: Fields) {
    && MayHaveText(f, "title")
    && "rows" in f && f["rows"].Arr? && f["rows"].items != []
    && forall r :: r in f["rows"].items ==>
         r.Obj? && HasText(r.fields, "label") && HasText(r.fields, "value")
  }

  predicate AllText(v: Json) {
    v.Arr? && forall i :: i in v.items ==> i.Str?
  }

  predicate AllSlugs(v: Json) {
    v.Arr? && forall i :: i in v.items ==> i.Str? && IsSlug(i.text)
  }

  predicate AcceptsComparison(f: Fields) {
    && HasList(f, "columns", 2, 5) && AllText(f["columns"])
    && "rows" in f && f["rows"].Arr? && f["rows"].items != []
    && (forall r :: r in f["rows"].items ==>
          r.Obj? && HasText(r.fields, "label") && "cells" in r.fields && AllText(r.fields["cells"]))
    && ("productSlugs" in f ==> AllSlugs(f["productSlugs"]))
  }

  predicate AcceptsSource(f: Fields) {
    && HasText(f, "kind")
    && var kind := f["kind"].text;
       || (kind in {"category", "brand"} && HasSlug(f, "slug"))
       || (kind == "manual" && HasList(f, "slugs", 1, 24) && AllSlugs(f["slugs"]))
       || kind in {"bestSelling", "onSale"}
  }

  predicate AcceptsProductGrid(f: Fields) {
    && MayHaveText(f, "title")
    && "source" in f && f["source"].Obj? && AcceptsSource(f["source"].fields)
    && MayBeCount(f, "limit", 24)
  }

  predicate AcceptsCta(f: Fields) {
    && HasWords(f, "heading") && MayHaveText(f, "body")
    && HasWords(f, "buttonLabel") && HasWords(f, "buttonHref")
    && MayBeOneOf(f, "tone", {"brand", "accent"})
  }

  predicate AcceptsTrust(f: Fields) {
    && "items" in f && f["items"].Arr? && f["items"].items != []
    && forall i :: i in f["items"].items ==>
         i.Str? && i.text in {"goldenWarranty", "deliverySla", "salesCount", "paymentMethods", "support"}
  }

  predicate AcceptsFields(kind: string, f: Fields) {
    match kind
    case "richText" => HasText(f, "html")
    case "heading" => AcceptsHeading(f)
    case "image" =>
      HasText(f, "assetId") && MayHaveText(f, "caption") && MayBeOneOf(f, "width", {"content", "wide", "full"})
    case "answerFirst" => AcceptsAnswer(f)
    case "steps" => AcceptsSteps(f)
    case "faq" => AcceptsFaq(f)
    case "specTable" => AcceptsSpecTable(f)
    case "comparison" => AcceptsComparison(f)
    case "productGrid" => AcceptsProductGrid(f)
    case "cta" => AcceptsCta(f)
    case "trust" => AcceptsTrust(f)
    case "reviews" => MayBeCount(f, "limit", 20)
    case _ => false
  }

  /** One value the storefront renders; keys the vocabulary does not name are ignored. */
  predicate AcceptsBlock(v: Json) {
    v.Obj? && HasText(v.fields, "type") && AcceptsFields(v.fields["type"].text, v.fields)
  }

  /** The whole document parses, or it renders as nothing. */
  predicate AcceptsDocument(blocks: seq<Json>) {
    forall i :: 0 <= i < |blocks| ==> AcceptsBlock(blocks[i])
  }
}
