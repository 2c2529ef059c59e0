/**
 * Products and their variants: what the panel's five writes leave behind.
 *
 * Money is a number of cents. `Catalog` runs each write as its transaction does;
 * the functions beside it say what the tables hold afterwards.
 */
module Catalogue {
  import opened Options
  import opened Redirects
  import opened Text

  datatype Status = DRAFT | IN_REVIEW | SCHEDULED | PUBLISHED | ARCHIVED
  datatype PeriodUnit = DAY | MONTH | YEAR | LIFETIME | UNSPECIFIED

  datatype Variant = Variant(
    productId: nat,
    sku: string,
    price: nat,
    compareAt: Option<nat>,
    unit: PeriodUnit,
    value: Option<nat>,
    position: int,
    isDefault: bool,
    status: Status)

  datatype Product = Product(
    slug: string,
    status: Status,
    brand: Option<string>,
    primary: Option<string>,
    categories: seq<string>,
    minPrice: Option<nat>,
    publishedAt: Option<int>,
    seoReady: bool)

  datatype Db = Db(products: map<nat, Product>, variants: seq<Variant>, redirects: Table, nextId: nat) {
    predicate SlugTaken(slug: string) {
      exists p :: p in products && products[p].slug == slug
    }

    predicate SkuTaken(sku: string) {
      exists v :: v in variants && v.sku == sku
    }
  }

  // --- the cached minimum -------------------------------------------------------------

  /** The cheapest published price of a product, read off the variants. */
  function Cheapest(variants: seq<Variant>, product: nat): Option<nat> {
    if variants == [] then None
    else
      var rest := Cheapest(variants[..|variants| - 1], product);
      var v := variants[|variants| - 1];
      if v.productId != product || !v.status.PUBLISHED? then rest
      else if rest.None? || v.price < rest.value then Some(v.price)
      else rest
  }

  predicate Sells(v: Variant, product: nat) {
    v.productId == product && v.status.PUBLISHED?
  }

  /** What "the minimum over the published variants, null if none" says. */
  ghost predicate IsMinimum(variants: seq<Variant>, product: nat, min: Option<nat>) {
    match min
    case None => forall v :: v in variants ==> !Sells(v, product)
    case Some(m) =>
      && (exists v :: v in variants && Sells(v, product) && v.price == m)
      && (forall v :: v in variants && Sells(v, product) ==> m <= v.price)
  }

  lemma {:induction false} CheapestIsMinimum(variants: seq<Variant>, product: nat)
    ensures IsMinimum(variants, product, Cheapest(variants, product))
  {
    if variants != [] {
      var front, last := variants[..|variants| - 1], variants[|variants| - 1];
      CheapestIsMinimum(front, product);
      assert variants == front + [last];
      if Cheapest(front, product).Some? {
        var v :| v in front && Sells(v, product) && v.price == Cheapest(front, product).value;
        assert v in variants;
      }
    }
  }

  // --- the writes -----------------------------------------------------------------------

  /** No count beside LIFETIME or UNSPECIFIED, at least one otherwise. */
  function TermValue(unit: PeriodUnit, value: Option<nat>): Option<nat> {
    if unit.LIFETIME? || unit.UNSPECIFIED? then None else Some(value.GetOr(1))
  }

  datatype NewVariant = NewVariant(sku: string, price: nat, unit: PeriodUnit, value: Option<nat>)

  /** A field that is absent is left as it is; `compareAt` and `value` may be sent as empty. */
  datatype Terms = Terms(
    price: Option<nat>,
    compareAt: Option<Option<nat>>,
    unit: Option<PeriodUnit>,
    value: Option<Option<nat>>,
    status: Option<Status>,
    isDefault: Option<bool>)

  datatype Identity = Identity(
    slug: Option<string>, brand: Option<Option<string>>, primary: Option<Option<string>>,
    categories: Option<seq<string>>)

  predicate NoDuplicates(s: seq<string>) {
    forall i, j :: 0 <= i < j < |s| ==> s[i] != s[j]
  }

  /** The ids of the rows a product may refer to. */
  datatype Known = Known(categories: set<string>, brands: set<string>)

  /** Every category exists, and none is listed twice, which the link table's key refuses. */
  predicate CategoriesOk(ids: seq<string>, known: Known) {
    (forall c :: c in ids ==> c in known.categories) && NoDuplicates(ids)
  }

  /** No brand, or one there is. */
  predicate BrandOk(brand: Option<string>, known: Known) {
    brand.Some? ==> brand.value in known.brands
  }

  /** Categories that exist, each listed once. */
  predicate AreCategories(ids: seq<string>, known: Known) {
    && (forall i :: 0 <= i < |ids| ==> ids[i] in known.categories)
    && (forall i, j :: 0 <= i < j < |ids| ==> ids[i] != ids[j])
  }

  /** An identity the catalogue takes: a slug nobody else has, references that exist, a primary category among the product's. */
  predicate IsSendable(products: map<nat, Product>, product: nat, input: Identity, known: Known)
    requires product in products
  {
    var was := products[product];
    var categories := if input.categories.Some? then input.categories.value else was.categories;
    var primary := if input.primary.Some? then input.primary.value else was.primary;
    && (input.slug.Some? && input.slug.value != was.slug ==>
          forall p :: p in products ==> products[p].slug != input.slug.value)
    && (input.categories.Some? ==> AreCategories(categories, known))
    && (input.brand.Some? && input.brand.value.Some? ==> input.brand.value.value in known.brands)
    && (primary.Some? ==> primary.value == "" || primary.value in categories)
  }

  function Refreshed(db: Db, product: nat): Db {
    if product in db.products
    then db.(products := db.products[product :=
           db.products[product].(minPrice := Cheapest(db.variants, product))])
    else db
  }

  function DraftVariant(product: nat, v: NewVariant, position: int, isDefault: bool): Variant {
    Variant(product, v.sku, v.price, None, v.unit, TermValue(v.unit, v.value), position, isDefault, DRAFT)
  }

  /** An id that may be sent empty, which stands for none. */
  function NoneIfEmpty(id: Option<string>): Option<string> {
    if id == Some("") then None else id
  }

  /** A new product as it is sent, its first variant with it. */
  datatype NewProduct = NewProduct(slug: string, brand: Option<string>, categories: seq<string>, first: NewVariant)

  predicate CanCreateProduct(db: Db, input: NewProduct, known: Known) {
    && !db.SlugTaken(input.slug) && !db.SkuTaken(input.first.sku)
    && CategoriesOk(input.categories, known) && BrandOk(NoneIfEmpty(input.brand), known)
  }

  /** A draft under its slug; the first category is the primary one. */
  function DraftProduct(input: NewProduct): Product {
    Product(input.slug, DRAFT, NoneIfEmpty(input.brand),
            if input.categories == [] then None else NoneIfEmpty(Some(input.categories[0])),
            input.categories, None, None, false)
  }

  function ProductCreated(db: Db, input: NewProduct): Db {
    Refreshed(
      Db(db.products[db.nextId := DraftProduct(input)],
         db.variants + [DraftVariant(db.nextId, input.first, 0, true)], db.redirects, db.nextId + 1),
      db.nextId)
  }

  /** One past the highest position a product's variants have. */
  function NextPosition(variants: seq<Variant>, product: nat): int {
    if variants == [] then 0
    else
      var rest := NextPosition(variants[..|variants| - 1], product);
      var v := variants[|variants| - 1];
      if v.productId == product && v.position >= rest then v.position + 1 else rest
  }

  function VariantCreated(db: Db, product: nat, v: NewVariant): Db {
    Refreshed(
      db.(variants := db.variants +
            [DraftVariant(product, v, NextPosition(db.variants, product), false)]),
      product)
  }

  predicate IdentityRefused(db: Db, product: nat, input: Identity, known: Known)
    requires product in db.products
  {
    var p := db.products[product];
    var categories := input.categories.GetOr(p.categories);
    var primary := input.primary.GetOr(p.primary);
    || (input.slug.Some? && input.slug.value != p.slug && db.SlugTaken(input.slug.value))
    || (input.categories.Some? && !CategoriesOk(input.categories.value, known))
    || (input.brand.Some? && !BrandOk(input.brand.value, known))
    || (primary.Some? && primary.value != "" && primary.value !in categories)
  }

  function IdentitySet(db: Db, product: nat, input: Identity): Db
    requires product in db.products
  {
    var p := db.products[product];
    var slug := input.slug.GetOr(p.slug);
    db.(products := db.products[product := p.(
          slug := slug,
          brand := input.brand.GetOr(p.brand),
          primary := input.primary.GetOr(p.primary),
          categories := input.categories.GetOr(p.categories))],
        redirects :=
          if slug == p.slug then db.redirects
          else ProductMoved(db.redirects, "/store/" + p.slug, "/store/" + slug))
  }

  function NextPrice(v: Variant, input: Terms): nat { input.price.GetOr(v.price) }

  function NextCompare(v: Variant, input: Terms): Option<nat> { input.compareAt.GetOr(v.compareAt) }

  /** A strike-through that is not above the price. */
  predicate TermsRefused(v: Variant, input: Terms) {
    NextCompare(v, input).Some? && NextCompare(v, input).value <= NextPrice(v, input)
  }

  function TermsOf(v: Variant, input: Terms): Variant {
    var unit := input.unit.GetOr(v.unit);
    v.(price := NextPrice(v, input),
       compareAt := NextCompare(v, input),
       unit := unit,
       value := TermValue(unit, input.value.GetOr(v.value)),
       status := input.status.GetOr(v.status),
       isDefault := input.isDefault.GetOr(v.isDefault))
  }

  /** A new default takes the place of the product's others. */
  function Demoted(variants: seq<Variant>, product: nat, keep: nat): (r: seq<Variant>)
    ensures |r| == |variants|
    ensures forall i :: 0 <= i < |r| ==>
      r[i] == if variants[i].productId == product && i != keep then variants[i].(isDefault := false) else variants[i]
  {
    seq(|variants|, i requires 0 <= i < |variants| =>
      if variants[i].productId == product && i != keep then variants[i].(isDefault := false) else variants[i])
  }

  /** Where the first variant of a SKU is, or the number of variants. */
  function IndexOfSku(variants: seq<Variant>, sku: string): (n: nat)
    ensures n <= |variants| && (n < |variants| ==> variants[n].sku == sku)
    ensures forall i :: 0 <= i < n ==> variants[i].sku != sku
  {
    if variants == [] || variants[0].sku == sku then 0 else 1 + IndexOfSku(variants[1..], sku)
  }

  lemma FirstSku(variants: seq<Variant>, sku: string, n: nat)
    requires n <= |variants| && (n < |variants| ==> variants[n].sku == sku)
    requires forall i :: 0 <= i < n ==> variants[i].sku != sku
    ensures n == IndexOfSku(variants, sku)
  {
  }

  /** A known SKU, and a strike-through that is above the price. */
  predicate CanSetTerms(db: Db, sku: string, input: Terms) {
    var at := IndexOfSku(db.variants, sku);
    at < |db.variants| && !TermsRefused(db.variants[at], input)
  }

  function TermsSet(db: Db, at: nat, input: Terms): Db
    requires at < |db.variants|
  {
    var v := db.variants[at];
    var others := if input.isDefault == Some(true) then Demoted(db.variants, v.productId, at) else db.variants;
    Refreshed(db.(variants := others[at := TermsOf(v, input)]), v.productId)
  }

  function AllInStatus(variants: seq<Variant>, product: nat, status: Status): (r: seq<Variant>)
    ensures |r| == |variants|
    ensures forall i :: 0 <= i < |r| ==>
      r[i] == if variants[i].productId == product then variants[i].(status := status) else variants[i]
  {
    seq(|variants|, i requires 0 <= i < |variants| =>
      if variants[i].productId == product then variants[i].(status := status) else variants[i])
  }

  /** Publishing, or taking down, a product and all its variants. */
  function StatusSet(db: Db, product: nat, status: Status, publishable: bool, now: int): Db
    requires product in db.products
  {
    var p := db.products[product];
    Refreshed(
      db.(products := db.products[product := p.(
            status := status,
            publishedAt := if status.PUBLISHED? then Some(p.publishedAt.GetOr(now)) else None,
            seoReady := publishable)],
          variants := AllInStatus(db.variants, product, status)),
      product)
  }

  // --- the services -----------------------------------------------------------------------

  class Catalog {
    var products: map<nat, Product>
    var variants: seq<Variant>
    var nextId: nat
    const known: Known
    const redirects: RedirectTable
    const upper: string -> string

    /** A SKU as it is stored. */
    function WithSku(v: NewVariant): NewVariant { v.(sku := upper(Trim(v.sku))) }

    function State(): Db
      reads this, redirects
    {
      Db(products, variants, redirects.rows, nextId)
    }

    constructor (known: Known, redirects: RedirectTable, upper: string -> string)
      ensures this.known == known && this.redirects == redirects && this.upper == upper
      ensures State() == Db(map[], [], redirects.rows, 0)
    {
      this.known, this.redirects, this.upper := known, redirects, upper;
      products, variants, nextId := map[], [], 0;
    }

    /** The cheapest of a product's published prices, in one pass. */
    method MinPublishedPrice(product: nat) returns (min: Option<nat>)
      ensures min == Cheapest(variants, product)
      ensures IsMinimum(variants, product, min)
    {
      min := None;
      for i := 0 to |variants|
        invariant min == Cheapest(variants[..i], product)
      {
        assert variants[..i + 1][..i] == variants[..i];
        if variants[i].productId == product && variants[i].status.PUBLISHED? {
          if min.None? || variants[i].price < min.value { min := Some(variants[i].price); }
        }
      }
      assert variants[..|variants|] == variants;
      CheapestIsMinimum(variants, product);
    }

    method RefreshProductPrice(product: nat)
      requires product in products
      modifies this`products
      ensures State() == Refreshed(old(State()), product)
    {
      var min := MinPublishedPrice(product);
      products := products[product := products[product].(minPrice := min)];
    }

    method CreateProduct(sent: NewProduct) returns (ok: bool)
      modifies this
      ensures var input := sent.(first := WithSku(sent.first));
              && (ok <==> CanCreateProduct(old(State()), input, known))
              && State() == if ok then ProductCreated(old(State()), input) else old(State())
      ensures ok <==>
        && (forall p :: p in old(products) ==> old(products)[p].slug != sent.slug)
        && (forall v :: v in old(variants) ==> v.sku != upper(Trim(sent.first.sku)))
        && AreCategories(sent.categories, known)
        && (sent.brand.None? || sent.brand.value == "" || sent.brand.value in known.brands)
      ensures ok ==> variants != [] && variants[|variants| - 1].sku == upper(Trim(sent.first.sku))
    {
      var v := WithSku(sent.first);
      ok := !(exists p :: p in products && products[p].slug == sent.slug)
        && !(exists w :: w in variants && w.sku == v.sku)
        && CategoriesOk(sent.categories, known) && BrandOk(NoneIfEmpty(sent.brand), known);
      if !ok { return; }
      var id := nextId;
      var primary := if sent.categories == [] || sent.categories[0] == "" then None else Some(sent.categories[0]);
      products := products[id := Product(sent.slug, DRAFT, NoneIfEmpty(sent.brand), primary, sent.categories, None, None, false)];
      nextId := nextId + 1;
      variants := variants + [DraftVariant(id, v, 0, true)];
      RefreshProductPrice(id);
    }

    method CreateVariant(product: nat, sent: NewVariant) returns (ok: bool)
      modifies this
      ensures var v := WithSku(sent);
              && (ok <==> product in old(products) && !old(State()).SkuTaken(v.sku))
              && State() == if ok then VariantCreated(old(State()), product, v) else old(State())
      ensures ok <==> product in old(products) && forall v :: v in old(variants) ==> v.sku != upper(Trim(sent.sku))
      ensures ok ==> variants != [] && variants[|variants| - 1].sku == upper(Trim(sent.sku))
    {
      var v := WithSku(sent);
      ok := product in products && !(exists w :: w in variants && w.sku == v.sku);
      if !ok { return; }
      variants := variants + [DraftVariant(product, v, NextPosition(variants, product), false)];
      RefreshProductPrice(product);
    }

    method SetIdentity(product: nat, input: Identity) returns (ok: bool)
      modifies this, redirects
      ensures ok <==> product in old(products) && !IdentityRefused(old(State()), product, input, known)
      ensures State() == if ok then IdentitySet(old(State()), product, input) else old(State())
      ensures ok <==> product in old(products) && IsSendable(old(products), product, input, known)
    {
      ok := product in products && !IdentityRefused(Db(products, variants, redirects.rows, nextId), product, input, known);
      if !ok { return; }
      var p := products[product];
      var slug := input.slug.GetOr(p.slug);
      products := products[product := p.(
        slug := slug, brand := input.brand.GetOr(p.brand), primary := input.primary.GetOr(p.primary),
        categories := input.categories.GetOr(p.categories))];
      if slug != p.slug {
        StorePathsDiffer(p.slug, slug);
        redirects.RecordProductMove("/store/" + p.slug, "/store/" + slug);
      }
    }

    /** Where the variant of a SKU is, when there is one. */
    method FindVariant(sku: string) returns (at: nat)
      ensures at == IndexOfSku(variants, sku)
    {
      at := 0;
      while at < |variants| && variants[at].sku != sku
        invariant at <= |variants| && forall i :: 0 <= i < at ==> variants[i].sku != sku
      {
        at := at + 1;
      }
      FirstSku(variants, sku, at);
    }

    method SetTerms(sku: string, input: Terms) returns (ok: bool)
      requires forall i :: 0 <= i < |variants| ==> variants[i].productId in products
      modifies this
      ensures ok <==> CanSetTerms(old(State()), sku, input)
      ensures State() == if ok then TermsSet(old(State()), IndexOfSku(old(variants), sku), input) else old(State())
      ensures ok <==>
        var at := IndexOfSku(old(variants), sku);
        && at < |old(variants)|
        && var price := if input.price.Some? then input.price.value else old(variants)[at].price;
           var strike := if input.compareAt.Some? then input.compareAt.value else old(variants)[at].compareAt;
           strike.Some? ==> strike.value > price
    {
      var at := FindVariant(sku);
      ok := at < |variants| && !TermsRefused(variants[at], input);
      if !ok { return; }
      var v := variants[at];
      if input.isDefault == Some(true) {
        variants := Demoted(variants, v.productId, at);
      }
      variants := variants[at := TermsOf(v, input)];
      RefreshProductPrice(v.productId);
    }

    /** Publishing refuses while the product is not ready; the readiness check is the caller's. */
    method SetStatus(product: nat, status: Status, publishable: bool, now: int) returns (ok: bool)
      modifies this
      ensures ok <==> product in old(products) && (status.PUBLISHED? ==> publishable)
      ensures State() == if ok then StatusSet(old(State()), product, status, publishable, now) else old(State())
    {
      ok := product in products && (status.PUBLISHED? ==> publishable);
      if !ok { return; }
      var p := products[product];
      products := products[product := p.(
        status := status,
        publishedAt := if status.PUBLISHED? then Some(p.publishedAt.GetOr(now)) else None,
        seoReady := publishable)];
      variants := AllInStatus(variants, product, status);
      RefreshProductPrice(product);
    }
  }

  lemma StorePathsDiffer(a: string, b: string)
    requires a != b
    ensures "/store/" + a != "/store/" + b
  {
    assert ("/store/" + a)[7..] == a && ("/store/" + b)[7..] == b;
  }

  // --- what every write keeps ---------------------------------------------------------------

  ghost predicate PricesAgree(db: Db) {
    forall p :: p in db.products ==> IsMinimum(db.variants, p, db.products[p].minPrice)
  }

  predicate VariantOk(v: Variant) {
    && (v.compareAt.Some? ==> v.compareAt.value > v.price)
    && (v.value.None? <==> v.unit.LIFETIME? || v.unit.UNSPECIFIED?)
  }

  /** A true strike-through and a fitting term on each, one default a product, every SKU once. */
  ghost predicate VariantsOk(variants: seq<Variant>) {
    && (forall i :: 0 <= i < |variants| ==> VariantOk(variants[i]))
    && (forall i, j :: 0 <= i < j < |variants| ==>
          variants[i].sku != variants[j].sku &&
          !(variants[i].isDefault && variants[j].isDefault && variants[i].productId == variants[j].productId))
  }

  /** The breadcrumb's category is one the product is in; an empty id is taken for none. */
  predicate PrimaryOk(p: Product) {
    p.primary.Some? && p.primary.value != "" ==> p.primary.value in p.categories
  }

  ghost predicate ProductsOk(products: map<nat, Product>, nextId: nat) {
    && (forall p :: p in products ==> p < nextId && PrimaryOk(products[p]))
    && (forall p, q :: p in products && q in products && products[p].slug == products[q].slug ==> p == q)
  }

  ghost predicate Consistent(db: Db) {
    && ProductsOk(db.products, db.nextId)
    && VariantsOk(db.variants)
    && (forall i :: 0 <= i < |db.variants| ==> db.variants[i].productId in db.products)
    && PricesAgree(db)
  }

  datatype Op =
    | CreateProduct(input: NewProduct)
    | CreateVariant(product: nat, v: NewVariant)
    | SetIdentity(product: nat, identity: Identity)
    | SetTerms(sku: string, terms: Terms)
    | SetStatus(product: nat, status: Status, publishable: bool, now: int)

  function AfterCreate(db: Db, input: NewProduct, known: Known): Db {
    if CanCreateProduct(db, input, known) then ProductCreated(db, input) else db
  }

  function AfterVariant(db: Db, product: nat, v: NewVariant): Db {
    if product in db.products && !db.SkuTaken(v.sku) then VariantCreated(db, product, v) else db
  }

  function AfterIdentity(db: Db, product: nat, identity: Identity, known: Known): Db {
    if product in db.products && !IdentityRefused(db, product, identity, known)
    then IdentitySet(db, product, identity) else db
  }

  function AfterTerms(db: Db, sku: string, terms: Terms): Db {
    if CanSetTerms(db, sku, terms) then TermsSet(db, IndexOfSku(db.variants, sku), terms) else db
  }

  function AfterStatus(db: Db, product: nat, status: Status, publishable: bool, now: int): Db {
    if product in db.products && (status.PUBLISHED? ==> publishable)
    then StatusSet(db, product, status, publishable, now) else db
  }

  /** A write that goes through, or is refused and leaves everything as it was. */
  function Step(db: Db, op: Op, known: Known): Db {
    match op
    case CreateProduct(input) => AfterCreate(db, input, known)
    case CreateVariant(product, v) => AfterVariant(db, product, v)
    case SetIdentity(product, identity) => AfterIdentity(db, product, identity, known)
    case SetTerms(sku, terms) => AfterTerms(db, sku, terms)
    case SetStatus(product, status, publishable, now) => AfterStatus(db, product, status, publishable, now)
  }

  /** Writing only one product's variants, and refreshing it, keeps every cached minimum true. */
  lemma RefreshKeepsPrices(db: Db, db': Db, product: nat)
    requires PricesAgree(db) && product in db'.products
    requires forall p :: p in db'.products && p != product ==>
      p in db.products && db'.products[p].minPrice == db.products[p].minPrice
    requires forall p, v :: p != product && Sells(v, p) ==> (v in db'.variants <==> v in db.variants)
    ensures PricesAgree(Refreshed(db', product))
  {
    CheapestIsMinimum(db'.variants, product);
    var r := Refreshed(db', product);
    forall p | p in r.products && p != product ensures IsMinimum(r.variants, p, r.products[p].minPrice) {
      assert IsMinimum(db.variants, p, db.products[p].minPrice);
      if db.products[p].minPrice.Some? {
        var v :| v in db.variants && Sells(v, p) && v.price == db.products[p].minPrice.value;
        assert v in r.variants;
      }
    }
  }

  lemma RefreshKeepsProducts(db: Db, product: nat)
    requires ProductsOk(db.products, db.nextId)
    ensures ProductsOk(Refreshed(db, product).products, db.nextId)
  {
  }

  /** Refreshing after a sound change of one product's variants leaves the catalogue consistent. */
  lemma RefreshConsistent(db: Db, db': Db, product: nat)
    requires PricesAgree(db) && product in db'.products
    requires ProductsOk(db'.products, db'.nextId) && VariantsOk(db'.variants)
    requires forall i :: 0 <= i < |db'.variants| ==> db'.variants[i].productId in db'.products
    requires forall p :: p in db'.products && p != product ==>
      p in db.products && db'.products[p].minPrice == db.products[p].minPrice
    requires forall p, v :: p != product && Sells(v, p) ==> (v in db'.variants <==> v in db.variants)
    ensures Consistent(Refreshed(db', product))
  {
    RefreshKeepsPrices(db, db', product);
    RefreshKeepsProducts(db', product);
  }

  /** A new draft, with a SKU of its own, that is the default only where it is alone. */
  lemma AppendVariantOk(variants: seq<Variant>, product: nat, v: NewVariant, position: int, isDefault: bool)
    requires VariantsOk(variants) && forall i :: 0 <= i < |variants| ==> variants[i].sku != v.sku
    requires isDefault ==> forall i :: 0 <= i < |variants| ==> variants[i].productId != product
    ensures VariantsOk(variants + [DraftVariant(product, v, position, isDefault)])
    ensures forall p, w :: Sells(w, p) ==>
      (w in variants + [DraftVariant(product, v, position, isDefault)] <==> w in variants)
  {
    var draft := DraftVariant(product, v, position, isDefault);
    var after := variants + [draft];
    assert forall i :: 0 <= i < |variants| ==> after[i] == variants[i];
    assert VariantOk(draft);
    forall p, w | Sells(w, p) ensures w in after <==> w in variants {
      assert w != draft;
    }
  }

  lemma CreateProductConsistent(db: Db, input: NewProduct)
    requires Consistent(db) && !db.SlugTaken(input.slug) && !db.SkuTaken(input.first.sku)
    ensures Consistent(ProductCreated(db, input))
  {
    var db' := Db(db.products[db.nextId := DraftProduct(input)],
                  db.variants + [DraftVariant(db.nextId, input.first, 0, true)], db.redirects, db.nextId + 1);
    assert ProductCreated(db, input) == Refreshed(db', db.nextId);
    AppendVariantOk(db.variants, db.nextId, input.first, 0, true);
    assert ProductsOk(db'.products, db'.nextId);
    RefreshConsistent(db, db', db.nextId);
  }

  /** One more variant of a product there is belongs to it. */
  lemma OwnersStay(db: Db, product: nat, draft: Variant)
    requires Consistent(db) && product in db.products && draft.productId == product
    ensures forall i :: 0 <= i < |db.variants + [draft]| ==> (db.variants + [draft])[i].productId in db.products
  {
  }

  lemma CreateVariantConsistent(db: Db, product: nat, v: NewVariant)
    requires Consistent(db) && product in db.products && !db.SkuTaken(v.sku)
    ensures Consistent(VariantCreated(db, product, v))
  {
    var position := NextPosition(db.variants, product);
    var draft := DraftVariant(product, v, position, false);
    assert forall i :: 0 <= i < |db.variants| ==> db.variants[i].sku != v.sku;
    AppendVariantOk(db.variants, product, v, position, false);
    OwnersStay(db, product, draft);
    AppendConsistent(db, product, draft);
  }

  lemma AppendConsistent(db: Db, product: nat, draft: Variant)
    requires Consistent(db) && product in db.products && VariantsOk(db.variants + [draft])
    requires forall i :: 0 <= i < |db.variants + [draft]| ==> (db.variants + [draft])[i].productId in db.products
    requires forall p, w :: Sells(w, p) ==> (w in db.variants + [draft] <==> w in db.variants)
    ensures Consistent(Refreshed(db.(variants := db.variants + [draft]), product))
  {
    RefreshConsistent(db, db.(variants := db.variants + [draft]), product);
  }

  lemma SetIdentityConsistent(db: Db, product: nat, input: Identity, known: Known)
    requires Consistent(db) && product in db.products && !IdentityRefused(db, product, input, known)
    ensures Consistent(IdentitySet(db, product, input))
  {
    var db' := IdentitySet(db, product, input);
    forall p | p in db'.products ensures IsMinimum(db'.variants, p, db'.products[p].minPrice) {
      assert IsMinimum(db.variants, p, db.products[p].minPrice);
    }
  }

  /** The variants after a change of terms, before the price is refreshed. */
  function TermsVariants(variants: seq<Variant>, at: nat, input: Terms): (r: seq<Variant>)
    requires at < |variants|
    ensures |r| == |variants| && r[at] == TermsOf(variants[at], input)
    ensures forall i :: 0 <= i < |r| && i != at ==>
      r[i] == if input.isDefault == Some(true) && variants[i].productId == variants[at].productId
              then variants[i].(isDefault := false) else variants[i]
  {
    var v := variants[at];
    (if input.isDefault == Some(true) then Demoted(variants, v.productId, at) else variants)[at := TermsOf(v, input)]
  }

  lemma TermsVariantsOk(variants: seq<Variant>, at: nat, input: Terms)
    requires VariantsOk(variants) && at < |variants| && !TermsRefused(variants[at], input)
    ensures VariantsOk(TermsVariants(variants, at, input))
  {
    var after := TermsVariants(variants, at, input);
    assert VariantOk(after[at]);
    forall i | 0 <= i < |after| ensures VariantOk(after[i]) && after[i].sku == variants[i].sku {
      assert VariantOk(variants[i]);
    }
  }

  lemma SameElsewhere(a: seq<Variant>, b: seq<Variant>, product: nat)
    requires |a| == |b|
    requires forall i :: 0 <= i < |a| ==> a[i].productId == b[i].productId
    requires forall i :: 0 <= i < |a| && a[i].productId != product ==> a[i] == b[i]
    ensures forall p, v :: p != product && Sells(v, p) ==> (v in b <==> v in a)
  {
    forall p, v | p != product && Sells(v, p) ensures v in b <==> v in a {
      if v in a { var i :| 0 <= i < |a| && a[i] == v; assert b[i] == v; }
      if v in b { var i :| 0 <= i < |b| && b[i] == v; assert a[i] == v; }
    }
  }

  lemma SetTermsConsistent(db: Db, at: nat, input: Terms)
    requires Consistent(db) && at < |db.variants| && !TermsRefused(db.variants[at], input)
    ensures Consistent(TermsSet(db, at, input))
  {
    var product := db.variants[at].productId;
    var db' := db.(variants := TermsVariants(db.variants, at, input));
    assert TermsSet(db, at, input) == Refreshed(db', product);
    TermsVariantsOk(db.variants, at, input);
    SameElsewhere(db.variants, db'.variants, product);
    RefreshConsistent(db, db', product);
  }

  lemma AllInStatusOk(variants: seq<Variant>, product: nat, status: Status)
    requires VariantsOk(variants)
    ensures VariantsOk(AllInStatus(variants, product, status))
  {
    var after := AllInStatus(variants, product, status);
    forall i | 0 <= i < |after|
      ensures VariantOk(after[i]) && after[i].sku == variants[i].sku
      ensures after[i].isDefault == variants[i].isDefault && after[i].productId == variants[i].productId
    {
      assert VariantOk(variants[i]);
    }
  }

  lemma SetStatusConsistent(db: Db, product: nat, status: Status, publishable: bool, now: int)
    requires Consistent(db) && product in db.products
    ensures Consistent(StatusSet(db, product, status, publishable, now))
  {
    var p := db.products[product];
    var db' := db.(
      products := db.products[product := p.(
        status := status, publishedAt := if status.PUBLISHED? then Some(p.publishedAt.GetOr(now)) else None,
        seoReady := publishable)],
      variants := AllInStatus(db.variants, product, status));
    AllInStatusOk(db.variants, product, status);
    SameElsewhere(db.variants, db'.variants, product);
    RefreshConsistent(db, db', product);
  }

  /** Every brand and category a product names is there, and no category twice. */
  ghost predicate ReferencesKnown(db: Db, known: Known) {
    forall p :: p in db.products ==>
      && (db.products[p].brand.Some? ==> db.products[p].brand.value in known.brands)
      && (forall c :: c in db.products[p].categories ==> c in known.categories)
      && (forall i, j :: 0 <= i < j < |db.products[p].categories| ==>
            db.products[p].categories[i] != db.products[p].categories[j])
  }

  lemma AfterStatusConsistent(db: Db, product: nat, status: Status, publishable: bool, now: int)
    requires Consistent(db)
    ensures Consistent(AfterStatus(db, product, status, publishable, now))
  {
    if product in db.products { SetStatusConsistent(db, product, status, publishable, now); }
  }

  lemma AfterTermsConsistent(db: Db, sku: string, terms: Terms)
    requires Consistent(db)
    ensures Consistent(AfterTerms(db, sku, terms))
  {
    if CanSetTerms(db, sku, terms) { SetTermsConsistent(db, IndexOfSku(db.variants, sku), terms); }
  }

  /** Whatever the panel writes, the catalogue stays consistent. */
  lemma StepConsistent(db: Db, op: Op, known: Known)
    requires Consistent(db)
    ensures Consistent(Step(db, op, known))
  {
    match op
    case CreateProduct(input) =>
      if CanCreateProduct(db, input, known) { CreateProductConsistent(db, input); }
    case CreateVariant(product, v) =>
      if product in db.products && !db.SkuTaken(v.sku) { CreateVariantConsistent(db, product, v); }
    case SetIdentity(product, identity) =>
      if product in db.products && !IdentityRefused(db, product, identity, known) {
        SetIdentityConsistent(db, product, identity, known);
      }
    case SetTerms(sku, terms) => AfterTermsConsistent(db, sku, terms);
    case SetStatus(product, status, publishable, now) =>
      AfterStatusConsistent(db, product, status, publishable, now);
  }

  // --- what every write stores ------------------------------------------------------------

  function StorePath(slug: string): Path { "/store/" + slug }

  predicate SameProductsBut(db: Db, db': Db, product: nat) {
    forall p :: p in db.products && p != product ==> p in db'.products && db'.products[p] == db.products[p]
  }

  /**
   * An accepted identity write: slug, brand, primary and categories are as sent, or as they
   * were where nothing was sent, and nothing else of any product or variant changes. A new
   * slug leaves a permanent redirect from the old address to the new one; without one the
   * redirects stay as they are.
   */
  lemma IdentityStores(db: Db, product: nat, input: Identity, known: Known)
    requires product in db.products && !IdentityRefused(db, product, input, known)
    ensures var db' := Step(db, SetIdentity(product, input), known);
            && product in db'.products && db'.products.Keys == db.products.Keys
            && var was, now := db.products[product], db'.products[product];
            && now.slug == (if input.slug.Some? then input.slug.value else was.slug)
            && now.brand == (if input.brand.Some? then input.brand.value else was.brand)
            && now.primary == (if input.primary.Some? then input.primary.value else was.primary)
            && now.categories == (if input.categories.Some? then input.categories.value else was.categories)
            && now.status == was.status && now.minPrice == was.minPrice
            && now.publishedAt == was.publishedAt && now.seoReady == was.seoReady
            && SameProductsBut(db, db', product) && db'.variants == db.variants && db'.nextId == db.nextId
            && (now.slug == was.slug ==> db'.redirects == db.redirects)
            && (now.slug != was.slug ==>
                  && LeadsTo(db'.redirects, StorePath(was.slug), StorePath(now.slug))
                  && forall a :: a in db.redirects ==> a in db'.redirects)
  {
    var was, now := db.products[product], input.slug.GetOr(db.products[product].slug);
    if now != was.slug {
      StorePathsDiffer(was.slug, now);
      ProductMoveStores(db.redirects, StorePath(was.slug), StorePath(now));
    }
  }

  /** A write of the identity with nothing in it goes through and changes nothing. */
  lemma EmptyIdentity(db: Db, product: nat, known: Known)
    requires Consistent(db) && product in db.products
    ensures Step(db, SetIdentity(product, Identity(None, None, None, None)), known) == db
    ensures !IdentityRefused(db, product, Identity(None, None, None, None), known)
  {
    var p := db.products[product];
    assert p.(slug := p.slug) == p && db.products[product := p] == db.products;
  }

  /** A new variant under an SKU: a draft at the price sent, with a count only where its term takes one. */
  predicate IsDraftVariant(v: Variant, product: nat, sent: NewVariant) {
    && v.productId == product && v.sku == sent.sku && v.price == sent.price && v.compareAt.None?
    && v.unit == sent.unit && v.status.DRAFT?
    && v.value == (if sent.unit in {LIFETIME, UNSPECIFIED} then None
                   else if sent.value.Some? then sent.value else Some(1))
  }

  /** An accepted create: a draft as sent, in its categories with the first as primary, and its one variant. */
  lemma CreateStores(db: Db, input: NewProduct, known: Known)
    requires Consistent(db) && CanCreateProduct(db, input, known)
    ensures var db' := Step(db, CreateProduct(input), known);
            && db.nextId !in db.products && db.nextId in db'.products && db'.nextId == db.nextId + 1
            && var p := db'.products[db.nextId];
            && p.slug == input.slug && p.status.DRAFT? && p.categories == input.categories
            && p.brand == (if input.brand == Some("") then None else input.brand)
            && p.primary == (if input.categories == [] || input.categories[0] == "" then None else Some(input.categories[0]))
            && p.minPrice.None? && p.publishedAt.None? && !p.seoReady
            && SameProductsBut(db, db', db.nextId) && db'.products.Keys == db.products.Keys + {db.nextId}
            && |db'.variants| == |db.variants| + 1 && db.variants == db'.variants[..|db.variants|]
            && var v := db'.variants[|db.variants|];
            && IsDraftVariant(v, db.nextId, input.first) && v.position == 0 && v.isDefault
            && db'.redirects == db.redirects
  {
    var first := DraftVariant(db.nextId, input.first, 0, true);
    CheapestIsMinimum(db.variants + [first], db.nextId);
    assert forall v :: v in db.variants + [first] ==> !Sells(v, db.nextId);
  }

  lemma {:induction false} NextPositionIsLast(variants: seq<Variant>, product: nat)
    ensures NextPosition(variants, product) >= 0
    ensures forall i :: 0 <= i < |variants| && variants[i].productId == product ==>
      variants[i].position < NextPosition(variants, product)
    ensures NextPosition(variants, product) == 0 || exists i ::
      0 <= i < |variants| && variants[i].productId == product && variants[i].position + 1 == NextPosition(variants, product)
  {
    if variants != [] { NextPositionIsLast(variants[..|variants| - 1], product); }
  }

  /** One more draft after the product's last variant, never the default; prices and everything else stay. */
  lemma VariantStores(db: Db, product: nat, sent: NewVariant, known: Known)
    requires Consistent(db) && product in db.products && !db.SkuTaken(sent.sku)
    ensures var db' := Step(db, CreateVariant(product, sent), known);
            && db'.products == db.products && db'.redirects == db.redirects && db'.nextId == db.nextId
            && |db'.variants| == |db.variants| + 1 && db.variants == db'.variants[..|db.variants|]
            && var v := db'.variants[|db.variants|];
            && IsDraftVariant(v, product, sent) && !v.isDefault && v.position >= 0
            && (forall i :: 0 <= i < |db.variants| && db.variants[i].productId == product ==>
                  db.variants[i].position < v.position)
  {
    NextPositionIsLast(db.variants, product);
    var draft := DraftVariant(product, sent, NextPosition(db.variants, product), false);
    var after := db.variants + [draft];
    assert after[..|db.variants|] == db.variants;
    assert Cheapest(after, product) == Cheapest(db.variants, product);
    OneMinimum(db.variants, product, db.products[product].minPrice);
    assert db.products[product].(minPrice := Cheapest(after, product)) == db.products[product];
    assert db.products[product := db.products[product]] == db.products;
  }

  lemma OneMinimum(variants: seq<Variant>, product: nat, min: Option<nat>)
    requires IsMinimum(variants, product, min)
    ensures min == Cheapest(variants, product)
  {
    CheapestIsMinimum(variants, product);
  }

  /** The variant a change of terms leaves: every field as sent, or as it was. */
  predicate HasTerms(now: Variant, was: Variant, sent: Terms) {
    && now.productId == was.productId && now.sku == was.sku && now.position == was.position
    && now.price == (if sent.price.Some? then sent.price.value else was.price)
    && now.compareAt == (if sent.compareAt.Some? then sent.compareAt.value else was.compareAt)
    && now.unit == (if sent.unit.Some? then sent.unit.value else was.unit)
    && now.status == (if sent.status.Some? then sent.status.value else was.status)
    && now.isDefault == (if sent.isDefault.Some? then sent.isDefault.value else was.isDefault)
    && var value := if sent.value.Some? then sent.value.value else was.value;
       now.value == (if now.unit in {LIFETIME, UNSPECIFIED} then None else if value.Some? then value else Some(1))
  }

  /** What a change of terms leaves: that variant as sent; a new default takes the place of the product's others. */
  ghost predicate TermsAreStored(db: Db, db': Db, at: nat, sent: Terms)
    requires at < |db.variants|
  {
    var product := db.variants[at].productId;
    && |db'.variants| == |db.variants| && HasTerms(db'.variants[at], db.variants[at], sent)
    && (forall i :: 0 <= i < |db.variants| && i != at ==>
          db'.variants[i] == if sent.isDefault == Some(true) && db.variants[i].productId == product
                             then db.variants[i].(isDefault := false) else db.variants[i])
    && SameProductsBut(db, db', product) && db'.products.Keys == db.products.Keys
    && product in db.products
    && db'.products[product].(minPrice := None) == db.products[product].(minPrice := None)
    && IsMinimum(db'.variants, product, db'.products[product].minPrice)
    && db'.redirects == db.redirects && db'.nextId == db.nextId
  }

  lemma TermsSetStores(db: Db, at: nat, sent: Terms)
    requires at < |db.variants| && db.variants[at].productId in db.products
    ensures TermsAreStored(db, TermsSet(db, at, sent), at, sent)
  {
    CheapestIsMinimum(TermsSet(db, at, sent).variants, db.variants[at].productId);
  }

  /** An accepted change of terms stores just that. */
  lemma TermsStore(db: Db, at: nat, sent: Terms, known: Known)
    requires Consistent(db) && at < |db.variants| && !TermsRefused(db.variants[at], sent)
    ensures TermsAreStored(db, Step(db, SetTerms(db.variants[at].sku, sent), known), at, sent)
  {
    SkuFindsIt(db.variants, at);
    TermsSetStores(db, at, sent);
  }

  lemma SkuFindsIt(variants: seq<Variant>, at: nat)
    requires VariantsOk(variants) && at < |variants|
    ensures IndexOfSku(variants, variants[at].sku) == at
  {
    FirstSku(variants, variants[at].sku, at);
  }

  /**
   * An accepted status write: the product and every variant of it take the status; the date
   * is kept or set to the clock by a publication and cleared by anything else.
   */
  lemma StatusStores(db: Db, product: nat, status: Status, publishable: bool, now: int, known: Known)
    requires product in db.products && (status.PUBLISHED? ==> publishable)
    ensures var db' := Step(db, SetStatus(product, status, publishable, now), known);
            && db'.products.Keys == db.products.Keys && SameProductsBut(db, db', product)
            && var was, p := db.products[product], db'.products[product];
            && p.status == status && p.seoReady == publishable
            && p.publishedAt == (if !status.PUBLISHED? then None else if was.publishedAt.Some? then was.publishedAt else Some(now))
            && p.slug == was.slug && p.brand == was.brand && p.primary == was.primary && p.categories == was.categories
            && IsMinimum(db'.variants, product, p.minPrice)
            && |db'.variants| == |db.variants|
            && (forall i :: 0 <= i < |db.variants| ==>
                  db'.variants[i] == if db.variants[i].productId == product then db.variants[i].(status := status) else db.variants[i])
            && db'.redirects == db.redirects && db'.nextId == db.nextId
  {
    CheapestIsMinimum(AllInStatus(db.variants, product, status), product);
  }

  function Run(ops: seq<Op>, known: Known): Db {
    if ops == [] then Db(map[], [], map[], 0)
    else Step(Run(ops[..|ops| - 1], known), ops[|ops| - 1], known)
  }

  /**
   * Over every run of creates, terms, identity and status writes: the cached
   * price is the true minimum, a product has at most one default variant, every
   * strike-through is above its price, a term has a count exactly when its unit
   * takes one, the primary category is among the product's or an empty id, and brand
   * and categories are ones there are, none listed twice.
   */
  lemma {:induction false} RunConsistent(ops: seq<Op>, known: Known)
    ensures Consistent(Run(ops, known)) && ReferencesKnown(Run(ops, known), known)
  {
    if ops != [] {
      RunConsistent(ops[..|ops| - 1], known);
      StepConsistent(Run(ops[..|ops| - 1], known), ops[|ops| - 1], known);
      StepKeepsReferences(Run(ops[..|ops| - 1], known), ops[|ops| - 1], known);
    }
  }

  lemma IdentityKeepsReferences(db: Db, product: nat, input: Identity, known: Known)
    requires ReferencesKnown(db, known) && product in db.products && !IdentityRefused(db, product, input, known)
    ensures ReferencesKnown(IdentitySet(db, product, input), known)
  {
  }

  lemma CreateKeepsReferences(db: Db, input: NewProduct, known: Known)
    requires ReferencesKnown(db, known) && CanCreateProduct(db, input, known)
    ensures ReferencesKnown(ProductCreated(db, input), known)
  {
  }

  lemma StepKeepsReferences(db: Db, op: Op, known: Known)
    requires ReferencesKnown(db, known)
    ensures ReferencesKnown(Step(db, op, known), known)
  {
    match op
    case SetIdentity(product, identity) =>
      if product in db.products && !IdentityRefused(db, product, identity, known) {
        IdentityKeepsReferences(db, product, identity, known);
      }
    case CreateProduct(input) => if CanCreateProduct(db, input, known) { CreateKeepsReferences(db, input, known); }
    case _ =>
  }

  // --- addresses over whole runs -----------------------------------------------------------

  /** A redirect row that is permanent and on. */
  ghost predicate AllPermanent(m: Table) {
    forall a :: a in m ==> m[a].code == 301 && m[a].isActive
  }

  lemma MoveKeepsPermanent(m: Table, from: Path, to: Path)
    requires from != to && AllPermanent(m)
    ensures AllPermanent(ProductMoved(m, from, to)) && m.Keys <= ProductMoved(m, from, to).Keys
  {
    ProductMoveStores(m, from, to);
    forall a | a in ProductMoved(m, from, to)
      ensures ProductMoved(m, from, to)[a].code == 301 && ProductMoved(m, from, to)[a].isActive
    {
      if a != from { assert a in m && SameApartFromTarget(ProductMoved(m, from, to)[a], m[a]); }
    }
  }

  ghost predicate KeepsAddresses(db: Db, db': Db) {
    && AllPermanent(db'.redirects) && db.redirects.Keys <= db'.redirects.Keys
    && forall slug :: db.SlugTaken(slug) ==> db'.SlugTaken(slug) || StorePath(slug) in db'.redirects
  }

  /** Redirects are never removed and stay permanent, and a slug taken before is taken or redirects after. */
  lemma StepKeepsAddresses(db: Db, op: Op, known: Known)
    requires AllPermanent(db.redirects) && db.nextId !in db.products
    ensures KeepsAddresses(db, Step(db, op, known))
  {
    if op.SetIdentity? {
      if op.product in db.products && !IdentityRefused(db, op.product, op.identity, known) {
        IdentityKeepsAddresses(db, op.product, op.identity, known);
      }
    } else {
      forall slug | db.SlugTaken(slug) ensures Step(db, op, known).SlugTaken(slug) {
        SlugStays(db, op, known, slug);
      }
    }
  }

  lemma SlugStays(db: Db, op: Op, known: Known, slug: string)
    requires db.SlugTaken(slug) && !op.SetIdentity? && db.nextId !in db.products
    ensures Step(db, op, known).SlugTaken(slug)
  {
    var p :| p in db.products && db.products[p].slug == slug;
    assert p in Step(db, op, known).products && Step(db, op, known).products[p].slug == slug;
  }

  lemma IdentityKeepsAddresses(db: Db, product: nat, input: Identity, known: Known)
    requires AllPermanent(db.redirects) && product in db.products && !IdentityRefused(db, product, input, known)
    ensures KeepsAddresses(db, Step(db, SetIdentity(product, input), known))
  {
    var db' := Step(db, SetIdentity(product, input), known);
    var was, now := db.products[product].slug, input.slug.GetOr(db.products[product].slug);
    IdentityStores(db, product, input, known);
    if now != was {
      StorePathsDiffer(was, now);
      MoveKeepsPermanent(db.redirects, StorePath(was), StorePath(now));
    }
    forall slug | db.SlugTaken(slug) ensures db'.SlugTaken(slug) || StorePath(slug) in db'.redirects {
      var p :| p in db.products && db.products[p].slug == slug;
      if p != product { assert db'.products[p].slug == slug; } else { assert db'.products[p].slug == now; }
    }
  }

  lemma {:induction false} RunIsPermanent(ops: seq<Op>, known: Known)
    ensures AllPermanent(Run(ops, known).redirects)
  {
    if ops != [] {
      RunIsPermanent(ops[..|ops| - 1], known);
      RunConsistent(ops[..|ops| - 1], known);
      StepKeepsAddresses(Run(ops[..|ops| - 1], known), ops[|ops| - 1], known);
    }
  }

  /**
   * Over every run from nothing: an address a product once had, and none has now, is a
   * redirect, permanent and on.
   */
  lemma {:induction false} GivenUpRedirects(ops: seq<Op>, known: Known, n: nat, slug: string)
    requires n <= |ops| && Run(ops[..n], known).SlugTaken(slug)
    ensures var db := Run(ops, known);
            db.SlugTaken(slug) ||
            (StorePath(slug) in db.redirects && db.redirects[StorePath(slug)].code == 301 && db.redirects[StorePath(slug)].isActive)
    decreases |ops|
  {
    RunIsPermanent(ops, known);
    if n == |ops| {
      assert ops[..n] == ops;
    } else {
      var done := ops[..|ops| - 1];
      assert done[..n] == ops[..n];
      GivenUpRedirects(done, known, n, slug);
      RunIsPermanent(done, known);
      RunConsistent(done, known);
      StepKeepsAddresses(Run(done, known), ops[|ops| - 1], known);
    }
  }

  /** An identity write names a category the product is in exactly when it does not leave an empty one. */
  lemma EmptyPrimarySlipsThrough(db: Db, product: nat, input: Identity, known: Known)
    requires product in db.products && !IdentityRefused(db, product, input, known)
    ensures var p := IdentitySet(db, product, input).products[product];
            (p.primary.Some? ==> p.primary.value in p.categories || p.primary.value == "") &&
            ((p.primary.Some? ==> p.primary.value in p.categories) <==>
             input.primary.GetOr(db.products[product].primary) != Some("") ||
             "" in input.categories.GetOr(db.products[product].categories))
  {
  }

  lemma RunOfTwo(a: Op, b: Op, known: Known)
    ensures Run([a, b], known) == Step(Step(Db(map[], [], map[], 0), a, known), b, known)
  {
    assert [a, b][..1] == [a] && [a][..0] == [];
    assert Run([a], known) == Step(Run([], known), a, known);
  }

  /** From nothing: a product in no category, given the empty id as its primary one. */
  lemma EmptyPrimaryIsReachable(v: NewVariant, slug: string, known: Known)
    ensures var db := Run([CreateProduct(NewProduct(slug, None, [], v)),
                           SetIdentity(0, Identity(None, None, Some(Some("")), None))], known);
            0 in db.products && db.products[0].primary == Some("") && db.products[0].categories == []
  {
    var input := NewProduct(slug, None, [], v);
    var empty := SetIdentity(0, Identity(None, None, Some(Some("")), None));
    RunOfTwo(CreateProduct(input), empty, known);
    FirstProduct(input, known);
    EmptyPrimaryAccepted(Step(Db(map[], [], map[], 0), CreateProduct(input), known), 0, known);
  }

  lemma FirstProduct(input: NewProduct, known: Known)
    requires input.brand.None? && input.categories == []
    ensures var db := Step(Db(map[], [], map[], 0), CreateProduct(input), known);
            0 in db.products && db.products[0].categories == []
  {
    var empty := Db(map[], [], map[], 0);
    assert CanCreateProduct(empty, input, known);
  }

  lemma EmptyPrimaryAccepted(db: Db, product: nat, known: Known)
    requires product in db.products
    ensures var after := Step(db, SetIdentity(product, Identity(None, None, Some(Some("")), None)), known);
            && product in after.products && after.products[product].primary == Some("")
            && after.products[product].categories == db.products[product].categories
  {
  }

  lemma PriceAfterStatus(db: Db, product: nat, status: Status, publishable: bool, now: int)
    requires product in db.products
    ensures StatusSet(db, product, status, publishable, now).products[product].minPrice.None? <==>
      forall i :: 0 <= i < |db.variants| ==> !(db.variants[i].productId == product && status.PUBLISHED?)
  {
    var after := AllInStatus(db.variants, product, status);
    CheapestIsMinimum(after, product);
    assert forall i :: 0 <= i < |after| ==>
      (Sells(after[i], product) <==> db.variants[i].productId == product && status.PUBLISHED?);
    assert forall v :: v in after ==> exists i :: 0 <= i < |after| && after[i] == v;
  }

  /** A product gets a price by publishing it exactly when it has a variant, and loses it on any other status. */
  lemma PublishedPrice(db: Db, product: nat, status: Status, publishable: bool, now: int)
    requires product in db.products
    ensures StatusSet(db, product, status, publishable, now).products[product].minPrice.Some? <==>
      status.PUBLISHED? && exists v :: v in db.variants && v.productId == product
  {
    PriceAfterStatus(db, product, status, publishable, now);
    if exists v :: v in db.variants && v.productId == product {
      var v :| v in db.variants && v.productId == product;
      var i :| 0 <= i < |db.variants| && db.variants[i] == v;
    }
  }
}
