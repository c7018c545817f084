/**
 Matching a parsed line to a product variant: by model code, by alias, by attributes, or by creating the variant.

 The normal form of a text, the similarity of two model names and the canonical key of a variant are functions and are
 left open. Query results come in no particular order: they are sets and maps here, and the loops below take their
 elements in an arbitrary order.
 */
module Matcher {
  import opened Common
  import opened PriceConflicts

  datatype Texts = Texts(norm: Option<string> -> string,
                         similar: (string, Option<string>) -> bool,
                         key: (string, string, Attributes) -> string)

  datatype Attributes = Attributes(code: Option<string>, ram: Option<int>, storage: Option<int>, color: Option<string>,
                                   region: Option<string>, condition: Option<string>)

  datatype Product = Product(brand: string, name: string, active: bool)

  datatype Variant = Variant(product: nat, attributes: Attributes, key: string, active: bool)

  datatype Target = ToProduct(id: nat) | ToVariant(id: nat)

  /** An alias without a source applies to every source. */
  datatype Alias = Alias(normalized: string, source: Option<nat>, target: Target)

  datatype Item = Item(brand: Option<string>, model: Option<string>, modelRaw: Option<string>, attributes: Attributes,
                       price: Option<int>, status: ParseStatus, flags: set<Flag>, confidence: int, source: nat,
                         supplier: nat)

  datatype Catalog = Catalog(products: map<nat, Product>, variants: map<nat, Variant>, aliases: map<nat, Alias>)

  ghost predicate NamesUnique(products: map<nat, Product>) {
    forall p, q | p in products && q in products && p != q ::
      products[p].brand != products[q].brand || products[p].name != products[q].name
  }

  ghost predicate KeysUnique(variants: map<nat, Variant>) {
    forall v, w | v in variants && w in variants && v != w :: variants[v].key != variants[w].key
  }

  /** The constraints of the tables. */
  ghost predicate Valid(c: Catalog) {
    && NamesUnique(c.products) && KeysUnique(c.variants)
    && (forall v | v in c.variants :: c.variants[v].product in c.products)
    && (forall a | a in c.aliases ::
          if c.aliases[a].target.ToProduct? then c.aliases[a].target.id in c.products
          else c.aliases[a].target.id in c.variants)
  }

  // ---------- One item against one variant ----------

  predicate SameBrand(t: Texts, item: Item, product: Product) {
    t.norm(Some(product.brand)) == t.norm(item.brand)
  }

  predicate SameModel(t: Texts, item: Item, product: Product) {
    t.norm(Some(product.name)) == t.norm(item.model)
  }

  predicate SameText(t: Texts, a: Option<string>, b: Option<string>) {
    NonEmpty(a) && t.norm(b) == t.norm(a)
  }

  predicate SameCode(t: Texts, item: Item, variant: Variant) {
    NonEmpty(variant.attributes.code) && SameText(t, item.attributes.code, variant.attributes.code)
  }

  /** In hundredths. */
  function CandidateScore(t: Texts, item: Item, product: Product, variant: Variant): int {
    var a, b := item.attributes, variant.attributes;
    var score := Weight(SameBrand(t, item, product), 16) + Weight(SameModel(t, item, product), 20)
                 + Weight(SameText(t, a.code, b.code), 18)
                 + Weight(a.storage.Some? && a.storage == b.storage, 14) + Weight(a.ram.Some? && a.ram == b.ram, 10)
                 + Weight(SameText(t, a.color, b.color), 8) + Weight(SameText(t, a.region, b.region), 8)
                 + Weight(NonEmpty(a.condition) && a.condition == b.condition, 6);
    if score > 100 then 100 else score
  }

  predicate Fuzzy(t: Texts, item: Item, product: Product) {
    !SameModel(t, item, product) && t.similar(product.name, if NonEmpty(item.model) then item.model else item.modelRaw)
  }

  predicate IsCandidate(t: Texts, item: Item, product: Product, variant: Variant) {
    || SameCode(t, item, variant) || SameBrand(t, item, product) || SameModel(t, item, product)
    || Fuzzy(t, item, product) || CandidateScore(t, item, product, variant) >= 30
  }

  predicate TextsClash(t: Texts, a: Option<string>, b: Option<string>) {
    NonEmpty(a) && NonEmpty(b) && t.norm(b) != t.norm(a)
  }

  predicate NumbersClash(a: Option<int>, b: Option<int>) {
    a.Some? && b.Some? && a != b
  }

  predicate Conflicts(t: Texts, item: Item, product: Product, variant: Variant) {
    var a, b := item.attributes, variant.attributes;
    || (NonEmpty(item.brand) && !SameBrand(t, item, product))
    || (NonEmpty(item.model) && !SameModel(t, item, product))
    || TextsClash(t, a.code, b.code) || NumbersClash(a.ram, b.ram) || NumbersClash(a.storage, b.storage)
    || TextsClash(t, a.color, b.color) || TextsClash(t, a.region, b.region)
    || a.condition != b.condition
  }

  predicate Demands<T(==)>(wanted: Option<T>, present: Option<T>) {
    wanted.Some? ==> present == wanted
  }

  predicate ExactAttributes(t: Texts, item: Item, product: Product, variant: Variant) {
    var a, b := item.attributes, variant.attributes;
    && SameBrand(t, item, product) && SameModel(t, item, product)
    && Demands(a.storage, b.storage) && Demands(a.ram, b.ram) && Demands(a.code, b.code)
    && Demands(a.color, b.color) && Demands(a.region, b.region)
    && a.condition == b.condition
  }

  // ---------- The candidate sets ----------

  /** Some active variant belongs to a product that is not active: the lookup of its product fails. */
  predicate Broken(c: Catalog) {
    exists v | v in c.variants ::
      c.variants[v].active && !(c.variants[v].product in c.products && c.products[c.variants[v].product].active)
  }

  predicate Considered(c: Catalog, v: nat) {
    && v in c.variants && c.variants[v].active
    && c.variants[v].product in c.products && c.products[c.variants[v].product].active
  }

  function ProductOf(c: Catalog, v: nat): Product
    requires v in c.variants && c.variants[v].product in c.products
  {
    c.products[c.variants[v].product]
  }

  function Candidates(t: Texts, c: Catalog, item: Item): set<nat> {
    set v | v in c.variants && Considered(c, v) && IsCandidate(t, item, ProductOf(c, v), c.variants[v])
  }

  function CodeMatches(t: Texts, c: Catalog, item: Item): set<nat> {
    set v | v in Candidates(t, c, item) && SameCode(t, item, c.variants[v])
  }

  function Compatible(t: Texts, c: Catalog, item: Item): set<nat> {
    set v | v in CodeMatches(t, c, item)
            && !Conflicts(t, item, ProductOf(c, v), c.variants[v])
            && NonEmpty(item.brand) && SameBrand(t, item, ProductOf(c, v))
  }

  predicate Applies(t: Texts, alias: Alias, item: Item) {
    alias.normalized == t.norm(item.modelRaw) && (alias.source.None? || alias.source == Some(item.source))
  }

  predicate BrandFits(t: Texts, item: Item, product: Product) {
    NonEmpty(item.brand) ==> SameBrand(t, item, product)
  }

  /** The variants an alias row contributes; inactive ones are not left out here. */
  function TargetsOf(t: Texts, c: Catalog, item: Item, alias: Alias): set<nat> {
    match alias.target
    case ToVariant(v) =>
      if v in c.variants && c.variants[v].product in c.products && BrandFits(t, item, ProductOf(c, v)) then {v} else {}
    case ToProduct(p) =>
      if p in c.products && BrandFits(t, item, c.products[p]) then
        set v | v in c.variants && c.variants[v].product == p && ExactAttributes(t, item, c.products[p], c.variants[v])
      else {}
  }

  function ApplicableAliases(t: Texts, c: Catalog, item: Item): set<nat> {
    set a | a in c.aliases && NonEmpty(item.modelRaw) && Applies(t, c.aliases[a], item)
  }

  ghost predicate NoTarget(t: Texts, c: Catalog, item: Item, rows: set<nat>)
    requires rows <= c.aliases.Keys
  {
    forall a | a in rows :: TargetsOf(t, c, item, c.aliases[a]) == {}
  }

  /** Together the alias rows contribute one entry, for `v`. */
  ghost predicate OnlyTarget(t: Texts, c: Catalog, item: Item, rows: set<nat>, v: nat)
    requires rows <= c.aliases.Keys
  {
    exists a | a in rows ::
      TargetsOf(t, c, item, c.aliases[a]) == {v} && NoTarget(t, c, item, rows - {a})
  }

  function ExactSet(t: Texts, c: Catalog, item: Item): set<nat> {
    set v | v in Candidates(t, c, item) && ExactAttributes(t, item, ProductOf(c, v), c.variants[v])
  }

  function FuzzySet(t: Texts, c: Catalog, item: Item): set<nat> {
    set v | v in Candidates(t, c, item)
            && (Fuzzy(t, item, ProductOf(c, v)) || CandidateScore(t, item, ProductOf(c, v), c.variants[v]) >= 76)
  }

  // ---------- The choice ----------

  predicate Blocked(item: Item) {
    item.status == InConflict || PriceConflict in item.flags || item.price.None? || InvalidPrice in item.flags
    || item.status == Ignored
  }

  predicate AutoCreateAllowed(item: Item) {
    && (item.status == Parsed || item.status == PartlyParsed) && PriceConflict !in item.flags
    && item.brand.Some? && item.model.Some? && item.attributes.storage.Some? && item.price.Some?
    && item.confidence >= 9800 && AmbiguousModel !in item.flags
  }

  datatype Choice = NoMatch | Failure | ByCode(v: nat) | ByAlias(v: nat) | ByAttributes(v: nat) | Create

  ghost predicate Single(s: set<nat>) {
    exists v :: s == {v}
  }

  ghost function The(s: set<nat>): (v: nat)
    requires Single(s)
    ensures s == {v}
  {
    var v :| s == {v};
    v
  }

  ghost function AliasChoice(t: Texts, c: Catalog, item: Item): Option<Choice> {
    var rows := ApplicableAliases(t, c, item);
    if NoTarget(t, c, item, rows) then None
    else if exists v :: OnlyTarget(t, c, item, rows, v) then
      var v :| OnlyTarget(t, c, item, rows, v);
      Some(ByAlias(v))
    else Some(NoMatch)
  }

  /** What the matcher decides, as a function of the catalogue alone; `NoMatch` goes to a human. */
  ghost function Choose(t: Texts, c: Catalog, item: Item): Choice {
    if Blocked(item) then NoMatch
    else if Broken(c) then Failure
    else if CodeMatches(t, c, item) != {} then
      if Single(Compatible(t, c, item)) then ByCode(The(Compatible(t, c, item))) else NoMatch
    else if AliasChoice(t, c, item).Some? then AliasChoice(t, c, item).value
    else if Single(ExactSet(t, c, item)) then ByAttributes(The(ExactSet(t, c, item)))
    else if ExactSet(t, c, item) != {} || FuzzySet(t, c, item) != {} || !AutoCreateAllowed(item) then NoMatch
    else Create
  }

  // ---------- Creating ----------

  predicate IsProduct(c: Catalog, p: nat, brand: string, name: string) {
    p in c.products && c.products[p].brand == brand && c.products[p].name == name
  }

  predicate IsVariant(c: Catalog, v: nat, key: string) {
    v in c.variants && c.variants[v].key == key
  }

  /** An inactive product is found too. */
  ghost function FoundProduct(c: Catalog, brand: string, name: string): (found: Option<nat>)
    ensures found.Some? ==> IsProduct(c, found.value, brand, name)
    ensures found.None? ==> !exists p :: IsProduct(c, p, brand, name)
  {
    if exists p :: IsProduct(c, p, brand, name) then
      var p :| IsProduct(c, p, brand, name);
      Some(p)
    else None
  }

  ghost function FoundVariant(c: Catalog, key: string): (found: Option<nat>)
    ensures found.Some? ==> IsVariant(c, found.value, key)
    ensures found.None? ==> !exists v :: IsVariant(c, v, key)
  {
    if exists v :: IsVariant(c, v, key) then
      var v :| IsVariant(c, v, key);
      Some(v)
    else None
  }

  function KeyFor(t: Texts, item: Item): string
    requires item.brand.Some? && item.model.Some?
  {
    t.key(item.brand.value, item.model.value, item.attributes)
  }

  datatype Creation = Creation(product: nat, variant: nat, newProduct: bool, newVariant: bool, catalog: Catalog)

  /** The product of the item, then its variant, each found or added under an unused number. */
  ghost function Created(t: Texts, c: Catalog, item: Item, p: nat, v: nat): Creation
    requires item.brand.Some? && item.model.Some?
  {
    var product := FoundProduct(c, item.brand.value, item.model.value);
    var variant := FoundVariant(c, KeyFor(t, item));
    var productId := if product.Some? then product.value else p;
    var products :=
      if product.Some? then c.products
      else c.products[p := Product.Product(item.brand.value, item.model.value, true)];
    var variants :=
      if variant.Some? then c.variants
      else c.variants[v := Variant(productId, item.attributes, KeyFor(t, item), true)];
    Creation(productId, if variant.Some? then variant.value else v, product.None?, variant.None?,
             Catalog(products, variants, c.aliases))
  }

  datatype Resolution = Resolution(choice: Choice, variant: Option<nat>, newProduct: bool, newVariant: bool,
                                   catalog: Catalog)

  /** The whole effect of matching an item on the catalogue; `p` and `v` are the next unused numbers. */
  ghost function Resolve(t: Texts, c: Catalog, item: Item, p: nat, v: nat): Resolution {
    var choice := Choose(t, c, item);
    if choice == Create then
      var r := Created(t, c, item, p, v);
      Resolution(choice, Some(r.variant), r.newProduct, r.newVariant, r.catalog)
    else if choice == NoMatch || choice == Failure then Resolution(choice, None, false, false, c)
    else Resolution(choice, Some(choice.v), false, false, c)
  }

  // ---------- Matching again ----------

  predicate Leads(t: Texts, c: Catalog, item: Item, a: nat, product: nat) {
    a in ApplicableAliases(t, c, item) && c.aliases[a].target == ToProduct(product)
  }

  /** Each alias row that leads to a product makes one entry, so two of them are ambiguous for one variant. */
  ghost predicate TwoAliasesLead(t: Texts, c: Catalog, item: Item, product: nat) {
    exists a, b | Leads(t, c, item, a, product) && Leads(t, c, item, b, product) :: a != b
  }

  ghost predicate Unused(c: Catalog, p: nat, v: nat) {
    p !in c.products && v !in c.variants
  }

  lemma CreationKeepsValid(t: Texts, c: Catalog, item: Item, p: nat, v: nat)
    requires Valid(c) && Unused(c, p, v) && item.brand.Some? && item.model.Some?
    ensures Valid(Created(t, c, item, p, v).catalog)
  {
    hide KeyFor, NamesUnique, KeysUnique;
    var r := Created(t, c, item, p, v);
    if r.newProduct {
      NewNameKeepsUnique(c, p, r.catalog.products[p]);
    }
    if r.newVariant {
      NewKeyKeepsUnique(c, v, r.catalog.variants[v]);
    }
  }

  lemma NewNameKeepsUnique(c: Catalog, p: nat, product: Product)
    requires NamesUnique(c.products) && !exists q :: IsProduct(c, q, product.brand, product.name)
    ensures NamesUnique(c.products[p := product])
  {
    assert forall q | q in c.products :: !IsProduct(c, q, product.brand, product.name);
  }

  lemma NewKeyKeepsUnique(c: Catalog, v: nat, variant: Variant)
    requires KeysUnique(c.variants) && !exists w :: IsVariant(c, w, variant.key)
    ensures KeysUnique(c.variants[v := variant])
  {
    assert forall w | w in c.variants :: !IsVariant(c, w, variant.key);
  }

  lemma SameSingle(s: set<nat>, v: nat)
    requires s == {v}
    ensures Single(s) && The(s) == v
  {
  }

  /** The item fits the variant that was made from it. */
  lemma NewVariantFits(t: Texts, c: Catalog, item: Item, p: nat, v: nat)
    requires Valid(c) && Unused(c, p, v) && item.brand.Some? && item.model.Some?
    requires Created(t, c, item, p, v).newVariant
    ensures var r := Created(t, c, item, p, v);
      && r.variant == v && v in r.catalog.variants && r.product in r.catalog.products
      && r.catalog.variants[v].product == r.product && r.catalog.variants[v].active
      && (var product, variant := r.catalog.products[r.product], r.catalog.variants[v];
          && SameBrand(t, item, product) && SameModel(t, item, product)
          && ExactAttributes(t, item, product, variant) && !Conflicts(t, item, product, variant)
          && (SameCode(t, item, variant) <==> NonEmpty(item.attributes.code)))
  {
  }

  /** Everything else in the catalogue is seen as before. */
  lemma OthersAsBefore(t: Texts, c: Catalog, item: Item, p: nat, v: nat)
    requires Valid(c) && Unused(c, p, v) && item.brand.Some? && item.model.Some?
    ensures var r := Created(t, c, item, p, v);
      && (forall q | q in c.products :: q in r.catalog.products && r.catalog.products[q] == c.products[q])
      && r.catalog.aliases == c.aliases
      && (forall w | w in c.variants ::
            w in r.catalog.variants && r.catalog.variants[w] == c.variants[w]
            && c.variants[w].product in c.products && ProductOf(r.catalog, w) == ProductOf(c, w)
            && (Considered(r.catalog, w) <==> Considered(c, w)))
      && (forall w | w in r.catalog.variants :: w in c.variants || (w == v && r.newVariant))
  {
  }

  lemma CandidatesAfter(t: Texts, c: Catalog, item: Item, p: nat, v: nat)
    requires Valid(c) && Unused(c, p, v) && item.brand.Some? && item.model.Some?
    ensures var r := Created(t, c, item, p, v);
      Candidates(t, r.catalog, item) ==
      Candidates(t, c, item) + if r.newVariant && Considered(r.catalog, v) then {v} else {}
  {
  }

  lemma TargetsAfter(t: Texts, c: Catalog, item: Item, p: nat, v: nat, a: nat)
    requires Valid(c) && Unused(c, p, v) && item.brand.Some? && item.model.Some? && a in c.aliases
    ensures var r := Created(t, c, item, p, v);
      TargetsOf(t, r.catalog, item, c.aliases[a]) ==
      TargetsOf(t, c, item, c.aliases[a]) +
      if r.newVariant && c.aliases[a].target == ToProduct(r.product) then {v} else {}
  {
    hide ExactAttributes, KeyFor, SameBrand, Considered, Conflicts, NamesUnique, KeysUnique;
    var r := Created(t, c, item, p, v);
    OthersAsBefore(t, c, item, p, v);
    if r.newVariant {
      NewVariantFits(t, c, item, p, v);
    }
    TargetsGrow(t, c, r.catalog, item, c.aliases[a], v, r.product, r.newVariant);
  }

  lemma TargetsGrow(t: Texts, c: Catalog, d: Catalog, item: Item, alias: Alias, v: nat, product: nat, added: bool)
    requires if alias.target.ToProduct? then alias.target.id in c.products else alias.target.id in c.variants
    requires forall q | q in c.products :: q in d.products && d.products[q] == c.products[q]
    requires forall w | w in c.variants ::
               && w in d.variants && d.variants[w] == c.variants[w] && c.variants[w].product in c.products
    requires forall w | w in d.variants :: w in c.variants || (w == v && added)
    requires added ==>
               && v in d.variants && d.variants[v].product == product && product in d.products && v !in c.variants
               && SameBrand(t, item, d.products[product])
               && ExactAttributes(t, item, d.products[product], d.variants[v])
    ensures TargetsOf(t, d, item, alias) ==
            TargetsOf(t, c, item, alias) + if added && alias.target == ToProduct(product) then {v} else {}
  {
  }

  /** Creating breaks the catalogue exactly when it puts a new variant under an inactive product. */
  lemma CreationBreaksExactlyWhen(t: Texts, c: Catalog, item: Item, p: nat, v: nat)
    requires Valid(c) && Unused(c, p, v) && item.brand.Some? && item.model.Some? && !Broken(c)
    ensures var r := Created(t, c, item, p, v);
      r.product in r.catalog.products
      && (Broken(r.catalog) <==> r.newVariant && !r.catalog.products[r.product].active)
  {
    hide KeyFor;
    var r := Created(t, c, item, p, v);
    OthersAsBefore(t, c, item, p, v);
    if r.newVariant && !r.catalog.products[r.product].active {
      assert v in r.catalog.variants && r.catalog.variants[v].active && r.catalog.variants[v].product == r.product;
    }
  }

  /** What a decision to create says about the catalogue. */
  ghost predicate NothingMatches(t: Texts, c: Catalog, item: Item) {
    && !Blocked(item) && !Broken(c) && AutoCreateAllowed(item)
    && CodeMatches(t, c, item) == {} && NoTarget(t, c, item, ApplicableAliases(t, c, item))
    && ExactSet(t, c, item) == {} && FuzzySet(t, c, item) == {}
  }

  lemma CreateExactlyWhenNothingMatches(t: Texts, c: Catalog, item: Item)
    ensures Choose(t, c, item) == Create <==> NothingMatches(t, c, item)
  {
  }

  lemma SingleHasElement(s: set<nat>)
    ensures Single(s) ==> s != {}
  {
  }

  lemma AgainByCode(t: Texts, c: Catalog, item: Item, p: nat, v: nat)
    requires Valid(c) && Unused(c, p, v) && NothingMatches(t, c, item) && NonEmpty(item.attributes.code)
    requires var r := Created(t, c, item, p, v); r.newVariant && !Broken(r.catalog)
    ensures var r := Created(t, c, item, p, v);
      Choose(t, r.catalog, item) == if NonEmpty(item.brand) then ByCode(v) else NoMatch
  {
    hide CandidateScore, Fuzzy, ExactAttributes, Created, KeyFor, Blocked;
    var r := Created(t, c, item, p, v);
    OthersAsBefore(t, c, item, p, v);
    CandidatesAfter(t, c, item, p, v);
    NewVariantFits(t, c, item, p, v);
    assert CodeMatches(t, r.catalog, item) == CodeMatches(t, c, item) + {v};
    if NonEmpty(item.brand) {
      assert Compatible(t, r.catalog, item) == {v};
      SameSingle(Compatible(t, r.catalog, item), v);
    } else {
      assert Compatible(t, r.catalog, item) == {};
    }
  }

  lemma AgainWithoutCode(t: Texts, c: Catalog, item: Item, p: nat, v: nat)
    requires Valid(c) && Unused(c, p, v) && NothingMatches(t, c, item) && !NonEmpty(item.attributes.code)
    requires var r := Created(t, c, item, p, v); r.newVariant && !Broken(r.catalog)
    ensures var r := Created(t, c, item, p, v);
      if TwoAliasesLead(t, c, item, r.product) then Choose(t, r.catalog, item) == NoMatch
      else Choose(t, r.catalog, item) in {ByAlias(v), ByAttributes(v)}
  {
    hide CandidateScore, Fuzzy, Created, KeyFor, Blocked, ExactAttributes, TwoAliasesLead, AliasChoice;
    var r := Created(t, c, item, p, v);
    OthersAsBefore(t, c, item, p, v);
    CandidatesAfter(t, c, item, p, v);
    NewVariantFits(t, c, item, p, v);
    assert CodeMatches(t, r.catalog, item) == {};
    AliasesAfter(t, c, item, p, v);
    assert Considered(r.catalog, v);
    assert ExactSet(t, r.catalog, item) == {v};
    SameSingle(ExactSet(t, r.catalog, item), v);
  }

  /** The alias rows contribute nothing after a creation, or the new variant once, or the new variant several times. */
  lemma AliasesAfter(t: Texts, c: Catalog, item: Item, p: nat, v: nat)
    requires Valid(c) && Unused(c, p, v) && NothingMatches(t, c, item)
    ensures var r := Created(t, c, item, p, v);
      if !r.newVariant then AliasChoice(t, r.catalog, item) == None
      else if TwoAliasesLead(t, c, item, r.product) then AliasChoice(t, r.catalog, item) == Some(NoMatch)
      else AliasChoice(t, r.catalog, item) in {None, Some(ByAlias(v))}
  {
    hide CandidateScore, Fuzzy, Created, KeyFor, Blocked, ExactAttributes, CodeMatches, ExactSet, FuzzySet, TargetsOf,
      Broken;
    var r := Created(t, c, item, p, v);
    OthersAsBefore(t, c, item, p, v);
    var rows := ApplicableAliases(t, c, item);
    assert ApplicableAliases(t, r.catalog, item) == rows;
    forall a | a in rows
      ensures TargetsOf(t, r.catalog, item, c.aliases[a]) ==
              if r.newVariant && Leads(t, c, item, a, r.product) then {v} else {}
    {
      TargetsAfter(t, c, item, p, v, a);
    }
    if !NoTarget(t, r.catalog, item, rows) {
      var a: nat :| a in rows && TargetsOf(t, r.catalog, item, c.aliases[a]) != {};
      EntriesAfter(t, r.catalog, item, rows, a, v);
    }
  }

  /** The rows of an alias list that contribute one and the same variant: one such row decides, two are ambiguous. */
  lemma EntriesAfter(t: Texts, c: Catalog, item: Item, rows: set<nat>, a: nat, v: nat)
    requires rows <= c.aliases.Keys && a in rows && TargetsOf(t, c, item, c.aliases[a]) == {v}
    requires forall b | b in rows :: TargetsOf(t, c, item, c.aliases[b]) in {{}, {v}}
    ensures !NoTarget(t, c, item, rows)
    ensures forall w: nat | OnlyTarget(t, c, item, rows, w) :: w == v
    ensures OnlyTarget(t, c, item, rows, v)
            <==> forall b | b in rows && TargetsOf(t, c, item, c.aliases[b]) != {} :: b == a
  {
    hide TargetsOf;
    forall w: nat | OnlyTarget(t, c, item, rows, w)
      ensures w == v
      ensures forall b | b in rows && TargetsOf(t, c, item, c.aliases[b]) != {} :: b == a
    {
      var one :| one in rows && TargetsOf(t, c, item, c.aliases[one]) == {w} && NoTarget(t, c, item, rows - {one});
      assert forall b | b in rows && b != one :: b in rows - {one};
      assert one == a;
      assert w in {v};
    }
  }

  /** A creation that found its variant leaves the decision at creating, and then finds the same rows. */
  lemma AgainWithoutNewVariant(t: Texts, c: Catalog, item: Item, p: nat, v: nat)
    requires Valid(c) && Unused(c, p, v) && NothingMatches(t, c, item)
    requires !Created(t, c, item, p, v).newVariant
    ensures Choose(t, Created(t, c, item, p, v).catalog, item) == Create
  {
    hide CandidateScore, Fuzzy, Created, KeyFor, Blocked, ExactAttributes, TargetsOf, AliasChoice;
    var r := Created(t, c, item, p, v);
    OthersAsBefore(t, c, item, p, v);
    CandidatesAfter(t, c, item, p, v);
    AliasesAfter(t, c, item, p, v);
    CreationBreaksExactlyWhen(t, c, item, p, v);
    assert CodeMatches(t, r.catalog, item) == {};
    assert ExactSet(t, r.catalog, item) == {};
    assert FuzzySet(t, r.catalog, item) == {};
    SingleHasElement(ExactSet(t, r.catalog, item));
  }

  /** What was just created is found the next time. */
  lemma CreatedIsFound(t: Texts, c: Catalog, item: Item, p: nat, v: nat, p2: nat, v2: nat)
    requires Valid(c) && Unused(c, p, v) && item.brand.Some? && item.model.Some?
    ensures var r := Created(t, c, item, p, v);
      Created(t, r.catalog, item, p2, v2) == Creation(r.product, r.variant, false, false, r.catalog)
  {
    hide KeyFor;
    var r := Created(t, c, item, p, v);
    CreationKeepsValid(t, c, item, p, v);
    assert IsProduct(r.catalog, r.product, item.brand.value, item.model.value);
    assert IsVariant(r.catalog, r.variant, KeyFor(t, item));
    FoundIsUnique(r.catalog, r.product, item.brand.value, item.model.value, r.variant, KeyFor(t, item));
  }

  lemma FoundIsUnique(c: Catalog, p: nat, brand: string, name: string, v: nat, key: string)
    requires Valid(c) && IsProduct(c, p, brand, name) && IsVariant(c, v, key)
    ensures FoundProduct(c, brand, name) == Some(p) && FoundVariant(c, key) == Some(v)
  {
  }

  ghost predicate SameAgain(first: Resolution, again: Resolution) {
    && again.variant == first.variant && !again.newProduct && !again.newVariant
    && again.catalog == first.catalog
  }

  /** The variant just made for the item is not found again: its product is not active, so that every lookup fails; or
      it has a model code, but with the empty text as brand nothing can vouch for it; or it has none, and two alias rows
      lead to its product. */
  ghost predicate NotFoundAgain(t: Texts, c: Catalog, item: Item, first: Resolution) {
    && first.newVariant && first.variant.Some? && first.variant.value in first.catalog.variants
    && (var product := first.catalog.variants[first.variant.value].product;
        || !(product in first.catalog.products && first.catalog.products[product].active)
        || if NonEmpty(item.attributes.code) then !NonEmpty(item.brand) else TwoAliasesLead(t, c, item, product))
  }

  /** Matching an item again right after it got a variant gives the same variant and creates nothing, exactly unless
      the variant is new and not found again. */
  lemma RematchIsStableExactlyWhen(t: Texts, c: Catalog, item: Item, p: nat, v: nat, p2: nat, v2: nat)
    requires Valid(c) && Unused(c, p, v) && Resolve(t, c, item, p, v).variant.Some?
    ensures var first := Resolve(t, c, item, p, v);
      SameAgain(first, Resolve(t, first.catalog, item, p2, v2)) <==> !NotFoundAgain(t, c, item, first)
  {
    hide Choose, Created, Broken, NothingMatches, TwoAliasesLead;
    if Choose(t, c, item) == Create {
      CreateExactlyWhenNothingMatches(t, c, item);
      NothingMatchesIsNamed(t, c, item);
      var r := Created(t, c, item, p, v);
      CreationBreaksExactlyWhen(t, c, item, p, v);
      if !r.newVariant {
        AgainWithoutNewVariant(t, c, item, p, v);
        CreatedIsFound(t, c, item, p, v, p2, v2);
      } else {
        NewVariantFits(t, c, item, p, v);
        if Broken(r.catalog) {
          BrokenMeansFailure(t, r.catalog, item);
        } else if NonEmpty(item.attributes.code) {
          AgainByCode(t, c, item, p, v);
        } else {
          AgainWithoutCode(t, c, item, p, v);
        }
      }
    }
  }

  lemma BrokenMeansFailure(t: Texts, c: Catalog, item: Item)
    requires Broken(c)
    ensures Choose(t, c, item) in {NoMatch, Failure}
  {
  }

  lemma NothingMatchesIsNamed(t: Texts, c: Catalog, item: Item)
    requires NothingMatches(t, c, item)
    ensures item.brand.Some? && item.model.Some? && !Broken(c)
  {
  }

  /** An item that creates a variant under an inactive product stops the matching of every item that is not blocked. */
  lemma InactiveProductStopsMatching(t: Texts, c: Catalog, item: Item, p: nat, v: nat, other: Item)
    requires Valid(c) && Unused(c, p, v) && Choose(t, c, item) == Create && !Blocked(other)
    ensures var r := Resolve(t, c, item, p, v);
      Choose(t, r.catalog, other) == Failure <==>
        r.newVariant && !r.catalog.products[Created(t, c, item, p, v).product].active
  {
    hide CodeMatches, Compatible, ExactSet, FuzzySet, AliasChoice, NoTarget, ApplicableAliases, Blocked, Created,
      Broken;
    CreateExactlyWhenNothingMatches(t, c, item);
    CreationBreaksExactlyWhen(t, c, item, p, v);
    AliasChoiceIsNoFailure(t, Created(t, c, item, p, v).catalog, other);
  }

  lemma AliasChoiceIsNoFailure(t: Texts, c: Catalog, item: Item)
    ensures AliasChoice(t, c, item) != Some(Failure)
  {
  }

  // ---------- The matcher ----------

  lemma SingleMeansOne(s: set<nat>)
    ensures Single(s) <==> |s| == 1
  {
    if |s| == 1 {
      var v := AnElement(s);
      assert s == {v} by {
        if w :| w in s && w != v {
          TwoElements(s, v, w);
        }
      }
    }
  }

  /** The list of alias entries, as far as its length matters. */
  ghost predicate Entries(t: Texts, c: Catalog, item: Item, rows: set<nat>, entries: seq<nat>)
    requires rows <= c.aliases.Keys
  {
    && (entries == [] <==> NoTarget(t, c, item, rows))
    && (|entries| == 1 ==> OnlyTarget(t, c, item, rows, entries[0]))
    && (|entries| > 1 ==> forall v: nat :: !OnlyTarget(t, c, item, rows, v))
  }

  lemma EntriesExtend(t: Texts, c: Catalog, item: Item, rows: set<nat>, entries: seq<nat>, a: nat, more: seq<nat>)
    requires rows <= c.aliases.Keys && a in c.aliases && a !in rows && Entries(t, c, item, rows, entries)
    requires |more| == |TargetsOf(t, c, item, c.aliases[a])|
    requires forall v | v in more :: v in TargetsOf(t, c, item, c.aliases[a])
    ensures Entries(t, c, item, rows + {a}, entries + more)
  {
    hide TargetsOf;
    var targets, all := TargetsOf(t, c, item, c.aliases[a]), rows + {a};
    if more == [] {
      assert targets == {} && entries + more == entries;
      NothingAdded(t, c, item, rows, a);
    } else {
      assert targets != {} && a in all && all - {a} == rows;
      if entries == [] && |more| == 1 {
        assert entries + more == more && more[0] in targets;
        OnlyElement(targets, more[0]);
      } else {
        assert forall b | b in all && b != a :: a in all - {b};
      }
    }
  }

  lemma NothingAdded(t: Texts, c: Catalog, item: Item, rows: set<nat>, a: nat)
    requires rows <= c.aliases.Keys && a in c.aliases && a !in rows && TargetsOf(t, c, item, c.aliases[a]) == {}
    ensures NoTarget(t, c, item, rows + {a}) <==> NoTarget(t, c, item, rows)
    ensures forall v: nat :: OnlyTarget(t, c, item, rows + {a}, v) <==> OnlyTarget(t, c, item, rows, v)
  {
  }

  lemma OnlyElement(s: set<nat>, v: nat)
    requires |s| == 1 && v in s
    ensures s == {v}
  {
    if w :| w in s && w != v {
      TwoElements(s, v, w);
    }
  }

  method ListOf(s: set<nat>) returns (list: seq<nat>)
    ensures |list| == |s| && forall v | v in list :: v in s
  {
    list := [];
    var todo := s;
    while todo != {}
      invariant todo <= s && |list| + |todo| == |s| && forall v | v in list :: v in s
    {
      var v: nat :| v in todo;
      todo := todo - {v};
      list := list + [v];
    }
  }

  class Service {
    const t: Texts
    var products: map<nat, Product>
    var variants: map<nat, Variant>
    var aliases: map<nat, Alias>
    var offers: set<(nat, nat)>
    var nextProduct: nat
    var nextVariant: nat

    constructor (t: Texts)
      ensures Consistent() && Contents() == Catalog(map[], map[], map[]) && this.t == t
    {
      this.t := t;
      products, variants, aliases, offers, nextProduct, nextVariant := map[], map[], map[], {}, 0, 0;
    }

    function Contents(): Catalog
      reads this
    {
      Catalog(products, variants, aliases)
    }

    ghost predicate Consistent()
      reads this
    {
      && Valid(Contents())
      && (forall p | p in products :: p < nextProduct)
      && (forall v | v in variants :: v < nextVariant)
    }

    method CollectCandidates(item: Item) returns (failed: bool, candidates: set<nat>)
      ensures failed <==> Broken(Contents())
      ensures !failed ==> candidates == Candidates(t, Contents(), item)
    {
      hide IsCandidate;
      failed, candidates := false, {};
      var todo := variants.Keys;
      while todo != {}
        invariant todo <= variants.Keys
        invariant forall v | v in variants && v !in todo ::
                    variants[v].active ==> Considered(Contents(), v)
        invariant forall v :: v in candidates <==> v in Candidates(t, Contents(), item) && v !in todo
      {
        var v: nat :| v in todo;
        todo := todo - {v};
        var variant := variants[v];
        if variant.active {
          if variant.product !in products || !products[variant.product].active {
            return true, {};
          }
          if IsCandidate(t, item, products[variant.product], variant) {
            candidates := candidates + {v};
          }
        }
      }
    }

    method TryModelCodeExact(item: Item, candidates: set<nat>) returns (choice: Option<Choice>)
      requires candidates == Candidates(t, Contents(), item)
      ensures choice ==
              if CodeMatches(t, Contents(), item) == {} then None
              else if Single(Compatible(t, Contents(), item)) then Some(ByCode(The(Compatible(t, Contents(), item))))
              else Some(NoMatch)
    {
      hide Conflicts, IsCandidate;
      var codeMatches := set v | v in candidates && SameCode(t, item, variants[v]);
      if codeMatches == {} {
        return None;
      }
      var compatible: set<nat> := {};
      var todo := codeMatches;
      while todo != {}
        invariant todo <= codeMatches
        invariant forall v :: v in compatible <==> v in Compatible(t, Contents(), item) && v !in todo
      {
        var v: nat :| v in todo;
        todo := todo - {v};
        var product := products[variants[v].product];
        if !Conflicts(t, item, product, variants[v]) && NonEmpty(item.brand) && SameBrand(t, item, product) {
          compatible := compatible + {v};
        }
      }
      assert compatible == Compatible(t, Contents(), item);
      SingleMeansOne(compatible);
      if |compatible| == 1 {
        var v: nat :| v in compatible;
        return Some(ByCode(v));
      }
      choice := Some(NoMatch);
    }

    method AliasTargets(item: Item, alias: Alias) returns (targets: set<nat>)
      ensures targets == TargetsOf(t, Contents(), item, alias)
    {
      hide ExactAttributes;
      targets := {};
      if alias.target.ToVariant? {
        var v := alias.target.id;
        if v in variants && variants[v].product in products && BrandFits(t, item, products[variants[v].product]) {
          targets := {v};
        }
      } else {
        var p := alias.target.id;
        if p in products && BrandFits(t, item, products[p]) {
          targets := set v | v in variants && variants[v].product == p
                             && ExactAttributes(t, item, products[p], variants[v]);
        }
      }
    }

    method TryAliasExact(item: Item) returns (choice: Option<Choice>)
      ensures choice == AliasChoice(t, Contents(), item)
    {
      hide TargetsOf;
      ghost var all := ApplicableAliases(t, Contents(), item);
      if !NonEmpty(item.modelRaw) {
        return None;
      }
      var rows := set a | a in aliases && Applies(t, aliases[a], item);
      assert rows == all;
      var candidates: seq<nat> := [];
      var todo := rows;
      while todo != {}
        invariant todo <= rows && rows <= aliases.Keys
        invariant Entries(t, Contents(), item, rows - todo, candidates)
      {
        var a: nat :| a in todo;
        var targets := AliasTargets(item, aliases[a]);
        var list := ListOf(targets);
        EntriesExtend(t, Contents(), item, rows - todo, candidates, a, list);
        assert rows - (todo - {a}) == rows - todo + {a};
        candidates := candidates + list;
        todo := todo - {a};
      }
      assert rows - todo == rows;
      if |candidates| == 1 {
        OnlyTargetIsUnique(t, Contents(), item, rows, candidates[0]);
        return Some(ByAlias(candidates[0]));
      }
      choice := if |candidates| > 1 then Some(NoMatch) else None;
    }

    method GetOrCreateProduct(item: Item) returns (p: nat, created: bool)
      requires Consistent() && item.brand.Some? && item.model.Some?
      modifies this`products, this`nextProduct
      ensures var found := FoundProduct(old(Contents()), item.brand.value, item.model.value);
        && created == found.None?
        && p == (if created then old(nextProduct) else found.value)
        && nextProduct == old(nextProduct) + (if created then 1 else 0)
        && products == if created then
                         old(products)[p := Product.Product(item.brand.value, item.model.value, true)]
                       else old(products)
    {
      if q: nat :| q in products && IsProduct(Contents(), q, item.brand.value, item.model.value) {
        return q, false;
      }
      p, created := nextProduct, true;
      products := products[p := Product.Product(item.brand.value, item.model.value, true)];
      nextProduct := nextProduct + 1;
    }

    method GetOrCreateVariant(item: Item, product: nat) returns (v: nat, created: bool)
      requires KeysUnique(variants) && item.brand.Some? && item.model.Some?
      modifies this`variants, this`nextVariant
      ensures var found := FoundVariant(old(Contents()), KeyFor(t, item));
        && created == found.None?
        && v == (if created then old(nextVariant) else found.value)
        && nextVariant == old(nextVariant) + (if created then 1 else 0)
        && variants == if created then
                         old(variants)[v := Variant.Variant(product, item.attributes, KeyFor(t, item), true)]
                       else old(variants)
    {
      var key := t.key(item.brand.value, item.model.value, item.attributes);
      if w: nat :| w in variants && IsVariant(Contents(), w, key) {
        return w, false;
      }
      v, created := nextVariant, true;
      variants := variants[v := Variant.Variant(product, item.attributes, key, true)];
      nextVariant := nextVariant + 1;
    }

    method AutoCreate(item: Item) returns (v: nat, newProduct: bool, newVariant: bool)
      requires Consistent() && item.brand.Some? && item.model.Some?
      modifies this`products, this`variants, this`nextProduct, this`nextVariant
      ensures var r := Created(t, old(Contents()), item, old(nextProduct), old(nextVariant));
        && Contents() == r.catalog && v == r.variant && newProduct == r.newProduct && newVariant == r.newVariant
      ensures Consistent()
    {
      hide KeyFor, NamesUnique, KeysUnique;
      CreationKeepsValid(t, Contents(), item, nextProduct, nextVariant);
      ghost var before := Contents();
      var p;
      p, newProduct := GetOrCreateProduct(item);
      SameVariantFound(before, Contents(), KeyFor(t, item));
      v, newVariant := GetOrCreateVariant(item, p);
    }

    /** Records the offer of the item's supplier for the variant. */
    method FinalizeMatch(item: Item, v: nat) returns (offerCreated: bool)
      modifies this`offers
      ensures offerCreated <==> (item.supplier, v) !in old(offers)
      ensures offers == old(offers) + {(item.supplier, v)}
    {
      offerCreated := (item.supplier, v) !in offers;
      offers := offers + {(item.supplier, v)};
    }

    /** The decision: the branches in the order of the program. */
    method Decide(item: Item) returns (choice: Choice)
      ensures choice == Choose(t, Contents(), item)
    {
      hide ExactAttributes, CandidateScore, Fuzzy, AliasChoice, Compatible, CodeMatches, Broken, Blocked;
      if Blocked(item) {
        return NoMatch;
      }
      var failed, candidates := CollectCandidates(item);
      if failed {
        return Failure;
      }
      var byCode := TryModelCodeExact(item, candidates);
      if byCode.Some? {
        return byCode.value;
      }
      var byAlias := TryAliasExact(item);
      if byAlias.Some? {
        return byAlias.value;
      }
      var exact := set v | v in candidates && ExactAttributes(t, item, ProductOf(Contents(), v), variants[v]);
      assert exact == ExactSet(t, Contents(), item);
      SingleMeansOne(exact);
      if |exact| == 1 {
        var v: nat :| v in exact;
        return ByAttributes(v);
      }
      if exact != {} {
        return NoMatch;
      }
      var fuzzy := set v | v in candidates
                           && (Fuzzy(t, item, ProductOf(Contents(), v))
                               || CandidateScore(t, item, ProductOf(Contents(), v), variants[v]) >= 76);
      assert fuzzy == FuzzySet(t, Contents(), item);
      if fuzzy != {} || !AutoCreateAllowed(item) {
        return NoMatch;
      }
      choice := Create;
    }

    method MatchLoadedItem(item: Item)
      returns (choice: Choice, matched: Option<nat>, newProduct: bool, newVariant: bool, offerCreated: bool)
      requires Consistent()
      modifies this
      ensures Resolution(choice, matched, newProduct, newVariant, Contents())
              == Resolve(t, old(Contents()), item, old(nextProduct), old(nextVariant))
      ensures Consistent()
      ensures offers == old(offers) + if matched.Some? then {(item.supplier, matched.value)} else {}
      ensures offerCreated <==> matched.Some? && (item.supplier, matched.value) !in old(offers)
    {
      hide Choose, Created, AutoCreateAllowed, NothingMatches;
      choice := Decide(item);
      matched, newProduct, newVariant, offerCreated := None, false, false, false;
      if choice == NoMatch || choice == Failure {
        return;
      }
      var v;
      if choice == Create {
        CreateExactlyWhenNothingMatches(t, Contents(), item);
        NothingMatchesIsNamed(t, Contents(), item);
        v, newProduct, newVariant := AutoCreate(item);
      } else {
        v := choice.v;
      }
      offerCreated := FinalizeMatch(item, v);
      matched := Some(v);
    }
  }

  lemma OnlyTargetIsUnique(t: Texts, c: Catalog, item: Item, rows: set<nat>, v: nat)
    requires rows <= c.aliases.Keys && OnlyTarget(t, c, item, rows, v)
    ensures !NoTarget(t, c, item, rows)
    ensures forall w: nat | OnlyTarget(t, c, item, rows, w) :: w == v
  {
  }

  lemma SameVariantFound(c: Catalog, d: Catalog, key: string)
    requires KeysUnique(c.variants) && c.variants == d.variants
    ensures FoundVariant(c, key) == FoundVariant(d, key)
  {
    if v :| IsVariant(c, v, key) {
      assert IsVariant(d, v, key);
    }
    if v :| IsVariant(d, v, key) {
      assert IsVariant(c, v, key);
    }
  }

  /** What a stored item takes over from its parsed line. */
  predicate MadeFrom(item: Item, line: Line) {
    var f, a := line.fields, item.attributes;
    && item.status == line.status && item.flags == (set g | g in line.flags) && item.confidence == line.confidence
    && item.brand == f.brand && item.model == f.model && item.price == f.price
    && a.code == f.code && a.storage == f.storage && a.color == f.color && a.region == f.region
  }

  /** A line that contradicts another one of its text never gets a variant, an offer or a place in the catalogue. */
  lemma ContradictedLinesAreNotMatched(t: Texts, c: Catalog, item: Item, p: nat, v: nat,
                                       reader: Reader, text: seq<string>, i: nat)
    requires reader.ReadsSingleLines() && i < |text|
    ensures Contradicted(Result(reader, text), i) && MadeFrom(item, Result(reader, text)[i]) ==>
            Resolve(t, c, item, p, v) == Resolution(NoMatch, None, false, false, c)
  {
    ConflictExactlyWhenContradicted(reader, text, i);
  }

  /** The confidence of a parsed line is its score, and without brand or model that is too low to create anything. */
  lemma ParsedItemsAreNamed(item: Item, reader: Reader, text: seq<string>, i: nat)
    requires i < |text| && MadeFrom(item, Result(reader, text)[i]) && AutoCreateAllowed(item)
    ensures NonEmpty(item.brand) && NonEmpty(item.model)
  {
    hide FirstPass, KeyOrder, Conflicting, EvidenceAt, Penalties;
  }

  /** Matching the item of a parsed line again right after it got a variant gives the same variant and creates nothing,
      exactly unless the variant is new and its product is not active, or it has no model code and two alias rows lead
      to its product. */
  lemma ParsedRematchIsStableExactlyWhen(t: Texts, c: Catalog, item: Item, p: nat, v: nat, p2: nat, v2: nat,
                                         reader: Reader, text: seq<string>, i: nat)
    requires Valid(c) && Unused(c, p, v) && i < |text| && Resolve(t, c, item, p, v).variant.Some?
    ensures MadeFrom(item, Result(reader, text)[i]) ==>
              var first := Resolve(t, c, item, p, v);
              && (first.newVariant ==>
                    && first.variant.value in first.catalog.variants
                    && first.catalog.variants[first.variant.value].product in first.catalog.products)
              && (SameAgain(first, Resolve(t, first.catalog, item, p2, v2))
                  <==> !(first.newVariant
                         && (var product := first.catalog.variants[first.variant.value].product;
                             || !first.catalog.products[product].active
                             || (!NonEmpty(item.attributes.code) && TwoAliasesLead(t, c, item, product)))))
  {
    hide Choose, Created, Broken, NothingMatches, TwoAliasesLead, MadeFrom, Result, AutoCreateAllowed;
    RematchIsStableExactlyWhen(t, c, item, p, v, p2, v2);
    if MadeFrom(item, Result(reader, text)[i]) && Choose(t, c, item) == Create {
      CreateExactlyWhenNothingMatches(t, c, item);
      CreationIsAllowed(t, c, item);
      ParsedItemsAreNamed(item, reader, text, i);
      if Created(t, c, item, p, v).newVariant {
        NewVariantFits(t, c, item, p, v);
      }
    }
  }

  lemma CreationIsAllowed(t: Texts, c: Catalog, item: Item)
    requires NothingMatches(t, c, item)
    ensures AutoCreateAllowed(item)
  {
  }
}
