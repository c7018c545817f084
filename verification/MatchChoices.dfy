/**
 What an item is matched to, said in the fields of the item, the products, the variants and the alias rows: one theorem
 for each way of matching, each an equivalence, so that together they leave `NoMatch`, a review, for everything else.
 */
module MatchChoices {
  import opened Common
  import opened Matcher
  import opened PriceConflicts
  import opened PriceLines

  /** Nothing keeps the item from being matched: it is priced, without conflict, and not ignored. */
  ghost predicate Matchable(item: Item) {
    item.price.Some? && item.status !in {InConflict, Ignored} && item.flags !! {PriceConflict, InvalidPrice}
  }

  /** Every active variant has its product among the active ones. */
  ghost predicate Unbroken(c: Catalog) {
    forall v | v in c.variants && c.variants[v].active ::
      c.variants[v].product in c.products && c.products[c.variants[v].product].active
  }

  ghost predicate Offered(c: Catalog, v: nat) {
    && v in c.variants && c.variants[v].active
    && c.variants[v].product in c.products && c.products[c.variants[v].product].active
  }

  ghost predicate SameBrandAndName(t: Texts, item: Item, product: Product) {
    t.norm(Some(product.brand)) == t.norm(item.brand) && t.norm(Some(product.name)) == t.norm(item.model)
  }

  /** Whatever the item gives is the variant's own, and the conditions agree. */
  ghost predicate Fits(t: Texts, item: Item, product: Product, variant: Variant) {
    var a, b := item.attributes, variant.attributes;
    && SameBrandAndName(t, item, product)
    && (a.storage.Some? ==> b.storage == a.storage)
    && (a.ram.Some? ==> b.ram == a.ram)
    && (a.code.Some? ==> b.code == a.code)
    && (a.color.Some? ==> b.color == a.color)
    && (a.region.Some? ==> b.region == a.region)
    && a.condition == b.condition
  }

  ghost predicate CodeAgrees(t: Texts, item: Item, variant: Variant) {
    var a, b := item.attributes.code, variant.attributes.code;
    NonEmpty(a) && NonEmpty(b) && t.norm(a) == t.norm(b)
  }

  ghost predicate NoClash(t: Texts, a: Option<string>, b: Option<string>) {
    NonEmpty(a) && NonEmpty(b) ==> t.norm(a) == t.norm(b)
  }

  /** The item names the product's brand, and no field that both sides give differs. */
  ghost predicate Compatible(t: Texts, item: Item, product: Product, variant: Variant) {
    var a, b := item.attributes, variant.attributes;
    && NonEmpty(item.brand) && t.norm(Some(product.brand)) == t.norm(item.brand)
    && (NonEmpty(item.model) ==> t.norm(Some(product.name)) == t.norm(item.model))
    && NoClash(t, a.code, b.code) && NoClash(t, a.color, b.color) && NoClash(t, a.region, b.region)
    && (a.ram.Some? && b.ram.Some? ==> a.ram == b.ram)
    && (a.storage.Some? && b.storage.Some? ==> a.storage == b.storage)
    && a.condition == b.condition
  }

  /** Alias row `a` leads from the item's model text to the variant: by naming it, if the brand does not speak against
      it, or by naming its product, if the variant fits. */
  ghost predicate Leads(t: Texts, c: Catalog, item: Item, a: nat, v: nat) {
    && a in c.aliases && v in c.variants && c.variants[v].product in c.products
    && NonEmpty(item.modelRaw) && c.aliases[a].normalized == t.norm(item.modelRaw)
    && c.aliases[a].source in {None, Some(item.source)}
    && var product := c.products[c.variants[v].product];
       match c.aliases[a].target
       case ToVariant(w) => w == v && (NonEmpty(item.brand) ==> t.norm(Some(product.brand)) == t.norm(item.brand))
       case ToProduct(p) => p == c.variants[v].product && Fits(t, item, product, c.variants[v])
  }

  ghost predicate CodeKnown(t: Texts, c: Catalog, item: Item) {
    exists w :: Offered(c, w) && CodeAgrees(t, item, c.variants[w])
  }

  ghost predicate AliasKnown(t: Texts, c: Catalog, item: Item) {
    exists a, w :: Leads(t, c, item, a, w)
  }

  ghost predicate FitsOffered(t: Texts, c: Catalog, item: Item, v: nat) {
    Offered(c, v) && Fits(t, item, c.products[c.variants[v].product], c.variants[v])
  }

  ghost predicate CodeFits(t: Texts, c: Catalog, item: Item, v: nat) {
    && Offered(c, v) && CodeAgrees(t, item, c.variants[v])
    && Compatible(t, item, c.products[c.variants[v].product], c.variants[v])
  }

  /** The name is similar without being the same, or the fields that agree are worth 76 of 100 points. */
  ghost predicate TooSimilar(t: Texts, item: Item, product: Product, variant: Variant) {
    var a, b := item.attributes, variant.attributes;
    var name := if NonEmpty(item.model) then item.model else item.modelRaw;
    || (t.norm(Some(product.name)) != t.norm(item.model) && t.similar(product.name, name))
    || 76 <= Points(t.norm(Some(product.brand)) == t.norm(item.brand), 16)
             + Points(t.norm(Some(product.name)) == t.norm(item.model), 20)
             + Points(NonEmpty(a.code) && t.norm(b.code) == t.norm(a.code), 18)
             + Points(a.storage.Some? && b.storage == a.storage, 14) + Points(a.ram.Some? && b.ram == a.ram, 10)
             + Points(NonEmpty(a.color) && t.norm(b.color) == t.norm(a.color), 8)
             + Points(NonEmpty(a.region) && t.norm(b.region) == t.norm(a.region), 8)
             + Points(NonEmpty(a.condition) && b.condition == a.condition, 6)
  }

  /** The item says enough, and surely enough, to make a variant of it. */
  ghost predicate Creatable(item: Item) {
    && item.brand.Some? && item.model.Some? && item.attributes.storage.Some? && AmbiguousModel !in item.flags
    && item.status in {Parsed, PartlyParsed} && 9800 <= item.confidence
  }

  // ---------- The ways of matching ----------

  lemma FailureExactlyWhen(t: Texts, c: Catalog, item: Item)
    ensures Choose(t, c, item) == Failure <==> Matchable(item) && !Unbroken(c)
  {
    hide CodeMatches, ExactSet, FuzzySet, AutoCreateAllowed, Matcher.Compatible, AliasChoice;
    AliasChoiceIsNoFailure(t, c, item);
    MatchableMeansNotBlocked(c, item);
  }

  /** By model code: the one offered variant with the item's code that speaks against nothing the item gives. */
  lemma ByCodeExactlyWhen(t: Texts, c: Catalog, item: Item, v: nat)
    ensures Choose(t, c, item) == ByCode(v) <==>
            && Matchable(item) && Unbroken(c)
            && CodeFits(t, c, item, v) && forall w | CodeFits(t, c, item, w) :: w == v
  {
    hide ExactSet, FuzzySet, AutoCreateAllowed, AliasChoice, Blocked, Broken, Matchable, Unbroken, CodeFits;
    MatchableMeansNotBlocked(c, item);
    CodeSets(t, c, item);
    AliasChoiceIsByAlias(t, c, item);
    SingleOf(Matcher.Compatible(t, c, item), v);
    if CodeFits(t, c, item, v) {
      assert v in CodeMatches(t, c, item);
    }
  }

  /** By alias: no offered variant has the item's code, and all alias rows together lead to the variant once. */
  lemma ByAliasExactlyWhen(t: Texts, c: Catalog, item: Item, v: nat)
    ensures Choose(t, c, item) == ByAlias(v) <==>
            && Matchable(item) && Unbroken(c) && !CodeKnown(t, c, item)
            && exists a :: Leads(t, c, item, a, v) && forall b, w | Leads(t, c, item, b, w) :: b == a && w == v
  {
    hide ExactSet, FuzzySet, AutoCreateAllowed, Blocked, Broken, Matchable, Unbroken, Leads, CodeMatches, CodeKnown,
      Matcher.Compatible;
    MatchableMeansNotBlocked(c, item);
    CodeKnownMeansMatches(t, c, item);
    AliasDecides(t, c, item, v);
  }

  /** By attributes: neither code nor alias says anything, and the variant is the only offered one that fits. */
  lemma ByAttributesExactlyWhen(t: Texts, c: Catalog, item: Item, v: nat)
    ensures Choose(t, c, item) == ByAttributes(v) <==>
            && Matchable(item) && Unbroken(c) && !CodeKnown(t, c, item) && !AliasKnown(t, c, item)
            && FitsOffered(t, c, item, v) && forall w | FitsOffered(t, c, item, w) :: w == v
  {
    hide FuzzySet, AutoCreateAllowed, Blocked, Broken, Matchable, Unbroken, CodeMatches, CodeKnown, AliasKnown,
      AliasChoice, ExactSet, FitsOffered, Matcher.Compatible;
    MatchableMeansNotBlocked(c, item);
    CodeKnownMeansMatches(t, c, item);
    AliasKnownMeansChoice(t, c, item);
    AliasChoiceIsByAlias(t, c, item);
    ExactSetIsFitting(t, c, item);
    SingleOf(ExactSet(t, c, item), v);
  }

  /** A variant is created: nothing matches in these ways, no offered variant is too similar, and the item is sure. */
  lemma CreateExactlyWhen(t: Texts, c: Catalog, item: Item)
    ensures Choose(t, c, item) == Create <==>
            && Matchable(item) && Unbroken(c) && !CodeKnown(t, c, item) && !AliasKnown(t, c, item)
            && (forall w | Offered(c, w) ::
                  && !Fits(t, item, c.products[c.variants[w].product], c.variants[w])
                  && !TooSimilar(t, item, c.products[c.variants[w].product], c.variants[w]))
            && Creatable(item)
  {
    hide Broken, Unbroken, CodeMatches, CodeKnown, AliasKnown, AliasChoice, ExactSet, FuzzySet, Fits, TooSimilar,
      Matcher.Compatible;
    MatchableMeansNotBlocked(c, item);
    CodeKnownMeansMatches(t, c, item);
    AliasKnownMeansChoice(t, c, item);
    AliasChoiceIsByAlias(t, c, item);
    ExactSetIsFitting(t, c, item);
    FuzzySetIsSimilar(t, c, item);
    assert forall w | w in ExactSet(t, c, item) :: Single(ExactSet(t, c, item)) ==> ExactSet(t, c, item) != {};
  }

  /** What creating does: the product of that brand and name is found or added as an active one, then the variant of
      that key is found or added under it with all that the item gives. */
  lemma CreatedInFields(t: Texts, c: Catalog, item: Item, p: nat, v: nat)
    requires Unused(c, p, v) && item.brand.Some? && item.model.Some?
    ensures var brand, name := item.brand.value, item.model.value;
      var key, r := t.key(brand, name, item.attributes), Created(t, c, item, p, v);
      && r.product in r.catalog.products && r.variant in r.catalog.variants
      && r.catalog.products[r.product].brand == brand && r.catalog.products[r.product].name == name
      && r.catalog.variants[r.variant].key == key
      && (r.newProduct <==> forall q | q in c.products :: c.products[q].brand != brand || c.products[q].name != name)
      && (r.newVariant <==> forall w | w in c.variants :: c.variants[w].key != key)
      && r.catalog.products
         == (if r.newProduct then c.products[p := Product.Product(brand, name, true)] else c.products)
      && r.catalog.variants
         == (if r.newVariant then c.variants[v := Variant.Variant(r.product, item.attributes, key, true)]
             else c.variants)
      && r.catalog.aliases == c.aliases
  {
    assert forall q | q in c.products ::
        c.products[q].brand == item.brand.value && c.products[q].name == item.model.value
        ==> IsProduct(c, q, item.brand.value, item.model.value);
    assert forall w | w in c.variants :: c.variants[w].key == KeyFor(t, item) ==> IsVariant(c, w, KeyFor(t, item));
  }

  /** A variant that has whatever is read in the line. */
  ghost predicate HasRead(variant: Variant, f: Fields) {
    var b := variant.attributes;
    && (f.storage.Some? ==> b.storage == f.storage) && (f.code.Some? ==> b.code == f.code)
    && (f.color.Some? ==> b.color == f.color) && (f.region.Some? ==> b.region == f.region)
  }

  /** From text to variant: a parsed line that is matched by its attributes, or for which a variant is created anew,
      gets a variant with the memory, code, colour and region that were read, under the brand and model that were
      read. */
  lemma LineGetsWhatItSays(t: Texts, c: Catalog, item: Item, p: nat, v: nat, reader: Reader, text: seq<string>, i: nat)
    requires i < |text| && MadeFrom(item, Result(reader, text)[i]) && Valid(c) && Unused(c, p, v)
    ensures var f, r := Result(reader, text)[i].fields, Resolve(t, c, item, p, v);
      r.choice.ByAttributes? || (r.choice == Create && r.newVariant) ==>
        && r.variant.Some? && r.variant.value in r.catalog.variants
        && var variant := r.catalog.variants[r.variant.value];
           && HasRead(variant, f) && variant.product in r.catalog.products
           && t.norm(Some(r.catalog.products[variant.product].brand)) == t.norm(f.brand)
           && t.norm(Some(r.catalog.products[variant.product].name)) == t.norm(f.model)
  {
    hide Choose, Created, Result, Unbroken, CodeKnown, AliasKnown;
    var choice := Choose(t, c, item);
    if choice.ByAttributes? {
      ByAttributesExactlyWhen(t, c, item, choice.v);
    } else if choice == Create {
      CreateExactlyWhen(t, c, item);
      CreatedInFields(t, c, item, p, v);
    }
  }

  /** A line without a price, with an invalid one, or ignored gets nothing and leaves the catalogue alone. */
  lemma UnpricedLinesAreNotMatched(t: Texts, c: Catalog, item: Item, p: nat, v: nat, line: Line)
    requires MadeFrom(item, line)
    ensures line.fields.price.None? || InvalidPrice in line.flags || line.status == Ignored ==>
              Resolve(t, c, item, p, v) == Resolution(NoMatch, None, false, false, c)
  {
    hide Created, Broken;
  }

  // ---------- From the sets of the decision to fields ----------

  lemma MatchableMeansNotBlocked(c: Catalog, item: Item)
    ensures Matchable(item) <==> !Blocked(item)
    ensures Unbroken(c) <==> !Broken(c)
  {
  }

  lemma SingleOf(s: set<nat>, v: nat)
    ensures Single(s) && The(s) == v <==> v in s && forall w | w in s :: w == v
  {
    if v in s && forall w | w in s :: w == v {
      assert s == {v};
    }
  }

  lemma CodeSets(t: Texts, c: Catalog, item: Item)
    ensures forall w: nat :: w in CodeMatches(t, c, item) <==> Offered(c, w) && CodeAgrees(t, item, c.variants[w])
    ensures forall w: nat :: w in Matcher.Compatible(t, c, item) <==> CodeFits(t, c, item, w)
  {
    hide CandidateScore, Fuzzy;
  }

  lemma CodeKnownMeansMatches(t: Texts, c: Catalog, item: Item)
    ensures CodeKnown(t, c, item) <==> CodeMatches(t, c, item) != {}
  {
    CodeSets(t, c, item);
    hide CodeMatches, Matcher.Compatible, Offered, CodeAgrees;
    if w :| w in CodeMatches(t, c, item) {
      assert Offered(c, w);
    }
  }

  lemma ExactSetIsFitting(t: Texts, c: Catalog, item: Item)
    ensures forall w: nat :: w in ExactSet(t, c, item) <==> FitsOffered(t, c, item, w)
  {
    hide CandidateScore, Fuzzy, SameCode;
  }

  lemma FuzzySetIsSimilar(t: Texts, c: Catalog, item: Item)
    ensures forall w: nat :: w in FuzzySet(t, c, item) <==>
              Offered(c, w) && TooSimilar(t, item, c.products[c.variants[w].product], c.variants[w])
  {
    hide SameCode, CandidateScore, Fuzzy, TooSimilar;
    forall w: nat | Offered(c, w)
      ensures var product := c.products[c.variants[w].product];
        TooSimilar(t, item, product, c.variants[w])
        <==> Fuzzy(t, item, product) || CandidateScore(t, item, product, c.variants[w]) >= 76
    {
      TooSimilarMeansScored(t, item, c.products[c.variants[w].product], c.variants[w]);
    }
  }

  lemma TooSimilarMeansScored(t: Texts, item: Item, product: Product, variant: Variant)
    ensures TooSimilar(t, item, product, variant)
            <==> Fuzzy(t, item, product) || CandidateScore(t, item, product, variant) >= 76
  {
  }

  lemma TargetsAreLeads(t: Texts, c: Catalog, item: Item, a: nat, v: nat)
    ensures a in ApplicableAliases(t, c, item) && v in TargetsOf(t, c, item, c.aliases[a]) <==> Leads(t, c, item, a, v)
  {
  }

  lemma AliasKnownMeansChoice(t: Texts, c: Catalog, item: Item)
    ensures AliasKnown(t, c, item) <==> AliasChoice(t, c, item).Some?
  {
    hide TargetsOf, Leads, Applies;
    var rows := ApplicableAliases(t, c, item);
    forall a: nat, v: nat
      ensures a in rows && v in TargetsOf(t, c, item, c.aliases[a]) <==> Leads(t, c, item, a, v)
    {
      TargetsAreLeads(t, c, item, a, v);
    }
    if a: nat, v: nat :| Leads(t, c, item, a, v) {
      assert TargetsOf(t, c, item, c.aliases[a]) != {};
    }
    if !NoTarget(t, c, item, rows) {
      var a: nat :| a in rows && TargetsOf(t, c, item, c.aliases[a]) != {};
      var v: nat :| v in TargetsOf(t, c, item, c.aliases[a]);
      assert Leads(t, c, item, a, v);
    }
  }

  lemma AliasChoiceIsByAlias(t: Texts, c: Catalog, item: Item)
    ensures var choice := AliasChoice(t, c, item);
      choice.Some? ==> choice.value.ByAlias? || choice.value == NoMatch
  {
  }

  lemma AliasDecides(t: Texts, c: Catalog, item: Item, v: nat)
    ensures AliasChoice(t, c, item) == Some(ByAlias(v)) <==>
            exists a :: Leads(t, c, item, a, v) && forall b, w | Leads(t, c, item, b, w) :: b == a && w == v
  {
    hide TargetsOf, Leads, Applies;
    var rows := ApplicableAliases(t, c, item);
    forall a: nat, w: nat
      ensures a in rows && w in TargetsOf(t, c, item, c.aliases[a]) <==> Leads(t, c, item, a, w)
    {
      TargetsAreLeads(t, c, item, a, w);
    }
    OnlyTargetMeansOneEntry(t, c, item, rows, v);
    if OnlyTarget(t, c, item, rows, v) {
      OnlyTargetIsUnique(t, c, item, rows, v);
    }
  }

  lemma OnlyTargetMeansOneEntry(t: Texts, c: Catalog, item: Item, rows: set<nat>, v: nat)
    requires rows == ApplicableAliases(t, c, item)
    requires forall a: nat, w: nat ::
               a in rows && w in TargetsOf(t, c, item, c.aliases[a]) <==> Leads(t, c, item, a, w)
    ensures OnlyTarget(t, c, item, rows, v) <==>
            exists a :: Leads(t, c, item, a, v) && forall b, w | Leads(t, c, item, b, w) :: b == a && w == v
  {
    hide TargetsOf, Leads, Applies;
    if OnlyTarget(t, c, item, rows, v) {
      var a :| a in rows && TargetsOf(t, c, item, c.aliases[a]) == {v} && NoTarget(t, c, item, rows - {a});
      forall b, w | Leads(t, c, item, b, w) ensures b == a && w == v {
        assert w in TargetsOf(t, c, item, c.aliases[b]);
        assert b !in rows - {a};
      }
      assert Leads(t, c, item, a, v);
    }
    if a :| Leads(t, c, item, a, v) && forall b, w | Leads(t, c, item, b, w) :: b == a && w == v {
      assert a in rows;
      forall b | b in rows - {a} ensures TargetsOf(t, c, item, c.aliases[b]) == {} {
        if w: nat :| w in TargetsOf(t, c, item, c.aliases[b]) {
          assert Leads(t, c, item, b, w);
        }
      }
      assert TargetsOf(t, c, item, c.aliases[a]) == {v};
    }
  }
}
