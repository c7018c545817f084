/**
 The way from the latest facts to an approved text, and what speaks against a listing, in the fields of the rows.
 */
module ContentPath {
  import opened Common
  import opened Content

  /** The facts a draft is made from: the latest ones, or the catalogue's if there are none yet. */
  function FactsToUse(s: State, current: Facts): Facts {
    if s.facts == [] then current else s.facts[|s.facts| - 1]
  }

  /** Draft `i` is the provider's text for the facts. */
  predicate Made(s: State, i: nat, facts: Facts, provider: Provider) {
    && i < |s.drafts| && s.drafts[i].facts == facts && s.drafts[i].copy == provider.generate(facts)
    && s.drafts[i].generator == provider.name && s.drafts[i].prompt == provider.prompt
  }

  /** Generating leaves one draft of the provider's text for the latest facts, and touches no other row. */
  lemma GeneratedFromLatestFacts(s: State, provider: Provider, current: Facts, unsupported: (Copy, Facts) -> bool)
    requires Inv(s, unsupported)
    ensures var t, latest := DraftGenerated(s, provider, current), FactsToUse(s, current);
      && Latest(t.facts) == Some(latest)
      && (exists i: nat :: Made(t, i, latest, provider))
      && (forall i: nat, j: nat | Made(t, i, latest, provider) && Made(t, j, latest, provider) :: i == j)
      && (s.facts != [] ==> t == s.(drafts := t.drafts) && s.drafts <= t.drafts && |t.drafts| <= |s.drafts| + 1)
  {
    hide DraftSound, ListingSound;
    DraftGeneratedKeepsInv(s, provider, current, unsupported);
    var t, latest := DraftGenerated(s, provider, current), FactsToUse(s, current);
    var base := if s.facts == [] then Rebuilt(s, current) else s;
    var draft := NewDraft(latest, provider);
    if HasDraft(base.drafts, draft) {
      var i :| 0 <= i < |base.drafts| && SameDraft(base.drafts[i], draft);
      assert Made(t, i, latest, provider);
    } else {
      assert Made(t, |base.drafts|, latest, provider);
    }
    forall i: nat, j: nat | Made(t, i, latest, provider) && Made(t, j, latest, provider) ensures i == j {
      assert SameDraft(t.drafts[i], t.drafts[j]) && SameDraft(t.drafts[j], t.drafts[i]);
    }
  }

  /** Validated and then approved, that draft becomes an approved text exactly when it makes no unsupported claim. */
  lemma GeneratedDraftIsApprovedExactlyWhen(s: State, provider: Provider, current: Facts, i: nat, now: Time,
                                            unsupported: (Copy, Facts) -> bool)
    requires Inv(s, unsupported) && Made(DraftGenerated(s, provider, current), i, FactsToUse(s, current), provider)
    ensures var latest := FactsToUse(s, current);
      var validated := Step(DraftGenerated(s, provider, current), ValidateDraft(i), unsupported);
      var approved := Step(validated, ApproveDraft(i, now), unsupported);
      && (CanApprove(validated, i) <==> !unsupported(provider.generate(latest), latest))
      && i < |approved.drafts|
      && (approved.drafts[i].status == Approved <==> !unsupported(provider.generate(latest), latest))
      && (approved.drafts[i].status == Approved ==> approved.drafts[i].approvedAt == Some(now))
  {
    hide Inv;
    GeneratedFromLatestFacts(s, provider, current, unsupported);
  }

  /** What speaks against a listing, one reason at a time. */
  lemma ReasonsExactlyWhen(content: Option<Draft>, images: Option<ImageSet>, pricing: Option<PricingState>,
                           facts: Option<Facts>, reason: Reason)
    ensures reason in ReasonsFor(content, images, pricing, facts) <==>
            var priced := pricing.Some? && pricing.value.price.Some?;
            match reason
            case FactConflict => facts.Some? && facts.value.hasConflicts
            case UnknownCondition => facts.Some? && facts.value.condition.None?
            case MissingContent => content.None?
            case ContentNotApproved =>
              content.Some? && !(content.value.status == Approved && content.value.validation == Passed)
            case NoImages => images.None?
            case ImagesNotApproved => images.Some? && images.value.status != ImagesApproved
            case NoPrice => !priced
            case PricingReview => priced && pricing.value.decision == Decision.Review
            case SupplierStale => priced && pricing.value.decision == Pause
            case NoStock => priced && pricing.value.decision == OutOfStock
            case BelowHardFloor => pricing.Some? && ManualPriceBelowFloor in pricing.value.codes
            case SupplierConflict => pricing.Some? && SupplierConflicts in pricing.value.codes
            case FactsChanged => false
  {
    hide PricingReasons, If;
    PricingReasonsExactlyWhen(pricing, reason);
    IfExactly(facts.Some? && facts.value.hasConflicts, FactConflict, reason);
    IfExactly(facts.Some? && facts.value.condition.None?, UnknownCondition, reason);
    if content.Some? {
      IfExactly(content.value.status != Approved || content.value.validation != Passed, ContentNotApproved, reason);
    }
    if images.Some? {
      IfExactly(images.value.status != ImagesApproved, ImagesNotApproved, reason);
    }
  }

  lemma IfExactly(condition: bool, reason: Reason, other: Reason)
    ensures other in If(condition, reason) <==> condition && other == reason
  {
  }

  lemma PricingReasonsExactlyWhen(pricing: Option<PricingState>, reason: Reason)
    ensures reason in PricingReasons(pricing) <==>
            var priced := pricing.Some? && pricing.value.price.Some?;
            match reason
            case NoPrice => !priced
            case PricingReview => priced && pricing.value.decision == Decision.Review
            case SupplierStale => priced && pricing.value.decision == Pause
            case NoStock => priced && pricing.value.decision == OutOfStock
            case BelowHardFloor => pricing.Some? && ManualPriceBelowFloor in pricing.value.codes
            case SupplierConflict => pricing.Some? && SupplierConflicts in pricing.value.codes
            case _ => false
  {
  }

  /** Conflicting facts and a price under review ask for a human; everything else that is missing does not. */
  lemma NeedsReviewExactlyWhen(content: Option<Draft>, images: Option<ImageSet>, pricing: Option<PricingState>,
                               facts: Option<Facts>)
    ensures EvaluateReadiness(content, images, pricing, facts) == NeedsReview <==>
            || (facts.Some? && facts.value.hasConflicts)
            || (pricing.Some? && pricing.value.price.Some? && pricing.value.decision == Decision.Review)
    ensures EvaluateReadiness(content, images, pricing, facts) in {NotReady, NeedsReview, Ready}
  {
    hide ReasonsFor;
    ReasonsExactlyWhen(content, images, pricing, facts, FactConflict);
    ReasonsExactlyWhen(content, images, pricing, facts, PricingReview);
    var reasons := ReasonsFor(content, images, pricing, facts);
    assert FactConflict in reasons ==> FactConflict in reasons - {UnknownCondition};
    assert PricingReview in reasons ==> PricingReview in reasons - {UnknownCondition};
  }

  /** Validating a draft sets its result, status and need of review, and nothing else. */
  lemma ValidatedInFields(s: State, i: nat, unsupported: (Copy, Facts) -> bool)
    requires i < |s.drafts|
    ensures var t, draft := Step(s, ValidateDraft(i), unsupported), s.drafts[i];
      && t == s.(drafts := t.drafts) && |t.drafts| == |s.drafts|
      && (forall j | 0 <= j < |s.drafts| && j != i :: t.drafts[j] == s.drafts[j])
      && SameDraft(t.drafts[i], draft) && t.drafts[i].approvedAt == draft.approvedAt
      && (if unsupported(draft.copy, draft.facts) then
            t.drafts[i].validation == Failed && t.drafts[i].status == ReviewRequired && t.drafts[i].requiresReview
          else
            && t.drafts[i].validation == Passed && t.drafts[i].status == DraftStatus.Valid
            && (t.drafts[i].requiresReview <==> draft.facts.hasConflicts))
  {
  }

  /** New facts take the place of the latest, supersede just the approved drafts of other facts, and make stale just the
      listings that were ready or approved, with the reason; no image set and no price changes. */
  lemma RebuiltInFields(s: State, current: Facts, i: nat)
    requires current !in s.facts
    ensures var t := Rebuilt(s, current);
      && t.facts == s.facts + [current] && t.images == s.images && t.pricing == s.pricing
      && |t.drafts| == |s.drafts| && |t.listings| == |s.listings|
      && (i < |s.drafts| ==>
            if s.drafts[i].status == Approved && s.drafts[i].facts != current then
              && t.drafts[i].status == Superseded && t.drafts[i].requiresReview
              && SameDraft(t.drafts[i], s.drafts[i]) && t.drafts[i].validation == s.drafts[i].validation
            else t.drafts[i] == s.drafts[i])
      && (i < |s.listings| ==>
            if s.listings[i].readiness in {Ready, ListingApproved} then
              && t.listings[i].readiness == Stale && t.listings[i].reasons == s.listings[i].reasons + {FactsChanged}
              && t.listings[i].key == s.listings[i].key && t.listings[i].copy == s.listings[i].copy
            else t.listings[i] == s.listings[i])
  {
  }

  /** A listing that is validated while the present rows give another key is marked with the reason. */
  lemma StaledInFields(s: State, i: nat)
    requires i < |s.listings| && s.listings[i].key != CurrentKey(s)
    ensures var listing := ListingValidated(s, i).listings[i];
      && listing.readiness == Stale && FactsChanged in listing.reasons && s.listings[i].reasons <= listing.reasons
      && listing.key == s.listings[i].key && listing.copy == s.listings[i].copy
  {
  }

  /** A new image set cannot be approved; once validated it can exactly if it has no errors, under its time. */
  lemma ImagesApprovedExactlyWhen(s: State, errors: bool, now: Time, unsupported: (Copy, Facts) -> bool)
    ensures var i := |s.images|;
      var created := Step(s, CreateImages, unsupported);
      var validated := Step(created, ValidateImages(i, errors), unsupported);
      var approved := Step(validated, ApproveImages(i, now), unsupported);
      && Step(created, ApproveImages(i, now), unsupported) == created && |created.images| == i + 1
      && created.images[i].status != ImagesApproved && validated.images[i].status != ImagesApproved
      && (approved.images[i] == ImageSet(ImagesApproved, Some(now)) <==> !errors)
      && (errors ==> approved.images[i].status == ImagesReviewRequired)
      && approved.images[..i] == s.images
  {
  }
}
