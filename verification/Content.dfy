/**
 The content of one product variant: fact rows, text drafts, image sets and listings, and how they may be approved.

 Row identifiers are positions in order of creation. A digest is identified with the value it is taken of, that is, it
 is taken to be injective. The facts of the catalogue, the text provider and the check of a text's claims are inputs.
 */
module Content {
  import opened Common

  /** `attributes` stands for everything in a fact payload that is only carried along. */
  datatype Facts = Facts(attributes: map<string, string>, condition: Option<string>, hasConflicts: bool)

  datatype Copy = Copy(title: string, description: string)

  datatype Provider = Provider(name: string, prompt: string, generate: Facts -> Copy)

  datatype DraftStatus = Generated | Valid | ReviewRequired | Approved | Rejected | Superseded

  datatype Validation = NotValidated | Passed | Failed

  datatype Draft = Draft(facts: Facts, copy: Copy, generator: string, prompt: string, status: DraftStatus,
                         validation: Validation, approvedAt: Option<Time>, requiresReview: bool)

  datatype ImageStatus = ImagesDraft | ImagesReady | ImagesReviewRequired | ImagesApproved

  datatype ImageSet = ImageSet(status: ImageStatus, approvedAt: Option<Time>)

  datatype Decision = Active | Pause | OutOfStock | Review

  datatype PricingReason = ManualPriceBelowFloor | SupplierConflicts | OtherReason(code: string)

  datatype PricingState = PricingState(price: Option<int>, decision: Decision, fulfillment: string,
                                       supplier: Option<string>, codes: set<PricingReason>)

  datatype Reason =
    | FactConflict | UnknownCondition | MissingContent | ContentNotApproved | NoImages | ImagesNotApproved | NoPrice
    | PricingReview | SupplierStale | NoStock | BelowHardFloor | SupplierConflict | FactsChanged

  datatype Readiness = NotReady | NeedsReview | Ready | ListingApproved | Stale

  /** What a listing's digest is taken of. */
  datatype ListingKey = ListingKey(content: Option<nat>, images: Option<nat>, pricing: Option<PricingState>,
                                   readiness: Readiness, reasons: set<Reason>)

  datatype Listing = Listing(key: ListingKey, copy: Option<Copy>, readiness: Readiness, reasons: set<Reason>)

  datatype State = State(facts: seq<Facts>, drafts: seq<Draft>, images: seq<ImageSet>,
                         pricing: Option<PricingState>, listings: seq<Listing>)

  const EMPTY := State([], [], [], None, [])

  function Latest(facts: seq<Facts>): Option<Facts> {
    if facts == [] then None else Some(facts[|facts| - 1])
  }

  // ---------- Facts ----------

  function SupersededBy(draft: Draft, current: Facts): Draft {
    if draft.facts != current && draft.status == Approved then
      draft.(status := Superseded, requiresReview := true)
    else draft
  }

  function Staled(listing: Listing): Listing {
    listing.(readiness := Stale, reasons := listing.reasons + {FactsChanged})
  }

  function StaledIfLive(listing: Listing): Listing {
    if listing.readiness == Ready || listing.readiness == ListingApproved then Staled(listing) else listing
  }

  function MapDrafts(f: Draft -> Draft, drafts: seq<Draft>): seq<Draft> {
    seq(|drafts|, i requires 0 <= i < |drafts| => f(drafts[i]))
  }

  /** Facts that some row already carries change nothing, even when that row is not the latest. */
  function Rebuilt(s: State, current: Facts): State {
    if current in s.facts then s else
      s.(facts := s.facts + [current],
         drafts := MapDrafts(d => SupersededBy(d, current), s.drafts),
         listings := seq(|s.listings|, i requires 0 <= i < |s.listings| => StaledIfLive(s.listings[i])))
  }

  // ---------- Drafts ----------

  predicate SameDraft(a: Draft, b: Draft) {
    a.facts == b.facts && a.copy == b.copy && a.generator == b.generator && a.prompt == b.prompt
  }

  function NewDraft(facts: Facts, provider: Provider): Draft {
    Draft(facts, provider.generate(facts), provider.name, provider.prompt, Generated, NotValidated, None, false)
  }

  predicate HasDraft(drafts: seq<Draft>, draft: Draft) {
    exists i :: 0 <= i < |drafts| && SameDraft(drafts[i], draft)
  }

  function DraftGenerated(s: State, provider: Provider, current: Facts): State {
    var base := if s.facts == [] then Rebuilt(s, current) else s;
    var draft := NewDraft(base.facts[|base.facts| - 1], provider);
    if HasDraft(base.drafts, draft) then base else base.(drafts := base.drafts + [draft])
  }

  /** `unsupported` says whether a text makes a claim that the facts do not support. */
  function CheckedDraft(draft: Draft, unsupported: (Copy, Facts) -> bool): Draft {
    var bad := unsupported(draft.copy, draft.facts);
    draft.(validation := if bad then Failed else Passed,
           status := if bad then ReviewRequired else Valid,
           requiresReview := bad || draft.facts.hasConflicts)
  }

  predicate CanApprove(s: State, i: nat) {
    i < |s.drafts| && Latest(s.facts) == Some(s.drafts[i].facts) && s.drafts[i].validation == Passed
  }

  function ApprovedDraft(draft: Draft, now: Time): Draft {
    draft.(status := Approved, approvedAt := Some(now), requiresReview := false)
  }

  // ---------- Readiness ----------

  /** The approved row with the greatest approval time, the later one of two equals. */
  function LatestApproved(stamps: seq<Option<Time>>): (latest: Option<nat>)
    ensures latest.None? <==> forall i | 0 <= i < |stamps| :: stamps[i].None?
    ensures latest.Some? ==>
              && latest.value < |stamps| && stamps[latest.value].Some?
              && (forall i | 0 <= i < |stamps| && stamps[i].Some? :: stamps[i].value <= stamps[latest.value].value)
              && (forall i | latest.value < i < |stamps| && stamps[i].Some? ::
                    stamps[i].value < stamps[latest.value].value)
  {
    if stamps == [] then None else
      var last := |stamps| - 1;
      var before := LatestApproved(stamps[..last]);
      if stamps[last].Some? && (before.None? || stamps[before.value].value <= stamps[last].value) then Some(last)
      else before
  }

  function DraftStamp(draft: Draft): Option<Time> {
    if draft.status == Approved then Some(if draft.approvedAt.Some? then draft.approvedAt.value else 0) else None
  }

  function ImageStamp(images: ImageSet): Option<Time> {
    if images.status == ImagesApproved then Some(if images.approvedAt.Some? then images.approvedAt.value else 0)
    else None
  }

  function DraftStamps(drafts: seq<Draft>): seq<Option<Time>> {
    seq(|drafts|, i requires 0 <= i < |drafts| => DraftStamp(drafts[i]))
  }

  function ImageStamps(images: seq<ImageSet>): seq<Option<Time>> {
    seq(|images|, i requires 0 <= i < |images| => ImageStamp(images[i]))
  }

  function If(condition: bool, reason: Reason): set<Reason> {
    if condition then {reason} else {}
  }

  function PricingReasons(pricing: Option<PricingState>): set<Reason> {
    (if pricing.None? || pricing.value.price.None? then {NoPrice} else
       match pricing.value.decision
       case Active => {}
       case Review => {PricingReview}
       case Pause => {SupplierStale}
       case OutOfStock => {NoStock})
    + If(pricing.Some? && ManualPriceBelowFloor in pricing.value.codes, BelowHardFloor)
    + If(pricing.Some? && SupplierConflicts in pricing.value.codes, SupplierConflict)
  }

  function ReasonsFor(content: Option<Draft>, images: Option<ImageSet>, pricing: Option<PricingState>,
                      facts: Option<Facts>): set<Reason>
  {
    If(facts.Some? && facts.value.hasConflicts, FactConflict)
    + If(facts.Some? && facts.value.condition.None?, UnknownCondition)
    + (if content.None? then {MissingContent}
       else If(content.value.status != Approved || content.value.validation != Passed, ContentNotApproved))
    + (if images.None? then {NoImages} else If(images.value.status != ImagesApproved, ImagesNotApproved))
    + PricingReasons(pricing)
  }

  function EvaluateReadiness(content: Option<Draft>, images: Option<ImageSet>, pricing: Option<PricingState>,
                             facts: Option<Facts>): Readiness
  {
    var reasons := ReasonsFor(content, images, pricing, facts);
    if reasons - {UnknownCondition} == {} then Ready
    else if FactConflict in reasons || PricingReview in reasons then NeedsReview
    else NotReady
  }

  /** Ready means: approved and validated text, approved images, a price with an active decision, above the floor and
      without supplier conflict, and facts without conflicts. */
  lemma ReadyExactlyWhen(content: Option<Draft>, images: Option<ImageSet>, pricing: Option<PricingState>,
                         facts: Option<Facts>)
    ensures EvaluateReadiness(content, images, pricing, facts) == Ready <==>
            && content.Some? && content.value.status == Approved && content.value.validation == Passed
            && images.Some? && images.value.status == ImagesApproved
            && pricing.Some? && pricing.value.price.Some? && pricing.value.decision == Active
            && pricing.value.codes !! {ManualPriceBelowFloor, SupplierConflicts}
            && (facts.Some? ==> !facts.value.hasConflicts)
  {
  }

  // ---------- Listings ----------

  function Picked<T>(rows: seq<T>, at: Option<nat>): Option<T>
    requires at.Some? ==> at.value < |rows|
  {
    if at.Some? then Some(rows[at.value]) else None
  }

  /** The key of the listing that the present rows give. */
  function CurrentKey(s: State): ListingKey {
    var content := LatestApproved(DraftStamps(s.drafts));
    var images := LatestApproved(ImageStamps(s.images));
    var draft, imageSet := Picked(s.drafts, content), Picked(s.images, images);
    ListingKey(content, images, s.pricing,
               EvaluateReadiness(draft, imageSet, s.pricing, Latest(s.facts)),
               ReasonsFor(draft, imageSet, s.pricing, Latest(s.facts)))
  }

  function NewListing(s: State): Listing {
    var key := CurrentKey(s);
    var draft := Picked(s.drafts, key.content);
    Listing(key, if draft.Some? then Some(draft.value.copy) else None, key.readiness, key.reasons)
  }

  predicate HasListing(s: State, key: ListingKey) {
    exists i :: 0 <= i < |s.listings| && s.listings[i].key == key
  }

  function Built(s: State): State {
    if HasListing(s, CurrentKey(s)) then s else s.(listings := s.listings + [NewListing(s)])
  }

  function ListingValidated(s: State, i: nat): State {
    if i >= |s.listings| then s else
      var built := Built(s);
      if s.listings[i].key == CurrentKey(s) then built
      else built.(listings := built.listings[i := Staled(built.listings[i])])
  }

  function ListingApprovedIn(s: State, i: nat): State {
    var checked := ListingValidated(s, i);
    if i < |s.listings| && checked.listings[i].readiness == Ready then
      checked.(listings := checked.listings[i := checked.listings[i].(readiness := ListingApproved)])
    else checked
  }

  // ---------- Every operation ----------

  datatype Operation =
    | RebuildFacts(current: Facts)
    | GenerateDraft(provider: Provider, current: Facts)
    | ValidateDraft(draft: nat)
    | ApproveDraft(draft: nat, now: Time)
    | RejectDraft(draft: nat)
    | CreateImages
    | ValidateImages(images: nat, errors: bool)
    | ApproveImages(images: nat, now: Time)
    | SetPricing(pricing: Option<PricingState>)
    | BuildListing
    | ValidateListing(listing: nat)
    | ApproveListing(listing: nat)

  function Step(s: State, op: Operation, unsupported: (Copy, Facts) -> bool): State {
    match op
    case RebuildFacts(current) => Rebuilt(s, current)
    case GenerateDraft(provider, current) => DraftGenerated(s, provider, current)
    case ValidateDraft(i) =>
      if i < |s.drafts| then s.(drafts := s.drafts[i := CheckedDraft(s.drafts[i], unsupported)]) else s
    case ApproveDraft(i, now) =>
      if CanApprove(s, i) then s.(drafts := s.drafts[i := ApprovedDraft(s.drafts[i], now)]) else s
    case RejectDraft(i) =>
      if i < |s.drafts| then s.(drafts := s.drafts[i := s.drafts[i].(status := Rejected)]) else s
    case CreateImages => s.(images := s.images + [ImageSet(ImagesDraft, None)])
    case ValidateImages(i, errors) =>
      if i < |s.images| then
        s.(images := s.images[i := s.images[i].(status := if errors then ImagesReviewRequired else ImagesReady)])
      else s
    case ApproveImages(i, now) =>
      if i < |s.images| && s.images[i].status == ImagesReady then
        s.(images := s.images[i := ImageSet(ImagesApproved, Some(now))])
      else s
    case SetPricing(pricing) => s.(pricing := pricing)
    case BuildListing => Built(s)
    case ValidateListing(i) => ListingValidated(s, i)
    case ApproveListing(i) => ListingApprovedIn(s, i)
  }

  function Run(s: State, ops: seq<Operation>, unsupported: (Copy, Facts) -> bool): State {
    if ops == [] then s else Step(Run(s, ops[..|ops| - 1], unsupported), ops[|ops| - 1], unsupported)
  }

  // ---------- What holds in every reachable state ----------

  ghost predicate DraftSound(draft: Draft, facts: seq<Facts>, unsupported: (Copy, Facts) -> bool) {
    && draft.facts in facts
    && (draft.validation == Passed ==> !unsupported(draft.copy, draft.facts))
    && (draft.status == Approved ==> draft.validation == Passed && Latest(facts) == Some(draft.facts))
  }

  ghost predicate ListingSound(listing: Listing, s: State) {
    && (listing.readiness == Ready || listing.readiness == ListingApproved ==>
          && listing.key.readiness == Ready
          && listing.key.content.Some? && listing.key.content.value < |s.drafts|
          && Latest(s.facts) == Some(s.drafts[listing.key.content.value].facts)
          && listing.copy == Some(s.drafts[listing.key.content.value].copy))
  }

  ghost predicate Inv(s: State, unsupported: (Copy, Facts) -> bool) {
    && (forall i | 0 <= i < |s.drafts| :: DraftSound(s.drafts[i], s.facts, unsupported))
    && (forall i | 0 <= i < |s.listings| :: ListingSound(s.listings[i], s))
    && (forall i, j | 0 <= i < j < |s.listings| :: s.listings[i].key != s.listings[j].key)
    && (forall i, j | 0 <= i < j < |s.drafts| :: !SameDraft(s.drafts[i], s.drafts[j]))
    && (forall i, j | 0 <= i < j < |s.facts| :: s.facts[i] != s.facts[j])
  }

  lemma RebuiltKeepsInv(s: State, current: Facts, unsupported: (Copy, Facts) -> bool)
    requires Inv(s, unsupported)
    ensures Inv(Rebuilt(s, current), unsupported)
  {
    if current !in s.facts {
      var t := Rebuilt(s, current);
      forall i | 0 <= i < |t.drafts| ensures DraftSound(t.drafts[i], t.facts, unsupported) {
        assert DraftSound(s.drafts[i], s.facts, unsupported);
      }
      forall i | 0 <= i < |t.listings| ensures ListingSound(t.listings[i], t) {
        assert t.listings[i] == StaledIfLive(s.listings[i]);
      }
      assert forall i | 0 <= i < |t.drafts| :: SameDraft(t.drafts[i], s.drafts[i]);
    }
  }

  lemma DraftChangeKeepsInv(s: State, i: nat, draft: Draft, unsupported: (Copy, Facts) -> bool)
    requires Inv(s, unsupported) && i < |s.drafts|
    requires SameDraft(draft, s.drafts[i]) && DraftSound(draft, s.facts, unsupported)
    ensures Inv(s.(drafts := s.drafts[i := draft]), unsupported)
  {
  }

  lemma NewDraftKeepsInv(s: State, draft: Draft, unsupported: (Copy, Facts) -> bool)
    requires Inv(s, unsupported)
    requires DraftSound(draft, s.facts, unsupported) && !HasDraft(s.drafts, draft)
    ensures Inv(s.(drafts := s.drafts + [draft]), unsupported)
  {
  }

  lemma DraftGeneratedKeepsInv(s: State, provider: Provider, current: Facts, unsupported: (Copy, Facts) -> bool)
    requires Inv(s, unsupported)
    ensures Inv(DraftGenerated(s, provider, current), unsupported)
  {
    hide Inv, HasDraft;
    var base := if s.facts == [] then Rebuilt(s, current) else s;
    RebuiltKeepsInv(s, current, unsupported);
    var draft := NewDraft(base.facts[|base.facts| - 1], provider);
    if !HasDraft(base.drafts, draft) {
      NewDraftKeepsInv(base, draft, unsupported);
    }
  }

  /** A key that says ready is the key of an approved draft made from the latest facts. */
  lemma CurrentKeyIsSound(s: State, unsupported: (Copy, Facts) -> bool)
    requires Inv(s, unsupported)
    ensures ListingSound(NewListing(s), s)
  {
  }

  lemma BuiltKeepsInv(s: State, unsupported: (Copy, Facts) -> bool)
    requires Inv(s, unsupported)
    ensures Inv(Built(s), unsupported)
  {
    hide CurrentKey, DraftSound, SameDraft;
    if !HasListing(s, CurrentKey(s)) {
      CurrentKeyIsSound(s, unsupported);
      var t := Built(s);
      forall k | 0 <= k < |t.listings| ensures ListingSound(t.listings[k], t) {
        assert k < |s.listings| ==> ListingSound(s.listings[k], s);
      }
    }
  }

  lemma ListingChangeKeepsInv(s: State, i: nat, listing: Listing, unsupported: (Copy, Facts) -> bool)
    requires Inv(s, unsupported) && i < |s.listings|
    requires listing.key == s.listings[i].key && ListingSound(listing, s)
    ensures Inv(s.(listings := s.listings[i := listing]), unsupported)
  {
  }

  lemma ListingValidatedKeepsInv(s: State, i: nat, unsupported: (Copy, Facts) -> bool)
    requires Inv(s, unsupported)
    ensures Inv(ListingValidated(s, i), unsupported)
  {
    hide Inv, CurrentKey;
    if i < |s.listings| {
      BuiltKeepsInv(s, unsupported);
      if s.listings[i].key != CurrentKey(s) {
        ListingChangeKeepsInv(Built(s), i, Staled(Built(s).listings[i]), unsupported);
      }
    }
  }

  lemma ListingApprovedKeepsInv(s: State, i: nat, unsupported: (Copy, Facts) -> bool)
    requires Inv(s, unsupported)
    ensures Inv(ListingApprovedIn(s, i), unsupported)
  {
    hide CurrentKey, DraftSound, SameDraft;
    ListingValidatedKeepsInv(s, i, unsupported);
    var checked := ListingValidated(s, i);
    if i < |s.listings| && checked.listings[i].readiness == Ready {
      assert ListingSound(checked.listings[i], checked);
      ListingChangeKeepsInv(checked, i, checked.listings[i].(readiness := ListingApproved), unsupported);
    }
  }

  lemma OtherRowsKeepInv(s: State, t: State, unsupported: (Copy, Facts) -> bool)
    requires Inv(s, unsupported)
    requires t.facts == s.facts && t.drafts == s.drafts && t.listings == s.listings
    ensures Inv(t, unsupported)
  {
  }

  lemma StepKeepsInv(s: State, op: Operation, unsupported: (Copy, Facts) -> bool)
    requires Inv(s, unsupported)
    ensures Inv(Step(s, op, unsupported), unsupported)
  {
    match op
    case RebuildFacts(current) => RebuiltKeepsInv(s, current, unsupported);
    case GenerateDraft(provider, current) => DraftGeneratedKeepsInv(s, provider, current, unsupported);
    case ValidateDraft(i) =>
      if i < |s.drafts| {
        assert DraftSound(s.drafts[i], s.facts, unsupported);
        DraftChangeKeepsInv(s, i, CheckedDraft(s.drafts[i], unsupported), unsupported);
      }
    case ApproveDraft(i, now) =>
      if CanApprove(s, i) {
        assert DraftSound(s.drafts[i], s.facts, unsupported);
        DraftChangeKeepsInv(s, i, ApprovedDraft(s.drafts[i], now), unsupported);
      }
    case RejectDraft(i) =>
      if i < |s.drafts| {
        assert DraftSound(s.drafts[i], s.facts, unsupported);
        DraftChangeKeepsInv(s, i, s.drafts[i].(status := Rejected), unsupported);
      }
    case BuildListing => BuiltKeepsInv(s, unsupported);
    case ValidateListing(i) => ListingValidatedKeepsInv(s, i, unsupported);
    case ApproveListing(i) => ListingApprovedKeepsInv(s, i, unsupported);
    case _ => OtherRowsKeepInv(s, Step(s, op, unsupported), unsupported);
  }

  lemma {:induction false} RunKeepsInv(s: State, ops: seq<Operation>, unsupported: (Copy, Facts) -> bool)
    requires Inv(s, unsupported)
    ensures Inv(Run(s, ops, unsupported), unsupported)
  {
    hide Inv, Step;
    if ops != [] {
      RunKeepsInv(s, ops[..|ops| - 1], unsupported);
      StepKeepsInv(Run(s, ops[..|ops| - 1], unsupported), ops[|ops| - 1], unsupported);
    }
  }

  /** Over every run: an approved text was validated against the latest facts and claims nothing they do not support. */
  lemma ApprovedTextIsSupported(ops: seq<Operation>, i: nat, unsupported: (Copy, Facts) -> bool)
    requires i < |Run(EMPTY, ops, unsupported).drafts|
    requires Run(EMPTY, ops, unsupported).drafts[i].status == Approved
    ensures var s := Run(EMPTY, ops, unsupported);
      && s.drafts[i].validation == Passed
      && Latest(s.facts) == Some(s.drafts[i].facts)
      && !unsupported(s.drafts[i].copy, s.facts[|s.facts| - 1])
  {
    hide Run;
    RunKeepsInv(EMPTY, ops, unsupported);
    var s := Run(EMPTY, ops, unsupported);
    assert DraftSound(s.drafts[i], s.facts, unsupported);
  }

  /** Over every run: a ready or approved listing was ready when it was built, and shows the text of a draft made from
      the latest facts. */
  lemma LiveListingsUseLatestFacts(ops: seq<Operation>, i: nat, unsupported: (Copy, Facts) -> bool)
    requires i < |Run(EMPTY, ops, unsupported).listings|
    requires Run(EMPTY, ops, unsupported).listings[i].readiness in {Ready, ListingApproved}
    ensures var s := Run(EMPTY, ops, unsupported);
      && var listing := s.listings[i];
      && listing.key.readiness == Ready
      && listing.key.content.Some? && listing.key.content.value < |s.drafts|
      && listing.copy == Some(s.drafts[listing.key.content.value].copy)
      && Latest(s.facts) == Some(s.drafts[listing.key.content.value].facts)
  {
    hide Run;
    RunKeepsInv(EMPTY, ops, unsupported);
    var s := Run(EMPTY, ops, unsupported);
    assert ListingSound(s.listings[i], s);
  }

  /** Approving a listing succeeds exactly when it is still marked ready and the present rows give its key; the present
      rows are then ready themselves. */
  lemma ListingApprovedExactlyWhen(s: State, i: nat, unsupported: (Copy, Facts) -> bool)
    requires Inv(s, unsupported) && i < |s.listings| && s.listings[i].readiness != ListingApproved
    ensures ListingApprovedIn(s, i).listings[i].readiness == ListingApproved
            <==> s.listings[i].readiness == Ready && s.listings[i].key == CurrentKey(s)
    ensures ListingApprovedIn(s, i).listings[i].readiness == ListingApproved ==> CurrentKey(s).readiness == Ready
  {
  }

  // ---------- What is lost ----------

  /** After a rebuild the latest facts are the catalogue's exactly when those are new or were already the latest. */
  lemma LatestFactsAreCurrentExactlyWhen(s: State, current: Facts)
    ensures Latest(Rebuilt(s, current).facts) == Some(current)
            <==> current !in s.facts || Latest(s.facts) == Some(current)
    ensures current in s.facts ==> Rebuilt(s, current) == s
  {
  }

  /** A stale listing stays stale, under its key. */
  lemma StepKeepsStale(s: State, op: Operation, i: nat, unsupported: (Copy, Facts) -> bool)
    requires i < |s.listings| && s.listings[i].readiness == Stale
    ensures var t := Step(s, op, unsupported);
      i < |t.listings| && t.listings[i].readiness == Stale && t.listings[i].key == s.listings[i].key
  {
    hide CurrentKey, HasListing;
  }

  lemma {:induction false} StaleStays(s: State, ops: seq<Operation>, i: nat, unsupported: (Copy, Facts) -> bool)
    requires i < |s.listings| && s.listings[i].readiness == Stale
    ensures var t := Run(s, ops, unsupported);
      i < |t.listings| && t.listings[i].readiness == Stale && t.listings[i].key == s.listings[i].key
  {
    hide Step;
    if ops != [] {
      StaleStays(s, ops[..|ops| - 1], i, unsupported);
      StepKeepsStale(Run(s, ops[..|ops| - 1], unsupported), ops[|ops| - 1], i, unsupported);
    }
  }

  /** Once a listing went stale no listing can be approved while the present rows give its key, whatever else was done
      in between: the stale row takes the place of the one that would be built. */
  lemma StaleKeyBlocksApproval(s: State, ops: seq<Operation>, i: nat, j: nat, unsupported: (Copy, Facts) -> bool)
    requires Inv(s, unsupported) && i < |s.listings| && s.listings[i].readiness == Stale
    ensures var t := Run(s, ops, unsupported);
      CurrentKey(t) == s.listings[i].key && j < |t.listings| ==> ListingApprovedIn(t, j).listings[j].readiness == Stale
  {
    hide CurrentKey, DraftSound, SameDraft, Step, Run, HasListing, ListingSound;
    var t := Run(s, ops, unsupported);
    RunKeepsInv(s, ops, unsupported);
    StaleStays(s, ops, i, unsupported);
    if j != i && j < |t.listings| {
      assert t.listings[if i < j then i else j].key != t.listings[if i < j then j else i].key;
    }
  }

  /** Approving this listing succeeds. */
  ghost predicate CanApproveListing(s: State, j: nat) {
    j < |s.listings| && s.listings[j].readiness == Ready && s.listings[j].key == CurrentKey(s)
  }

  /** With a freshly built listing some listing can be approved exactly when the present rows are ready and no row that
      has their key already has left the ready mark: a stale row keeps the place of the one that would be built. */
  lemma SomeListingApprovableExactlyWhen(s: State, unsupported: (Copy, Facts) -> bool)
    requires Inv(s, unsupported)
    ensures (exists j :: CanApproveListing(Built(s), j))
            <==> && CurrentKey(s).readiness == Ready
                 && forall i | 0 <= i < |s.listings| && s.listings[i].key == CurrentKey(s) ::
                      s.listings[i].readiness == Ready
  {
    hide CurrentKey, DraftSound, SameDraft;
    var key, t := CurrentKey(s), Built(s);
    KeyIgnoresListings(s, t);
    if HasListing(s, key) {
      var i :| 0 <= i < |s.listings| && s.listings[i].key == key;
      assert ListingSound(s.listings[i], s);
      assert CanApproveListing(t, i) <==> s.listings[i].readiness == Ready;
    } else {
      assert CanApproveListing(t, |s.listings|) <==> key.readiness == Ready;
    }
  }

  lemma RunAppend(s: State, ops: seq<Operation>, op: Operation, unsupported: (Copy, Facts) -> bool)
    ensures Run(s, ops + [op], unsupported) == Step(Run(s, ops, unsupported), op, unsupported)
  {
    assert (ops + [op])[..|ops|] == ops;
  }

  lemma RunNothing(s: State, unsupported: (Copy, Facts) -> bool)
    ensures Run(s, [], unsupported) == s
  {
  }

  /** The price changes and changes back, and the listing is validated in between. */
  function PriceThereAndBack(first: PricingState, second: PricingState, listing: nat): seq<Operation> {
    [SetPricing(Some(first))] + [BuildListing] + [SetPricing(Some(second))] + [ValidateListing(listing)]
    + [SetPricing(Some(first))] + [BuildListing]
  }

  lemma RunThereAndBack(s: State, first: PricingState, second: PricingState, i: nat,
                        unsupported: (Copy, Facts) -> bool)
    ensures var built := Built(s.(pricing := Some(first)));
      var validated := ListingValidated(built.(pricing := Some(second)), i);
      Run(s, PriceThereAndBack(first, second, i), unsupported) == Built(validated.(pricing := Some(first)))
  {
    hide Built, ListingValidated, Run;
    RunNothing(s, unsupported);
    var a: seq<Operation> := [SetPricing(Some(first))];
    var b := a + [BuildListing];
    var c := b + [SetPricing(Some(second))];
    var d := c + [ValidateListing(i)];
    var e := d + [SetPricing(Some(first))];
    RunAppend(s, [], SetPricing(Some(first)), unsupported);
    assert [] + a == a;
    RunAppend(s, a, BuildListing, unsupported);
    RunAppend(s, b, SetPricing(Some(second)), unsupported);
    RunAppend(s, c, ValidateListing(i), unsupported);
    RunAppend(s, d, SetPricing(Some(first)), unsupported);
    RunAppend(s, e, BuildListing, unsupported);
  }

  /** From every state: a listing that was validated while the price was another can not be approved when the price is
      back, and neither can any other, although the present rows give its key again. */
  lemma PriceThereAndBackBlocks(s: State, first: PricingState, second: PricingState, i: nat,
                                unsupported: (Copy, Facts) -> bool)
    requires Inv(s, unsupported) && first != second
    requires var built := Built(s.(pricing := Some(first)));
      i < |built.listings| && built.listings[i].key == CurrentKey(built)
    ensures var t := Run(s, PriceThereAndBack(first, second, i), unsupported);
      && CurrentKey(t) == CurrentKey(s.(pricing := Some(first)))
      && HasListing(t, CurrentKey(t))
      && !exists j :: CanApproveListing(t, j)
  {
    hide DraftSound, SameDraft, ListingSound, Inv, Run, Step, PriceThereAndBack, CurrentKey, CanApproveListing;
    var priced := s.(pricing := Some(first));
    var built := Built(priced);
    var changed := built.(pricing := Some(second));
    var validated := ListingValidated(changed, i);
    var back := validated.(pricing := Some(first));
    RunThereAndBack(s, first, second, i, unsupported);
    OtherRowsKeepInv(s, priced, unsupported);
    BuiltKeepsInv(priced, unsupported);
    OtherRowsKeepInv(built, changed, unsupported);
    ListingValidatedKeepsInv(changed, i, unsupported);
    OtherRowsKeepInv(validated, back, unsupported);
    KeyIgnoresListings(priced, built);
    KeyIgnoresListings(priced, back);
    KeyIgnoresListings(back, Built(back));
    OtherPriceMakesStale(built, second, i);
    SomeListingApprovableExactlyWhen(back, unsupported);
  }

  lemma OtherPriceMakesStale(s: State, second: PricingState, i: nat)
    requires i < |s.listings| && s.listings[i].key == CurrentKey(s) && s.pricing != Some(second)
    ensures var t := ListingValidated(s.(pricing := Some(second)), i);
      i < |t.listings| && t.listings[i].key == CurrentKey(s) && t.listings[i].readiness == Stale
  {
    var changed := s.(pricing := Some(second));
    assert CurrentKey(changed).pricing == Some(second) && CurrentKey(s).pricing == s.pricing;
    hide CurrentKey;
  }

  /** From empty tables to an approved text and approved images. */
  function Prepared(provider: Provider, facts: Facts): seq<Operation> {
    [GenerateDraft(provider, facts)] + [ValidateDraft(0)] + [ApproveDraft(0, 1)]
    + [CreateImages] + [ValidateImages(0, false)] + [ApproveImages(0, 1)]
  }

  lemma PreparedState(provider: Provider, facts: Facts, unsupported: (Copy, Facts) -> bool)
    requires !unsupported(provider.generate(facts), facts)
    ensures Run(EMPTY, Prepared(provider, facts), unsupported)
            == State([facts],
                     [Draft(facts, provider.generate(facts), provider.name, provider.prompt, Approved, Passed, Some(1),
                            false)],
                     [ImageSet(ImagesApproved, Some(1))], None, [])
  {
    hide Run, Built, ListingValidated, ListingApprovedIn;
    RunNothing(EMPTY, unsupported);
    var a := [GenerateDraft(provider, facts)];
    var b := a + [ValidateDraft(0)];
    var c := b + [ApproveDraft(0, 1)];
    var d := c + [CreateImages];
    var e := d + [ValidateImages(0, false)];
    RunAppend(EMPTY, [], GenerateDraft(provider, facts), unsupported);
    assert [] + a == a;
    RunAppend(EMPTY, a, ValidateDraft(0), unsupported);
    RunAppend(EMPTY, b, ApproveDraft(0, 1), unsupported);
    RunAppend(EMPTY, c, CreateImages, unsupported);
    RunAppend(EMPTY, d, ValidateImages(0, false), unsupported);
    RunAppend(EMPTY, e, ApproveImages(0, 1), unsupported);
  }

  /** A reachable state in which the present rows are ready and nothing can be approved: everything was approved, the
      price went and came back. */
  lemma ReadyRowsCanBeUnapprovable(provider: Provider, facts: Facts, first: PricingState, second: PricingState,
                                   unsupported: (Copy, Facts) -> bool)
    requires !unsupported(provider.generate(facts), facts) && !facts.hasConflicts && first != second
    requires first.price.Some? && first.decision == Active && first.codes == {}
    ensures var t := Run(Run(EMPTY, Prepared(provider, facts), unsupported), PriceThereAndBack(first, second, 0),
                         unsupported);
      && CurrentKey(t).readiness == Ready
      && !exists j :: CanApproveListing(t, j)
  {
    PreparedState(provider, facts, unsupported);
    RunKeepsInv(EMPTY, Prepared(provider, facts), unsupported);
    var s := Run(EMPTY, Prepared(provider, facts), unsupported);
    var priced := s.(pricing := Some(first));
    hide Run, ReasonsFor, EvaluateReadiness;
    assert LatestApproved(DraftStamps(s.drafts)) == Some(0) && LatestApproved(ImageStamps(s.images)) == Some(0);
    ReadyExactlyWhen(Some(s.drafts[0]), Some(s.images[0]), Some(first), Latest(s.facts));
    assert CurrentKey(priced).readiness == Ready;
    KeyIgnoresListings(priced, Built(priced));
    PriceThereAndBackBlocks(s, first, second, 0, unsupported);
  }

  /** A rejection does not outlive the next approval: that asks for a passed validation and the latest facts only. */
  lemma RejectionDoesNotBind(s: State, i: nat, now: Time, unsupported: (Copy, Facts) -> bool)
    requires i < |s.drafts|
    ensures var t := Step(Step(s, RejectDraft(i), unsupported), ApproveDraft(i, now), unsupported);
      t.drafts[i].status == Approved <==> CanApprove(s, i)
  {
  }

  // ---------- The service ----------

  datatype Outcome = Done | NotFound | StaleFacts | ContentInvalid | ImageSetInvalid | PricingNotReady

  class ContentService {
    const unsupported: (Copy, Facts) -> bool
    var facts: seq<Facts>
    var drafts: seq<Draft>
    var images: seq<ImageSet>
    var pricing: Option<PricingState>
    var listings: seq<Listing>

    constructor (unsupported: (Copy, Facts) -> bool)
      ensures Contents() == EMPTY && Valid() && this.unsupported == unsupported
    {
      this.unsupported := unsupported;
      facts, drafts, images, pricing, listings := [], [], [], None, [];
    }

    function Contents(): State
      reads this
    {
      State(facts, drafts, images, pricing, listings)
    }

    ghost predicate Valid()
      reads this
    {
      Inv(Contents(), unsupported)
    }

    method SupersedeStaleContent(current: Facts)
      modifies this`drafts, this`listings
      ensures drafts == MapDrafts(d => SupersededBy(d, current), old(drafts))
      ensures |listings| == |old(listings)|
      ensures forall i | 0 <= i < |listings| :: listings[i] == StaledIfLive(old(listings)[i])
    {
      for i := 0 to |drafts|
        invariant |drafts| == |old(drafts)| && listings == old(listings)
        invariant forall k | 0 <= k < |drafts| ::
                    drafts[k] == if k < i then SupersededBy(old(drafts)[k], current) else old(drafts)[k]
      {
        if drafts[i].facts != current && drafts[i].status == Approved {
          drafts := drafts[i := drafts[i].(status := Superseded, requiresReview := true)];
        }
      }
      for i := 0 to |listings|
        invariant |listings| == |old(listings)|
        invariant drafts == MapDrafts(d => SupersededBy(d, current), old(drafts))
        invariant forall k | 0 <= k < |listings| ::
                    listings[k] == if k < i then StaledIfLive(old(listings)[k]) else old(listings)[k]
      {
        if listings[i].readiness == Ready || listings[i].readiness == ListingApproved {
          listings := listings[i := listings[i].(readiness := Stale, reasons := listings[i].reasons + {FactsChanged})];
        }
      }
    }

    method RebuildContentFacts(current: Facts)
      requires Valid()
      modifies this
      ensures Contents() == Rebuilt(old(Contents()), current) && Valid()
    {
      RebuiltKeepsInv(Contents(), current, unsupported);
      if current in facts {
        return;
      }
      facts := facts + [current];
      SupersedeStaleContent(current);
      assert listings == Rebuilt(old(Contents()), current).listings;
    }

    method GenerateContentDraft(provider: Provider, current: Facts)
      requires Valid()
      modifies this
      ensures Contents() == DraftGenerated(old(Contents()), provider, current) && Valid()
    {
      DraftGeneratedKeepsInv(Contents(), provider, current, unsupported);
      if facts == [] {
        RebuildContentFacts(current);
      }
      var draft := NewDraft(facts[|facts| - 1], provider);
      if HasDraft(drafts, draft) {
        return;
      }
      drafts := drafts + [draft];
    }

    method ValidateContentDraft(i: nat) returns (outcome: Outcome)
      requires Valid()
      modifies this`drafts
      ensures outcome == if i < |old(drafts)| then Done else NotFound
      ensures Contents() == Step(old(Contents()), ValidateDraft(i), unsupported) && Valid()
    {
      StepKeepsInv(Contents(), ValidateDraft(i), unsupported);
      if i >= |drafts| {
        return NotFound;
      }
      var errors := unsupported(drafts[i].copy, drafts[i].facts);
      var draft := drafts[i].(validation := if errors then Failed else Passed);
      draft := draft.(status := if errors then ReviewRequired else DraftStatus.Valid);
      draft := draft.(requiresReview := errors || draft.facts.hasConflicts);
      drafts := drafts[i := draft];
      outcome := Done;
    }

    method ApproveContentDraft(i: nat, now: Time) returns (outcome: Outcome)
      requires Valid()
      modifies this`drafts
      ensures outcome == Done <==> CanApprove(old(Contents()), i)
      ensures outcome == if i >= |old(drafts)| then NotFound
                         else if Latest(facts) != Some(old(drafts)[i].facts) then StaleFacts
                         else if old(drafts)[i].validation != Passed then ContentInvalid
                         else Done
      ensures Contents() == Step(old(Contents()), ApproveDraft(i, now), unsupported) && Valid()
    {
      StepKeepsInv(Contents(), ApproveDraft(i, now), unsupported);
      if i >= |drafts| {
        return NotFound;
      }
      var current := Latest(facts);
      if current.None? || current.value != drafts[i].facts {
        return StaleFacts;
      }
      if drafts[i].validation != Passed {
        return ContentInvalid;
      }
      drafts := drafts[i := drafts[i].(status := Approved, approvedAt := Some(now), requiresReview := false)];
      outcome := Done;
    }

    method RejectContentDraft(i: nat) returns (outcome: Outcome)
      requires Valid()
      modifies this`drafts
      ensures outcome == if i < |old(drafts)| then Done else NotFound
      ensures Contents() == Step(old(Contents()), RejectDraft(i), unsupported) && Valid()
    {
      StepKeepsInv(Contents(), RejectDraft(i), unsupported);
      if i >= |drafts| {
        return NotFound;
      }
      drafts := drafts[i := drafts[i].(status := Rejected)];
      outcome := Done;
    }

    method ApproveImageSet(i: nat, now: Time) returns (outcome: Outcome)
      requires Valid()
      modifies this`images
      ensures outcome == if i >= |old(images)| then NotFound
                         else if old(images)[i].status != ImagesReady then ImageSetInvalid
                         else Done
      ensures Contents() == Step(old(Contents()), ApproveImages(i, now), unsupported) && Valid()
    {
      StepKeepsInv(Contents(), ApproveImages(i, now), unsupported);
      if i >= |images| {
        return NotFound;
      }
      if images[i].status != ImagesReady {
        return ImageSetInvalid;
      }
      images := images[i := images[i].(status := ImagesApproved, approvedAt := Some(now))];
      outcome := Done;
    }

    /** Returns the row whose key is the present one. */
    method BuildGenericListing() returns (i: nat)
      requires Valid()
      modifies this`listings
      ensures Contents() == Built(old(Contents())) && Valid()
      ensures i < |listings| && listings[i].key == CurrentKey(Contents())
    {
      hide CurrentKey, DraftSound, SameDraft, ListingSound;
      BuiltKeepsInv(Contents(), unsupported);
      var listing := NewListing(Contents());
      KeyIgnoresListings(Contents(), Contents().(listings := listings + [listing]));
      if HasListing(Contents(), listing.key) {
        i :| 0 <= i < |listings| && listings[i].key == listing.key;
        return;
      }
      listings := listings + [listing];
      i := |listings| - 1;
    }

    method ValidateListing(i: nat) returns (outcome: Outcome)
      requires Valid()
      modifies this`listings
      ensures outcome == if i < |old(listings)| then Done else NotFound
      ensures Contents() == ListingValidated(old(Contents()), i) && Valid()
    {
      hide CurrentKey, DraftSound, SameDraft, ListingSound;
      ListingValidatedKeepsInv(Contents(), i, unsupported);
      if i >= |listings| {
        return NotFound;
      }
      var rebuilt := BuildGenericListing();
      KeyIgnoresListings(Contents(), old(Contents()));
      if listings[rebuilt].key != listings[i].key {
        listings := listings[i := listings[i].(readiness := Stale, reasons := listings[i].reasons + {FactsChanged})];
      }
      outcome := Done;
    }

    method ApproveListing(i: nat) returns (outcome: Outcome)
      requires Valid()
      modifies this`listings
      ensures Contents() == ListingApprovedIn(old(Contents()), i) && Valid()
      ensures outcome == if i >= |old(listings)| then NotFound
                         else if old(listings)[i].readiness == Ready
                                 && old(listings)[i].key == CurrentKey(old(Contents())) then Done
                         else PricingNotReady
    {
      hide CurrentKey, DraftSound, SameDraft, ListingSound;
      ListingApprovedKeepsInv(Contents(), i, unsupported);
      outcome := ValidateListing(i);
      if outcome == NotFound {
        return;
      }
      if listings[i].readiness != Ready {
        return PricingNotReady;
      }
      listings := listings[i := listings[i].(readiness := ListingApproved)];
    }
  }

  lemma KeyIgnoresListings(s: State, t: State)
    requires s.facts == t.facts && s.drafts == t.drafts && s.images == t.images && s.pricing == t.pricing
    ensures CurrentKey(s) == CurrentKey(t)
  {
  }
}
