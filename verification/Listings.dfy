/** Listing candidates, the lifecycle state machine and the ingestion gate. */
module Listings {
  import opened Wrappers
  import opened Text

  datatype RightsBasis = OwnerSubmitted | PartnerFeed | LicensedData | UnauthorizedScrape

  datatype ListingState = Draft | Active | UnderOffer | Sold | Rented | Withdrawn | Expired

  /** The columns a canonical row copies from a source record. */
  datatype Columns = Columns(
    transactionType: string, propertyType: string, city: string, locality: string, geoCell: string,
    priceMinor: int, areaSqm: real, bedrooms: Option<int>, title: string, description: string)

  datatype Candidate = Candidate(
    listingId: string,
    sourceRef: string,
    publisherId: string,
    rights: RightsBasis,
    columns: Columns,
    imageHashes: seq<string>,
    sourceUpdatedAt: int,
    lastVerifiedAt: int,
    latitude: Option<real>,
    longitude: Option<real>,
    state: ListingState)

  predicate CandidateValid(c: Candidate) {
    && !IsBlank(c.listingId) && !IsBlank(c.sourceRef) && !IsBlank(c.publisherId)
    && c.columns.priceMinor >= 0 && c.columns.areaSqm > 0.0
    && (c.columns.bedrooms.Some? ==> c.columns.bedrooms.value >= 0)
    && c.lastVerifiedAt >= c.sourceUpdatedAt
    && c.latitude.Some? == c.longitude.Some?
    && (c.latitude.Some? ==> -90.0 <= c.latitude.value <= 90.0)
    && (c.longitude.Some? ==> -180.0 <= c.longitude.value <= 180.0)
  }

  /** ensure_ingestion_allowed */
  predicate IngestionAllowed(c: Candidate) {
    CandidateValid(c) && !c.rights.UnauthorizedScrape?
  }

  function AllowedTransitions(s: ListingState): set<ListingState> {
    match s
    case Draft => {Active, Withdrawn}
    case Active => {UnderOffer, Sold, Rented, Withdrawn, Expired}
    case UnderOffer => {Active, Sold, Rented, Withdrawn, Expired}
    case Expired => {Active, Withdrawn}
    case Sold => {}
    case Rented => {}
    case Withdrawn => {}
  }

  /** transition_listing_state: staying put is always allowed; None is its ValueError. */
  function TransitionListing(current: ListingState, target: ListingState): Option<ListingState> {
    if target == current then Some(current)
    else if target !in AllowedTransitions(current) then None
    else Some(target)
  }

  /** The states from which a listing may come into a state: the table of transitions read backwards. */
  function Origins(target: ListingState): set<ListingState> {
    match target
    case Draft => {}
    case Active => {Draft, UnderOffer, Expired}
    case UnderOffer => {Active}
    case Sold => {Active, UnderOffer}
    case Rented => {Active, UnderOffer}
    case Withdrawn => {Draft, Active, UnderOffer, Expired}
    case Expired => {Active, UnderOffer}
  }

  /** A move is accepted exactly if it stays put or leads into the target from a state it may come from. */
  lemma TransitionExactly(current: ListingState, target: ListingState)
    ensures TransitionListing(current, target).Some? <==> current == target || current in Origins(target)
    ensures TransitionListing(current, target).Some? ==> TransitionListing(current, target).value == target
  {
  }

  predicate Final(s: ListingState) { s.Sold? || s.Rented? || s.Withdrawn? }

  lemma FinalStatesAreFinal(s: ListingState, target: ListingState)
    requires Final(s)
    ensures TransitionListing(s, target) == if target == s then Some(s) else None
  {
  }

  /**
   What _source_version_id hashes: location and transaction type are not part of it. The digest is taken as
   collision free, so the hashed fields stand for it.
   */
  datatype SourceKey = SourceKey(
    sourceRef: string, publisherId: string, sourceUpdatedAt: int, lastVerifiedAt: int, state: ListingState,
    priceMinor: int, areaSqm: real, bedrooms: Option<int>, title: string, description: string, imageHashes: seq<string>)

  /** The fields by which two submissions are told apart; the listing id and the rights are not among them. */
  predicate SameSource(a: Candidate, b: Candidate) {
    && a.sourceRef == b.sourceRef && a.publisherId == b.publisherId && a.state == b.state
    && a.sourceUpdatedAt == b.sourceUpdatedAt && a.lastVerifiedAt == b.lastVerifiedAt
    && a.columns.priceMinor == b.columns.priceMinor && a.columns.areaSqm == b.columns.areaSqm
    && a.columns.bedrooms == b.columns.bedrooms && a.columns.title == b.columns.title
    && a.columns.description == b.columns.description && a.imageHashes == b.imageHashes
  }

  lemma KeysExactly(a: Candidate, b: Candidate)
    ensures SourceKeyOf(a) == SourceKeyOf(b) <==> SameSource(a, b)
  {
  }

  function SourceKeyOf(c: Candidate): SourceKey {
    SourceKey(c.sourceRef, c.publisherId, c.sourceUpdatedAt, c.lastVerifiedAt, c.state, c.columns.priceMinor,
              c.columns.areaSqm, c.columns.bedrooms, c.columns.title, c.columns.description, c.imageHashes)
  }
}
