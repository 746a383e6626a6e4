/**
 * The two collections the controllers work on, gigs and bids, the outcomes
 * the handlers report, and the consistency conditions that every handler
 * keeps. Identifiers are natural numbers handed out by two counters, which
 * stand for the database's generation of fresh object ids.
 */
module Store {
  import opened Wrappers

  type UserId = nat
  type GigId = nat
  type BidId = nat

  datatype GigStatus = Open | Assigned
  datatype BidStatus = Pending | Hired | Rejected

  /** A gig record. `winner` is the hired bid once the gig is assigned. */
  datatype Gig = Gig(
    owner: UserId,
    title: string,
    description: string,
    budget: int,
    status: GigStatus,
    winner: Option<BidId>)

  /** A bid record: an offer by `freelancer` on gig `gig`. */
  datatype Bid = Bid(
    gig: GigId,
    freelancer: UserId,
    message: string,
    price: int,
    status: BidStatus)

  /** The whole store: both collections and the next fresh id of each. */
  datatype State = State(
    gigs: map<GigId, Gig>,
    bids: map<BidId, Bid>,
    nextGigId: nat,
    nextBidId: nat)

  /** Every non-success outcome a handler can report. */
  datatype Error =
    | GigNotFound     // 404
    | BidNotFound     // 404
    | Unauthorized    // 401: the requester is not the gig's owner
    | AlreadyAssigned // 400: hiring on a gig that is assigned
    | OwnGig          // 400: bidding on one's own gig
    | NotOpen         // 400: bidding on, editing or deleting a gig that is not open
    | DuplicateBid    // 400: a second bid by the same freelancer on the same gig
    | HasBids         // 400: editing or deleting a gig that has bids
    | InternalError   // 500: a store call threw

  /** The HTTP status each error is reported with. */
  function StatusCode(e: Error): (code: nat)
    ensures code == 404 <==> e == GigNotFound || e == BidNotFound
    ensures code == 401 <==> e == Unauthorized
    ensures code == 500 <==> e == InternalError
    ensures code in {400, 401, 404, 500}
  {
    match e
    case GigNotFound | BidNotFound => 404
    case Unauthorized => 401
    case InternalError => 500
    case _ => 400
  }

  /** The ids of the bids placed on gig `g` (what `countDocuments({gig})` counts). */
  function BidsOf(bids: map<BidId, Bid>, g: GigId): (r: set<BidId>)
    ensures forall b :: b in r <==> b in bids && bids[b].gig == g
  {
    set b | b in bids && bids[b].gig == g
  }

  /** The ids of the bids of gig `g` that have status `st`. */
  function BidsWithStatus(bids: map<BidId, Bid>, g: GigId, st: BidStatus): (r: set<BidId>)
    ensures r <= BidsOf(bids, g)
    ensures forall b :: b in r <==> b in bids && bids[b].gig == g && bids[b].status == st
  {
    set b | b in bids && bids[b].gig == g && bids[b].status == st
  }

  // ---------------------------------------------------------------------
  // Consistency conditions

  /** A gig's winner is set if and only if the gig is assigned. */
  ghost predicate WinnerIffAssigned(s: State) {
    forall g :: g in s.gigs ==> (s.gigs[g].winner.Some? <==> s.gigs[g].status == Assigned)
  }

  /** A gig's winner is a hired bid of that gig. */
  ghost predicate WinnerIsHiredBid(s: State) {
    forall g :: g in s.gigs && s.gigs[g].winner.Some? ==>
      s.gigs[g].winner.value in s.bids &&
      s.bids[s.gigs[g].winner.value].gig == g &&
      s.bids[s.gigs[g].winner.value].status == Hired
  }

  /** A hired bid is its gig's winner (so a gig has at most one hired bid). */
  ghost predicate HiredBidIsWinner(s: State) {
    forall b :: b in s.bids && s.bids[b].status == Hired ==>
      s.bids[b].gig in s.gigs && s.gigs[s.bids[b].gig].winner == Some(b)
  }

  /** An assigned gig has no pending bids. */
  ghost predicate AssignedHasNoPending(s: State) {
    forall b :: b in s.bids && s.bids[b].gig in s.gigs && s.gigs[s.bids[b].gig].status == Assigned ==>
      s.bids[b].status != Pending
  }

  /** An open gig has only pending bids: none hired, none rejected. */
  ghost predicate OpenHasOnlyPending(s: State) {
    forall b :: b in s.bids && s.bids[b].gig in s.gigs && s.gigs[s.bids[b].gig].status == Open ==>
      s.bids[b].status == Pending
  }

  /** No bid references a gig that is not in the store. */
  ghost predicate BidsReferenceGigs(s: State) {
    forall b :: b in s.bids ==> s.bids[b].gig in s.gigs
  }

  /** At most one bid per (gig, freelancer) pair. */
  ghost predicate OneBidPerFreelancer(s: State) {
    forall b1, b2 :: b1 in s.bids && b2 in s.bids && b1 != b2 && s.bids[b1].gig == s.bids[b2].gig ==>
      s.bids[b1].freelancer != s.bids[b2].freelancer
  }

  /** Nobody has a bid on their own gig. */
  ghost predicate NoSelfBids(s: State) {
    forall b :: b in s.bids && s.bids[b].gig in s.gigs ==> s.bids[b].freelancer != s.gigs[s.bids[b].gig].owner
  }

  /** Every id in use is below the corresponding counter. */
  ghost predicate FreshCounters(s: State) {
    (forall g :: g in s.gigs ==> g < s.nextGigId) &&
    (forall b :: b in s.bids ==> b < s.nextBidId)
  }

  ghost predicate Consistent(s: State) {
    && WinnerIffAssigned(s)
    && WinnerIsHiredBid(s)
    && HiredBidIsWinner(s)
    && AssignedHasNoPending(s)
    && OpenHasOnlyPending(s)
    && BidsReferenceGigs(s)
    && OneBidPerFreelancer(s)
    && NoSelfBids(s)
    && FreshCounters(s)
  }

  /** The store before any request. */
  function Empty(): State {
    State(map[], map[], 0, 0)
  }

  lemma EmptyConsistent()
    ensures Consistent(Empty())
  {
  }

  /** In a consistent store a gig has at most one hired bid, and it is the winner. */
  lemma AtMostOneHired(s: State, g: GigId)
    requires Consistent(s)
    ensures |BidsWithStatus(s.bids, g, Hired)| <= 1
    ensures forall b :: b in BidsWithStatus(s.bids, g, Hired) ==> g in s.gigs && s.gigs[g].winner == Some(b)
  {
    var hired := BidsWithStatus(s.bids, g, Hired);
    if hired != {} {
      var b :| b in hired;
      assert hired == {b} by {
        forall b' | b' in hired ensures b' == b {
          assert s.gigs[g].winner == Some(b) && s.gigs[g].winner == Some(b');
        }
      }
    }
  }

  /** An assigned gig in a consistent store has exactly one hired bid and no pending one. */
  lemma AssignedGigHasOneHired(s: State, g: GigId)
    requires Consistent(s)
    requires g in s.gigs && s.gigs[g].status == Assigned
    ensures BidsWithStatus(s.bids, g, Hired) == {s.gigs[g].winner.value}
    ensures BidsWithStatus(s.bids, g, Pending) == {}
  {
  }

  /** The store the controllers share; each handler is a method over it. */
  class Database {
    var gigs: map<GigId, Gig>
    var bids: map<BidId, Bid>
    var nextGigId: nat
    var nextBidId: nat

    function Snapshot(): State
      reads this
    {
      State(gigs, bids, nextGigId, nextBidId)
    }

    ghost predicate Valid()
      reads this
    {
      Consistent(Snapshot())
    }

    constructor ()
      ensures Valid() && Snapshot() == Empty()
    {
      gigs, bids := map[], map[];
      nextGigId, nextBidId := 0, 0;
    }
  }
}
