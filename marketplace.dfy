/**
 * Any sequence of writing requests, each handled by one of the controllers.
 * Read handlers change nothing and are left out of the sequence. Proved
 * here: every reachable store is consistent, only a hire moves a gig out of
 * `open`, and once a gig is assigned neither it nor any of its bids changes
 * again.
 */
module Marketplace {
  import opened Wrappers
  import opened Store
  import BidController
  import GigController

  datatype Request =
    | CreateGigReq(requester: UserId, title: string, description: string, budget: int)
    | UpdateGigReq(requester: UserId, gigId: GigId, edit: GigController.GigEdit)
    | DeleteGigReq(requester: UserId, gigId: GigId)
    | CreateBidReq(requester: UserId, gigId: GigId, message: string, price: int)
    | HireReq(requester: UserId, bidId: BidId, fault: Option<BidController.TxStep>)

  /** The store after one request. */
  function Apply(s: State, req: Request): State {
    match req
    case CreateGigReq(u, title, description, budget) => GigController.AfterCreateGig(s, u, title, description, budget)
    case UpdateGigReq(u, g, edit) => GigController.AfterUpdateGig(s, u, g, edit)
    case DeleteGigReq(u, g) => GigController.AfterDeleteGig(s, u, g)
    case CreateBidReq(u, g, message, price) => BidController.AfterCreateBid(s, u, g, message, price)
    case HireReq(u, b, fault) => BidController.AfterHire(s, u, b, fault)
  }

  /** The store after the requests, handled one after another. */
  function Run(s: State, reqs: seq<Request>): State
    decreases |reqs|
  {
    if reqs == [] then s else Run(Apply(s, reqs[0]), reqs[1..])
  }

  lemma ApplyPreservesConsistent(s: State, req: Request)
    requires Consistent(s)
    ensures Consistent(Apply(s, req))
  {
    match req
    case CreateGigReq(u, title, description, budget) =>
      GigController.CreateGigPreservesConsistent(s, u, title, description, budget);
    case UpdateGigReq(u, g, edit) =>
      GigController.UpdateGigPreservesConsistent(s, u, g, edit);
    case DeleteGigReq(u, g) =>
      GigController.DeleteGigPreservesConsistent(s, u, g);
    case CreateBidReq(u, g, message, price) =>
      BidController.CreateBidPreservesConsistent(s, u, g, message, price);
    case HireReq(u, b, fault) =>
      BidController.HirePreservesConsistent(s, u, b, fault);
  }

  lemma {:induction false} RunPreservesConsistent(s: State, reqs: seq<Request>)
    requires Consistent(s)
    ensures Consistent(Run(s, reqs))
    decreases |reqs|
  {
    if reqs != [] {
      ApplyPreservesConsistent(s, reqs[0]);
      RunPreservesConsistent(Apply(s, reqs[0]), reqs[1..]);
    }
  }

  /** Every store reachable from the empty one satisfies all the consistency conditions:
      winner set iff assigned, at most one hired bid per gig and it is the winner, no pending
      bid on an assigned gig, no bid on a missing gig, one bid per freelancer and gig. */
  lemma ReachableIsConsistent(reqs: seq<Request>)
    ensures Consistent(Run(Empty(), reqs))
  {
    EmptyConsistent();
    RunPreservesConsistent(Empty(), reqs);
  }

  /** Only a hire moves a gig out of `open`. */
  lemma OnlyHireClosesGig(s: State, req: Request, g: GigId)
    requires g in s.gigs && s.gigs[g].status == Open
    requires g in Apply(s, req).gigs && Apply(s, req).gigs[g].status != Open
    ensures req.HireReq?
  {
    match req
    case CreateGigReq(u, title, description, budget) =>
    case UpdateGigReq(u, gid, edit) =>
    case DeleteGigReq(u, gid) =>
    case CreateBidReq(u, gid, message, price) =>
    case HireReq(u, b, fault) =>
  }

  /** Gig `g` and all of its bids are in `t` exactly as in `s`. */
  ghost predicate Frozen(s: State, t: State, g: GigId)
    requires g in s.gigs
  {
    && g in t.gigs && t.gigs[g] == s.gigs[g]
    && BidsOf(t.bids, g) == BidsOf(s.bids, g)
    && forall b :: b in s.bids && s.bids[b].gig == g ==> t.bids[b] == s.bids[b]
  }

  /** No request changes an assigned gig or any of its bids. */
  lemma ApplyKeepsAssignedGig(s: State, req: Request, g: GigId)
    requires Consistent(s)
    requires g in s.gigs && s.gigs[g].status == Assigned
    ensures Frozen(s, Apply(s, req), g)
  {
    var t := Apply(s, req);
    match req
    case CreateGigReq(u, title, description, budget) =>
      assert forall b :: b in s.bids ==> s.bids[b].gig != s.nextGigId;
      assert g != s.nextGigId;
    case UpdateGigReq(u, gid, edit) =>
    case DeleteGigReq(u, gid) =>
    case CreateBidReq(u, gid, message, price) =>
      if BidController.CreateBidCheck(s, u, gid).None? {
        assert s.nextBidId !in s.bids;
        assert gid != g;
      }
    case HireReq(u, b, fault) =>
      if BidController.HireResult(s, u, b, fault).Success? {
        BidController.HireSettlesBids(s, u, b, fault);
        BidController.HireUpdatesOnlyTheGig(s, u, b, fault);
        assert s.bids[b].gig != g;
      }
  }

  /** Once a gig is assigned, no sequence of requests changes it or any of its bids:
      its winner stays, its hired bid stays hired and its rejected bids stay rejected. */
  lemma {:induction false} RunKeepsAssignedGig(s: State, reqs: seq<Request>, g: GigId)
    requires Consistent(s)
    requires g in s.gigs && s.gigs[g].status == Assigned
    ensures Frozen(s, Run(s, reqs), g)
    decreases |reqs|
  {
    if reqs != [] {
      var s' := Apply(s, reqs[0]);
      ApplyKeepsAssignedGig(s, reqs[0], g);
      ApplyPreservesConsistent(s, reqs[0]);
      RunKeepsAssignedGig(s', reqs[1..], g);
    }
  }

  /** After a successful hire, whatever follows, every later hire on a bid of that gig fails;
      the owner is answered AlreadyAssigned unless one of the two lookups throws. */
  lemma HireSucceedsAtMostOnce(s: State, u: UserId, b: BidId, fault: Option<BidController.TxStep>,
                               reqs: seq<Request>, u2: UserId, b2: BidId, fault2: Option<BidController.TxStep>)
    requires Consistent(s)
    requires BidController.HireResult(s, u, b, fault).Success?
    requires var t := Run(BidController.AfterHire(s, u, b, fault), reqs);
      b2 in t.bids && t.bids[b2].gig == s.bids[b].gig
    ensures BidController.HireResult(Run(BidController.AfterHire(s, u, b, fault), reqs), u2, b2, fault2).Failure?
    ensures u2 == u && fault2 != Some(BidController.FindBid) && fault2 != Some(BidController.FindGig) ==>
      BidController.HireResult(Run(BidController.AfterHire(s, u, b, fault), reqs), u2, b2, fault2) == Failure(AlreadyAssigned)
  {
    var s1 := BidController.AfterHire(s, u, b, fault);
    var g := s.bids[b].gig;
    BidController.HirePreservesConsistent(s, u, b, fault);
    BidController.HireUpdatesOnlyTheGig(s, u, b, fault);
    RunKeepsAssignedGig(s1, reqs, g);
  }

  /**
   * Poster 1 creates gig 0; freelancers 2 and 3 bid on it (bids 0 and 1).
   * A stranger's hire of bid 0 is refused with nothing changed; the poster's
   * hire succeeds, hiring bid 0 and rejecting bid 1; a second hire of bid 1
   * is then refused as AlreadyAssigned.
   */
  lemma TwoBidScenario()
    ensures var s := Run(Empty(), [CreateGigReq(1, "Logo", "A logo", 100),
                                   CreateBidReq(2, 0, "Mine", 90),
                                   CreateBidReq(3, 0, "Cheaper", 80)]);
      && BidController.HireResult(s, 4, 0, None) == Failure(Unauthorized)
      && BidController.AfterHire(s, 4, 0, None) == s
      && var t := BidController.AfterHire(s, 1, 0, None);
      && t.gigs[0].status == Assigned && t.gigs[0].winner == Some(0)
      && t.bids[0].status == Hired && t.bids[1].status == Rejected
      && BidController.HireResult(t, 1, 1, None) == Failure(AlreadyAssigned)
  {
  }
}
