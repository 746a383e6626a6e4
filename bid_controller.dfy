/**
 * The bid handlers: placing a bid, the three bid queries, and hiring a
 * freelancer. Hiring runs as one transaction: its steps write to private
 * copies of the two collections, and only the commit replaces the store's
 * contents, so every failure leaves the store as it was.
 */
module BidController {
  import opened Wrappers
  import opened Store

  // ---------------------------------------------------------------------
  // createBid

  /** The first guard of createBid that fails, in the handler's order. */
  function CreateBidCheck(s: State, requester: UserId, gigId: GigId): (r: Option<Error>)
    ensures r.None? <==>
      && gigId in s.gigs && s.gigs[gigId].owner != requester && s.gigs[gigId].status == Open
      && forall b :: b in s.bids && s.bids[b].gig == gigId ==> s.bids[b].freelancer != requester
    ensures r.Some? ==> r.value in {GigNotFound, OwnGig, NotOpen, DuplicateBid}
  {
    if gigId !in s.gigs then Some(GigNotFound)
    else if s.gigs[gigId].owner == requester then Some(OwnGig)
    else if s.gigs[gigId].status != Open then Some(NotOpen)
    else if exists b :: b in s.bids && s.bids[b].gig == gigId && s.bids[b].freelancer == requester then Some(DuplicateBid)
    else None
  }

  /** The store after createBid: one new pending bid under the next bid id, or no change. */
  function AfterCreateBid(s: State, requester: UserId, gigId: GigId, message: string, price: int): (t: State)
    ensures t.gigs == s.gigs && t.nextGigId == s.nextGigId
    ensures t.bids.Keys <= s.bids.Keys + {s.nextBidId}
    ensures forall b :: b in s.bids && b != s.nextBidId ==> b in t.bids && t.bids[b] == s.bids[b]
    ensures CreateBidCheck(s, requester, gigId).Some? ==> t == s
    ensures CreateBidCheck(s, requester, gigId).None? ==>
      && s.nextBidId in t.bids && t.nextBidId == s.nextBidId + 1
      && t.bids[s.nextBidId].freelancer == requester && t.bids[s.nextBidId].status == Pending
  {
    if CreateBidCheck(s, requester, gigId).Some? then s
    else s.(bids := s.bids[s.nextBidId := Bid(gigId, requester, message, price, Pending)],
             nextBidId := s.nextBidId + 1)
  }

  method CreateBid(db: Database, requester: UserId, gigId: GigId, message: string, price: int)
    returns (r: Result<BidId, Error>)
    requires db.Valid()
    modifies db
    ensures db.Valid()
    ensures db.Snapshot() == AfterCreateBid(old(db.Snapshot()), requester, gigId, message, price)
    ensures r.Failure? <==> CreateBidCheck(old(db.Snapshot()), requester, gigId).Some?
    ensures r.Failure? ==> r.error == CreateBidCheck(old(db.Snapshot()), requester, gigId).value
    ensures r.Success? ==> r.value == old(db.nextBidId) && r.value !in old(db.bids) && r.value in db.bids
  {
    if gigId !in db.gigs {
      return Failure(GigNotFound);
    }
    var gig := db.gigs[gigId];
    if gig.owner == requester {
      return Failure(OwnGig);
    }
    if gig.status != Open {
      return Failure(NotOpen);
    }
    // The unique (gig, freelancer) index rejects the insert.
    if exists b :: b in db.bids && db.bids[b].gig == gigId && db.bids[b].freelancer == requester {
      return Failure(DuplicateBid);
    }
    CreateBidPreservesConsistent(db.Snapshot(), requester, gigId, message, price);
    var id := db.nextBidId;
    db.bids := db.bids[id := Bid(gigId, requester, message, price, Pending)];
    db.nextBidId := db.nextBidId + 1;
    r := Success(id);
  }

  /** On success exactly one bid is added: pending, by the requester, on the open gig; nothing else changes. */
  lemma CreateBidAddsOneBid(s: State, requester: UserId, gigId: GigId, message: string, price: int)
    requires Consistent(s)
    requires CreateBidCheck(s, requester, gigId).None?
    ensures var t := AfterCreateBid(s, requester, gigId, message, price);
      && s.nextBidId !in s.bids
      && t.bids.Keys == s.bids.Keys + {s.nextBidId}
      && |t.bids| == |s.bids| + 1
      && t.bids[s.nextBidId] == Bid(gigId, requester, message, price, Pending)
      && (forall b :: b in s.bids ==> t.bids[b] == s.bids[b])
      && t.gigs == s.gigs
      && gigId in s.gigs && s.gigs[gigId].status == Open && s.gigs[gigId].owner != requester
  {
  }

  /** The createBid guards, in order: a missing gig, then the owner's own gig, then a gig that is
      not open, then a second bid by the same freelancer; every refusal changes nothing (the last
      clause restates `AfterCreateBid`'s contract next to the guards). */
  lemma CreateBidGuardOrder(s: State, requester: UserId, gigId: GigId, message: string, price: int)
    ensures gigId !in s.gigs ==> CreateBidCheck(s, requester, gigId) == Some(GigNotFound)
    ensures gigId in s.gigs && s.gigs[gigId].owner == requester ==> CreateBidCheck(s, requester, gigId) == Some(OwnGig)
    ensures (gigId in s.gigs && s.gigs[gigId].owner != requester && s.gigs[gigId].status != Open) ==>
      CreateBidCheck(s, requester, gigId) == Some(NotOpen)
    ensures (gigId in s.gigs && s.gigs[gigId].owner != requester && s.gigs[gigId].status == Open
             && (exists b :: b in s.bids && s.bids[b].gig == gigId && s.bids[b].freelancer == requester)) ==>
      CreateBidCheck(s, requester, gigId) == Some(DuplicateBid)
    ensures CreateBidCheck(s, requester, gigId).Some? ==> AfterCreateBid(s, requester, gigId, message, price) == s
  {
  }

  /** createBid keeps every consistency condition. */
  lemma CreateBidPreservesConsistent(s: State, requester: UserId, gigId: GigId, message: string, price: int)
    requires Consistent(s)
    ensures Consistent(AfterCreateBid(s, requester, gigId, message, price))
  {
  }

  // ---------------------------------------------------------------------
  // Queries

  /** getBidsByGigId: the gig's bids, for its owner only. */
  function GetBidsByGigId(s: State, requester: UserId, gigId: GigId): (r: Result<map<BidId, Bid>, Error>)
    ensures r == Failure(GigNotFound) <==> gigId !in s.gigs
    ensures r == Failure(Unauthorized) <==> gigId in s.gigs && s.gigs[gigId].owner != requester
    ensures r.Success? <==> gigId in s.gigs && s.gigs[gigId].owner == requester
    ensures r.Success? ==> r.value.Keys == BidsOf(s.bids, gigId)
    ensures r.Success? ==> forall b :: b in r.value ==> r.value[b] == s.bids[b]
  {
    if gigId !in s.gigs then Failure(GigNotFound)
    else if s.gigs[gigId].owner != requester then Failure(Unauthorized)
    else Success(map b | b in s.bids && s.bids[b].gig == gigId :: s.bids[b])
  }

  /** getMyBids: every bid the requester has placed. */
  function GetMyBids(s: State, requester: UserId): (r: map<BidId, Bid>)
    ensures forall b :: b in r <==> b in s.bids && s.bids[b].freelancer == requester
    ensures forall b :: b in r ==> r[b] == s.bids[b]
  {
    map b | b in s.bids && s.bids[b].freelancer == requester :: s.bids[b]
  }

  /** getMyBidOnGig: a bid of the requester on the gig (`findOne`), or none. */
  method GetMyBidOnGig(s: State, requester: UserId, gigId: GigId) returns (r: Option<BidId>)
    ensures r.Some? ==> r.value in s.bids && s.bids[r.value].gig == gigId && s.bids[r.value].freelancer == requester
    ensures r.None? ==> forall b :: b in s.bids ==> !(s.bids[b].gig == gigId && s.bids[b].freelancer == requester)
  {
    if exists b :: b in s.bids && s.bids[b].gig == gigId && s.bids[b].freelancer == requester {
      var b :| b in s.bids && s.bids[b].gig == gigId && s.bids[b].freelancer == requester;
      r := Some(b);
    } else {
      r := None;
    }
  }

  /** In a consistent store the bid getMyBidOnGig finds is the only one: it is the
      requester's entry among the owner's view of the gig's bids. */
  lemma MyBidOnGigIsUnique(s: State, requester: UserId, gigId: GigId, b: BidId)
    requires Consistent(s)
    requires b in s.bids && s.bids[b].gig == gigId && s.bids[b].freelancer == requester
    ensures BidsOf(s.bids, gigId) * GetMyBids(s, requester).Keys == {b}
  {
  }

  /** The owner of a gig never finds their own bids among its bids. */
  lemma OwnerHasNoBidOnOwnGig(s: State, gigId: GigId)
    requires Consistent(s)
    requires gigId in s.gigs
    ensures BidsOf(s.bids, gigId) * GetMyBids(s, s.gigs[gigId].owner).Keys == {}
  {
  }

  // ---------------------------------------------------------------------
  // hireFreelancer

  /** The awaited store calls of hireFreelancer; any one of them may throw. */
  datatype TxStep = FindBid | FindGig | SaveGig | SaveBid | UpdateOthers | Commit

  /** The real-time event emitted to the hired freelancer's room. */
  datatype Notification = Notification(recipient: UserId, gigId: GigId, gigTitle: string, message: string)

  /** The gig as the hire leaves it. */
  function Assign(gig: Gig, bidId: BidId): (r: Gig)
    ensures r.status == Assigned && r.winner == Some(bidId)
    ensures r.owner == gig.owner && r.title == gig.title && r.description == gig.description && r.budget == gig.budget
  {
    gig.(status := Assigned, winner := Some(bidId))
  }

  /** `updateMany({gig: g, _id: {$ne: w}}, {$set: {status: 'rejected'}})`. */
  function SiblingsRejected(bids: map<BidId, Bid>, g: GigId, w: BidId): (r: map<BidId, Bid>)
    ensures r.Keys == bids.Keys
    ensures forall k :: k in bids ==> r[k] == bids[k].(status := r[k].status)
    ensures forall k :: k in bids && bids[k].gig != g ==> r[k] == bids[k]
    ensures w in bids ==> r[w] == bids[w]
    ensures forall k :: k in bids && k != w && bids[k].gig == g ==> r[k].status == Rejected
  {
    map k | k in bids :: if k != w && bids[k].gig == g then bids[k].(status := Rejected) else bids[k]
  }

  /**
   * The answer hireFreelancer gives. `fault` is the store call that throws,
   * if any: a throw turns the answer into InternalError, but a guard that
   * fails before the throwing call is reached answers first.
   */
  function HireResult(s: State, requester: UserId, bidId: BidId, fault: Option<TxStep>): (r: Result<Gig, Error>)
    ensures r.Success? ==> bidId in s.bids && s.bids[bidId].gig in s.gigs
    ensures r.Success? ==> fault.None? && r.value.status == Assigned && r.value.winner == Some(bidId)
    ensures r.Success? ==> r.value.owner == requester
    ensures r == Failure(InternalError) ==> fault.Some?
    ensures fault == Some(FindBid) ==> r == Failure(InternalError)
    ensures bidId in s.bids && fault == Some(FindGig) ==> r == Failure(InternalError)
    ensures (bidId in s.bids && s.bids[bidId].gig in s.gigs && s.gigs[s.bids[bidId].gig].owner == requester
             && s.gigs[s.bids[bidId].gig].status == Open && fault.Some?) ==> r == Failure(InternalError)
  {
    if fault == Some(FindBid) then Failure(InternalError)
    else if bidId !in s.bids then Failure(BidNotFound)
    else if fault == Some(FindGig) then Failure(InternalError)
    else if s.bids[bidId].gig !in s.gigs then Failure(GigNotFound)
    else
      var gig := s.gigs[s.bids[bidId].gig];
      if gig.owner != requester then Failure(Unauthorized)
      else if gig.status == Assigned then Failure(AlreadyAssigned)
      else if fault.Some? then Failure(InternalError)
      else Success(Assign(gig, bidId))
  }

  /** The committed state of a hire of bid `bidId`. */
  function HireCommit(s: State, bidId: BidId): (t: State)
    requires bidId in s.bids && s.bids[bidId].gig in s.gigs
    ensures t.gigs.Keys == s.gigs.Keys && t.bids.Keys == s.bids.Keys
    ensures t.nextGigId == s.nextGigId && t.nextBidId == s.nextBidId
    ensures t.gigs[s.bids[bidId].gig].winner == Some(bidId) && t.bids[bidId].status == Hired
  {
    var g := s.bids[bidId].gig;
    s.(gigs := s.gigs[g := Assign(s.gigs[g], bidId)],
       bids := SiblingsRejected(s.bids[bidId := s.bids[bidId].(status := Hired)], g, bidId))
  }

  /** The store after hireFreelancer: the committed state on success, otherwise unchanged. */
  function AfterHire(s: State, requester: UserId, bidId: BidId, fault: Option<TxStep>): (t: State)
    ensures t.gigs.Keys == s.gigs.Keys && t.bids.Keys == s.bids.Keys
    ensures t.nextGigId == s.nextGigId && t.nextBidId == s.nextBidId
    ensures HireResult(s, requester, bidId, fault).Failure? ==> t == s
  {
    if HireResult(s, requester, bidId, fault).Success? then HireCommit(s, bidId) else s
  }

  /** The event sent after a successful commit. */
  function HireNotice(s: State, bidId: BidId): (n: Notification)
    requires bidId in s.bids && s.bids[bidId].gig in s.gigs
    ensures n.recipient == s.bids[bidId].freelancer && n.gigId == s.bids[bidId].gig
    ensures n.gigTitle == s.gigs[s.bids[bidId].gig].title
  {
    var g := s.bids[bidId].gig;
    Notification(s.bids[bidId].freelancer, g, s.gigs[g].title,
                 "Congratulations! You have been hired for " + s.gigs[g].title)
  }

  /** The bulk update of step 3, applied to the transaction's copy of the bids. */
  method RejectSiblings(bids: map<BidId, Bid>, g: GigId, w: BidId) returns (out: map<BidId, Bid>)
    ensures out == SiblingsRejected(bids, g, w)
  {
    out := bids;
    var todo := bids.Keys;
    while todo != {}
      invariant todo <= bids.Keys
      invariant out.Keys == bids.Keys
      invariant forall k :: k in todo ==> out[k] == bids[k]
      invariant forall k :: k in bids && k !in todo ==> out[k] == SiblingsRejected(bids, g, w)[k]
      decreases todo
    {
      var k :| k in todo;
      if k != w && bids[k].gig == g {
        out := out[k := bids[k].(status := Rejected)];
      }
      todo := todo - {k};
    }
  }

  /**
   * hireFreelancer. `ioPresent` says whether a socket server is attached;
   * the event is returned instead of being delivered.
   */
  method HireFreelancer(db: Database, requester: UserId, bidId: BidId, fault: Option<TxStep>, ioPresent: bool)
    returns (r: Result<Gig, Error>, note: Option<Notification>)
    requires db.Valid()
    modifies db
    ensures db.Valid()
    ensures r == HireResult(old(db.Snapshot()), requester, bidId, fault)
    ensures db.Snapshot() == AfterHire(old(db.Snapshot()), requester, bidId, fault)
    ensures r.Failure? ==> db.Snapshot() == old(db.Snapshot()) && note == None
    ensures note == if r.Success? && ioPresent then Some(HireNotice(old(db.Snapshot()), bidId)) else None
  {
    ghost var s := db.Snapshot();
    // The transaction's view of the two collections.
    var txGigs, txBids := db.gigs, db.bids;

    if fault == Some(FindBid) {
      return Failure(InternalError), None;
    }
    if bidId !in txBids {
      return Failure(BidNotFound), None;
    }
    var bid := txBids[bidId];
    if fault == Some(FindGig) {
      return Failure(InternalError), None;
    }
    if bid.gig !in txGigs {
      return Failure(GigNotFound), None;
    }
    var gig := txGigs[bid.gig];
    if gig.owner != requester {
      return Failure(Unauthorized), None;
    }
    if gig.status == Assigned {
      return Failure(AlreadyAssigned), None;
    }
    r, note := HireTransaction(db, requester, bidId, fault, ioPresent);
    HirePreservesConsistent(s, requester, bidId, fault);
  }

  /**
   * The writing part of hireFreelancer, reached once the bid and its gig
   * are found, the requester owns the gig and it is open: the three writes
   * on copies of the collections, then the commit and the event.
   */
  method HireTransaction(db: Database, requester: UserId, bidId: BidId, fault: Option<TxStep>, ioPresent: bool)
    returns (r: Result<Gig, Error>, note: Option<Notification>)
    requires bidId in db.bids && db.bids[bidId].gig in db.gigs
    requires db.gigs[db.bids[bidId].gig].owner == requester && db.gigs[db.bids[bidId].gig].status == Open
    requires fault != Some(FindBid) && fault != Some(FindGig)
    modifies db
    ensures r == HireResult(old(db.Snapshot()), requester, bidId, fault)
    ensures db.Snapshot() == AfterHire(old(db.Snapshot()), requester, bidId, fault)
    ensures r.Failure? ==> db.Snapshot() == old(db.Snapshot()) && note == None
    ensures note == if r.Success? && ioPresent then Some(HireNotice(old(db.Snapshot()), bidId)) else None
  {
    var s0 := db.Snapshot();
    var txGigs, txBids := db.gigs, db.bids;
    var bid := txBids[bidId];
    var gig := txGigs[bid.gig];

    // 1. the gig
    gig := gig.(status := Assigned, winner := Some(bidId));
    txGigs := txGigs[bid.gig := gig];
    if fault == Some(SaveGig) {
      return Failure(InternalError), None;
    }
    // 2. the winning bid
    bid := bid.(status := Hired);
    txBids := txBids[bidId := bid];
    if fault == Some(SaveBid) {
      return Failure(InternalError), None;
    }
    // 3. the other bids of the gig
    txBids := RejectSiblings(txBids, bid.gig, bidId);
    if fault == Some(UpdateOthers) {
      return Failure(InternalError), None;
    }
    if fault == Some(Commit) {
      return Failure(InternalError), None;
    }
    assert fault == None by {
      match fault
      case None =>
      case Some(step) =>
        match step
        case FindBid =>
        case FindGig =>
        case SaveGig =>
        case SaveBid =>
        case UpdateOthers =>
        case Commit =>
    }
    db.gigs, db.bids := txGigs, txBids;

    r := Success(gig);
    note := if ioPresent then Some(HireNotice(s0, bidId)) else None;
  }

  // ---------------------------------------------------------------------
  // Properties of hiring

  /** Every failure, a thrown store call included, leaves the whole store unchanged.
      This is `AfterHire`'s own contract, restated as a lemma about hireFreelancer's outcome. */
  lemma HireFailureChangesNothing(s: State, requester: UserId, bidId: BidId, fault: Option<TxStep>)
    requires HireResult(s, requester, bidId, fault).Failure?
    ensures AfterHire(s, requester, bidId, fault) == s
  {
  }

  /** The guards, in order: a missing bid, then a missing gig, then a non-owner, then an assigned gig. */
  lemma HireGuardOrder(s: State, requester: UserId, bidId: BidId, fault: Option<TxStep>)
    requires fault != Some(FindBid)
    ensures bidId !in s.bids ==> HireResult(s, requester, bidId, fault) == Failure(BidNotFound)
    ensures bidId in s.bids && fault != Some(FindGig) && s.bids[bidId].gig !in s.gigs ==>
      HireResult(s, requester, bidId, fault) == Failure(GigNotFound)
    ensures (bidId in s.bids && fault != Some(FindGig) && s.bids[bidId].gig in s.gigs
             && s.gigs[s.bids[bidId].gig].owner != requester) ==>
      HireResult(s, requester, bidId, fault) == Failure(Unauthorized)
    ensures (bidId in s.bids && fault != Some(FindGig) && s.bids[bidId].gig in s.gigs
             && s.gigs[s.bids[bidId].gig].owner == requester && s.gigs[s.bids[bidId].gig].status == Assigned) ==>
      HireResult(s, requester, bidId, fault) == Failure(AlreadyAssigned)
  {
  }

  /** A hire succeeds exactly when no store call throws and every guard passes. */
  lemma HireSucceedsIff(s: State, requester: UserId, bidId: BidId, fault: Option<TxStep>)
    ensures HireResult(s, requester, bidId, fault).Success? <==>
      && fault == None
      && bidId in s.bids
      && s.bids[bidId].gig in s.gigs
      && s.gigs[s.bids[bidId].gig].owner == requester
      && s.gigs[s.bids[bidId].gig].status == Open
  {
  }

  /** Success updates exactly the bid's gig: assigned, with the bid as winner, its other fields kept. */
  lemma HireUpdatesOnlyTheGig(s: State, requester: UserId, bidId: BidId, fault: Option<TxStep>)
    requires HireResult(s, requester, bidId, fault).Success?
    ensures var t := AfterHire(s, requester, bidId, fault); var g := s.bids[bidId].gig;
      && t.gigs.Keys == s.gigs.Keys
      && t.gigs[g].status == Assigned && t.gigs[g].winner == Some(bidId)
      && t.gigs[g].owner == s.gigs[g].owner && t.gigs[g].title == s.gigs[g].title
      && t.gigs[g].description == s.gigs[g].description && t.gigs[g].budget == s.gigs[g].budget
      && (forall h :: h in s.gigs && h != g ==> t.gigs[h] == s.gigs[h])
      && HireResult(s, requester, bidId, fault).value == t.gigs[g]
      && t.nextGigId == s.nextGigId && t.nextBidId == s.nextBidId
  {
  }

  /** Success hires the bid, rejects every other bid of its gig, and leaves every other bid alone. */
  lemma HireSettlesBids(s: State, requester: UserId, bidId: BidId, fault: Option<TxStep>)
    requires HireResult(s, requester, bidId, fault).Success?
    ensures var t := AfterHire(s, requester, bidId, fault); var g := s.bids[bidId].gig;
      && t.bids.Keys == s.bids.Keys
      && t.bids[bidId] == s.bids[bidId].(status := Hired)
      && (forall b :: b in s.bids && b != bidId && s.bids[b].gig == g ==> t.bids[b] == s.bids[b].(status := Rejected))
      && (forall b :: b in s.bids && s.bids[b].gig != g ==> t.bids[b] == s.bids[b])
  {
  }

  /** After a successful hire exactly one bid of the gig is hired, the winner, and none is pending.
      The count clause follows from the one before it and is kept as the property stated outright. */
  lemma HireLeavesOneHiredNoPending(s: State, requester: UserId, bidId: BidId, fault: Option<TxStep>)
    requires HireResult(s, requester, bidId, fault).Success?
    ensures var t := AfterHire(s, requester, bidId, fault); var g := s.bids[bidId].gig;
      && BidsWithStatus(t.bids, g, Hired) == {bidId}
      && |BidsWithStatus(t.bids, g, Hired)| == 1
      && BidsWithStatus(t.bids, g, Pending) == {}
  {
  }

  /** Once a hire has succeeded, no later hire on a bid of the same gig succeeds; the owner gets AlreadyAssigned. */
  lemma SecondHireFails(s: State, requester: UserId, bidId: BidId, fault: Option<TxStep>,
                        requester2: UserId, bidId2: BidId, fault2: Option<TxStep>)
    requires HireResult(s, requester, bidId, fault).Success?
    requires bidId2 in s.bids && s.bids[bidId2].gig == s.bids[bidId].gig
    ensures var t := AfterHire(s, requester, bidId, fault);
      && HireResult(t, requester2, bidId2, fault2).Failure?
      && AfterHire(t, requester2, bidId2, fault2) == t
      && (requester2 == requester && fault2 != Some(FindBid) && fault2 != Some(FindGig) ==>
           HireResult(t, requester2, bidId2, fault2) == Failure(AlreadyAssigned))
  {
  }

  /** A successful hire keeps the three conditions that tie a gig's winner to its hired bid. */
  lemma HireKeepsWinnerConditions(s: State, requester: UserId, bidId: BidId, fault: Option<TxStep>)
    requires Consistent(s)
    requires HireResult(s, requester, bidId, fault).Success?
    ensures var t := AfterHire(s, requester, bidId, fault);
      WinnerIffAssigned(t) && WinnerIsHiredBid(t) && HiredBidIsWinner(t)
  {
    // These steps are not needed for the proof; they keep its resource cost low.
    var t := AfterHire(s, requester, bidId, fault);
    var g := s.bids[bidId].gig;
    HireSettlesBids(s, requester, bidId, fault);
    HireUpdatesOnlyTheGig(s, requester, bidId, fault);
    assert WinnerIsHiredBid(t) by {
      forall h | h in t.gigs && t.gigs[h].winner.Some?
        ensures t.gigs[h].winner.value in t.bids && t.bids[t.gigs[h].winner.value].gig == h
          && t.bids[t.gigs[h].winner.value].status == Hired
      {
        if h != g {
          var w := s.gigs[h].winner.value;
          assert w in s.bids && s.bids[w].gig == h;
        }
      }
    }
    assert HiredBidIsWinner(t) by {
      forall b | b in t.bids && t.bids[b].status == Hired
        ensures t.bids[b].gig in t.gigs && t.gigs[t.bids[b].gig].winner == Some(b)
      {
        if b != bidId && s.bids[b].gig != g {
          assert s.bids[b].status == Hired;
        }
      }
    }
  }

  /** A successful hire keeps the conditions on bids: their statuses, owners and gigs, and the counters. */
  lemma HireKeepsBidConditions(s: State, requester: UserId, bidId: BidId, fault: Option<TxStep>)
    requires Consistent(s)
    requires HireResult(s, requester, bidId, fault).Success?
    ensures var t := AfterHire(s, requester, bidId, fault);
      && AssignedHasNoPending(t) && OpenHasOnlyPending(t) && BidsReferenceGigs(t)
      && OneBidPerFreelancer(t) && NoSelfBids(t) && FreshCounters(t)
  {
    // These steps are not needed for the proof; they keep its resource cost low.
    var t := AfterHire(s, requester, bidId, fault);
    var g := s.bids[bidId].gig;
    HireSettlesBids(s, requester, bidId, fault);
    HireUpdatesOnlyTheGig(s, requester, bidId, fault);
    assert OneBidPerFreelancer(t) by {
      forall b1, b2 | b1 in t.bids && b2 in t.bids && b1 != b2 && t.bids[b1].gig == t.bids[b2].gig
        ensures t.bids[b1].freelancer != t.bids[b2].freelancer
      {
        assert s.bids[b1].gig == s.bids[b2].gig;
      }
    }
    assert OpenHasOnlyPending(t) by {
      forall b | b in t.bids && t.bids[b].gig in t.gigs && t.gigs[t.bids[b].gig].status == Open
        ensures t.bids[b].status == Pending
      {
        assert s.bids[b].gig != g;
      }
    }
  }

  /** hireFreelancer keeps every consistency condition. */
  lemma HirePreservesConsistent(s: State, requester: UserId, bidId: BidId, fault: Option<TxStep>)
    requires Consistent(s)
    ensures Consistent(AfterHire(s, requester, bidId, fault))
  {
    // Split in two only to keep each proof's resource cost low.
    if HireResult(s, requester, bidId, fault).Success? {
      HireKeepsWinnerConditions(s, requester, bidId, fault);
      HireKeepsBidConditions(s, requester, bidId, fault);
    }
  }
}
