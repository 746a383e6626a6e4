/**
 * The gig handlers: the two listings, reading one gig, creating a gig, and
 * editing or deleting a gig, which only its owner may do, only while it is
 * open and only while nobody has bid on it.
 */
module GigController {
  import opened Wrappers
  import opened Store

  // ---------------------------------------------------------------------
  // Queries

  /** getAllGigs (without the title search): the open gigs. */
  function GetAllGigs(s: State): (r: map<GigId, Gig>)
    ensures forall g :: g in r <==> g in s.gigs && s.gigs[g].status == Open
    ensures forall g :: g in r ==> r[g] == s.gigs[g]
  {
    map g | g in s.gigs && s.gigs[g].status == Open :: s.gigs[g]
  }

  /** getMyGigs: the gigs the requester owns, whatever their status. */
  function GetMyGigs(s: State, requester: UserId): (r: map<GigId, Gig>)
    ensures forall g :: g in r <==> g in s.gigs && s.gigs[g].owner == requester
    ensures forall g :: g in r ==> r[g] == s.gigs[g]
  {
    map g | g in s.gigs && s.gigs[g].owner == requester :: s.gigs[g]
  }

  /** getGigById. */
  function GetGigById(s: State, gigId: GigId): (r: Result<Gig, Error>)
    ensures r.Success? <==> gigId in s.gigs
    ensures r.Success? ==> r.value == s.gigs[gigId]
    ensures r.Failure? ==> r.error == GigNotFound
  {
    if gigId in s.gigs then Success(s.gigs[gigId]) else Failure(GigNotFound)
  }

  /** getGigById agrees with both listings: a listed gig is found with the listed value. */
  lemma GigByIdAgreesWithListings(s: State, requester: UserId, gigId: GigId)
    ensures gigId in GetAllGigs(s) ==> GetGigById(s, gigId) == Success(GetAllGigs(s)[gigId])
    ensures gigId in GetMyGigs(s, requester) ==> GetGigById(s, gigId) == Success(GetMyGigs(s, requester)[gigId])
    ensures GetGigById(s, gigId).Success? && GetGigById(s, gigId).value.status == Open ==> gigId in GetAllGigs(s)
  {
  }

  /** In a consistent store the public listing is exactly the gigs without a winner,
      and every bid on a listed gig is still pending. */
  lemma ListedGigsAreUnassigned(s: State)
    requires Consistent(s)
    ensures forall g :: g in GetAllGigs(s) <==> g in s.gigs && s.gigs[g].winner.None?
    ensures forall b :: b in s.bids && s.bids[b].gig in GetAllGigs(s) ==> s.bids[b].status == Pending
  {
  }

  // ---------------------------------------------------------------------
  // createGig

  /** The store after createGig: one new open gig without a winner under the next gig id. */
  function AfterCreateGig(s: State, requester: UserId, title: string, description: string, budget: int): (t: State)
    ensures t.bids == s.bids && t.nextBidId == s.nextBidId && t.nextGigId == s.nextGigId + 1
    ensures s.nextGigId in t.gigs && t.gigs[s.nextGigId].owner == requester
    ensures t.gigs[s.nextGigId].status == Open && t.gigs[s.nextGigId].winner.None?
    ensures forall g :: g in s.gigs && g != s.nextGigId ==> g in t.gigs && t.gigs[g] == s.gigs[g]
  {
    s.(gigs := s.gigs[s.nextGigId := Gig(requester, title, description, budget, Open, None)],
       nextGigId := s.nextGigId + 1)
  }

  method CreateGig(db: Database, requester: UserId, title: string, description: string, budget: int)
    returns (id: GigId)
    requires db.Valid()
    modifies db
    ensures db.Valid()
    ensures db.Snapshot() == AfterCreateGig(old(db.Snapshot()), requester, title, description, budget)
    ensures id == old(db.nextGigId) && id !in old(db.gigs) && id in db.gigs
  {
    CreateGigPreservesConsistent(db.Snapshot(), requester, title, description, budget);
    id := db.nextGigId;
    db.gigs := db.gigs[id := Gig(requester, title, description, budget, Open, None)];
    db.nextGigId := db.nextGigId + 1;
  }

  /** createGig adds exactly one gig, owned by the requester, and changes no existing gig and no bid. */
  lemma CreateGigAddsOneGig(s: State, requester: UserId, title: string, description: string, budget: int)
    requires FreshCounters(s)
    ensures s.nextGigId !in s.gigs
    ensures AfterCreateGig(s, requester, title, description, budget).gigs.Keys == s.gigs.Keys + {s.nextGigId}
    ensures |AfterCreateGig(s, requester, title, description, budget).gigs| == |s.gigs| + 1
    ensures AfterCreateGig(s, requester, title, description, budget).gigs[s.nextGigId]
      == Gig(requester, title, description, budget, Open, None)
    ensures forall g :: g in s.gigs ==> AfterCreateGig(s, requester, title, description, budget).gigs[g] == s.gigs[g]
    ensures AfterCreateGig(s, requester, title, description, budget).bids == s.bids
  {
  }

  /** After createGig the requester's listing holds the new gig besides the ones it held. */
  lemma CreateGigListedForOwner(s: State, requester: UserId, title: string, description: string, budget: int)
    ensures GetMyGigs(AfterCreateGig(s, requester, title, description, budget), requester).Keys
      == GetMyGigs(s, requester).Keys + {s.nextGigId}
  {
  }

  /** createGig keeps every consistency condition. */
  lemma CreateGigPreservesConsistent(s: State, requester: UserId, title: string, description: string, budget: int)
    requires Consistent(s)
    ensures Consistent(AfterCreateGig(s, requester, title, description, budget))
  {
  }

  // ---------------------------------------------------------------------
  // updateGig and deleteGig

  /** The guard chain updateGig and deleteGig share: first failure, in the handlers' order. */
  function EditCheck(s: State, requester: UserId, gigId: GigId): (r: Option<Error>)
    ensures r.None? <==>
      && gigId in s.gigs && s.gigs[gigId].owner == requester && s.gigs[gigId].status == Open
      && forall b :: b in s.bids ==> s.bids[b].gig != gigId
    ensures r.Some? ==> r.value in {GigNotFound, Unauthorized, NotOpen, HasBids}
  {
    if gigId !in s.gigs then Some(GigNotFound)
    else if s.gigs[gigId].owner != requester then Some(Unauthorized)
    else if s.gigs[gigId].status != Open then Some(NotOpen)
    else if |BidsOf(s.bids, gigId)| > 0 then Some(HasBids)
    else None
  }

  /** The fields of an edit request; a missing field is None. */
  datatype GigEdit = GigEdit(title: Option<string>, description: Option<string>, budget: Option<int>)

  /** `given || current` for a string field: an absent or empty string keeps the current value. */
  function OrText(given: Option<string>, current: string): (r: string)
    ensures r == current || (given.Some? && r == given.value)
    ensures current != "" ==> r != ""
  {
    if given.Some? && given.value != "" then given.value else current
  }

  /** `given || current` for the budget: an absent or zero budget keeps the current value. */
  function OrBudget(given: Option<int>, current: int): (r: int)
    ensures r == current || (given.Some? && r == given.value)
    ensures current != 0 ==> r != 0
  {
    if given.Some? && given.value != 0 then given.value else current
  }

  /** The gig as updateGig leaves it. */
  function Edited(gig: Gig, edit: GigEdit): (e: Gig)
    ensures e.owner == gig.owner && e.status == gig.status && e.winner == gig.winner
  {
    gig.(title := OrText(edit.title, gig.title),
         description := OrText(edit.description, gig.description),
         budget := OrBudget(edit.budget, gig.budget))
  }

  /** The store after updateGig. */
  function AfterUpdateGig(s: State, requester: UserId, gigId: GigId, edit: GigEdit): (t: State)
    ensures t.bids == s.bids && t.gigs.Keys == s.gigs.Keys
    ensures t.nextGigId == s.nextGigId && t.nextBidId == s.nextBidId
    ensures forall g :: g in s.gigs ==>
      t.gigs[g].owner == s.gigs[g].owner && t.gigs[g].status == s.gigs[g].status && t.gigs[g].winner == s.gigs[g].winner
    ensures forall g :: g in s.gigs && g != gigId ==> t.gigs[g] == s.gigs[g]
  {
    if EditCheck(s, requester, gigId).Some? then s
    else s.(gigs := s.gigs[gigId := Edited(s.gigs[gigId], edit)])
  }

  /** The store after deleteGig. */
  function AfterDeleteGig(s: State, requester: UserId, gigId: GigId): (t: State)
    ensures t.bids == s.bids && t.nextGigId == s.nextGigId && t.nextBidId == s.nextBidId
    ensures t.gigs.Keys <= s.gigs.Keys && s.gigs.Keys - t.gigs.Keys <= {gigId}
    ensures forall g :: g in t.gigs ==> t.gigs[g] == s.gigs[g]
  {
    if EditCheck(s, requester, gigId).Some? then s
    else s.(gigs := s.gigs - {gigId})
  }

  method UpdateGig(db: Database, requester: UserId, gigId: GigId, edit: GigEdit) returns (r: Result<Gig, Error>)
    requires db.Valid()
    modifies db
    ensures db.Valid()
    ensures db.Snapshot() == AfterUpdateGig(old(db.Snapshot()), requester, gigId, edit)
    ensures r.Failure? <==> EditCheck(old(db.Snapshot()), requester, gigId).Some?
    ensures r.Failure? ==> r.error == EditCheck(old(db.Snapshot()), requester, gigId).value
    ensures r.Success? ==> gigId in db.gigs && r.value == db.gigs[gigId]
  {
    if gigId !in db.gigs {
      return Failure(GigNotFound);
    }
    var gig := db.gigs[gigId];
    if gig.owner != requester {
      return Failure(Unauthorized);
    }
    if gig.status != Open {
      return Failure(NotOpen);
    }
    if |BidsOf(db.bids, gigId)| > 0 {
      return Failure(HasBids);
    }
    UpdateGigPreservesConsistent(db.Snapshot(), requester, gigId, edit);
    gig := gig.(title := OrText(edit.title, gig.title));
    gig := gig.(description := OrText(edit.description, gig.description));
    gig := gig.(budget := OrBudget(edit.budget, gig.budget));
    db.gigs := db.gigs[gigId := gig];
    r := Success(gig);
  }

  method DeleteGig(db: Database, requester: UserId, gigId: GigId) returns (r: Result<(), Error>)
    requires db.Valid()
    modifies db
    ensures db.Valid()
    ensures db.Snapshot() == AfterDeleteGig(old(db.Snapshot()), requester, gigId)
    ensures r.Failure? <==> EditCheck(old(db.Snapshot()), requester, gigId).Some?
    ensures r.Failure? ==> r.error == EditCheck(old(db.Snapshot()), requester, gigId).value
  {
    if gigId !in db.gigs {
      return Failure(GigNotFound);
    }
    var gig := db.gigs[gigId];
    if gig.owner != requester {
      return Failure(Unauthorized);
    }
    if gig.status != Open {
      return Failure(NotOpen);
    }
    if |BidsOf(db.bids, gigId)| > 0 {
      return Failure(HasBids);
    }
    DeleteGigPreservesConsistent(db.Snapshot(), requester, gigId);
    db.gigs := db.gigs - {gigId};
    r := Success(());
  }

  /** The edit guards, in order; a failing guard changes nothing. */
  lemma EditGuardOrder(s: State, requester: UserId, gigId: GigId, edit: GigEdit)
    ensures gigId !in s.gigs ==> EditCheck(s, requester, gigId) == Some(GigNotFound)
    ensures gigId in s.gigs && s.gigs[gigId].owner != requester ==> EditCheck(s, requester, gigId) == Some(Unauthorized)
    ensures (gigId in s.gigs && s.gigs[gigId].owner == requester && s.gigs[gigId].status != Open) ==>
      EditCheck(s, requester, gigId) == Some(NotOpen)
    ensures (gigId in s.gigs && s.gigs[gigId].owner == requester && s.gigs[gigId].status == Open
             && (exists b :: b in s.bids && s.bids[b].gig == gigId)) ==>
      EditCheck(s, requester, gigId) == Some(HasBids)
    ensures EditCheck(s, requester, gigId).Some? ==>
      AfterUpdateGig(s, requester, gigId, edit) == s && AfterDeleteGig(s, requester, gigId) == s
  {
  }

  /** A successful edit passes every guard: the requester owns the open gig and nobody has bid on it.
      This restates one direction of `EditCheck`'s contract as a lemma about an allowed edit. */
  lemma EditAllowedMeans(s: State, requester: UserId, gigId: GigId)
    requires EditCheck(s, requester, gigId).None?
    ensures gigId in s.gigs && s.gigs[gigId].owner == requester && s.gigs[gigId].status == Open
    ensures forall b :: b in s.bids ==> s.bids[b].gig != gigId
  {
  }

  /** A successful updateGig sets each field to the request's value when that is truthy and
      keeps it otherwise; owner, status and winner, the other gigs and the bids stay as they were. */
  lemma UpdateGigFields(s: State, requester: UserId, gigId: GigId, edit: GigEdit)
    requires EditCheck(s, requester, gigId).None?
    ensures var t := AfterUpdateGig(s, requester, gigId, edit); var before := s.gigs[gigId];
      && t.gigs.Keys == s.gigs.Keys
      && (edit.title.Some? && edit.title.value != "" ==> t.gigs[gigId].title == edit.title.value)
      && (edit.title.None? || edit.title.value == "" ==> t.gigs[gigId].title == before.title)
      && (edit.description.Some? && edit.description.value != "" ==> t.gigs[gigId].description == edit.description.value)
      && (edit.description.None? || edit.description.value == "" ==> t.gigs[gigId].description == before.description)
      && (edit.budget.Some? && edit.budget.value != 0 ==> t.gigs[gigId].budget == edit.budget.value)
      && (edit.budget.None? || edit.budget.value == 0 ==> t.gigs[gigId].budget == before.budget)
      && t.gigs[gigId].owner == before.owner && t.gigs[gigId].status == before.status && t.gigs[gigId].winner == before.winner
      && (forall g :: g in s.gigs && g != gigId ==> t.gigs[g] == s.gigs[g])
      && t.bids == s.bids
  {
  }

  /** A successful deleteGig removes exactly that gig; no bid referenced it. */
  lemma DeleteGigRemovesOneGig(s: State, requester: UserId, gigId: GigId)
    requires EditCheck(s, requester, gigId).None?
    ensures var t := AfterDeleteGig(s, requester, gigId);
      && t.gigs.Keys == s.gigs.Keys - {gigId}
      && |t.gigs| == |s.gigs| - 1
      && (forall g :: g in t.gigs ==> t.gigs[g] == s.gigs[g])
      && t.bids == s.bids
      && (forall b :: b in t.bids ==> t.bids[b].gig != gigId)
  {
  }

  lemma UpdateGigPreservesConsistent(s: State, requester: UserId, gigId: GigId, edit: GigEdit)
    requires Consistent(s)
    ensures Consistent(AfterUpdateGig(s, requester, gigId, edit))
  {
  }

  lemma DeleteGigPreservesConsistent(s: State, requester: UserId, gigId: GigId)
    requires Consistent(s)
    ensures Consistent(AfterDeleteGig(s, requester, gigId))
  {
  }
}
