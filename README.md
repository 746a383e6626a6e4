# GigFlow gig and bid state machine, in Dafny

GigFlow brokers work between posters and freelancers. A poster publishes a
gig; freelancers bid on it; the poster hires one bid. The hire assigns the
gig to that bid, marks the bid hired, and rejects every other bid on the
gig, all in one database transaction. This project models the two
controllers that do this (`controllers/bidController.js` and
`controllers/gigController.js`). Each handler is modelled as a rule over an
in-memory store of two maps: gigs by id and bids by id.

- `Store` (`store.dfy`): the entities (`Gig`, `Bid`), the store value
  `State`, the error outcomes with their HTTP status codes, and the
  consistency conditions gathered in `Consistent`. It also has the
  `Database` class whose fields the handlers update in place. Ids come from
  two counters, standing in for the database's fresh object ids.
- `BidController` (`bid_controller.dfy`): `createBid`, the three bid
  queries, and `hireFreelancer`.
- `GigController` (`gig_controller.dfy`): `createGig`, `updateGig`,
  `deleteGig`, the gig listings and `getGigById`.
- `Marketplace` (`marketplace.dfy`): any sequence of writing requests.
  Proves that every reachable store is consistent, that only a hire takes a
  gig out of `open`, and that once a gig is assigned nothing changes it or
  its bids again.

Each writing handler is a method over `Database` with `modifies db`,
proved to give the answer, and to leave the store, that pure functions
describe. The lemmas are stated about those pure functions:
- `createBid`, `updateGig` and `deleteGig` have a check function
  (`CreateBidCheck`, `EditCheck`) giving the first failing guard in the
  handler's order, and an `After…` function giving the new store.
- `createGig` has no guard. `AfterCreateGig` gives the new store and the
  method returns the new id.
- `hireFreelancer` has `HireResult`, the whole answer (a guard refusal, a
  thrown call or the assigned gig), and `AfterHire`, the new store. Its
  writes are in a second method, `HireTransaction`.

`hireFreelancer` works on private copies of both maps. Only the final
commit assigns them to the database, so every failure path leaves the
store as it was. The parameter `fault` names the store call that throws,
out of the six calls the success path makes: the two `findById` lookups of
the bid and of the gig, `gig.save`, `bid.save`, `updateMany`, and
`commitTransaction` (`TxStep` has one value for each). When one of them
throws, the handler answers `InternalError` (500), unless a guard failed
before that call was reached. The socket.io event is not delivered. It is
returned as a value, and only when `ioPresent` holds and the commit
happened.

Two things are modelling assumptions, because this project does not model
the Mongoose schemas: a new gig is `open` with no winner, and a new bid is
`pending`. Also, the one-bid-per-(gig, freelancer) rule comes from a unique
index in the Bid schema (`models/Bid.js`), which this project does not
model. It is modelled only by its outcome, `DuplicateBid`.

Three details of the code:
- A failed commit goes to the catch block and is answered with 500
  (`InternalError`). Nothing re-reads the gig to turn a conflict into
  `AlreadyAssigned`.
- The hire guard is the test `gig.status === 'assigned'`. With the two gig
  statuses this is the same as testing that the gig is not open.
- One bid per freelancer and gig is enforced when a bid is created
  (`DuplicateBid`). Nothing checks it later.

## Model

| member | source | states |
|---|---|---|
| `Store.StatusCode` | controllers/bidController.js:11-156 | not-found errors are 404, the ownership error 401, a thrown store call 500 (the catch at lines 152-156), every other refusal 400 (bidController.js lines 16, 20, 33 and 119; gigController.js lines 81, 87, 116 and 122) |
| `Store.BidsOf` | controllers/gigController.js:85 | exactly the ids of the bids whose gig is the given one: the set `countDocuments({gig})` counts here and at line 120, and the filter of `Bid.find({gig})` at bidController.js line 52 |
| `Store.AtMostOneHired` | controllers/bidController.js:122-135 | in a consistent store a gig has at most one hired bid, and any hired bid is the gig's winner |
| `Store.AssignedGigHasOneHired` | controllers/bidController.js:122-135 | in a consistent store an assigned gig's hired bids are exactly its winner, and it has no pending bid |
| `BidController.CreateBidCheck` | controllers/bidController.js:9-34 | no refusal exactly when the gig exists, is open, is not the requester's own, and has no bid by the requester; a refusal is one of the four createBid errors |
| `BidController.AfterCreateBid` | controllers/bidController.js:23-34 | gigs untouched; a refused request changes nothing; otherwise one pending bid by the requester appears under the next id and every existing bid is kept |
| `BidController.CreateBidGuardOrder` | controllers/bidController.js:9-34 | createBid's guards answer in the code's order (missing gig, own gig, gig not open, duplicate bid), and every refusal leaves the store unchanged |
| `BidController.CreateBid` | controllers/bidController.js:5-37 | answers the first failing guard (missing gig 404, own gig 400, gig not open 400, duplicate bid 400) and then changes nothing; on success inserts the pending bid under a fresh id; keeps the store consistent |
| `BidController.CreateBidAddsOneBid` | controllers/bidController.js:23-28 | a successful createBid adds exactly one bid (fresh id, requester as freelancer, pending, on an open gig the requester does not own); no existing bid or gig changes |
| `BidController.CreateBidPreservesConsistent` | controllers/bidController.js:9-34 | createBid keeps every consistency condition, including one bid per (gig, freelancer) and no pending bid on an assigned gig |
| `BidController.GetBidsByGigId` | controllers/bidController.js:41-56 | missing gig gives 404, a non-owner gets 401, the owner gets exactly the bids whose gig matches, unchanged |
| `BidController.GetMyBids` | controllers/bidController.js:62-75 | exactly the bids whose freelancer is the requester |
| `BidController.GetMyBidOnGig` | controllers/bidController.js:77-84 | returns a bid matching both the gig and the requester if one exists, and none only when no bid matches |
| `BidController.MyBidOnGigIsUnique` | controllers/bidController.js:79-80 | in a consistent store, the requester's bids on a gig are exactly the one found |
| `BidController.OwnerHasNoBidOnOwnGig` | controllers/bidController.js:15-17 | in a consistent store, none of a gig's bids belongs to the gig's owner |
| `BidController.Assign` | controllers/bidController.js:123-124 | the hired gig is assigned with the bid as winner; its owner, title, description and budget are kept |
| `BidController.SiblingsRejected` | controllers/bidController.js:132-135 | the bulk update keeps every bid id and every field but status; the winner and the bids of other gigs are unchanged; every other bid of the gig is rejected |
| `BidController.HireResult` | controllers/bidController.js:92-157 | a success means that no call threw, the bid and its gig exist, the requester owns the gig, and the answer is that gig assigned with the bid as winner; InternalError comes exactly from a thrown call that is reached: a throwing lookup, or any thrown call once the guards pass |
| `BidController.HireCommit` | controllers/bidController.js:122-135 | the committed store keeps every gig and bid id and both counters; the gig's winner is the bid and the bid is hired |
| `BidController.AfterHire` | controllers/bidController.js:122-137 | the store after a hire keeps every gig and bid id and both counters, and it is the old store whenever the hire fails |
| `BidController.HireNotice` | controllers/bidController.js:141-149 | the event goes to the hired bid's freelancer and names its gig and the gig's title |
| `BidController.RejectSiblings` | controllers/bidController.js:131-135 | the bulk update rejects every bid of the gig except the winner, and leaves every other bid as it was |
| `BidController.HireFreelancer` | controllers/bidController.js:86-158 | answers the guard chain or the thrown call; on success commits the assigned gig, the hired bid and the rejected siblings together; on any failure the store is unchanged and no event is sent; the event goes to the bid's freelancer only after commit and only with a socket server; keeps the store consistent |
| `BidController.HireTransaction` | controllers/bidController.js:122-150 | once the guards pass: a thrown save, update or commit gives InternalError with the store unchanged and no event; otherwise the gig, the bid and its siblings are written together, and the event is returned when a socket server is attached |
| `BidController.HireFailureChangesNothing` | controllers/bidController.js:92-157 | every refused or aborted hire leaves the whole store unchanged |
| `BidController.HireGuardOrder` | controllers/bidController.js:92-120 | missing bid gives BidNotFound first; then missing gig GigNotFound; then a non-owner Unauthorized whatever the gig or bid status; then an assigned gig AlreadyAssigned |
| `BidController.HireSucceedsIff` | controllers/bidController.js:92-137 | a hire succeeds if and only if nothing throws, the bid and its gig exist, the requester owns the gig and the gig is open |
| `BidController.HireUpdatesOnlyTheGig` | controllers/bidController.js:122-125 | on success the bid's gig becomes assigned with the bid as winner, its other fields kept; every other gig and both counters are unchanged; the answer is that updated gig |
| `BidController.HireSettlesBids` | controllers/bidController.js:127-135 | on success the chosen bid is hired, every other bid of the gig is rejected, and bids of other gigs are unchanged; no bid is added or removed |
| `BidController.HireLeavesOneHiredNoPending` | controllers/bidController.js:127-135 | after a successful hire the gig has exactly one hired bid, the winner, and no pending bid |
| `BidController.SecondHireFails` | controllers/bidController.js:115-120 | after a successful hire every hire of a bid of the same gig fails and changes nothing; for the owner the answer is AlreadyAssigned |
| `BidController.HirePreservesConsistent` | controllers/bidController.js:122-137 | hireFreelancer keeps every consistency condition |
| `GigController.GetAllGigs` | controllers/gigController.js:15-19 | exactly the gigs whose status is open, unchanged |
| `GigController.GetMyGigs` | controllers/gigController.js:27-29 | exactly the gigs the requester owns, whatever their status |
| `GigController.GetGigById` | controllers/gigController.js:52-64 | the gig when it exists, otherwise GigNotFound |
| `GigController.GigByIdAgreesWithListings` | controllers/gigController.js:52-64 | a gig in the open listing or in the owner's listing is found by getGigById with the same value, and a found open gig is in the open listing |
| `GigController.ListedGigsAreUnassigned` | controllers/gigController.js:15 | in a consistent store the open listing is exactly the gigs without a winner, and all bids on listed gigs are pending |
| `GigController.AfterCreateGig` | controllers/gigController.js:39-44 | one open gig without a winner, owned by the requester, appears under the next id; existing gigs, all bids and the bid counter are unchanged |
| `GigController.CreateGig` | controllers/gigController.js:35-50 | inserts the gig under a fresh id and keeps the store consistent |
| `GigController.CreateGigAddsOneGig` | controllers/gigController.js:39-44 | createGig adds exactly one gig, owned by the requester, with the given title, description and budget; existing gigs and all bids are unchanged |
| `GigController.CreateGigListedForOwner` | controllers/gigController.js:39-44 | after createGig the requester's own listing is the old one plus the new gig |
| `GigController.CreateGigPreservesConsistent` | controllers/gigController.js:39-44 | createGig keeps every consistency condition |
| `GigController.EditCheck` | controllers/gigController.js:70-123 | for update and delete: no refusal exactly when the gig exists, the requester owns it, it is open and no bid references it; a refusal is one of the four edit errors |
| `GigController.OrText` | controllers/gigController.js:90-91 | the result is the old text or the given one, and a non-empty old text never becomes empty |
| `GigController.OrBudget` | controllers/gigController.js:92 | the result is the old budget or the given one, and a nonzero old budget never becomes zero |
| `GigController.Edited` | controllers/gigController.js:90-92 | an edit keeps the gig's owner, status and winner |
| `GigController.AfterUpdateGig` | controllers/gigController.js:90-94 | bids, gig ids and counters unchanged; every gig keeps its owner, status and winner; only the edited gig can change |
| `GigController.AfterDeleteGig` | controllers/gigController.js:125 | bids and counters unchanged; at most that one gig disappears and every remaining gig is unchanged |
| `GigController.UpdateGig` | controllers/gigController.js:66-99 | answers the first failing guard with the store unchanged; on success stores and returns the edited gig; keeps the store consistent |
| `GigController.DeleteGig` | controllers/gigController.js:101-130 | answers the first failing guard with the store unchanged; on success removes the gig; keeps the store consistent |
| `GigController.EditGuardOrder` | controllers/gigController.js:70-123 | for update and delete alike: missing gig, then non-owner, then a gig that is not open, then a gig with at least one bid; every refusal leaves the store unchanged |
| `GigController.EditAllowedMeans` | controllers/gigController.js:84-88 | an allowed edit means the requester owns the open gig and no bid references it |
| `GigController.UpdateGigFields` | controllers/gigController.js:90-94 | title, description and budget each take the request value when it is truthy and keep the old value otherwise; owner, status, winner, other gigs and all bids are unchanged |
| `GigController.DeleteGigRemovesOneGig` | controllers/gigController.js:119-125 | a successful delete removes exactly that gig and nothing else, and no bid references it |
| `GigController.UpdateGigPreservesConsistent` | controllers/gigController.js:90-94 | updateGig keeps every consistency condition |
| `GigController.DeleteGigPreservesConsistent` | controllers/gigController.js:119-125 | deleteGig keeps every consistency condition, in particular no bid references a deleted gig |
| `Marketplace.ApplyPreservesConsistent` | controllers/bidController.js:5-158 | every writing request keeps every consistency condition: createBid and hireFreelancer here, and createGig, updateGig and deleteGig (gigController.js lines 35-130) |
| `Marketplace.RunPreservesConsistent` | controllers/gigController.js:35-130 | any sequence of writing requests of the two controllers keeps every consistency condition: createGig, updateGig and deleteGig here, and createBid and hireFreelancer (bidController.js lines 5-158) |
| `Marketplace.ReachableIsConsistent` | controllers/bidController.js:122-135 | every store reachable from the empty one is consistent: winner set iff assigned, at most one hired bid per gig and it is the winner, no pending bid on an assigned gig, no dangling bid |
| `Marketplace.OnlyHireClosesGig` | controllers/bidController.js:123 | a request that takes a gig out of open is a hire |
| `Marketplace.ApplyKeepsAssignedGig` | controllers/bidController.js:19-120 | no request changes an assigned gig or any of its bids: the hire refuses an assigned gig (lines 116-120), createBid refuses a gig that is not open (line 19), and updateGig and deleteGig do too (gigController.js lines 80 and 115) |
| `Marketplace.RunKeepsAssignedGig` | controllers/gigController.js:80-115 | no sequence of requests changes an assigned gig or any of its bids, because updateGig and deleteGig refuse a gig that is not open (lines 80 and 115), as do createBid and the hire (bidController.js lines 19 and 116) |
| `Marketplace.HireSucceedsAtMostOnce` | controllers/bidController.js:115-120 | after a successful hire, whatever requests follow, every hire of a bid of that gig fails; the owner gets AlreadyAssigned unless one of the two lookups throws |
| `Marketplace.TwoBidScenario` | controllers/bidController.js:86-158 | one gig, two bids: a stranger's hire is Unauthorized and changes nothing; the owner's hire assigns the gig, hires the first bid and rejects the second; a second hire is AlreadyAssigned |

## Left out

- Mongoose sessions: the transaction is modelled as private copies of both maps that a commit assigns to the store. Of the session calls only a throwing `commitTransaction` (`TxStep.Commit`) is modelled.
- `startSession` and `session.startTransaction()` throwing (bidController.js lines 87 and 88): both calls are outside the try block, so no response is sent. Not modelled.
- `abortTransaction` throwing: it is called before each guard's answer (lines 95, 103, 110 and 117) and again in the catch block (line 153). A throw there sends the request to the catch, or out of the handler. Not modelled; every abort is taken to succeed. For `TxStep.Commit` this abort runs after a commit was attempted, so the modelled 500 with an unchanged store assumes that the abort succeeds and that the failed commit took no effect.
- `endSession` (lines 96, 104, 111, 118, 138 and 154): it releases the session and changes no data.
- `console.error` in the catch block (line 155): logging only.
- Concurrent hires and isolation levels: protection against racing hires rests on the database's snapshot isolation, which is not code here. Every request is one sequential step.
- socket.io delivery (`req.app.get('io')`, `emit`): the event is returned as a value, not delivered.
- The title search of getAllGigs: it uses MongoDB `$regex` matching with a case-insensitive option. `GetAllGigs` models the open-only filter.
- `populate` joins and `sort({createdAt: -1})`: they depend on the user collection and on timestamps the database manages. The queries return maps, so they have no order.
- The unique index behind error code 11000: only its outcome (`DuplicateBid`) is modelled.
- The 500 answers of every handler except `hireFreelancer`: each comes from a single failed store call, which changes nothing, so it is not modelled.
- Casting and validation by Mongoose: malformed ids, missing required fields, and string budgets that get cast to numbers. The schema files are not part of this model.
- `GigController.UpdateGig`: request fields are modelled as absent, a string, or an integer. JavaScript's `||` is modelled for those cases only: the empty string and 0 are falsy. Other JSON values are not modelled.
- Budgets and prices are unbounded integers. Fractional numbers are not modelled.
- HTTP response bodies and message texts other than the outcome. The notification text is kept.
- `utils/generateToken.js` (JWT signing and cookies) and the route files (Express wiring and the auth middleware): the authenticated user arrives as the `requester` parameter.
