# AuctionEagle auction rules in Dafny

A verified model of the business rules of AuctionEagle, a small auction site:
users post listings with a starting price, bid on other users' listings,
comment, keep a watchlist, and close or reopen listings. In the original
these rules sit inside the web request handlers and act on database tables.
Here the tables form one in-memory store:

- the listing table, keyed by auto-assigned identifiers;
- the append-only bid history;
- the comments;
- the watchlist relation between users and listings;
- the categories.

Each handler is one atomic step over that store.

- `models.dfy` (module `Models`): the entities (`User`, `Category`,
  `Listing`, `Bid`, `Comment`, `WatchEntry`) and `NewListing`, which builds
  the row a newly created listing gets, with the schema's defaults.
- `rules.dfy` (module `Rules`): the store as a value (`Store`), its invariant
  (`WellFormed`), and one pure transition per handler. Each transition gives
  a verdict (`Ok` or the error reported) and the store afterwards. The
  transitions cover placing a bid, close/open, adding a comment, the
  watchlist's add/remove/view, and creating a listing or a category.
- `properties.dfy` (module `Properties`): the properties those transitions
  have, and the proof that every transition keeps `WellFormed`.
- `views.dfy` (module `Views`): class `AuctionSite`. It holds the tables as
  fields that its handler methods update in place. Each method's
  postcondition equates its outcome and its new tables with the matching
  transition of `Rules`, and each method keeps the invariant.

Amounts are `real`. Parsing the submitted amount text is an oracle: the bid
handler receives `Option<real>`, and `None` stands for text that does not
parse as a number. The authenticated user of a request is passed in as a
parameter.

Behaviour modelled as the code has it:

- Bid checks run in this order: the amount must parse, the listing must
  exist, the amount must not be below the starting bid, it must not be below
  the current bid, and the bidder must not be the listing's author.
- Both price comparisons are strict, so an amount equal to the starting or
  current bid is accepted.
- The listing's status is never consulted, so closed listings still accept
  bids.
- Close and open write the status unconditionally, with no ownership check.
  An unknown identifier matches no row and changes nothing.
- Watchlist `add` never checks for duplicates.
- Watchlist `remove` deletes the entries of every user for that listing.
- Using the id `all` with `add` or `remove` aborts the request. The handler
  sets the listing to `0` for `all`, which is not a listing row.

Having a current winner and having a current bid above the starting bid
are not the same condition. Neither one implies the other:

- A bid equal to the starting price is accepted and sets a winner, while
  the current bid stays equal to the starting bid
  (`WinnerAtStartingPrice`).
- A listing created with a negative starting bid has a current bid of 0
  above its starting bid, and still has no winner
  (`NoWinnerAboveStartingPrice`).

What does hold is proved in `BidListingsMeetStartingBid`. Once a listing
has a bid, it has a winner, and its current bid is at least its starting
bid.

## Model

| member | source | states |
|---|---|---|
| Models.NewListing | auctions/models.py:17-27 | a new listing carries the supplied fields; the starting bid defaults to 0 when not supplied; the current bid is 0, there is no current winner, and the status is open (1) |
| Rules.BidVerdict | auctions/views.py:364-396 | a bid fails with InvalidAmount exactly when the amount does not parse, and with ListingNotFound exactly when it parses but the listing is missing; it is accepted exactly when the amount is at least the starting bid and at least the current bid and the bidder is not the author |
| Rules.BidsOn | auctions/models.py:32-36 | a listing's bid history contains only bids from the bid table that refer to that listing |
| Rules.Unwatched | auctions/views.py:314-316 | deleting a listing's watchlist entries leaves no entry for that listing and keeps every other entry exactly as often as before |
| Properties.InvalidAmountFirst | auctions/views.py:364-375 | an amount that does not parse is reported as InvalidAmount before the listing is looked up, even for an unknown listing, and nothing changes |
| Properties.BelowStartingBidRejected | auctions/views.py:377-381 | an amount below the starting bid fails with BelowStartingBid and the store is unchanged |
| Properties.BelowCurrentBidRejected | auctions/views.py:383-387 | an amount at least the starting bid but below the current bid fails with BelowCurrentBid and the store is unchanged |
| Properties.MatchingBidAccepted | auctions/views.py:377-387 | the comparisons are strict: a non-author bidding exactly the current bid (when it is at least the starting bid) is accepted |
| Properties.SelfBidRejected | auctions/views.py:389-396 | the author's bid on their own listing is never accepted; when it passes both price checks the error is SelfBid; the store is unchanged |
| Properties.RejectedBidChangesNothing | auctions/views.py:364-396 | every rejected bid leaves the whole store as it was |
| Properties.SuccessfulBid | auctions/views.py:398-409 | an accepted bid appends exactly Bid(listing, bidder, amount) and sets that listing's current bid to the amount and its winner to the bidder; no other field, listing, comment, watchlist entry or category changes |
| Properties.CurrentBidNeverDecreases | auctions/views.py:377-409 | no bid request lowers any listing's current bid |
| Properties.StatusIgnoredByBids | auctions/views.py:375-396 | changing any listing's status changes no bid verdict, so closed listings accept bids as open ones do |
| Properties.BidInHistory | auctions/models.py:32-36 | every recorded bid belongs to the history of the listing it refers to |
| Properties.BidListingsMeetStartingBid | auctions/views.py:377-409 | once a listing has received a bid, it has a winner, its current bid is at least its starting bid, and no bid on it exceeds the current bid |
| Properties.TopOfHistory | auctions/views.py:377-409 | a listing that agrees with a bid history containing a bid has a winner, a current bid at least its starting bid, and no smaller current bid than that bid |
| Properties.WinnerAtStartingPrice | auctions/views.py:377-409 | a bid equal to the starting price of a fresh listing is accepted and sets a winner while the current bid equals the starting bid |
| Properties.NoWinnerAboveStartingPrice | auctions/models.py:23-25 | a fresh listing with a negative starting bid has a current bid of 0 above its starting bid and still no winner |
| Properties.SetStatusEffect | auctions/views.py:233-252 | setting a status gives the old store with only that listing's status replaced; an unknown identifier changes nothing |
| Properties.CloseIdempotent | auctions/views.py:237 | closing a listing twice is the same as closing it once |
| Properties.OpenIdempotent | auctions/views.py:251 | opening a listing twice is the same as opening it once |
| Properties.CloseThenOpen | auctions/views.py:237-251 | close followed by open leaves the listing open, and restores the whole store when the listing was open before |
| Properties.CommentEffect | auctions/views.py:269-286 | a comment on an existing listing appends exactly one Comment(listing, text, author) and changes nothing else; for a missing listing the request fails with ListingNotFound and changes nothing |
| Properties.AddAppendsDuplicate | auctions/views.py:306-312 | watchlist add gives the old store with one entry appended to the watchlist, so the count of that (listing, user) entry rises by one even when it was already present |
| Properties.RemoveDeletesForEveryone | auctions/views.py:314-316 | watchlist remove gives the same store whoever asks, and changes only the watchlist; no entry for the listing remains, and every other entry keeps its multiplicity |
| Properties.WatchFailuresChangeNothing | auctions/views.py:301-316 | an unknown listing fails in every mode, and "all" fails for add and remove; such requests change nothing |
| Properties.WatchedMatchesOwned | auctions/views.py:318-326 | when every entry refers to an existing listing, the view has exactly one listing per entry the user owns, in entry order, and that listing is the entry's listing |
| Properties.OwnedByMembers | auctions/views.py:320 | the user's entries are entries of the watchlist that the user owns |
| Properties.AddThenView | auctions/views.py:306-326 | after add, the user's view is the old view followed by the added listing, and every other user's view is unchanged |
| Properties.RemoveThenView | auctions/views.py:314-326 | after remove, no user's view shows the removed listing |
| Properties.WatchedShowsEntries | auctions/views.py:322-326 | every listing the view shows comes from one of the user's entries |
| Rules.CreateVerdict | auctions/models.py:21-27 | creating a listing fails with NullColumn exactly when the category or the image URL is missing (neither column is nullable), and succeeds exactly when both are present and the category exists |
| Properties.CreateAssignsFreshKey | auctions/models.py:17-27 | a created listing gets an identifier that no existing listing has; it starts open with no bid and no winner; every existing listing is kept |
| Properties.DuplicateCategoryRejected | auctions/models.py:10-12 | once a category name is in use, adding it again fails with DuplicateName and changes nothing |
| Properties.EmptyStoreWellFormed | auctions/models.py:17-56 | the empty store satisfies the store invariant |
| Properties.BidsOnAppend | auctions/models.py:32-36 | appending a bid extends the history of its own listing by that bid and leaves other histories unchanged |
| Properties.TopBidAfterBid | auctions/views.py:398-409 | a bid meeting both the starting and the current bid, made current, keeps the listing in agreement with its extended history |
| Properties.AfterBidShape | auctions/views.py:399-409 | an accepted bid produces the store with the bid appended and the listing's current bid and winner rewritten |
| Properties.HistoriesAfterBid | auctions/views.py:399-409 | after an accepted bid every listing still agrees with its bid history |
| Properties.HistoryAfterBid | auctions/views.py:399-409 | an accepted bid keeps the bid listing in agreement with its extended history and leaves every other listing and its history as they were |
| Properties.KeysAfterBid | auctions/views.py:399-409 | recording a bid adds no listing, keeps every key under its counter, and the new bid refers to an existing listing |
| Properties.RecordedBidKeepsWellFormed | auctions/views.py:399-409 | recording a bid that meets the starting and the current bid, and making it current, keeps the store invariant |
| Properties.BidKeepsWellFormed | auctions/views.py:353-409 | every bid request keeps the store invariant: bid histories ascending, the latest bid shown as current bid and winner, the current bid at least the starting bid |
| Properties.StatusKeepsWellFormed | auctions/views.py:233-252 | close and open keep the store invariant |
| Properties.CommentKeepsWellFormed | auctions/views.py:269-286 | adding a comment keeps the store invariant |
| Properties.WatchKeepsWellFormed | auctions/views.py:295-343 | every watchlist request keeps the store invariant |
| Properties.CreateKeepsWellFormed | auctions/models.py:17-27 | creating a listing keeps the store invariant; the new key has no bids |
| Properties.AddCategoryKeepsWellFormed | auctions/models.py:10-12 | adding a category keeps category names unique and category keys increasing |
| Views.AuctionSite.constructor | auctions/models.py:17-56 | a new site starts with empty tables and both key counters at 1, and satisfies the invariant |
| Views.AuctionSite.CheckBid | auctions/views.py:364-396 | the read-only checks of the bid handler return exactly the verdict of Rules.BidVerdict on the current tables |
| Views.AuctionSite.PlaceBid | auctions/views.py:353-409 | the bid handler returns the verdict of Rules.BidVerdict, leaves the tables as Rules.AfterBid says, and keeps the invariant |
| Views.AuctionSite.Record | auctions/views.py:399-409 | the three writes of an accepted bid (save the bid, then the current bid, then the current winner) give exactly the store of Rules.RecordBid |
| Views.AuctionSite.CloseListing | auctions/views.py:233-238 | writes status 0 on the listing as Rules.CloseListing says and keeps the invariant |
| Views.AuctionSite.OpenListing | auctions/views.py:247-252 | writes status 1 on the listing as Rules.OpenListing says and keeps the invariant |
| Views.AuctionSite.NewComment | auctions/views.py:269-286 | appends the comment as Rules.AfterComment says, fails for a missing listing, and keeps the invariant |
| Views.AuctionSite.Watchlist | auctions/views.py:295-343 | performs add, remove or view as Rules.AfterWatch says; the view returns the user's watched listings; keeps the invariant |
| Views.AuctionSite.CollectWatchlist | auctions/views.py:318-326 | the loop over the watchlist returns, in entry order, one listing per entry the user owns, and exactly as many listings as the user has entries |
| Views.AuctionSite.CreateListing | auctions/models.py:17-27 | inserts a listing with the schema's defaults under a fresh key and keeps the invariant; a row without a category or an image URL is refused with NullColumn, and an unknown category with UnknownCategory |
| Views.AuctionSite.AddCategory | auctions/models.py:10-12 | inserts a category unless its name is taken, and keeps the invariant |

## Left out

- HTTP handling, the GET branches that only render forms, template rendering and redirects are not modelled. The values passed to templates are kept only for the watchlist view.
- The listing, category and "my listings" read views, the index page, and URL routing are not modelled. They are plain queries and framework configuration.
- Login, logout, registration and the login-required gate are left out. The authenticated user is a parameter of every handler.
- The `new_listing` form handling is left out. Listing creation is modelled as the store insert with the schema's defaults (`CreateListing`). The form's reading of `image_url` and `category` when those fields are left empty is not modelled. A missing category or image URL reaches the insert as an absent value, which the store refuses with `NullColumn`.
- The ORM, persistence, and cascade deletion of dependent rows are left out. No user, listing or category is ever deleted in the model.
- Bid, comment and watchlist rows have no primary key in the model. A row's position in its sequence is its identity.
- Query results come back in insertion order. The original query has no explicit ordering.
- Concurrent requests are not modelled. The race between reading and writing the current bid needs two requests at once, and here each handler is one atomic step.
- IEEE floating point is not modelled. Amounts are exact reals. A parsed NaN, which passes both price checks in the original, has no counterpart here.
- Request parameters that are not integers are not modelled, because listing ids are naturals. Field length limits (`max_length`) are not enforced.
- The handler's second lookup of the listing before the author check is not modelled. The handler is atomic, so it reads the same row as the first lookup.
- The unused list of watchlist items computed after add and remove is not modelled. It has no effect.
- `__str__` formatting and the unused `flask`/`requests` imports are not modelled.
