/** The auction's business rules as pure transitions over an in-memory store:
    the listing table, the append-only bid history, the comments, the
    watchlist relation and the categories. Each request handler is one atomic
    step: a verdict (`Ok` or the error it reports) and the store afterwards. */
module Rules {
  import opened Models

  datatype Store = Store(
    listings: map<ListingId, Listing>,
    bids: seq<Bid>,
    comments: seq<Comment>,
    watchlist: seq<WatchEntry>,
    categories: seq<Category>,
    nextListingId: ListingId,
    nextCategoryId: CategoryId)

  /** Auto-assigned keys start at 1. */
  const EmptyStore: Store := Store(map[], [], [], [], [], 1, 1)

  /** What a request can fail with. The first four are reported back to the
      bidder on the bid form; `ListingNotFound` is the lookup of an unknown
      listing key, which aborts the request; `NotAListing` is the abort caused
      by using the watchlist id "all" where a listing is needed;
      `NullColumn`, `UnknownCategory` and `DuplicateName` are integrity
      errors of the store. */
  datatype Error =
    | InvalidAmount
    | BelowStartingBid
    | BelowCurrentBid
    | SelfBid
    | ListingNotFound
    | NotAListing
    | NullColumn
    | UnknownCategory
    | DuplicateName

  datatype Outcome = Ok | Fail(error: Error)

  // ---------------------------------------------------------------------
  // Bid history of one listing

  /** The bids on listing `id`, in the order they were placed. */
  function BidsOn(bids: seq<Bid>, id: ListingId): (h: seq<Bid>)
    ensures |h| <= |bids|
    ensures forall b :: b in h ==> b in bids && b.listing == id
  {
    if bids == [] then []
    else
      var last := bids[|bids| - 1];
      BidsOn(bids[..|bids| - 1], id) + (if last.listing == id then [last] else [])
  }

  predicate Ascending(h: seq<Bid>)
  {
    forall i, j :: 0 <= i < j < |h| ==> h[i].amount <= h[j].amount
  }

  /** A listing agrees with its bid history: with no bids it still has the
      creation defaults; otherwise the bids never went down, the latest one is
      the current bid and its bidder the current winner, and it is at least
      the starting bid. */
  predicate ShowsTopBid(l: Listing, h: seq<Bid>)
  {
    if h == [] then Unbid(l)
    else
      && Ascending(h)
      && l.currentBid == h[|h| - 1].amount
      && l.currentWinner == Some(h[|h| - 1].bidder)
      && l.startingBid <= l.currentBid
  }

  // ---------------------------------------------------------------------
  // The store invariant

  predicate IdsUnderCounter(s: Store)
  {
    forall id :: id in s.listings ==> id < s.nextListingId && s.listings[id].identifier == id
  }

  predicate RowsReferenceListings(s: Store)
  {
    && (forall b :: b in s.bids ==> b.listing in s.listings)
    && (forall c :: c in s.comments ==> c.listing in s.listings)
    && (forall e :: e in s.watchlist ==> e.listing in s.listings)
  }

  predicate CategoriesKeyed(s: Store)
  {
    && UniqueNames(s.categories)
    && (forall i :: 0 <= i < |s.categories| ==> s.categories[i].id < s.nextCategoryId)
    && (forall i, j :: 0 <= i < j < |s.categories| ==> s.categories[i].id < s.categories[j].id)
    && (forall id :: id in s.listings && s.listings[id].category.Some? ==>
          CategoryExists(s.categories, s.listings[id].category.value))
  }

  predicate HistoriesAgree(s: Store)
  {
    forall id :: id in s.listings ==> ShowsTopBid(s.listings[id], BidsOn(s.bids, id))
  }

  /** What every reachable store satisfies: keys below their counters, every
      row refers to an existing listing, category names unique, and every
      listing agrees with its bid history. */
  predicate WellFormed(s: Store)
  {
    IdsUnderCounter(s) && RowsReferenceListings(s) && CategoriesKeyed(s) && HistoriesAgree(s)
  }

  // ---------------------------------------------------------------------
  // Placing a bid

  /** The checks of the bid handler, in its order: the amount must parse
      (checked before the listing is looked up), the listing must exist, the
      amount must not be below the starting bid, nor below the current bid,
      and the bidder must not be the listing's author. Comparisons are strict,
      so an amount equal to either bid passes; the listing's status is never
      consulted. */
  function BidVerdict(s: Store, id: ListingId, bidder: UserId, amount: Option<real>): (r: Outcome)
    ensures r == Fail(InvalidAmount) <==> amount.None?
    ensures r == Fail(ListingNotFound) <==> amount.Some? && id !in s.listings
    ensures r == Ok <==>
      && amount.Some? && id in s.listings
      && s.listings[id].startingBid <= amount.value
      && s.listings[id].currentBid <= amount.value
      && s.listings[id].author != bidder
  {
    match amount
    case None => Fail(InvalidAmount)
    case Some(a) =>
      if id !in s.listings then Fail(ListingNotFound)
      else
        var l := s.listings[id];
        if a < l.startingBid then Fail(BelowStartingBid)
        else if a < l.currentBid then Fail(BelowCurrentBid)
        else if l.author == bidder then Fail(SelfBid)
        else Ok
  }

  /** The store after a bid request: on success one bid is appended and the
      listing's current bid and winner are rewritten; otherwise nothing. */
  function AfterBid(s: Store, id: ListingId, bidder: UserId, amount: Option<real>): Store
  {
    if BidVerdict(s, id, bidder, amount) != Ok then s
    else RecordBid(s, id, bidder, amount.value)
  }

  /** The store with `Bid(id, bidder, a)` appended to the history and made
      the current bid and winner of listing `id`. */
  function RecordBid(s: Store, id: ListingId, bidder: UserId, a: real): Store
    requires id in s.listings
  {
    s.(bids := s.bids + [Bid(id, bidder, a)],
       listings := s.listings[id := s.listings[id].(currentBid := a, currentWinner := Some(bidder))])
  }

  // ---------------------------------------------------------------------
  // Closing and reopening

  /** Writes `status` into the listing with key `id`; an unknown key matches no
      row and nothing happens. There is no ownership check. */
  function SetStatus(s: Store, id: ListingId, status: int): Store
  {
    if id in s.listings then s.(listings := s.listings[id := s.listings[id].(listingStatus := status)])
    else s
  }

  function CloseListing(s: Store, id: ListingId): Store
  {
    SetStatus(s, id, Closed)
  }

  function OpenListing(s: Store, id: ListingId): Store
  {
    SetStatus(s, id, Open)
  }

  // ---------------------------------------------------------------------
  // Comments

  function CommentVerdict(s: Store, id: ListingId): Outcome
  {
    if id in s.listings then Ok else Fail(ListingNotFound)
  }

  function AfterComment(s: Store, id: ListingId, author: UserId, text: string): Store
  {
    if CommentVerdict(s, id) != Ok then s
    else s.(comments := s.comments + [Comment(id, text, author)])
  }

  // ---------------------------------------------------------------------
  // Watchlist

  datatype Mode = Add | Remove | View | Unrecognised

  /** The `id` parameter of the watchlist request: the word "all" or a listing key. */
  datatype Target = All | Item(id: ListingId)

  /** A listing key is looked up (and must exist) whatever the mode; "all" is
      not a listing, so adding or removing with it aborts. */
  function WatchVerdict(s: Store, mode: Mode, target: Target): Outcome
  {
    if target.Item? && target.id !in s.listings then Fail(ListingNotFound)
    else if target.All? && (mode == Add || mode == Remove) then Fail(NotAListing)
    else Ok
  }

  /** The entries that survive deleting every entry for listing `id`,
      whoever owns them. */
  function Unwatched(entries: seq<WatchEntry>, id: ListingId): (r: seq<WatchEntry>)
    ensures forall e :: e in r ==> e in entries && e.listing != id
    ensures forall e :: multiset(r)[e] == if e.listing == id then 0 else multiset(entries)[e]
  {
    if entries == [] then []
    else
      var last := entries[|entries| - 1];
      var front := entries[..|entries| - 1];
      assert entries == front + [last];
      Unwatched(front, id) + (if last.listing == id then [] else [last])
  }

  function AfterWatch(s: Store, mode: Mode, user: UserId, target: Target): Store
  {
    if WatchVerdict(s, mode, target) != Ok then s
    else
      match mode
      case Add => s.(watchlist := s.watchlist + [WatchEntry(target.id, user)])
      case Remove => s.(watchlist := Unwatched(s.watchlist, target.id))
      case View => s
      case Unrecognised => s
  }

  /** The listings shown by the watchlist view: for each of the user's entries,
      in entry order, the listing rows with that entry's key. */
  function Watched(listings: map<ListingId, Listing>, entries: seq<WatchEntry>, user: UserId): seq<Listing>
  {
    if entries == [] then []
    else
      var last := entries[|entries| - 1];
      Watched(listings, entries[..|entries| - 1], user)
        + (if last.author == user && last.listing in listings then [listings[last.listing]] else [])
  }

  /** The user's own entries, in entry order. */
  function OwnedBy(entries: seq<WatchEntry>, user: UserId): seq<WatchEntry>
  {
    if entries == [] then []
    else
      var last := entries[|entries| - 1];
      OwnedBy(entries[..|entries| - 1], user) + (if last.author == user then [last] else [])
  }

  // ---------------------------------------------------------------------
  // Creating listings and categories

  /** The category and image URL columns of a listing are not nullable, so
      a row without either is refused; a category reference must name an
      existing category. */
  function CreateVerdict(s: Store, category: Option<CategoryId>, imageUrl: Option<string>): (r: Outcome)
    ensures r == Fail(NullColumn) <==> category.None? || imageUrl.None?
    ensures r == Ok <==> category.Some? && imageUrl.Some? && CategoryExists(s.categories, category.value)
  {
    if category.None? || imageUrl.None? then Fail(NullColumn)
    else if !CategoryExists(s.categories, category.value) then Fail(UnknownCategory)
    else Ok
  }

  /** A new listing row under the next auto-assigned key, with the schema's
      defaults. */
  function AfterCreate(s: Store, author: UserId, title: string, description: string,
                       category: Option<CategoryId>, startingBid: Option<real>,
                       imageUrl: Option<string>): Store
  {
    if CreateVerdict(s, category, imageUrl) != Ok then s
    else
      var id := s.nextListingId;
      s.(listings := s.listings[id := NewListing(id, author, title, description, category, startingBid, imageUrl)],
         nextListingId := id + 1)
  }

  function CategoryVerdict(s: Store, name: string): Outcome
  {
    if NameTaken(s.categories, name) then Fail(DuplicateName) else Ok
  }

  function AfterAddCategory(s: Store, name: string): Store
  {
    if CategoryVerdict(s, name) != Ok then s
    else s.(categories := s.categories + [Category(s.nextCategoryId, name)],
            nextCategoryId := s.nextCategoryId + 1)
  }
}
