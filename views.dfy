/** The request handlers, as methods of one in-memory auction site that
    updates its tables in place. Each handler is one atomic step; its
    postcondition ties the outcome and the new tables to the pure rules of
    module Rules, whose properties module Properties proves, and every
    handler keeps the store invariant. The authenticated user of the request
    is passed in explicitly. */
module Views {
  import opened Models
  import opened Rules
  import Properties

  class AuctionSite {
    var listings: map<ListingId, Listing>
    var bids: seq<Bid>
    var comments: seq<Comment>
    var watchlist: seq<WatchEntry>
    var categories: seq<Category>
    var nextListingId: ListingId
    var nextCategoryId: CategoryId

    /** The tables as one value. */
    function State(): Store
      reads this
    {
      Store(listings, bids, comments, watchlist, categories, nextListingId, nextCategoryId)
    }

    predicate Valid()
      reads this
    {
      WellFormed(State())
    }

    constructor ()
      ensures State() == EmptyStore && Valid()
    {
      listings, bids, comments, watchlist, categories := map[], [], [], [], [];
      nextListingId, nextCategoryId := 1, 1;
      Properties.EmptyStoreWellFormed();
    }

    /** The checks of the bid request against the current tables, in the
        handler's order; reads only. */
    method CheckBid(id: ListingId, bidder: UserId, amount: Option<real>) returns (outcome: Outcome)
      ensures outcome == BidVerdict(State(), id, bidder, amount)
    {
      if amount.None? {
        return Fail(InvalidAmount);
      }
      var a := amount.value;
      if id !in listings {
        return Fail(ListingNotFound);
      }
      var listing := listings[id];
      if a < listing.startingBid {
        return Fail(BelowStartingBid);
      } else if a < listing.currentBid {
        return Fail(BelowCurrentBid);
      }
      if listing.author == bidder {
        return Fail(SelfBid);
      }
      return Ok;
    }

    /** Place a bid of `amount` (None when the submitted text is not a
        number) by `bidder` on listing `id`: on success record the bid and
        make it the listing's current bid and winner. */
    method PlaceBid(id: ListingId, bidder: User, amount: Option<real>) returns (outcome: Outcome)
      requires Valid()
      modifies this
      ensures Valid()
      ensures outcome == BidVerdict(old(State()), id, bidder.id, amount)
      ensures State() == AfterBid(old(State()), id, bidder.id, amount)
    {
      ghost var before := State();
      Properties.BidKeepsWellFormed(before, id, bidder.id, amount);
      outcome := CheckBid(id, bidder.id, amount);
      if outcome == Ok {
        Properties.AfterBidShape(before, id, bidder.id, amount.value);
        Record(id, bidder.id, amount.value);
      }
    }

    /** The writes of an accepted bid: save the bid record, then update the
        listing's current bid and then its current winner. */
    method Record(id: ListingId, bidder: UserId, a: real)
      requires id in listings
      modifies this
      ensures State() == RecordBid(old(State()), id, bidder, a)
    {
      bids := bids + [Bid(id, bidder, a)];
      listings := listings[id := listings[id].(currentBid := a)];
      listings := listings[id := listings[id].(currentWinner := Some(bidder))];
      assert listings == old(listings)[id := old(listings)[id].(currentBid := a, currentWinner := Some(bidder))];
    }

    /** Mark listing `id` closed; an unknown key changes nothing. */
    method CloseListing(id: ListingId)
      requires Valid()
      modifies this
      ensures Valid()
      ensures State() == Rules.CloseListing(old(State()), id)
    {
      Properties.StatusKeepsWellFormed(State(), id, Closed);
      if id in listings {
        listings := listings[id := listings[id].(listingStatus := Closed)];
      }
    }

    /** Mark listing `id` open; an unknown key changes nothing. */
    method OpenListing(id: ListingId)
      requires Valid()
      modifies this
      ensures Valid()
      ensures State() == Rules.OpenListing(old(State()), id)
    {
      Properties.StatusKeepsWellFormed(State(), id, Open);
      if id in listings {
        listings := listings[id := listings[id].(listingStatus := Open)];
      }
    }

    /** Leave a comment `text` by `author` on listing `id`. */
    method NewComment(id: ListingId, author: User, text: string) returns (outcome: Outcome)
      requires Valid()
      modifies this
      ensures Valid()
      ensures outcome == CommentVerdict(old(State()), id)
      ensures State() == AfterComment(old(State()), id, author.id, text)
    {
      Properties.CommentKeepsWellFormed(State(), id, author.id, text);
      if id !in listings {
        return Fail(ListingNotFound);
      }
      comments := comments + [Comment(id, text, author.id)];
      outcome := Ok;
    }

    /** The watchlist request: add an entry, remove every entry for a
        listing, or view the user's listings. `items` is what the view shows
        (empty for the other modes, which redirect to the view). */
    method Watchlist(mode: Mode, user: User, target: Target) returns (outcome: Outcome, items: seq<Listing>)
      requires Valid()
      modifies this
      ensures Valid()
      ensures outcome == WatchVerdict(old(State()), mode, target)
      ensures State() == AfterWatch(old(State()), mode, user.id, target)
      ensures items == if outcome == Ok && mode == View then Watched(listings, watchlist, user.id) else []
    {
      Properties.WatchKeepsWellFormed(State(), mode, user.id, target);
      items := [];
      if target.Item? && target.id !in listings {
        return Fail(ListingNotFound), [];
      }
      if mode == Add {
        if target.All? {
          return Fail(NotAListing), [];
        }
        watchlist := watchlist + [WatchEntry(target.id, user.id)];
      } else if mode == Remove {
        if target.All? {
          return Fail(NotAListing), [];
        }
        watchlist := Unwatched(watchlist, target.id);
      } else if mode == View {
        items := CollectWatchlist(user.id);
      }
      outcome := Ok;
    }

    /** The listings on `user`'s watchlist: one per entry the user owns, in
        entry order. */
    method CollectWatchlist(user: UserId) returns (items: seq<Listing>)
      ensures items == Watched(listings, watchlist, user)
      ensures Valid() ==> |items| == |OwnedBy(watchlist, user)|
      ensures Valid() ==> forall k :: 0 <= k < |items| ==>
                OwnedBy(watchlist, user)[k].listing in listings &&
                items[k] == listings[OwnedBy(watchlist, user)[k].listing]
    {
      items := [];
      var i := 0;
      while i < |watchlist|
        invariant 0 <= i <= |watchlist|
        invariant items == Watched(listings, watchlist[..i], user)
      {
        var entry := watchlist[i];
        assert watchlist[..i + 1][..i] == watchlist[..i];
        if entry.author == user && entry.listing in listings {
          items := items + [listings[entry.listing]];
        }
        i := i + 1;
      }
      assert watchlist[..i] == watchlist;
      if Valid() {
        Properties.WatchedMatchesOwned(listings, watchlist, user);
      }
    }

    /** Insert a listing under the next auto-assigned key with the schema's
        defaults; a row without a category or an image URL, or with a
        category that does not exist, is refused. */
    method CreateListing(author: User, title: string, description: string,
                         category: Option<CategoryId>, startingBid: Option<real>,
                         imageUrl: Option<string>) returns (outcome: Outcome, id: ListingId)
      requires Valid()
      modifies this
      ensures Valid()
      ensures outcome == CreateVerdict(old(State()), category, imageUrl)
      ensures State() == AfterCreate(old(State()), author.id, title, description, category, startingBid, imageUrl)
      ensures outcome == Ok ==> id !in old(listings) && id in listings && listings[id].identifier == id
    {
      Properties.CreateKeepsWellFormed(State(), author.id, title, description, category, startingBid, imageUrl);
      id := nextListingId;
      if category.None? || imageUrl.None? {
        return Fail(NullColumn), id;
      }
      if !CategoryExists(categories, category.value) {
        return Fail(UnknownCategory), id;
      }
      listings := listings[id := NewListing(id, author.id, title, description, category, startingBid, imageUrl)];
      nextListingId := nextListingId + 1;
      outcome := Ok;
    }

    /** Insert a category named `name`; a name already in use is refused. */
    method AddCategory(name: string) returns (outcome: Outcome)
      requires Valid()
      modifies this
      ensures Valid()
      ensures outcome == CategoryVerdict(old(State()), name)
      ensures State() == AfterAddCategory(old(State()), name)
    {
      Properties.AddCategoryKeepsWellFormed(State(), name);
      if NameTaken(categories, name) {
        return Fail(DuplicateName);
      }
      categories := categories + [Category(nextCategoryId, name)];
      nextCategoryId := nextCategoryId + 1;
      outcome := Ok;
    }
  }
}
