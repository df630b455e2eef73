/** What the auction rules promise, stated over the pure transitions of
    module Rules: the bid checks and their order, the effect of a successful
    bid, closing and reopening, the watchlist's add/remove/view, comments,
    creation with fresh keys and unique category names, and the store
    invariant that every request keeps. */
module Properties {
  import opened Models
  import opened Rules

  // ---------------------------------------------------------------------
  // Placing a bid: the error paths change nothing

  /** An amount that does not parse is reported before the listing is looked
      up: even for an unknown key the error is `InvalidAmount`. */
  lemma InvalidAmountFirst(s: Store, id: ListingId, bidder: UserId)
    ensures BidVerdict(s, id, bidder, None) == Fail(InvalidAmount)
    ensures AfterBid(s, id, bidder, None) == s
  {
  }

  lemma BelowStartingBidRejected(s: Store, id: ListingId, bidder: UserId, a: real)
    requires id in s.listings && a < s.listings[id].startingBid
    ensures BidVerdict(s, id, bidder, Some(a)) == Fail(BelowStartingBid)
    ensures AfterBid(s, id, bidder, Some(a)) == s
  {
  }

  lemma BelowCurrentBidRejected(s: Store, id: ListingId, bidder: UserId, a: real)
    requires id in s.listings
    requires s.listings[id].startingBid <= a < s.listings[id].currentBid
    ensures BidVerdict(s, id, bidder, Some(a)) == Fail(BelowCurrentBid)
    ensures AfterBid(s, id, bidder, Some(a)) == s
  {
  }

  /** The price checks are strict: matching the current bid (or the starting
      bid) is enough. */
  lemma MatchingBidAccepted(s: Store, id: ListingId, bidder: UserId)
    requires id in s.listings
    requires s.listings[id].startingBid <= s.listings[id].currentBid
    requires s.listings[id].author != bidder
    ensures BidVerdict(s, id, bidder, Some(s.listings[id].currentBid)) == Ok
  {
  }

  /** The author can never bid on their own listing; when the amount passes
      both price checks the error is `SelfBid`. */
  lemma SelfBidRejected(s: Store, id: ListingId, a: real)
    requires id in s.listings
    ensures BidVerdict(s, id, s.listings[id].author, Some(a)) != Ok
    ensures s.listings[id].startingBid <= a && s.listings[id].currentBid <= a ==>
              BidVerdict(s, id, s.listings[id].author, Some(a)) == Fail(SelfBid)
    ensures AfterBid(s, id, s.listings[id].author, Some(a)) == s
  {
  }

  /** Every rejected bid leaves the store exactly as it was. */
  lemma RejectedBidChangesNothing(s: Store, id: ListingId, bidder: UserId, amount: Option<real>)
    requires BidVerdict(s, id, bidder, amount) != Ok
    ensures AfterBid(s, id, bidder, amount) == s
  {
  }

  // ---------------------------------------------------------------------
  // Placing a bid: the effect of success

  /** Two listings that differ at most in their current bid and winner. */
  predicate SameApartFromBid(l: Listing, m: Listing)
  {
    m == l.(currentBid := m.currentBid, currentWinner := m.currentWinner)
  }

  /** A successful bid appends exactly one bid record, makes the amount the
      listing's current bid and the bidder its winner, and touches nothing
      else: no other listing, no other field, no comment or watchlist entry. */
  lemma SuccessfulBid(s: Store, id: ListingId, bidder: UserId, a: real)
    requires BidVerdict(s, id, bidder, Some(a)) == Ok
    ensures var t := AfterBid(s, id, bidder, Some(a));
      && t.bids == s.bids + [Bid(id, bidder, a)]
      && t.listings.Keys == s.listings.Keys
      && t.listings[id].currentBid == a
      && t.listings[id].currentWinner == Some(bidder)
      && SameApartFromBid(s.listings[id], t.listings[id])
      && (forall k :: k in s.listings && k != id ==> t.listings[k] == s.listings[k])
      && t.comments == s.comments && t.watchlist == s.watchlist && t.categories == s.categories
      && t.nextListingId == s.nextListingId && t.nextCategoryId == s.nextCategoryId
  {
  }

  /** A bid request never lowers any listing's current bid. */
  lemma CurrentBidNeverDecreases(s: Store, id: ListingId, bidder: UserId, amount: Option<real>, k: ListingId)
    requires k in s.listings
    ensures var t := AfterBid(s, id, bidder, amount);
      k in t.listings && s.listings[k].currentBid <= t.listings[k].currentBid
  {
  }

  /** The listing's status plays no part in the bid checks: closing (or
      reopening) any listing leaves every bid verdict as it was, so a closed
      listing accepts the same bids as an open one. */
  lemma StatusIgnoredByBids(s: Store, k: ListingId, status: int,
                            id: ListingId, bidder: UserId, amount: Option<real>)
    ensures BidVerdict(SetStatus(s, k, status), id, bidder, amount) == BidVerdict(s, id, bidder, amount)
  {
  }

  /** Every recorded bid on a listing is part of that listing's history. */
  lemma {:induction false} BidInHistory(bids: seq<Bid>, b: Bid)
    requires b in bids
    ensures b in BidsOn(bids, b.listing)
  {
    var front := bids[..|bids| - 1];
    assert bids == front + [bids[|bids| - 1]];
    if b != bids[|bids| - 1] {
      BidInHistory(front, b);
    }
  }

  /** In a store whose rows refer to existing listings and whose listings
      agree with their bid histories (both part of WellFormed), a listing
      that has received any bid has a winner, its current bid is at least its
      starting bid, and no earlier bid on it exceeds the current one. */
  lemma BidListingsMeetStartingBid(s: Store, b: Bid)
    requires RowsReferenceListings(s) && HistoriesAgree(s) && b in s.bids
    ensures b.listing in s.listings
    ensures s.listings[b.listing].currentWinner.Some?
    ensures s.listings[b.listing].startingBid <= s.listings[b.listing].currentBid
    ensures b.amount <= s.listings[b.listing].currentBid
  {
    BidInHistory(s.bids, b);
    TopOfHistory(s.listings[b.listing], BidsOn(s.bids, b.listing), b);
  }

  /** A listing that agrees with a history containing `b` has a winner, a
      current bid at least its starting bid, and `b` does not exceed it. */
  lemma TopOfHistory(l: Listing, h: seq<Bid>, b: Bid)
    requires ShowsTopBid(l, h) && b in h
    ensures l.currentWinner.Some? && l.startingBid <= l.currentBid && b.amount <= l.currentBid
  {
    var i :| 0 <= i < |h| && h[i] == b;
    if i < |h| - 1 {
      assert h[i].amount <= h[|h| - 1].amount;
    }
  }

  /** A bid equal to the starting price of a fresh listing is accepted and
      makes its bidder the winner although the current bid has not risen
      above the starting bid: "there is a winner" and "the current bid
      exceeds the starting bid" do not coincide. */
  lemma WinnerAtStartingPrice()
    ensures var s0 := AfterAddCategory(EmptyStore, "home");
      var s := AfterCreate(s0, 1, "lamp", "", Some(1), Some(10.0), Some(""));
      var t := AfterBid(s, 1, 2, Some(10.0));
      && CreateVerdict(s0, Some(1), Some("")) == Ok
      && BidVerdict(s, 1, 2, Some(10.0)) == Ok
      && t.listings[1].currentWinner == Some(2)
      && t.listings[1].currentBid == t.listings[1].startingBid
  {
    var s0 := AfterAddCategory(EmptyStore, "home");
    assert s0.categories[0].id == 1;
  }

  /** A listing whose starting bid is negative has, before any bid, a
      current bid of zero above its starting bid and still no winner. */
  lemma NoWinnerAboveStartingPrice()
    ensures var s0 := AfterAddCategory(EmptyStore, "home");
      var s := AfterCreate(s0, 1, "lamp", "", Some(1), Some(-5.0), Some(""));
      && 1 in s.listings
      && s.listings[1].currentBid > s.listings[1].startingBid
      && s.listings[1].currentWinner == None
  {
    var s0 := AfterAddCategory(EmptyStore, "home");
    assert s0.categories[0].id == 1;
  }

  // ---------------------------------------------------------------------
  // Closing and reopening

  /** Setting a status writes that status on the listing, on no other
      listing and no other field; an unknown key changes nothing. */
  lemma SetStatusEffect(s: Store, id: ListingId, status: int)
    ensures var t := SetStatus(s, id, status);
      && (id in s.listings ==> t == s.(listings := s.listings[id := s.listings[id].(listingStatus := status)]))
      && t.listings.Keys == s.listings.Keys
      && (forall k :: k in s.listings && k != id ==> t.listings[k] == s.listings[k])
      && (id !in s.listings ==> t == s)
  {
  }

  lemma CloseIdempotent(s: Store, id: ListingId)
    ensures CloseListing(CloseListing(s, id), id) == CloseListing(s, id)
  {
    if id in s.listings {
      var l := s.listings[id];
      assert s.listings[id := l.(listingStatus := Closed)][id := l.(listingStatus := Closed)]
          == s.listings[id := l.(listingStatus := Closed)];
    }
  }

  lemma OpenIdempotent(s: Store, id: ListingId)
    ensures OpenListing(OpenListing(s, id), id) == OpenListing(s, id)
  {
    if id in s.listings {
      var l := s.listings[id];
      assert s.listings[id := l.(listingStatus := Open)][id := l.(listingStatus := Open)]
          == s.listings[id := l.(listingStatus := Open)];
    }
  }

  /** Close then open leaves the listing open, and a listing that was open
      before is back exactly as it was. */
  lemma CloseThenOpen(s: Store, id: ListingId)
    requires id in s.listings
    ensures var t := OpenListing(CloseListing(s, id), id);
      id in t.listings && t.listings[id].listingStatus == Open
    ensures s.listings[id].listingStatus == Open ==> OpenListing(CloseListing(s, id), id) == s
  {
    var l := s.listings[id];
    if l.listingStatus == Open {
      assert s.listings[id := l.(listingStatus := Closed)][id := l.(listingStatus := Open)] == s.listings;
    }
  }

  // ---------------------------------------------------------------------
  // Comments

  lemma CommentEffect(s: Store, id: ListingId, author: UserId, text: string)
    ensures var t := AfterComment(s, id, author, text);
      && (id in s.listings ==> t == s.(comments := s.comments + [Comment(id, text, author)]))
      && (id !in s.listings ==> CommentVerdict(s, id) == Fail(ListingNotFound) && t == s)
  {
  }

  // ---------------------------------------------------------------------
  // Watchlist

  /** `add` always appends one entry, even when the user already watches the
      listing: the number of identical entries goes up by one. */
  lemma AddAppendsDuplicate(s: Store, user: UserId, id: ListingId)
    requires id in s.listings
    ensures var t := AfterWatch(s, Add, user, Item(id));
      && t == s.(watchlist := s.watchlist + [WatchEntry(id, user)])
      && multiset(t.watchlist)[WatchEntry(id, user)] == multiset(s.watchlist)[WatchEntry(id, user)] + 1
  {
  }

  /** `remove` deletes every entry for the listing, whoever owns it and
      whoever asks, and keeps every other entry as often as it occurred. */
  lemma RemoveDeletesForEveryone(s: Store, user: UserId, other: UserId, id: ListingId)
    requires id in s.listings
    ensures var t := AfterWatch(s, Remove, user, Item(id));
      && t == AfterWatch(s, Remove, other, Item(id))
      && (forall e :: e in t.watchlist ==> e.listing != id)
      && (forall e: WatchEntry :: e.listing != id ==> multiset(t.watchlist)[e] == multiset(s.watchlist)[e])
      && t == s.(watchlist := Unwatched(s.watchlist, id))
  {
  }

  /** "all" names no listing: adding or removing with it aborts, and a key
      that does not exist aborts every mode; neither changes anything. */
  lemma WatchFailuresChangeNothing(s: Store, mode: Mode, user: UserId, target: Target)
    requires (target == All && (mode == Add || mode == Remove)) || (target.Item? && target.id !in s.listings)
    ensures WatchVerdict(s, mode, target) != Ok
    ensures AfterWatch(s, mode, user, target) == s
  {
  }

  /** With every entry referring to an existing listing, the view shows
      exactly one listing per entry the user owns, in entry order. */
  lemma {:induction false} WatchedMatchesOwned(listings: map<ListingId, Listing>, entries: seq<WatchEntry>, user: UserId)
    requires forall e :: e in entries ==> e.listing in listings
    ensures |Watched(listings, entries, user)| == |OwnedBy(entries, user)|
    ensures forall k :: 0 <= k < |OwnedBy(entries, user)| ==>
              OwnedBy(entries, user)[k].listing in listings &&
              Watched(listings, entries, user)[k] == listings[OwnedBy(entries, user)[k].listing]
  {
    if entries != [] {
      var front := entries[..|entries| - 1];
      var last := entries[|entries| - 1];
      assert forall e :: e in front ==> e in entries;
      WatchedMatchesOwned(listings, front, user);
      OwnedByMembers(front, user);
    }
  }

  lemma {:induction false} OwnedByMembers(entries: seq<WatchEntry>, user: UserId)
    ensures forall e :: e in OwnedBy(entries, user) ==> e in entries && e.author == user
  {
    if entries != [] {
      var front := entries[..|entries| - 1];
      OwnedByMembers(front, user);
      assert forall e :: e in front ==> e in entries;
    }
  }

  /** Adding a listing to the watchlist puts it at the end of the user's view
      (once more, if it was already there) and leaves every other user's view
      as it was. */
  lemma AddThenView(s: Store, user: UserId, other: UserId, id: ListingId)
    requires id in s.listings && other != user
    ensures var t := AfterWatch(s, Add, user, Item(id));
      && Watched(t.listings, t.watchlist, user) == Watched(s.listings, s.watchlist, user) + [s.listings[id]]
      && Watched(t.listings, t.watchlist, other) == Watched(s.listings, s.watchlist, other)
  {
    var t := AfterWatch(s, Add, user, Item(id));
    assert t.watchlist[..|t.watchlist| - 1] == s.watchlist;
  }

  /** After removing a listing from the watchlist, no user's view shows it. */
  lemma RemoveThenView(s: Store, requester: UserId, viewer: UserId, id: ListingId)
    requires WellFormed(s) && id in s.listings
    ensures var t := AfterWatch(s, Remove, requester, Item(id));
      forall l :: l in Watched(t.listings, t.watchlist, viewer) ==> l.identifier != id
  {
    var t := AfterWatch(s, Remove, requester, Item(id));
    WatchedShowsEntries(t.listings, t.watchlist, viewer);
  }

  lemma {:induction false} WatchedShowsEntries(listings: map<ListingId, Listing>, entries: seq<WatchEntry>, user: UserId)
    ensures forall l :: l in Watched(listings, entries, user) ==>
              exists e :: e in entries && e.author == user && e.listing in listings && listings[e.listing] == l
  {
    if entries != [] {
      var front := entries[..|entries| - 1];
      WatchedShowsEntries(listings, front, user);
      assert forall e :: e in front ==> e in entries;
    }
  }

  // ---------------------------------------------------------------------
  // Creating listings and categories

  /** A created listing gets a key no existing listing has, starts open with
      no bids, and every existing listing is kept. */
  lemma CreateAssignsFreshKey(s: Store, author: UserId, title: string, description: string,
                              category: Option<CategoryId>, startingBid: Option<real>,
                              imageUrl: Option<string>)
    requires WellFormed(s) && CreateVerdict(s, category, imageUrl) == Ok
    ensures var t := AfterCreate(s, author, title, description, category, startingBid, imageUrl);
      && s.nextListingId !in s.listings
      && t.listings.Keys == s.listings.Keys + {s.nextListingId}
      && (forall k :: k in s.listings ==> t.listings[k] == s.listings[k])
      && t.listings[s.nextListingId].identifier == s.nextListingId
      && Unbid(t.listings[s.nextListingId]) && t.listings[s.nextListingId].listingStatus == Open
      && t.nextListingId !in t.listings
  {
  }

  /** A second category with a name already in use is refused. */
  lemma DuplicateCategoryRejected(s: Store, name: string)
    requires CategoryVerdict(s, name) == Ok
    ensures var t := AfterAddCategory(s, name);
      && CategoryVerdict(t, name) == Fail(DuplicateName)
      && AfterAddCategory(t, name) == t
  {
    var t := AfterAddCategory(s, name);
    assert t.categories[|s.categories|].name == name;
  }

  // ---------------------------------------------------------------------
  // The store invariant holds initially and is kept by every request

  lemma EmptyStoreWellFormed()
    ensures WellFormed(EmptyStore)
  {
  }

  lemma BidsOnAppend(bids: seq<Bid>, b: Bid, id: ListingId)
    ensures BidsOn(bids + [b], id) == BidsOn(bids, id) + (if b.listing == id then [b] else [])
  {
    assert (bids + [b])[..|bids|] == bids;
  }

  /** Appending a bid that meets both the starting and the current bid to a
      listing's history keeps the listing in agreement with it once the bid
      becomes the current one. */
  lemma TopBidAfterBid(l: Listing, h: seq<Bid>, b: Bid)
    requires ShowsTopBid(l, h)
    requires l.startingBid <= b.amount && l.currentBid <= b.amount
    ensures ShowsTopBid(l.(currentBid := b.amount, currentWinner := Some(b.bidder)), h + [b])
  {
    var h' := h + [b];
    if h != [] {
      forall i, j | 0 <= i < j < |h'|
        ensures h'[i].amount <= h'[j].amount
      {
        if j == |h| {
          assert h'[i] == h[i];
        }
      }
    }
  }

  /** The store that a successful bid produces. */
  lemma AfterBidShape(s: Store, id: ListingId, bidder: UserId, a: real)
    requires BidVerdict(s, id, bidder, Some(a)) == Ok
    ensures id in s.listings
    ensures AfterBid(s, id, bidder, Some(a)) == RecordBid(s, id, bidder, a)
  {
  }

  lemma HistoriesAfterBid(s: Store, id: ListingId, bidder: UserId, a: real)
    requires HistoriesAgree(s) && id in s.listings
    requires s.listings[id].startingBid <= a && s.listings[id].currentBid <= a
    ensures HistoriesAgree(RecordBid(s, id, bidder, a))
  {
    var t := RecordBid(s, id, bidder, a);
    forall k | k in t.listings
      ensures ShowsTopBid(t.listings[k], BidsOn(t.bids, k))
    {
      HistoryAfterBid(s.listings[k], BidsOn(s.bids, k), s.bids, id, bidder, a, k);
    }
  }

  /** The effect of one accepted bid on the listing with key `k`. */
  lemma HistoryAfterBid(l: Listing, h: seq<Bid>, bids: seq<Bid>, id: ListingId, bidder: UserId, a: real, k: ListingId)
    requires h == BidsOn(bids, k) && ShowsTopBid(l, h)
    requires k == id ==> l.startingBid <= a && l.currentBid <= a
    ensures ShowsTopBid(if k == id then l.(currentBid := a, currentWinner := Some(bidder)) else l,
                        BidsOn(bids + [Bid(id, bidder, a)], k))
  {
    var b := Bid(id, bidder, a);
    BidsOnAppend(bids, b, k);
    if k == id {
      assert BidsOn(bids + [b], k) == h + [b];
      TopBidAfterBid(l, h, b);
    } else {
      assert BidsOn(bids + [b], k) == h;
    }
  }

  /** Recording a bid keeps keys, references and categories in order: it
      adds no listing and refers only to the listing bid on. */
  lemma KeysAfterBid(s: Store, id: ListingId, bidder: UserId, a: real)
    requires IdsUnderCounter(s) && RowsReferenceListings(s) && CategoriesKeyed(s) && id in s.listings
    ensures var t := RecordBid(s, id, bidder, a);
      IdsUnderCounter(t) && RowsReferenceListings(t) && CategoriesKeyed(t)
  {
    var t := RecordBid(s, id, bidder, a);
    assert forall c :: c in t.bids ==> c in s.bids || c == Bid(id, bidder, a);
  }

  /** Recording a bid that meets the starting and the current bid, and
      making it the current one, keeps the store well formed. */
  lemma RecordedBidKeepsWellFormed(s: Store, id: ListingId, bidder: UserId, a: real)
    requires WellFormed(s) && id in s.listings
    requires s.listings[id].startingBid <= a && s.listings[id].currentBid <= a
    ensures WellFormed(RecordBid(s, id, bidder, a))
  {
    HistoriesAfterBid(s, id, bidder, a);
    KeysAfterBid(s, id, bidder, a);
  }

  /** Every bid request keeps the store well formed; in particular a listing
      with bids still shows the latest as its current bid, the history stays
      ascending, and the current bid is at least the starting bid. */
  lemma BidKeepsWellFormed(s: Store, id: ListingId, bidder: UserId, amount: Option<real>)
    requires WellFormed(s)
    ensures WellFormed(AfterBid(s, id, bidder, amount))
  {
    if BidVerdict(s, id, bidder, amount) == Ok {
      AfterBidShape(s, id, bidder, amount.value);
      RecordedBidKeepsWellFormed(s, id, bidder, amount.value);
    }
  }

  lemma StatusKeepsWellFormed(s: Store, id: ListingId, status: int)
    requires WellFormed(s)
    ensures WellFormed(SetStatus(s, id, status))
  {
  }

  lemma CommentKeepsWellFormed(s: Store, id: ListingId, author: UserId, text: string)
    requires WellFormed(s)
    ensures WellFormed(AfterComment(s, id, author, text))
  {
    var t := AfterComment(s, id, author, text);
    assert forall c :: c in t.comments ==> c in s.comments || c.listing == id;
  }

  lemma WatchKeepsWellFormed(s: Store, mode: Mode, user: UserId, target: Target)
    requires WellFormed(s)
    ensures WellFormed(AfterWatch(s, mode, user, target))
  {
    var t := AfterWatch(s, mode, user, target);
    if WatchVerdict(s, mode, target) == Ok && mode == Add {
      assert forall e :: e in t.watchlist ==> e in s.watchlist || e.listing == target.id;
    }
  }

  lemma CreateKeepsWellFormed(s: Store, author: UserId, title: string, description: string,
                              category: Option<CategoryId>, startingBid: Option<real>,
                              imageUrl: Option<string>)
    requires WellFormed(s)
    ensures WellFormed(AfterCreate(s, author, title, description, category, startingBid, imageUrl))
  {
    if CreateVerdict(s, category, imageUrl) == Ok {
      var t := AfterCreate(s, author, title, description, category, startingBid, imageUrl);
      var id := s.nextListingId;
      if BidsOn(s.bids, id) != [] {
        assert BidsOn(s.bids, id)[0] in BidsOn(s.bids, id);
      }
      assert t.listings[id].category.Some? ==> CategoryExists(t.categories, t.listings[id].category.value);
    }
  }

  lemma AddCategoryKeepsWellFormed(s: Store, name: string)
    requires WellFormed(s)
    ensures WellFormed(AfterAddCategory(s, name))
  {
    if CategoryVerdict(s, name) == Ok {
      var t := AfterAddCategory(s, name);
      forall id | id in t.listings && t.listings[id].category.Some?
        ensures CategoryExists(t.categories, t.listings[id].category.value)
      {
        var i :| 0 <= i < |s.categories| && s.categories[i].id == s.listings[id].category.value;
        assert t.categories[i] == s.categories[i];
      }
    }
  }
}
