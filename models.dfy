/** The entities of the auction site: users, categories, listings, bids,
    comments and watchlist entries, with the defaults a newly created listing
    receives. Every primary key is a natural number; references between
    entities are by key. */
module Models {

  datatype Option<+T> = None | Some(value: T)

  type UserId = nat
  type ListingId = nat
  type CategoryId = nat

  /** A registered account. Only the key takes part in the auction rules;
      username and email are carried for completeness. */
  datatype User = User(id: UserId, username: string, email: string)

  /** A named grouping of listings; names are unique across categories. */
  datatype Category = Category(id: CategoryId, name: string)

  /** The two values the handlers write into `listingStatus`. */
  const Closed: int := 0
  const Open: int := 1

  /** An item for sale. `currentBid` and `currentWinner` are rewritten by a
      successful bid, `listingStatus` by closing or reopening. */
  datatype Listing = Listing(
    identifier: ListingId,
    author: UserId,
    title: string,
    category: Option<CategoryId>,
    description: string,
    startingBid: real,
    currentBid: real,
    currentWinner: Option<UserId>,
    listingStatus: int,
    imageUrl: Option<string>)

  /** One accepted bid; bids are never changed once recorded. */
  datatype Bid = Bid(listing: ListingId, bidder: UserId, amount: real)

  /** A free-text comment left on a listing. */
  datatype Comment = Comment(listing: ListingId, text: string, author: UserId)

  /** One row of the watchlist relation between users and listings. */
  datatype WatchEntry = WatchEntry(listing: ListingId, author: UserId)

  /** A listing that nobody has bid on yet: current bid zero, no winner. */
  predicate Unbid(l: Listing)
  {
    l.currentBid == 0.0 && l.currentWinner == None
  }

  /** The row a new listing gets: the supplied fields, and the schema's
      defaults for everything else. A starting bid that is not supplied
      defaults to zero. */
  function NewListing(identifier: ListingId, author: UserId, title: string, description: string,
                      category: Option<CategoryId>, startingBid: Option<real>,
                      imageUrl: Option<string>): (l: Listing)
    ensures l.identifier == identifier && l.author == author
    ensures l.title == title && l.description == description
    ensures l.category == category && l.imageUrl == imageUrl
    ensures startingBid.None? ==> l.startingBid == 0.0
    ensures startingBid.Some? ==> l.startingBid == startingBid.value
    ensures Unbid(l) && l.listingStatus == Open
  {
    Listing(identifier, author, title, category, description,
            match startingBid case Some(b) => b case None => 0.0,
            0.0, None, Open, imageUrl)
  }

  /** No two categories share a name. */
  predicate UniqueNames(cats: seq<Category>)
  {
    forall i, j :: 0 <= i < j < |cats| ==> cats[i].name != cats[j].name
  }

  predicate NameTaken(cats: seq<Category>, name: string)
  {
    exists i :: 0 <= i < |cats| && cats[i].name == name
  }

  predicate CategoryExists(cats: seq<Category>, id: CategoryId)
  {
    exists i :: 0 <= i < |cats| && cats[i].id == id
  }
}
