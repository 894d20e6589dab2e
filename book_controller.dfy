/** The catalogue handlers of controllers/bookController.js: the validation gate of
    `addBook`, the filtered and paginated listing, the book detail with its reviews
    and rating, and the free-text search. The store queries they make (`find`,
    `sort`, `skip`, `limit`, `countDocuments`, `aggregate`) are the functions below,
    over the collections of a `Store`. */
module BookController {
  import opened Wrappers
  import opened Text
  import opened Schemas
  import opened Pagination
  import opened Models

  // ---- Filters ----

  /** The `filter` object of `getAllBooks`: a field is present only when the caller
      asked for it. */
  datatype Filter = Filter(author: Option<string>, genre: Option<string>)

  /** The two kinds of book query: the structured filter of the listing and the
      title-or-author search. */
  datatype Query = ByFilter(f: Filter) | TitleOrAuthor(text: string)

  /** An optional case-insensitive substring constraint on one field. */
  predicate FieldMatches(c: Option<string>, field: string) {
    c.None? || ContainsIgnoreCase(field, c.value)
  }

  /** The documents a query selects: both filter fields hold (AND), or the search text
      occurs in the title or in the author (OR). */
  predicate Matches(b: Book, q: Query) {
    match q
    case ByFilter(f) => FieldMatches(f.author, b.author) && FieldMatches(f.genre, b.genre)
    case TitleOrAuthor(t) => ContainsIgnoreCase(b.title, t) || ContainsIgnoreCase(b.author, t)
  }

  /** `Book.find(query)`: the matching books, each as often as it is stored, in collection order. */
  function Find(books: seq<Book>, q: Query): (r: seq<Book>)
    ensures forall b :: multiset(r)[b] == if Matches(b, q) then multiset(books)[b] else 0
    ensures forall i :: 0 <= i < |r| ==> Matches(r[i], q)
    ensures |r| <= |books|
  {
    if books == [] then []
    else
      assert books == [books[0]] + books[1..];
      if Matches(books[0], q) then [books[0]] + Find(books[1..], q) else Find(books[1..], q)
  }

  /** Two queries that select the same books find the same books. */
  lemma {:induction false} FindSameSelection(books: seq<Book>, q1: Query, q2: Query)
    requires forall b :: Matches(b, q1) == Matches(b, q2)
    ensures Find(books, q1) == Find(books, q2)
  {
    if books != [] {
      FindSameSelection(books[1..], q1, q2);
    }
  }

  // ---- Newest first ----

  /** Ordered by `createdAt`, newest first. */
  predicate NewestFirst(s: seq<Book>) {
    forall i, j :: 0 <= i < j < |s| ==> s[i].createdAt >= s[j].createdAt
  }

  /** A book at least as new as the head of a newest-first sequence can go in front of it. */
  lemma ConsNewestFirst(x: Book, s: seq<Book>)
    requires NewestFirst(s)
    requires s != [] ==> x.createdAt >= s[0].createdAt
    ensures NewestFirst([x] + s)
  {
    var r := [x] + s;
    forall i, j | 0 <= i < j < |r|
      ensures r[i].createdAt >= r[j].createdAt
    {
      if i == 0 {
        assert r[j] == s[j - 1];
        assert s[0].createdAt >= s[j - 1].createdAt;
      } else {
        assert r[i] == s[i - 1] && r[j] == s[j - 1];
      }
    }
  }

  /** What follows the head of a newest-first sequence is newest first. */
  lemma TailNewestFirst(s: seq<Book>)
    requires s != [] && NewestFirst(s)
    ensures NewestFirst(s[1..]) && (|s| > 1 ==> s[0].createdAt >= s[1].createdAt)
  {
    forall i, j | 0 <= i < j < |s[1..]|
      ensures s[1..][i].createdAt >= s[1..][j].createdAt
    {
      assert s[1..][i] == s[i + 1] && s[1..][j] == s[j + 1];
    }
  }

  /** One book put into a newest-first sequence, after every book at least as new. */
  function InsertByDate(b: Book, s: seq<Book>): (r: seq<Book>)
    requires NewestFirst(s)
    ensures NewestFirst(r)
    ensures multiset(r) == multiset(s) + multiset{b}
    ensures r[0] == b || (s != [] && r[0] == s[0])
  {
    if s == [] then [b]
    else if b.createdAt >= s[0].createdAt then
      ConsNewestFirst(b, s);
      [b] + s
    else
      TailNewestFirst(s);
      var rest := InsertByDate(b, s[1..]);
      ConsAfterInsert(s[0], b, s[1..], rest);
      assert s == [s[0]] + s[1..];
      [s[0]] + rest
  }

  /** The head kept in front of the tail with `b` inserted: newest first still, and the
      same books as the whole sequence plus `b`. */
  lemma ConsAfterInsert(x: Book, b: Book, tail: seq<Book>, rest: seq<Book>)
    requires NewestFirst(rest) && multiset(rest) == multiset(tail) + multiset{b}
    requires rest != [] && (rest[0] == b || (tail != [] && rest[0] == tail[0]))
    requires x.createdAt > b.createdAt && (tail != [] ==> x.createdAt >= tail[0].createdAt)
    ensures NewestFirst([x] + rest)
    ensures multiset([x] + rest) == multiset([x] + tail) + multiset{b}
  {
    ConsNewestFirst(x, rest);
    assert multiset([x] + rest) == multiset{x} + multiset(rest);
    assert multiset([x] + tail) == multiset{x} + multiset(tail);
  }

  /** `.sort({ createdAt: -1 })`: the same books, newest first. The order among books
      created at the same time is the store's choice; this one keeps collection order. */
  function SortNewestFirst(s: seq<Book>): (r: seq<Book>)
    ensures NewestFirst(r)
    ensures multiset(r) == multiset(s)
  {
    if s == [] then []
    else
      assert s == [s[0]] + s[1..];
      InsertByDate(s[0], SortNewestFirst(s[1..]))
  }

  // ---- Rating aggregate ----

  function Sum(s: seq<int>): (total: int) {
    if s == [] then 0 else s[0] + Sum(s[1..])
  }

  /** The `$avg` of the ratings, times ten, rounded half up as `Math.round` does;
      zero when there are no ratings. The result, in tenths, is the integer nearest
      to ten times the mean, the upper one on a tie. */
  function AverageTenths(ratings: seq<int>): (t: int)
    ensures |ratings| == 0 ==> t == 0
    ensures |ratings| > 0 ==>
      2 * |ratings| * t <= 20 * Sum(ratings) + |ratings| < 2 * |ratings| * (t + 1)
  {
    if |ratings| == 0 then 0
    else
      var n := |ratings|;
      var q := (20 * Sum(ratings) + n) / (2 * n);
      var r := (20 * Sum(ratings) + n) % (2 * n);
      assert 20 * Sum(ratings) + n == 2 * n * q + r;
      assert 2 * n * (q + 1) == 2 * n * q + 2 * n;
      q
  }

  lemma {:induction false} SumBounds(s: seq<int>, lo: int, hi: int)
    requires forall i :: 0 <= i < |s| ==> lo <= s[i] <= hi
    ensures lo * |s| <= Sum(s) <= hi * |s|
  {
    if s != [] {
      SumBounds(s[1..], lo, hi);
      assert lo * |s| == lo + lo * |s[1..]|;
      assert hi * |s| == hi + hi * |s[1..]|;
    }
  }

  /** Ratings of 1 to 5 give an average between 1.0 and 5.0. */
  lemma AverageWithinRatings(ratings: seq<int>)
    requires |ratings| > 0
    requires forall i :: 0 <= i < |ratings| ==> 1 <= ratings[i] <= 5
    ensures 10 <= AverageTenths(ratings) <= 50
  {
    var n := |ratings|;
    var t := AverageTenths(ratings);
    SumBounds(ratings, 1, 5);
    if t > 50 {
      MulMonotone(51, t, 2 * n);
    }
  }

  /** The average over some stored reviews, all rated 1 to 5, is between 1.0 and 5.0. */
  lemma StoredAverageWithinRatings(reviews: map<ReviewKey, Review>, keys: seq<ReviewKey>)
    requires keys != []
    requires forall k :: k in keys ==> k in reviews
    requires forall k :: k in reviews ==> 1 <= reviews[k].rating <= 5
    ensures 10 <= AverageTenths(RatingsAt(reviews, keys)) <= 50
  {
    AverageWithinRatings(RatingsAt(reviews, keys));
  }

  /** Ratings 4 and 5 average to 4.5. */
  lemma AverageOfFourAndFive(ratings: seq<int>)
    requires ratings == [4, 5]
    ensures AverageTenths(ratings) == 45
  {
    assert Sum(ratings) == ratings[0] + Sum(ratings[1..]);
    assert ratings[1..] == [5];
    assert Sum([5]) == 5 + Sum([]);
  }

  // ---- addBook ----

  /** The fields `addBook` passes on to `new Book(...)` once the body is valid. */
  datatype NewBook = NewBook(title: string, author: string, genre: string)

  /** The outcome of the validation step of `addBook`. */
  datatype Gate = Rejected(status: nat, message: string) | Accepted(book: NewBook)

  /** `addBook` up to the save: a body that fails the book schema is refused with 400
      and the first violation's message; a valid one yields its title, author and genre. */
  function AddBookGate(body: Body): (g: Gate)
    ensures g.Accepted? <==> BookBodyValid(body)
    ensures g.Rejected? ==> g.status == 400 && Validate(BookSchema, body) == Some(g.message)
    ensures g.Accepted? ==> g.book == NewBook(body["title"].s, body["author"].s, body["genre"].s)
  {
    BookSchemaMeaning(body);
    match Validate(BookSchema, body)
    case Some(msg) => Rejected(400, msg)
    case None => Accepted(NewBook(body["title"].s, body["author"].s, body["genre"].s))
  }

  /** The document `new Book({ title, author, genre })` builds before `save()`: the
      handler sets no external `id`. */
  datatype BookDraft = BookDraft(id: Option<int>, title: string, author: string, genre: string)

  /** Mongoose's `required` checks of models/Book.js on a document about to be saved:
      every required path is set, and a required string is not empty. */
  predicate PassesModelValidation(d: BookDraft) {
    d.id.Some? && d.title != "" && d.author != "" && d.genre != ""
  }

  /** `addBook` as written: the gate, then the save of a document without an `id`.
      A failing save throws, and the handler's `catch` answers 500. */
  function AddBookAsWritten(body: Body): (res: Reply<NewBook>)
    ensures !BookBodyValid(body) ==> res.Err? && res.status == 400 && Validate(BookSchema, body) == Some(res.message)
    ensures BookBodyValid(body) ==> res == Err(500, "Internal server error")
  {
    match AddBookGate(body)
    case Rejected(status, message) => Err(status, message)
    case Accepted(nb) =>
      var draft := BookDraft(None, nb.title, nb.author, nb.genre);
      var created := Ok(201, "Book added successfully", nb);
      if PassesModelValidation(draft) then created else Err(500, "Internal server error")
  }

  /** No body gets a book added: a valid one fails the model's required `id`. */
  lemma AddBookNeverSucceeds(body: Body)
    ensures !AddBookAsWritten(body).Ok?
    ensures BookBodyValid(body) ==> AddBookAsWritten(body) == Err(500, "Internal server error")
  {
  }

  /** `addBook` with the new book given a fresh external id, as the unique required
      `id` of models/Book.js calls for: a body the schema refuses gets 400 and changes
      nothing; a valid one adds one book, with no reviews, a store key and an id no
      other book has, and gets 201. */
  method AddBook(store: Store, body: Body, createdAt: int) returns (res: Reply<Book>)
    requires store.Valid()
    modifies store
    ensures store.Valid()
    ensures res.Err? <==> !BookBodyValid(body)
    ensures res.Err? ==> unchanged(store) && res.status == 400 && Validate(BookSchema, body) == Some(res.message)
    ensures res.Ok? ==>
      && res.status == 201 && res.message == "Book added successfully"
      && res.data == Book(old(store.nextBookKey), old(store.nextBookId),
                          body["title"].s, body["author"].s, body["genre"].s, [], createdAt)
      && store.books == old(store.books) + [res.data]
      && store.reviews == old(store.reviews) && store.nextKey == old(store.nextKey)
      && store.nextBookKey == old(store.nextBookKey) + 1 && store.nextBookId == old(store.nextBookId) + 1
      && (forall i :: 0 <= i < |old(store.books)| ==>
            old(store.books)[i].id != res.data.id && old(store.books)[i].key != res.data.key)
  {
    var gate := AddBookGate(body);
    match gate
    case Rejected(status, message) =>
      return Err(status, message);
    case Accepted(nb) =>
      ghost var books0 := store.books;
      var book := store.InsertBook(nb.title, nb.author, nb.genre, createdAt);
      AddBookKeepsInvariant(books0, store.reviews, book, store.nextBookKey - 1, store.nextBookId - 1);
      res := Ok(201, "Book added successfully", book);
  }

  /** Appending a book with a key and an id above all others, and no reviews, keeps
      the invariants of the collections. */
  lemma AddBookKeepsInvariant(books: seq<Book>, reviews: map<ReviewKey, Review>, b: Book, keyBound: BookKey, idBound: int)
    requires UniqueBooks(books) && OneReviewPerUserAndBook(reviews) && BackReferencesMatch(books, reviews)
    requires forall i :: 0 <= i < |books| ==> books[i].key < keyBound && books[i].id < idBound
    requires forall k :: k in reviews ==> reviews[k].book < keyBound
    requires b.key == keyBound && b.id == idBound && b.reviews == []
    ensures UniqueBooks(books + [b]) && BackReferencesMatch(books + [b], reviews)
  {
    var books' := books + [b];
    forall i, k | 0 <= i < |books'|
      ensures k in books'[i].reviews <==> k in reviews && reviews[k].book == books'[i].key
    {
      if i < |books| {
        assert books'[i] == books[i];
      }
    }
  }

  // ---- getAllBooks ----

  /** Leaving an empty parameter out of the filter selects the same books, since the
      empty pattern occurs everywhere. */
  lemma EmptyParameterIsNoConstraint(c: Option<string>, field: string)
    ensures FieldMatches(if c.Some? && c.value != "" then c else None, field) == FieldMatches(c, field)
  {
    EmptyIsInfix(Lower(field));
  }

  /** The `data` of a listing response. */
  datatype BookListing = BookListing(books: seq<Book>, pagination: PageInfo)

  /** A book the listing selects for the given `author` and `genre` parameters. */
  predicate ListingMatch(b: Book, author: Option<string>, genre: Option<string>) {
    Matches(b, ByFilter(Filter(author, genre)))
  }

  /** Every book on a page of the sorted listing is a stored book that matches the
      parameters, and the page is newest first. */
  lemma ListingPage(books: seq<Book>, author: Option<string>, genre: Option<string>, skip: nat, limit: nat)
    ensures var page := Window(SortNewestFirst(Find(books, ByFilter(Filter(author, genre)))), skip, limit);
      && NewestFirst(page)
      && forall i :: 0 <= i < |page| ==> page[i] in books && ListingMatch(page[i], author, genre)
  {
    var matching := Find(books, ByFilter(Filter(author, genre)));
    var sorted := SortNewestFirst(matching);
    var page := Window(sorted, skip, limit);
    forall i | 0 <= i < |page|
      ensures page[i] in books && ListingMatch(page[i], author, genre)
    {
      assert page[i] == sorted[skip + i];
      assert page[i] in multiset(sorted);
      assert multiset(matching)[page[i]] > 0;
    }
    forall i, j | 0 <= i < j < |page|
      ensures page[i].createdAt >= page[j].createdAt
    {
      assert page[i] == sorted[skip + i] && page[j] == sorted[skip + j];
    }
  }

  /** The `filter` object of `getAllBooks`: a constraint for each parameter given
      and not empty. It selects exactly the books that match the parameters as given,
      since an empty pattern occurs everywhere. */
  method BuildFilter(author: Option<string>, genre: Option<string>) returns (f: Filter)
    ensures f.author.Some? <==> author.Some? && author.value != ""
    ensures f.genre.Some? <==> genre.Some? && genre.value != ""
    ensures f.author.Some? ==> f.author == author
    ensures f.genre.Some? ==> f.genre == genre
    ensures forall b :: Matches(b, ByFilter(f)) == ListingMatch(b, author, genre)
  {
    f := Filter(None, None);
    if author.Some? && author.value != "" {
      f := f.(author := author);
    }
    if genre.Some? && genre.value != "" {
      f := f.(genre := genre);
    }
    forall b: Book
      ensures Matches(b, ByFilter(f)) == ListingMatch(b, author, genre)
    {
      EmptyParameterIsNoConstraint(author, b.author);
      EmptyParameterIsNoConstraint(genre, b.genre);
    }
  }

  /** `getAllBooks`: page `page` (default 1) of `limit` (default 10) books among those
      whose author and genre contain the given parameters, newest first; the pagination
      counts all matching books. */
  method GetAllBooks(store: Store, pageParam: Option<nat>, limitParam: Option<nat>,
                     author: Option<string>, genre: Option<string>) returns (r: BookListing)
    requires author.Some? ==> NoRegexMeta(author.value)
    requires genre.Some? ==> NoRegexMeta(genre.value)
    ensures var page := OrDefault(pageParam, 1);
            var limit := OrDefault(limitParam, BookPageSize);
            var matching := Find(store.books, ByFilter(Filter(author, genre)));
            && r.books == Window(SortNewestFirst(matching), Offset(page, limit), limit)
            && r.pagination == Paginate(page, limit, |matching|)
    ensures |r.books| <= OrDefault(limitParam, BookPageSize)
    ensures forall i :: 0 <= i < |r.books| ==>
      r.books[i] in store.books && ListingMatch(r.books[i], author, genre)
    ensures NewestFirst(r.books)
  {
    var page := OrDefault(pageParam, 1);
    var limit := OrDefault(limitParam, BookPageSize);
    var skip := Offset(page, limit);

    var filter := BuildFilter(author, genre);
    FindSameSelection(store.books, ByFilter(filter), ByFilter(Filter(author, genre)));
    var matching := Find(store.books, ByFilter(filter));
    var books := Window(SortNewestFirst(matching), skip, limit);
    var total := |matching|;
    r := BookListing(books, Paginate(page, limit, total));
    ListingPage(store.books, author, genre, skip, limit);
  }

  // ---- getBookById ----

  /** The `data` of a book detail response: the book with its average rating (in
      tenths) and review count, one page of its reviews, and that page's metadata. */
  datatype BookDetail = BookDetail(book: Book, avgRatingTenths: int, totalReviews: nat,
                                   reviews: seq<(ReviewKey, Review)>, pagination: PageInfo)

  /** Each entry is a stored review of `book` with its own key, in creation order. */
  predicate ReviewsOfBook(page: seq<(ReviewKey, Review)>, reviews: map<ReviewKey, Review>, book: BookKey) {
    && (forall i :: 0 <= i < |page| ==>
          page[i].0 in reviews && page[i].1 == reviews[page[i].0] && page[i].1.book == book)
    && (forall i, j :: 0 <= i < j < |page| ==> page[i].0 < page[j].0)
  }

  /** One page of a book's review listing holds stored reviews of that book, each with
      its own key, in creation order, and they are the listing's items from `skip` on. */
  lemma ReviewPageOfBook(reviews: map<ReviewKey, Review>, book: BookKey, n: nat, skip: nat, limit: nat)
    ensures var keys := ReviewKeysOf(reviews, book, n);
      var page := ReviewsAt(reviews, Window(keys, skip, limit));
      && |page| <= limit
      && (forall i :: 0 <= i < |page| ==> page[i].0 == keys[skip + i])
      && ReviewsOfBook(page, reviews, book)
  {
    var keys := ReviewKeysOf(reviews, book, n);
    var window := Window(keys, skip, limit);
    forall i | 0 <= i < |window|
      ensures window[i] in keys
    {
      assert window[i] == keys[skip + i];
    }
  }

  /** What the invariant gives about the review listing of the book at position `i`:
      its length is that of the back-references, the average over it is 0 or between
      1.0 and 5.0, and any page of it lists the book's own stored reviews. */
  lemma DetailFacts(books: seq<Book>, reviews: map<ReviewKey, Review>, n: nat, i: nat, skip: nat, limit: nat)
    requires BackReferencesMatch(books, reviews) && i < |books|
    requires forall k :: k in reviews ==> k < n && 1 <= reviews[k].rating <= 5
    ensures var keys := ReviewKeysOf(reviews, books[i].key, n);
      && |keys| == |books[i].reviews|
      && (keys == [] ==> AverageTenths(RatingsAt(reviews, keys)) == 0)
      && (keys != [] ==> 10 <= AverageTenths(RatingsAt(reviews, keys)) <= 50)
      && (forall k :: k in Window(keys, skip, limit) ==> k in reviews)
      && |ReviewsAt(reviews, Window(keys, skip, limit))| <= limit
      && ReviewsOfBook(ReviewsAt(reviews, Window(keys, skip, limit)), reviews, books[i].key)
  {
    var keys := ReviewKeysOf(reviews, books[i].key, n);
    BackReferenceCount(books, reviews, n, i);
    ReviewPageOfBook(reviews, books[i].key, n, skip, limit);
    if keys != [] {
      StoredAverageWithinRatings(reviews, keys);
    }
  }

  /** `getBookById`: the book with external id `id`, or 404; then page `page`
      (default 1) of `limit` (default 5) of its reviews, and the average rating and
      count over all of them whatever the page. Review has no `createdAt`, so the
      `sort` of the source orders by a missing field and the reviews come in store
      (creation) order. */
  method GetBookById(store: Store, id: int, pageParam: Option<nat>, limitParam: Option<nat>)
    returns (res: Reply<BookDetail>)
    requires store.Valid()
    ensures res.Err? <==> FindBookById(store.books, id).None?
    ensures res.Err? ==> res == Err(404, "Book not found")
    ensures res.Ok? ==>
      var b := store.books[FindBookById(store.books, id).value];
      var keys := ReviewKeysOf(store.reviews, b.key, store.nextKey);
      var page := OrDefault(pageParam, 1);
      var limit := OrDefault(limitParam, ReviewPageSize);
      && res.status == 200
      && res.data.book == b && b.id == id
      && res.data.totalReviews == |keys| == |b.reviews|
      && res.data.avgRatingTenths == AverageTenths(RatingsAt(store.reviews, keys))
      && (keys == [] ==> res.data.avgRatingTenths == 0)
      && (keys != [] ==> 10 <= res.data.avgRatingTenths <= 50)
      && res.data.reviews == ReviewsAt(store.reviews, Window(keys, Offset(page, limit), limit))
      && |res.data.reviews| <= limit
      && ReviewsOfBook(res.data.reviews, store.reviews, b.key)
      && res.data.pagination == Paginate(page, limit, |keys|)
  {
    var found := FindBookById(store.books, id);
    if found.None? {
      return Err(404, "Book not found");
    }
    var book := store.books[found.value];

    var page := OrDefault(pageParam, 1);
    var limit := OrDefault(limitParam, ReviewPageSize);
    var skip := Offset(page, limit);

    DetailFacts(store.books, store.reviews, store.nextKey, found.value, skip, limit);
    var keys := ReviewKeysOf(store.reviews, book.key, store.nextKey);
    var reviews := ReviewsAt(store.reviews, Window(keys, skip, limit));
    var totalReviews := |keys|;
    var avg := AverageTenths(RatingsAt(store.reviews, keys));
    res := Ok(200, "", BookDetail(book, avg, totalReviews, reviews, Paginate(page, limit, totalReviews)));
  }

  // ---- searchBooks ----

  /** The `data` of a search response. */
  datatype SearchResult = SearchResult(books: seq<Book>, count: nat)

  /** `searchBooks`: a missing or empty query is refused with 400 before any lookup;
      otherwise every book whose title or author contains the query, ignoring case,
      newest first and unpaginated, with their number. */
  method SearchBooks(store: Store, query: Option<string>) returns (res: Reply<SearchResult>)
    requires query.Some? ==> NoRegexMeta(query.value)
    ensures res.Err? <==> query.None? || query.value == ""
    ensures res.Err? ==> res == Err(400, "Search query is required")
    ensures res.Ok? ==>
      && res.status == 200
      && res.data.books == SortNewestFirst(Find(store.books, TitleOrAuthor(query.value)))
      && res.data.count == |res.data.books|
      && NewestFirst(res.data.books)
      && (forall b :: multiset(res.data.books)[b] ==
            if ContainsIgnoreCase(b.title, query.value) || ContainsIgnoreCase(b.author, query.value)
            then multiset(store.books)[b] else 0)
  {
    if query.None? || query.value == "" {
      return Err(400, "Search query is required");
    }
    var books := SortNewestFirst(Find(store.books, TitleOrAuthor(query.value)));
    res := Ok(200, "", SearchResult(books, |books|));
  }
}
