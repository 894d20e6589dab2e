/** The review handlers of controllers/reviewController.js. Each one takes the
    caller's resolved user id (the routes put authentication in front of all three),
    checks its guards in the source's order, and on success makes the same store
    writes in the same order. A failed guard writes nothing. */
module ReviewController {
  import opened Wrappers
  import opened Schemas
  import opened Models

  /** `addReview`: validate the body, find the book by its external id, refuse a
      second review by the same user, then store the review and append its key to
      the book's back-references. */
  method AddReview(store: Store, bookId: int, userId: UserId, body: Body) returns (res: Reply<(ReviewKey, Review)>)
    requires store.Valid()
    modifies store
    ensures store.Valid()
    ensures res.Err? ==> unchanged(store)
    ensures Validate(ReviewSchema, body).Some? ==> res == Err(400, Validate(ReviewSchema, body).value)
    ensures Validate(ReviewSchema, body).None? && FindBookById(old(store.books), bookId).None? ==>
      res == Err(404, "Book not found")
    ensures (Validate(ReviewSchema, body).None? && FindBookById(old(store.books), bookId).Some?
      && HasReviewBy(old(store.reviews), userId, old(store.books)[FindBookById(old(store.books), bookId).value].key)) ==>
      res == Err(400, "You have already reviewed this book")
    ensures res.Ok? <==>
      && Validate(ReviewSchema, body).None?
      && FindBookById(old(store.books), bookId).Some?
      && !HasReviewBy(old(store.reviews), userId, old(store.books)[FindBookById(old(store.books), bookId).value].key)
    ensures res.Ok? ==>
      && res.data.0 == old(store.nextKey) && store.nextKey == old(store.nextKey) + 1
      && store.nextBookKey == old(store.nextBookKey) && store.nextBookId == old(store.nextBookId)
      && forall book :: ReviewKeysOf(store.reviews, book, store.nextKey) ==
           ReviewKeysOf(old(store.reviews), book, old(store.nextKey)) + (if book == res.data.1.book then [res.data.0] else [])
    ensures res.Ok? ==>
      && ReviewBodyValid(body)
      && FindBookById(old(store.books), bookId).Some?
      && var i := FindBookById(old(store.books), bookId).value;
         var b := old(store.books)[i];
         var k := res.data.0;
         && !HasReviewBy(old(store.reviews), userId, b.key)
         && res.status == 201 && res.message == "Review added successfully"
         && res.data.1 == Review(userId, b.key, RatingOf(body), CommentOf(body))
         && k !in old(store.reviews)
         && store.reviews == old(store.reviews)[k := res.data.1]
         && store.books == old(store.books)[i := b.(reviews := b.reviews + [k])]
  {
    var error := Validate(ReviewSchema, body);
    if error.Some? {
      return Err(400, error.value);
    }
    ReviewSchemaMeaning(body);
    var found := FindBookById(store.books, bookId);
    if found.None? {
      return Err(404, "Book not found");
    }
    var i := found.value;
    var book := store.books[i];
    if HasReviewBy(store.reviews, userId, book.key) {
      return Err(400, "You have already reviewed this book");
    }
    var review := Review(userId, book.key, RatingOf(body), CommentOf(body));
    ghost var books0, reviews0 := store.books, store.reviews;
    var k := store.InsertReview(review);
    store.AppendReviewRef(i, k);
    AddKeepsInvariant(books0, reviews0, k, i, review, store.books, store.reviews);
    forall b: BookKey
      ensures ReviewKeysOf(store.reviews, b, store.nextKey) ==
        ReviewKeysOf(reviews0, b, k) + (if b == review.book then [k] else [])
    {
      ListingWith(reviews0, b, k, review);
    }
    res := Ok(201, "Review added successfully", (k, review));
  }

  /** Storing a fresh review and appending its key to its book keeps every invariant. */
  lemma AddKeepsInvariant(books: seq<Book>, reviews: map<ReviewKey, Review>, k: ReviewKey, i: nat, r: Review,
                          books': seq<Book>, reviews': map<ReviewKey, Review>)
    requires UniqueBooks(books) && OneReviewPerUserAndBook(reviews) && BackReferencesMatch(books, reviews)
    requires k !in reviews && i < |books| && r.book == books[i].key
    requires !HasReviewBy(reviews, r.user, r.book)
    requires reviews' == reviews[k := r]
    requires books' == books[i := books[i].(reviews := books[i].reviews + [k])]
    ensures UniqueBooks(books') && OneReviewPerUserAndBook(reviews') && BackReferencesMatch(books', reviews')
  {
    forall k1, k2 | k1 in reviews' && k2 in reviews' && reviews'[k1].user == reviews'[k2].user
        && reviews'[k1].book == reviews'[k2].book
      ensures k1 == k2
    {
    }
    forall j | 0 <= j < |books'|
      ensures NoDuplicates(books'[j].reviews)
    {
      if j == i {
        assert k !in books[i].reviews;
      }
    }
    forall j, x | 0 <= j < |books'|
      ensures x in books'[j].reviews <==> x in reviews' && reviews'[x].book == books'[j].key
    {
      if j != i {
        assert books[j].key != books[i].key;
        assert k !in books[j].reviews;
      }
    }
  }

  /** `updateReview`: validate the body, find the review, check that the caller wrote
      it, then overwrite its rating and comment and nothing else. */
  method UpdateReview(store: Store, reviewKey: ReviewKey, userId: UserId, body: Body) returns (res: Reply<(ReviewKey, Review)>)
    requires store.Valid()
    modifies store
    ensures store.Valid()
    ensures res.Err? ==> unchanged(store)
    ensures Validate(ReviewSchema, body).Some? ==> res == Err(400, Validate(ReviewSchema, body).value)
    ensures Validate(ReviewSchema, body).None? && reviewKey !in old(store.reviews) ==>
      res == Err(404, "Review not found")
    ensures (Validate(ReviewSchema, body).None? && reviewKey in old(store.reviews)
      && old(store.reviews)[reviewKey].user != userId) ==>
      res == Err(403, "You can only update your own reviews")
    ensures res.Ok? <==>
      Validate(ReviewSchema, body).None? && reviewKey in old(store.reviews) && old(store.reviews)[reviewKey].user == userId
    ensures res.Ok? ==>
      && store.nextKey == old(store.nextKey)
      && store.nextBookKey == old(store.nextBookKey) && store.nextBookId == old(store.nextBookId)
      && forall book :: ReviewKeysOf(store.reviews, book, store.nextKey) == ReviewKeysOf(old(store.reviews), book, old(store.nextKey))
    ensures res.Ok? ==>
      && ReviewBodyValid(body)
      && reviewKey in old(store.reviews) && old(store.reviews)[reviewKey].user == userId
      && var updated := old(store.reviews)[reviewKey].(rating := RatingOf(body), comment := CommentOf(body));
         && res == Ok(200, "Review updated successfully", (reviewKey, updated))
         && store.reviews == old(store.reviews)[reviewKey := updated]
         && store.books == old(store.books)
  {
    var error := Validate(ReviewSchema, body);
    if error.Some? {
      return Err(400, error.value);
    }
    ReviewSchemaMeaning(body);
    if reviewKey !in store.reviews {
      return Err(404, "Review not found");
    }
    var review := store.reviews[reviewKey];
    if review.user != userId {
      return Err(403, "You can only update your own reviews");
    }
    var updated := review.(rating := RatingOf(body), comment := CommentOf(body));
    ghost var reviews0 := store.reviews;
    store.SaveReview(reviewKey, updated);
    OverwriteKeepsInvariant(store.books, reviews0, reviewKey, updated);
    forall b: BookKey
      ensures ReviewKeysOf(store.reviews, b, store.nextKey) == ReviewKeysOf(reviews0, b, store.nextKey)
    {
      ListingAfterOverwrite(reviews0, b, store.nextKey, reviewKey, updated);
    }
    res := Ok(200, "Review updated successfully", (reviewKey, updated));
  }

  /** Overwriting a review's rating and comment, keeping its user and book, keeps
      every invariant. */
  lemma OverwriteKeepsInvariant(books: seq<Book>, reviews: map<ReviewKey, Review>, k: ReviewKey, r: Review)
    requires OneReviewPerUserAndBook(reviews) && BackReferencesMatch(books, reviews)
    requires k in reviews && r.user == reviews[k].user && r.book == reviews[k].book
    ensures OneReviewPerUserAndBook(reviews[k := r]) && BackReferencesMatch(books, reviews[k := r])
  {
    var reviews' := reviews[k := r];
    forall k1, k2 | k1 in reviews' && k2 in reviews' && reviews'[k1].user == reviews'[k2].user
        && reviews'[k1].book == reviews'[k2].book
      ensures k1 == k2
    {
      assert reviews[k1].user == reviews[k2].user && reviews[k1].book == reviews[k2].book;
    }
  }

  /** `deleteReview`: find the review, check that the caller wrote it, pull its key
      from its book's back-references, then delete the record. */
  method DeleteReview(store: Store, reviewKey: ReviewKey, userId: UserId) returns (res: Reply<()>)
    requires store.Valid()
    modifies store
    ensures store.Valid()
    ensures res.Err? ==> unchanged(store)
    ensures reviewKey !in old(store.reviews) ==> res == Err(404, "Review not found")
    ensures reviewKey in old(store.reviews) && old(store.reviews)[reviewKey].user != userId ==>
      res == Err(403, "You can only delete your own reviews")
    ensures res.Ok? <==> reviewKey in old(store.reviews) && old(store.reviews)[reviewKey].user == userId
    ensures res.Ok? ==>
      && store.nextKey == old(store.nextKey)
      && store.nextBookKey == old(store.nextBookKey) && store.nextBookId == old(store.nextBookId)
      && forall book :: ReviewKeysOf(store.reviews, book, store.nextKey) ==
           RemoveAll(ReviewKeysOf(old(store.reviews), book, old(store.nextKey)), reviewKey)
    ensures res.Ok? ==>
      && reviewKey in old(store.reviews) && old(store.reviews)[reviewKey].user == userId
      && res == Ok(200, "Review deleted successfully", ())
      && store.books == PullReviewRef(old(store.books), old(store.reviews)[reviewKey].book, reviewKey)
      && store.reviews == old(store.reviews) - {reviewKey}
      && forall i :: 0 <= i < |store.books| ==> reviewKey !in store.books[i].reviews
  {
    if reviewKey !in store.reviews {
      return Err(404, "Review not found");
    }
    var review := store.reviews[reviewKey];
    if review.user != userId {
      return Err(403, "You can only delete your own reviews");
    }
    ghost var books0, reviews0 := store.books, store.reviews;
    store.PullReview(review.book, reviewKey);
    store.DeleteReviewRecord(reviewKey);
    DeleteKeepsInvariant(books0, reviews0, reviewKey, store.books, store.reviews);
    forall b: BookKey
      ensures ReviewKeysOf(store.reviews, b, store.nextKey) == RemoveAll(ReviewKeysOf(reviews0, b, store.nextKey), reviewKey)
    {
      ListingWithout(reviews0, b, store.nextKey, reviewKey);
    }
    res := Ok(200, "Review deleted successfully", ());
  }

  /** Pulling a review's key from its book and deleting the review keeps every invariant. */
  lemma DeleteKeepsInvariant(books: seq<Book>, reviews: map<ReviewKey, Review>, k: ReviewKey,
                             books': seq<Book>, reviews': map<ReviewKey, Review>)
    requires UniqueBooks(books) && OneReviewPerUserAndBook(reviews) && BackReferencesMatch(books, reviews)
    requires k in reviews
    requires books' == PullReviewRef(books, reviews[k].book, k)
    requires reviews' == reviews - {k}
    ensures UniqueBooks(books') && OneReviewPerUserAndBook(reviews') && BackReferencesMatch(books', reviews')
  {
    forall j | 0 <= j < |books'|
      ensures NoDuplicates(books'[j].reviews)
      ensures forall x :: x in books'[j].reviews <==> x in reviews' && reviews'[x].book == books'[j].key
    {
      PulledBookRefs(books[j], books'[j], reviews, reviews', k);
    }
  }

  /** One book after the pull of `k` from the book of review `k`: its list is still
      without repeats and names exactly its remaining reviews. */
  lemma PulledBookRefs(b: Book, b': Book, reviews: map<ReviewKey, Review>, reviews': map<ReviewKey, Review>, k: ReviewKey)
    requires k in reviews && reviews' == reviews - {k}
    requires NoDuplicates(b.reviews)
    requires forall x :: x in b.reviews <==> x in reviews && reviews[x].book == b.key
    requires b' == if b.key == reviews[k].book then b.(reviews := RemoveAll(b.reviews, k)) else b
    ensures NoDuplicates(b'.reviews)
    ensures forall x :: x in b'.reviews <==> x in reviews' && reviews'[x].book == b'.key
  {
    if b.key == reviews[k].book {
      RemoveAllKeepsDistinct(b.reviews, k);
      forall x
        ensures x in b'.reviews <==> x in reviews' && reviews'[x].book == b'.key
      {
        PulledMembership(b.reviews, k, x);
      }
    } else {
      assert k !in b.reviews;
    }
  }

  /** After `$pull` of `k`, exactly the other elements remain. */
  lemma PulledMembership(s: seq<ReviewKey>, k: ReviewKey, x: ReviewKey)
    ensures x in RemoveAll(s, k) <==> x != k && x in s
  {
    if x != k {
      assert multiset(RemoveAll(s, k))[x] == multiset(s)[x];
    }
  }

  lemma {:induction false} RemoveAllKeepsDistinct(s: seq<ReviewKey>, x: ReviewKey)
    requires NoDuplicates(s)
    ensures NoDuplicates(RemoveAll(s, x))
    decreases |s|
  {
    if s != [] {
      RemoveAllKeepsDistinct(s[1..], x);
      assert s[0] !in s[1..];
      assert multiset(s[1..])[s[0]] == 0;
    }
  }
}
