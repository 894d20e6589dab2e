/** The records of models/Book.js and models/Review.js, the reads the controllers make
    of them, and the store that holds both collections. */
module Models {
  import opened Wrappers

  /** The store's own key (`_id`) of a book. */
  type BookKey = nat
  /** The store's own key (`_id`) of a review. The store hands keys out in increasing
      order, so key order is creation order. */
  type ReviewKey = nat
  /** The resolved identity of an authenticated caller. */
  type UserId = nat

  /** A book: its store key, its numeric external `id`, the three descriptive fields,
      the back-references to its reviews and its creation time (an abstract ordering key). */
  datatype Book = Book(key: BookKey, id: int, title: string, author: string, genre: string,
                       reviews: seq<ReviewKey>, createdAt: int)

  /** A review: who wrote it, which book it is about, the rating and the comment. */
  datatype Review = Review(user: UserId, book: BookKey, rating: int, comment: string)

  // ---- Reads ----

  /** `Book.findOne({ id })`: the position of the first book whose external id is `id`. */
  function FindBookById(books: seq<Book>, id: int): (r: Option<nat>)
    ensures r.Some? ==> r.value < |books| && books[r.value].id == id
    ensures r.Some? ==> forall i :: 0 <= i < r.value ==> books[i].id != id
    ensures r.None? <==> forall i :: 0 <= i < |books| ==> books[i].id != id
  {
    if books == [] then None
    else if books[0].id == id then Some(0)
    else match FindBookById(books[1..], id)
      case None => None
      case Some(i) => Some(i + 1)
  }

  /** `Review.findOne({ user, book })` finds a review. */
  predicate HasReviewBy(reviews: map<ReviewKey, Review>, user: UserId, book: BookKey) {
    exists k | k in reviews :: reviews[k].user == user && reviews[k].book == book
  }

  /** `Review.find({ book })` over the keys below `n`: the keys of the reviews of `book`,
      in creation order. */
  function ReviewKeysOf(reviews: map<ReviewKey, Review>, book: BookKey, n: nat): (r: seq<ReviewKey>)
    ensures forall k :: k in r <==> k < n && k in reviews && reviews[k].book == book
    ensures forall i :: 0 <= i < |r| ==> r[i] < n
    ensures forall i, j :: 0 <= i < j < |r| ==> r[i] < r[j]
    decreases n
  {
    if n == 0 then []
    else
      var before := ReviewKeysOf(reviews, book, n - 1);
      if n - 1 in reviews && reviews[n - 1].book == book then before + [n - 1] else before
  }

  /** The stored reviews under the given keys, with their keys. */
  function ReviewsAt(reviews: map<ReviewKey, Review>, keys: seq<ReviewKey>): (r: seq<(ReviewKey, Review)>)
    requires forall k :: k in keys ==> k in reviews
    ensures |r| == |keys|
    ensures forall i :: 0 <= i < |keys| ==> r[i] == (keys[i], reviews[keys[i]])
    ensures forall e :: e in r <==> e.0 in keys && e.1 == reviews[e.0]
  {
    var r := seq(|keys|, i requires 0 <= i < |keys| => (keys[i], reviews[keys[i]]));
    forall e: (ReviewKey, Review) | e.0 in keys && e.1 == reviews[e.0]
      ensures e in r
    {
      var i :| 0 <= i < |keys| && keys[i] == e.0;
      assert r[i] == e;
    }
    r
  }

  /** The ratings of the stored reviews under the given keys. */
  function RatingsAt(reviews: map<ReviewKey, Review>, keys: seq<ReviewKey>): (r: seq<int>)
    requires forall k :: k in keys ==> k in reviews
    ensures |r| == |keys|
    ensures forall i :: 0 <= i < |keys| ==> r[i] == reviews[keys[i]].rating
    ensures (forall k :: k in reviews ==> 1 <= reviews[k].rating <= 5) ==>
      forall i :: 0 <= i < |r| ==> 1 <= r[i] <= 5
  {
    seq(|keys|, i requires 0 <= i < |keys| => reviews[keys[i]].rating)
  }

  // ---- Writes ----

  /** `$pull`: `s` with every occurrence of `x` taken out, the rest kept in order. */
  function RemoveAll(s: seq<ReviewKey>, x: ReviewKey): (r: seq<ReviewKey>)
    ensures x !in r
    ensures forall y :: y != x ==> multiset(r)[y] == multiset(s)[y]
    ensures x !in s ==> r == s
  {
    if s == [] then []
    else
      assert s == [s[0]] + s[1..];
      if s[0] == x then RemoveAll(s[1..], x) else [s[0]] + RemoveAll(s[1..], x)
  }

  /** `Book.findByIdAndUpdate(book, { $pull: { reviews: x } })` over the collection. */
  function PullReviewRef(books: seq<Book>, book: BookKey, x: ReviewKey): (r: seq<Book>)
    ensures |r| == |books|
    ensures forall i :: 0 <= i < |books| && books[i].key != book ==> r[i] == books[i]
    ensures forall i :: 0 <= i < |books| && books[i].key == book ==>
      r[i] == books[i].(reviews := RemoveAll(books[i].reviews, x))
    ensures forall i :: 0 <= i < |r| ==>
      r[i].key == books[i].key && r[i].id == books[i].id && r[i].createdAt == books[i].createdAt
    ensures forall i :: 0 <= i < |r| && books[i].key == book ==> x !in r[i].reviews
    ensures forall i, y :: 0 <= i < |r| && (books[i].key != book || y != x) ==>
      multiset(r[i].reviews)[y] == multiset(books[i].reviews)[y]
  {
    seq(|books|, i requires 0 <= i < |books| =>
      if books[i].key == book then books[i].(reviews := RemoveAll(books[i].reviews, x)) else books[i])
  }

  /** A store key above that of every book. */
  function KeyBound(books: seq<Book>): (r: BookKey)
    ensures forall i :: 0 <= i < |books| ==> books[i].key < r
  {
    if books == [] then 0
    else
      var rest := KeyBound(books[1..]);
      assert forall i :: 1 <= i < |books| ==> books[i] == books[1..][i - 1];
      if books[0].key < rest then rest else books[0].key + 1
  }

  /** An external id above that of every book; 1 when there are none. */
  function IdBound(books: seq<Book>): (r: int)
    ensures forall i :: 0 <= i < |books| ==> books[i].id < r
  {
    if books == [] then 1
    else
      var rest := IdBound(books[1..]);
      assert forall i :: 1 <= i < |books| ==> books[i] == books[1..][i - 1];
      if books[0].id < rest then rest else books[0].id + 1
  }

  // ---- The invariants of the two collections ----

  /** Store keys and external ids are unique (the unique index on `id`). */
  ghost predicate UniqueBooks(books: seq<Book>) {
    forall i, j :: 0 <= i < j < |books| ==> books[i].key != books[j].key && books[i].id != books[j].id
  }

  ghost predicate NoDuplicates(s: seq<ReviewKey>) {
    forall i, j :: 0 <= i < j < |s| ==> s[i] != s[j]
  }

  /** At most one review per (user, book). */
  ghost predicate OneReviewPerUserAndBook(reviews: map<ReviewKey, Review>) {
    forall k1, k2 ::
      k1 in reviews && k2 in reviews && reviews[k1].user == reviews[k2].user && reviews[k1].book == reviews[k2].book
      ==> k1 == k2
  }

  /** Each book lists, once each, exactly the reviews that exist for it. */
  ghost predicate BackReferencesMatch(books: seq<Book>, reviews: map<ReviewKey, Review>) {
    && (forall i :: 0 <= i < |books| ==> NoDuplicates(books[i].reviews))
    && (forall i, k :: 0 <= i < |books| ==>
          (k in books[i].reviews <==> k in reviews && reviews[k].book == books[i].key))
  }

  /** The two collections, Book and Review. */
  class Store {
    var books: seq<Book>
    var reviews: map<ReviewKey, Review>
    /** The key the next stored review receives. */
    var nextKey: ReviewKey
    /** The store key the next stored book receives. */
    var nextBookKey: BookKey
    /** The external id the next stored book receives. */
    var nextBookId: int

    ghost predicate Valid()
      reads this
    {
      && UniqueBooks(books)
      && (forall i :: 0 <= i < |books| ==> books[i].key < nextBookKey && books[i].id < nextBookId)
      && (forall k :: k in reviews ==> k < nextKey && reviews[k].book < nextBookKey && 1 <= reviews[k].rating <= 5)
      && OneReviewPerUserAndBook(reviews)
      && BackReferencesMatch(books, reviews)
    }

    /** A store holding the given books and no reviews. */
    constructor (initial: seq<Book>)
      requires UniqueBooks(initial)
      requires forall i :: 0 <= i < |initial| ==> initial[i].reviews == []
      ensures Valid()
      ensures books == initial && reviews == map[] && nextKey == 0
    {
      books := initial;
      reviews := map[];
      nextKey := 0;
      nextBookKey := KeyBound(initial);
      nextBookId := IdBound(initial);
    }

    /** `book.save()` of a new book: it gets a store key and an external id never used before. */
    method InsertBook(title: string, author: string, genre: string, createdAt: int) returns (b: Book)
      modifies this
      ensures b == Book(old(nextBookKey), old(nextBookId), title, author, genre, [], createdAt)
      ensures books == old(books) + [b] && reviews == old(reviews) && nextKey == old(nextKey)
      ensures nextBookKey == old(nextBookKey) + 1 && nextBookId == old(nextBookId) + 1
    {
      b := Book(nextBookKey, nextBookId, title, author, genre, [], createdAt);
      books := books + [b];
      nextBookKey := nextBookKey + 1;
      nextBookId := nextBookId + 1;
    }

    /** `review.save()` of a new review: it is stored under a key never used before. */
    method InsertReview(r: Review) returns (k: ReviewKey)
      modifies this
      ensures k == old(nextKey) && nextKey == k + 1
      ensures reviews == old(reviews)[k := r] && books == old(books)
      ensures nextBookKey == old(nextBookKey) && nextBookId == old(nextBookId)
    {
      k := nextKey;
      reviews := reviews[k := r];
      nextKey := nextKey + 1;
    }

    /** `book.reviews.push(k)` then `book.save()`, for the book at position `i`. */
    method AppendReviewRef(i: nat, k: ReviewKey)
      requires i < |books|
      modifies this
      ensures books == old(books)[i := old(books)[i].(reviews := old(books)[i].reviews + [k])]
      ensures reviews == old(reviews) && nextKey == old(nextKey)
      ensures nextBookKey == old(nextBookKey) && nextBookId == old(nextBookId)
    {
      books := books[i := books[i].(reviews := books[i].reviews + [k])];
    }

    /** `review.save()` of a review that is already stored. */
    method SaveReview(k: ReviewKey, r: Review)
      requires k in reviews
      modifies this
      ensures reviews == old(reviews)[k := r]
      ensures books == old(books) && nextKey == old(nextKey)
      ensures nextBookKey == old(nextBookKey) && nextBookId == old(nextBookId)
    {
      reviews := reviews[k := r];
    }

    /** `Book.findByIdAndUpdate(book, { $pull: { reviews: k } })`. */
    method PullReview(book: BookKey, k: ReviewKey)
      modifies this
      ensures books == PullReviewRef(old(books), book, k)
      ensures reviews == old(reviews) && nextKey == old(nextKey)
      ensures nextBookKey == old(nextBookKey) && nextBookId == old(nextBookId)
    {
      books := PullReviewRef(books, book, k);
    }

    /** `Review.findByIdAndDelete(k)`. */
    method DeleteReviewRecord(k: ReviewKey)
      modifies this
      ensures reviews == old(reviews) - {k}
      ensures books == old(books) && nextKey == old(nextKey)
      ensures nextBookKey == old(nextBookKey) && nextBookId == old(nextBookId)
    {
      reviews := reviews - {k};
    }
  }

  // ---- What the invariant gives ----

  ghost function Elements(s: seq<ReviewKey>): (r: set<ReviewKey>) {
    set x | x in s
  }

  lemma {:induction false} DistinctCount(s: seq<ReviewKey>)
    requires NoDuplicates(s)
    ensures |Elements(s)| == |s|
  {
    if s != [] {
      DistinctCount(s[1..]);
      var rest := Elements(s[1..]);
      assert Elements(s) == rest + {s[0]};
      assert s[0] !in rest;
      assert |rest + {s[0]}| == |rest| + 1;
    }
  }

  /** The back-reference list of a book is exactly as long as the list of its reviews
      that `Review.find({ book })` returns, so either one counts the reviews. */
  lemma BackReferenceCount(books: seq<Book>, reviews: map<ReviewKey, Review>, n: nat, i: nat)
    requires BackReferencesMatch(books, reviews)
    requires forall k :: k in reviews ==> k < n
    requires i < |books|
    ensures |books[i].reviews| == |ReviewKeysOf(reviews, books[i].key, n)|
  {
    var listed := ReviewKeysOf(reviews, books[i].key, n);
    DistinctCount(books[i].reviews);
    DistinctCount(listed);
    forall x
      ensures x in Elements(books[i].reviews) <==> x in Elements(listed)
    {
      assert x in books[i].reviews <==> x in reviews && reviews[x].book == books[i].key;
    }
    assert Elements(books[i].reviews) == Elements(listed);
  }

  /** Taking a review out of the store takes exactly it out of its book's listing. */
  lemma ListingWithout(reviews: map<ReviewKey, Review>, book: BookKey, n: nat, k: ReviewKey)
    ensures ReviewKeysOf(reviews - {k}, book, n) == RemoveAll(ReviewKeysOf(reviews, book, n), k)
  {
    ListingWithoutBelow(reviews, reviews - {k}, book, n, k);
  }

  lemma {:induction false} ListingWithoutBelow(reviews: map<ReviewKey, Review>, without: map<ReviewKey, Review>,
                                               book: BookKey, n: nat, k: ReviewKey)
    requires without == reviews - {k}
    ensures ReviewKeysOf(without, book, n) == RemoveAll(ReviewKeysOf(reviews, book, n), k)
    decreases n
  {
    if n > 0 {
      var m := n - 1;
      ListingWithoutBelow(reviews, without, book, m, k);
      var before := ReviewKeysOf(reviews, book, m);
      var beforeWithout := ReviewKeysOf(without, book, m);
      if m in reviews && reviews[m].book == book {
        assert ReviewKeysOf(reviews, book, n) == before + [m];
        RemoveAllAppend(before, k, [m]);
        if m == k {
          assert ReviewKeysOf(without, book, n) == beforeWithout;
          assert RemoveAll([m], k) == [];
        } else {
          assert ReviewKeysOf(without, book, n) == beforeWithout + [m];
          assert RemoveAll([m], k) == [m];
        }
      } else {
        assert ReviewKeysOf(reviews, book, n) == before;
        assert ReviewKeysOf(without, book, n) == beforeWithout;
      }
    }
  }

  /** Two stores that hold the same keys below `n`, with the same book for each,
      list the same reviews of `book`. */
  lemma {:induction false} ListingAgrees(r1: map<ReviewKey, Review>, r2: map<ReviewKey, Review>, book: BookKey, n: nat)
    requires forall k :: k < n ==> (k in r1 <==> k in r2)
    requires forall k :: k < n && k in r1 ==> (r1[k].book == book <==> r2[k].book == book)
    ensures ReviewKeysOf(r1, book, n) == ReviewKeysOf(r2, book, n)
    decreases n
  {
    if n > 0 {
      ListingAgrees(r1, r2, book, n - 1);
    }
  }

  /** A review stored under the next fresh key comes last in its book's listing and
      does not show in any other book's. */
  lemma ListingWith(reviews: map<ReviewKey, Review>, book: BookKey, n: nat, r: Review)
    requires forall k :: k in reviews ==> k < n
    ensures ReviewKeysOf(reviews[n := r], book, n + 1) ==
      ReviewKeysOf(reviews, book, n) + (if r.book == book then [n] else [])
  {
    ListingAgrees(reviews[n := r], reviews, book, n);
  }

  /** Overwriting a review without changing its book leaves every listing as it was. */
  lemma ListingAfterOverwrite(reviews: map<ReviewKey, Review>, book: BookKey, n: nat, k: ReviewKey, r: Review)
    requires k in reviews && r.book == reviews[k].book
    ensures ReviewKeysOf(reviews[k := r], book, n) == ReviewKeysOf(reviews, book, n)
  {
    ListingAgrees(reviews[k := r], reviews, book, n);
  }

  lemma {:induction false} RemoveAllAppend(s: seq<ReviewKey>, x: ReviewKey, t: seq<ReviewKey>)
    ensures RemoveAll(s + t, x) == RemoveAll(s, x) + RemoveAll(t, x)
    decreases |s|
  {
    if s == [] {
      assert s + t == t;
    } else {
      assert (s + t)[1..] == s[1..] + t;
      RemoveAllAppend(s[1..], x, t);
    }
  }
}
