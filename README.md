# Book Review System: a Dafny model of its controllers

The Book Review System is an Express and MongoDB REST service. Users browse a book
catalogue, search it, and write, edit and delete reviews of books. This project models
its three controller files in Dafny 4.11:

- `controllers/bookController.js` has the handlers `addBook`, `getAllBooks`,
  `getBookById` and `searchBooks`. `addBook` is modelled as a validation gate and a
  method that adds the book. The other three are read-only methods over a `Store`.
- `controllers/reviewController.js` has the handlers `addReview`, `updateReview` and
  `deleteReview`. They are modelled as methods that change a `Store` through the same
  separate writes the handlers make (`review.save()`, `book.save()`, `$pull`,
  `findByIdAndDelete`).
- `controllers/joi-schema.js` has four Joi schemas. They are written as data: a list
  of keys, each with its rules in checking order and its custom messages. One
  `Validate` function interprets them and reports the first failure's message.
  Joi's number type also refuses, before any declared rule, a number outside the
  safe-integer range of plus or minus 2^53 - 1. The model writes that check as the
  rule `SafeNumber`, which every number key carries after its type.

The modules follow the program:

- `Wrappers`: `Option` and the `Reply` of a handler (status, message, data).
- `Text`: case-insensitive substring matching, the meaning given to `$regex` with
  option `i`.
- `Schemas`: the Joi rules, messages, schemas and what each schema accepts.
- `Pagination`: the `parseInt(x) || d` defaults, the skip offset, the page window and
  the `pagination` object.
- `Models`: the Book and Review records, the store queries, the invariants of the
  two collections and the `Store` class with its primitive writes.
- `BookController` and `ReviewController`: the handlers.

The store keeps `books` as a sequence in collection order. It keeps `reviews` as a map
from store keys to reviews. It also keeps the next free review key, book key and
external book id. A `Store` is valid when:

- book keys and external ids are unique, and each is below the next free one;
- each review key is below the next free one, and names a book key below the next free one;
- every rating is 1 to 5;
- no user has two reviews of one book;
- each book's `reviews` list names, once each, exactly the stored reviews of that book.

Every handler that writes keeps this invariant. A failed guard leaves the store unchanged.

Where the code may surprise a reader, the model follows the code:

- A second review of the same book is refused with status 400 (Bad Request), not with
  409 (Conflict).
- `Joi.string()` refuses the empty string before any `min` rule runs. Login therefore
  refuses an empty username or password, with Joi's own "is not allowed to be empty"
  message.
- `getAllBooks` chains `.sort` after `.skip` and `.limit`, but Mongoose sorts before
  skipping. The model sorts the matches and then takes the window.

## Model

| member | source | states |
|---|---|---|
| Text.LowerChar | controllers/bookController.js:48 | an ASCII capital becomes the small letter 32 code points above it; every other character is kept |
| Text.Lower | controllers/bookController.js:48 | a string of the same length, each character lower-cased as the `i` option compares it |
| Text.IsInfixIffOccurs | controllers/bookController.js:48 | the substring search used for every `$regex` filter succeeds exactly when the pattern occurs at some position |
| Text.OccursIsInfix | controllers/bookController.js:169-170 | an occurrence of the pattern at any position is found by the search |
| Text.InfixOccurs | controllers/bookController.js:169-170 | whatever the search finds is an occurrence at a definite position |
| Text.EmptyIsInfix | controllers/bookController.js:47-52 | the empty pattern occurs in every string |
| Text.TolkienMatches | controllers/bookController.js:169-170 | the query "Tolkien" matches the author "J.R.R. Tolkien" when case is ignored |
| Schemas.FirstViolated | controllers/joi-schema.js:4-8 | the index found is the first rule in checking order that the value breaks; None means it breaks none |
| Schemas.FirstFailingKey | controllers/joi-schema.js:3-22 | the index found is the first key in schema order that fails; None means every key passes |
| Schemas.Validate | controllers/bookController.js:9-14 | None exactly when every key passes; otherwise the message of the first broken rule of the first failing key (`error.details[0].message`) |
| Schemas.Message | controllers/joi-schema.js:9-14 | a message the key declares for the failing rule's code is reported verbatim; otherwise Joi's default message, which opens with the key's name in double quotes |
| Schemas.DefaultMessage | controllers/joi-schema.js:24-27 | the message Joi reports for a rule the key declares no message for is longer than, and opens with, the key's name in double quotes |
| Schemas.FirstFailureMessage | controllers/bookController.js:9-14 | if every earlier key passes and rule j is the first rule key i breaks, validation reports that rule's message |
| Schemas.BookSchemaMeaning | controllers/joi-schema.js:29-57 | the book schema accepts exactly the bodies whose title, author and genre are strings of 2 to 100 characters |
| Schemas.ReviewSchemaMeaning | controllers/joi-schema.js:59-80 | the review schema accepts exactly an integer rating from 1 to 5 and a comment of 5 to 500 characters |
| Schemas.SignupSchemaMeaning | controllers/joi-schema.js:3-22 | the signup schema accepts exactly an alphanumeric username of 3 to 30 characters and a password of at least 6 |
| Schemas.LoginSchemaMeaning | controllers/joi-schema.js:24-27 | the login schema accepts exactly two non-empty strings of any length |
| Schemas.TextKeyPasses | controllers/joi-schema.js:30-33 | a string key with `min(lo).max(hi).required()` passes exactly on strings of lo to hi characters |
| Schemas.NonEmptyKeyPasses | controllers/joi-schema.js:25 | a key with `Joi.string().required()` passes exactly on non-empty strings |
| Schemas.RatingKeyPasses | controllers/joi-schema.js:60-64 | the rating key passes exactly on integer numbers from 1 to 5 |
| Schemas.UsernameKeyPasses | controllers/joi-schema.js:4-8 | the username key passes exactly on alphanumeric strings of 3 to 30 characters |
| Schemas.PasswordKeyPasses | controllers/joi-schema.js:15-17 | the password key passes exactly on strings of at least 6 characters |
| Schemas.RatingOf | controllers/reviewController.js:17 | the rating of a valid body is an integer from 1 to 5 equal to the number sent |
| Schemas.CommentOf | controllers/reviewController.js:17 | the comment of a valid body has 5 to 500 characters |
| Schemas.BookMessageTexts | controllers/joi-schema.js:34-47 | the title and author messages are the texts the schema declares |
| Schemas.RatingMessageTexts | controllers/joi-schema.js:65-69 | the rating's integer, min and max messages are the texts the schema declares |
| Schemas.UnsafeRatingText | controllers/joi-schema.js:60 | Joi's default text for a rating outside the safe range is `"rating" must be a safe number` |
| Schemas.CommentMessageTexts | controllers/joi-schema.js:75-78 | the comment messages are the texts the schema declares |
| Schemas.AccountMessageTexts | controllers/joi-schema.js:9-25 | the username and password messages are the declared texts; login's missing username gets Joi's default text |
| Schemas.MissingTitleMessage | controllers/joi-schema.js:29-37 | a body without a title is refused with "Title is required", whatever else it holds |
| Schemas.ShortAuthorMessage | controllers/joi-schema.js:39-47 | with a good title, a one-character author is refused with "Author must be at least 2 characters long" |
| Schemas.LongAuthorMessage | controllers/joi-schema.js:39-47 | with a good title, an author over 100 characters is refused with "Author cannot exceed 100 characters" |
| Schemas.RatingFailure | controllers/joi-schema.js:60-70 | a rating that breaks one of its rules after the type check, and no rule before it, is refused with that rule's message |
| Schemas.UnsafeRatingMessage | controllers/joi-schema.js:60-70 | a rating above 2^53 - 1 or below -(2^53 - 1) is refused by Joi's own number check with `"rating" must be a safe number`, because the schema declares no `number.unsafe` message |
| Schemas.RatingMessages | controllers/joi-schema.js:60-70 | a numeric rating is checked for the safe range, then for being an integer, then at least 1, then at most 5; each check has its own message, Joi's default for the safe range and the declared texts for the rest |
| Schemas.CommentMessages | controllers/joi-schema.js:71-79 | with a good rating, a missing, short or long comment gets the comment's required, min or max message |
| Schemas.UsernameAlphanumMessage | controllers/joi-schema.js:4-14 | a username with a non-alphanumeric character is refused for that before its length is checked |
| Schemas.PasswordLengthMessage | controllers/joi-schema.js:15-21 | after a good username, a password under 6 characters gets "Password must be at least 6 characters long" |
| Schemas.LoginMissingUsernameMessage | controllers/joi-schema.js:24-27 | login has no custom messages, so a missing username gets Joi's default `"username" is required` |
| Pagination.OrDefault | controllers/bookController.js:41-42 | the parameter is used unless it is missing, not a number or zero, and then the default is; a positive default gives a positive result |
| Pagination.CeilDiv | controllers/bookController.js:69 | the number of pages is the least q with total <= q * limit |
| Pagination.Paginate | controllers/bookController.js:67-73 | the current page and total as given; the least page count that holds all items; a next page exactly when items remain after this page; a previous page exactly when this page skips items |
| Pagination.Window | controllers/bookController.js:55-57 | the page holds at most `limit` items, exactly as many as are left after `skip`, each the item at `skip + i` |
| Pagination.HasNextPageMeansMore | controllers/bookController.js:71 | `hasNextPage` holds exactly when the next page is not empty |
| Pagination.ItemOnItsPage | controllers/bookController.js:101-109 | item j appears as item j mod limit of page j div limit + 1, and that page is within `totalPages` |
| Pagination.PositionOnPage | controllers/bookController.js:103 | item r of page q + 1 is the item at q * limit + r, and that page exists |
| Models.FindBookById | controllers/bookController.js:92-98 | the position of the first book with that external id; None exactly when no book has it |
| Models.ReviewKeysOf | controllers/bookController.js:105-111 | exactly the stored reviews of the book, each once, in creation order, the order the model chooses where the store fixes none |
| Models.ReviewsAt | controllers/bookController.js:105-109 | one entry per key, and an entry occurs exactly when its key is one of the given keys and its review is the stored review under that key |
| Models.RatingsAt | controllers/bookController.js:113-123 | one rating per key, the stored review's; when every stored rating is 1 to 5, so is every rating returned |
| Models.RemoveAll | controllers/reviewController.js:154-156 | `$pull` removes every copy of the key and keeps every other element as often as before |
| Models.PullReviewRef | controllers/reviewController.js:154-156 | the key is gone from the list of every book with the named store key; every other key keeps its count in every book's list; each book keeps its key, id and creation time, and books with other keys are untouched |
| Models.Store.constructor | models/Book.js:5-13 | a store of books with unique keys and ids and no reviews is valid |
| Models.KeyBound | models/Book.js:5-11 | a store key above the key of every given book |
| Models.IdBound | models/Book.js:6 | an external id above the id of every given book, so unused by any of them |
| Models.Store.InsertBook | controllers/bookController.js:20-21 | the new book, with the next store key, the next external id and no reviews, is appended; the reviews do not change |
| Models.Store.InsertReview | controllers/reviewController.js:44-51 | the review is stored under a key never used before; nothing else changes |
| Models.Store.AppendReviewRef | controllers/reviewController.js:54-55 | the key is appended to the named book's list; nothing else changes |
| Models.Store.SaveReview | controllers/reviewController.js:109-111 | the stored review is replaced; nothing else changes |
| Models.Store.PullReview | controllers/reviewController.js:154-156 | the books are replaced by their pulled versions; the reviews do not change |
| Models.Store.DeleteReviewRecord | controllers/reviewController.js:159 | the review is removed; nothing else changes |
| Models.DistinctCount | models/Book.js:10 | a list without repeats has as many elements as its set |
| Models.BackReferenceCount | controllers/bookController.js:111 | in a valid store a book's `reviews` list is as long as the list `Review.find({ book })` returns |
| Models.ListingWithout | controllers/reviewController.js:159 | deleting a review removes exactly that key from its book's review listing |
| Models.ListingWithoutBelow | controllers/reviewController.js:159 | the same, for the keys below any bound |
| Models.ListingAgrees | controllers/bookController.js:105 | two stores that hold the same keys for the same books give the same listing |
| Models.ListingWith | controllers/reviewController.js:44-51 | a new review comes last in its own book's listing and is absent from every other book's |
| Models.ListingAfterOverwrite | controllers/reviewController.js:108-111 | overwriting a review's rating and comment leaves every listing unchanged |
| Models.RemoveAllAppend | controllers/reviewController.js:154-156 | pulling from a concatenation pulls from each part |
| BookController.Find | controllers/bookController.js:55 | every stored book that the query matches, as often as it is stored, and nothing else |
| BookController.FindSameSelection | controllers/bookController.js:46-52 | two queries that select the same books find the same books |
| BookController.ConsNewestFirst | controllers/bookController.js:58 | a book at least as new as the head can go in front of a newest-first list |
| BookController.TailNewestFirst | controllers/bookController.js:58 | the tail of a newest-first list is newest first |
| BookController.InsertByDate | controllers/bookController.js:58 | inserting a book keeps the list newest first and adds exactly that book |
| BookController.ConsAfterInsert | controllers/bookController.js:58 | a head newer than the inserted book, kept in front of the tail with the book inserted, gives a newest-first list holding the whole sequence plus that book |
| BookController.SortNewestFirst | controllers/bookController.js:58 | the result is newest first and a permutation of the input |
| BookController.AverageTenths | controllers/bookController.js:118-132 | zero without ratings; otherwise the integer nearest ten times the mean, rounding a tie up as `Math.round` does |
| BookController.SumBounds | controllers/bookController.js:119 | ratings between lo and hi sum to between lo and hi times their number |
| BookController.AverageWithinRatings | controllers/bookController.js:118-132 | ratings of 1 to 5 average between 1.0 and 5.0 |
| BookController.StoredAverageWithinRatings | controllers/bookController.js:114-125 | the average of any book's stored reviews is between 1.0 and 5.0 |
| BookController.ReviewPageOfBook | controllers/bookController.js:105-109 | any page of a book's review listing holds at most `limit` entries, entry i being the listing's item skip + i, each a stored review of that book with its own key, in the model's creation order |
| BookController.DetailFacts | controllers/bookController.js:105-125 | in a valid store a book's listing is as long as its back-references, its average is 0 without reviews and 1.0 to 5.0 with some, and each page of it lists only the book's own stored reviews |
| BookController.AverageOfFourAndFive | controllers/bookController.js:132 | ratings 4 and 5 give an average of 4.5 |
| BookController.AddBookGate | controllers/bookController.js:9-20 | the body is accepted exactly when it is a valid book, and then yields its three fields; otherwise 400 with the first violation's message |
| BookController.AddBookAsWritten | controllers/bookController.js:6-35 | a body that is not a valid book gets 400 with the schema's first message; a valid one gets 500 "Internal server error", because the document built without an `id` fails the model's `required` check |
| BookController.AddBookNeverSucceeds | models/Book.js:6 | as written, no body gets a book added, and every valid body gets 500 "Internal server error" |
| BookController.AddBook | controllers/bookController.js:6-28 | 400 with the schema's first message exactly when the body is not a valid book, leaving the store unchanged; otherwise 201 "Book added successfully" with one new book appended, with no reviews and a store key and external id no other book has, the book counters advanced by one and everything else unchanged; the store stays valid |
| BookController.AddBookKeepsInvariant | models/Book.js:6-10 | appending a book whose key and id exceed all others and that has no reviews keeps the invariants of both collections |
| BookController.EmptyParameterIsNoConstraint | controllers/bookController.js:47-52 | leaving out an empty parameter selects the same books as keeping it |
| BookController.BuildFilter | controllers/bookController.js:46-52 | each constraint is present exactly when its parameter is given and non-empty, and the filter selects exactly the books that match the parameters |
| BookController.ListingPage | controllers/bookController.js:55-58 | every book on a listing page is stored and matches the parameters, and the page is newest first |
| BookController.GetAllBooks | controllers/bookController.js:39-75 | the window at the page's offset of the newest-first matches, with pagination over all matches; at most `limit` books, each stored and matching, newest first |
| BookController.GetBookById | controllers/bookController.js:87-144 | 404 "Book not found" exactly when no book has the id; otherwise the book, its review count equal to its back-references, the average over all its reviews (0 without any, else between 1.0 and 5.0), one page of its reviews, each a stored review of that book, in the model's creation order, and the page metadata |
| BookController.SearchBooks | controllers/bookController.js:156-182 | 400 "Search query is required" exactly for a missing or empty query; otherwise every book whose title or author contains it, ignoring case, newest first, with their count |
| ReviewController.AddReview | controllers/reviewController.js:6-64 | 400 with the schema message, 404 "Book not found", 400 "You have already reviewed this book", in that order, each leaving the store unchanged; success exactly when all three guards pass, and then 201 with the review under the next fresh key, appended to its book's list, last in that book's review listing and absent from every other book's; the store stays valid |
| ReviewController.AddKeepsInvariant | controllers/reviewController.js:44-55 | storing a fresh review and appending its key to its book keeps every store invariant |
| ReviewController.OverwriteKeepsInvariant | controllers/reviewController.js:108-111 | overwriting a review with one of the same user and book keeps one review per user and book and the back-references |
| ReviewController.UpdateReview | controllers/reviewController.js:76-119 | 400 with the schema message, 404 "Review not found", 403 "You can only update your own reviews", each leaving the store unchanged; success exactly when all three guards pass, and then only that review's rating and comment change and every book's review listing stays as it was; the store stays valid |
| ReviewController.DeleteReview | controllers/reviewController.js:131-164 | 404 "Review not found", 403 "You can only delete your own reviews", each leaving the store unchanged; success exactly when both guards pass, and then the review is gone, no book lists its key, and every book's review listing loses exactly that key; the store stays valid |
| ReviewController.DeleteKeepsInvariant | controllers/reviewController.js:153-159 | pulling a review's key from its book and deleting the review keeps every store invariant |
| ReviewController.PulledBookRefs | controllers/reviewController.js:153-159 | after the pull and the delete, each book's list is still without repeats and names exactly its remaining reviews |
| ReviewController.PulledMembership | controllers/reviewController.js:154-156 | after `$pull` of a key, an element is in the list exactly when it was before and is not that key |
| ReviewController.RemoveAllKeepsDistinct | controllers/reviewController.js:154-156 | pulling a key from a list without repeats leaves a list without repeats |

## Left out

- `app.js`: the server bootstrap, the database connection and the routing are not modelled. The routes put authentication in front of the review handlers and of `addBook`. The model starts from the caller's resolved user id.
- `models/User.js`, signup and login: only the signup and login schemas are modelled. Password hashing and tokens are not.
- The `catch` branches that answer 500 "Internal server error" are not modelled, except for the save in `addBook` (see Findings). The model's store operations cannot fail.
- A non-numeric book id, which makes Mongoose throw a CastError and the handler answer 500, is not modelled. Ids are integers.
- `populate('user', 'username')` is not modelled. Replies carry the user id, not the username.
- The `createdAt` and `updatedAt` timestamps are not modelled. A book's `createdAt` is an abstract integer that the caller supplies.
- AddBook: the new book's external id is the store's next free id. The source assigns none (see Findings), so this numbering is the model's choice.
- Mongoose's `required` checks are modelled only as far as `addBook` needs them: every required path is set and a required string is not empty.
- Joi's conversion of numeric strings to numbers (`"4"` for a rating) is not modelled. A rating must already be a number.
- Joi's refusal of unknown keys and of a body that is not an object is not modelled. The body is a map from key names to string, number or other values.
- Joi measures string length in UTF-16 code units. The model counts Dafny characters.
- `$regex` is modelled for patterns without regular-expression metacharacters, which match literally. The handlers that take a pattern require one of that kind.
- Case folding is ASCII only.
- Floating point is not modelled. `$avg` and `Math.round(avg * 10) / 10` are computed exactly, in tenths.
- Negative `page` or `limit` values are not modelled. Query parameters are natural numbers or missing. With negative values the source computes `(page - 1) * limit` from the signs: the skip can come out negative, which MongoDB refuses, so the handler answers 500; or it can come out non-negative (page 1 with limit -3 gives 0, page -1 with limit -3 gives 6), and then the reply carries pagination computed from a negative limit.
- Concurrency is not modelled. The handlers run one at a time, so the check-then-insert of `addReview` always keeps one review per user and book. The two writes of `addReview` and of `deleteReview` are not atomic in the source.
- ReviewKeysOf: the store fixes no order for a book's reviews. `Review` declares no timestamps (models/Review.js:5-10), so the `sort({ createdAt: -1 })` of the review listing compares a field that no review has, and every review ties. The model lists a book's reviews in creation (store-key) order. Which reviews fall on which page, and that successive pages do not overlap, is the model's choice, not a promise of the source.
- SortNewestFirst: the order of books with the same `createdAt` is left to MongoDB in the source. The model fixes one order, which keeps collection order.
- The search results of `searchBooks` are not paginated in the source, and the model does not paginate them either.

## Findings

| source | as written | input that shows it | evidently intended | confidence | as-written member | corrected member |
|---|---|---|---|---|---|---|
| controllers/bookController.js:20-21 with models/Book.js:6 | `addBook` builds `new Book({ title, author, genre })` with no `id`, but the model requires `id`. So `book.save()` throws a validation error, and the `catch` answers 500 "Internal server error" | any valid body, e.g. title "Dune", author "Frank Herbert", genre "Science Fiction" | the book is saved with a fresh unique `id` and the handler answers 201 "Book added successfully" | not executed | BookController.AddBookNeverSucceeds | BookController.AddBook |
