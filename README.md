# rattle_cli review feed and book arranger, in Dafny

This project models the core of rattle_cli, a small client that reads a
Goodreads user's shelf from the paginated review feed. It turns every review
entry into a `Book` record and groups the Books into buckets named after
shelves, which the tool uses as languages. The model covers three parts:

- **The current client** (`rattle_cli/goodreads.py`). This is the
  `get_books` pager: it requests pages 1, 2, ... of a shelf until a page
  reports `@end >= @total`, reads a single review as a one-element list, and
  appends one `Book` per review to `self.books`. The model also covers the
  fault-tolerant field parsers `parse_date_read` (with its `date_updated`
  substitute), `parse_author` and `parse_shelves`, and `Book`.
- **The earlier client** (`goodreads.py`). It always asks for the `read`
  shelf and iterates the page's `review` field exactly as it comes. Its
  author and shelf extraction has no fallback, and its `parse_date_read` has
  no substitute.
- **The arranger** (`bookarranger.py`). This covers the constructor and
  `BookArranger.sort_by_language`: one bucket per requested language, an
  optional catch-all bucket, an optional filter on the year a book was read,
  and the `for ... else` that puts a book in the bucket of the first
  requested language among its shelves.

## Layout

- `xml.dfy`, module `Xml`: the decoded XML values (string, map, list, None)
  and Python's `v[key]` on them. It also holds the exceptions that escape
  from the modelled code (KeyError, TypeError, AttributeError), a `Result`
  with `:-`,
  and the list comprehension `[x[key] for x in xs]` (`Pluck`).
- `records.dfy`, module `Records`: `DateTime`, the `date_read` union (parsed
  date, raw text, or None) and `Book`.
- `entry.dfy`, module `Entry`: the field expressions both revisions share
  (title, author, shelves) and the `read_at` stage of `parse_date_read`.
- `feed.dfy`, module `Feed`: pages, the posted queries, a `Session` class
  that answers page k with the k-th page and logs every post, and the pager
  specification `Collect` that both revisions share.
- `review_feed.dfy`, module `ReviewFeed`: the current client. It is a
  `Goodreads` class whose `GetBooks` is a `while` loop proved against
  `Collect`.
- `legacy_feed.dfy`, module `LegacyFeed`: the earlier client, built the same
  way.
- `revisions.dfy`, module `Revisions`: lemmas that set the two revisions
  side by side.
- `arranger.dfy`, module `Arranger`: the buckets as functions (`Bucket`,
  `Buckets`, `ByLanguage`), their properties, and the `BookArranger` class.
  `SortByLanguage` is proved equal to `ByLanguage`.

`datetime.strptime` with the format `%a %b %d %H:%M:%S %z %Y` is a
parameter, `strptime: string -> Option<DateTime>`; `None` stands for the
ValueError it raises. Lemmas that restate the repository's tests pin it on
exactly the strings those tests use.

`parse_date_read` can raise. Its `date_updated` stage
(rattle_cli/goodreads.py:105-116) catches only ValueError, so a missing
`date_updated` raises KeyError out of `get_books` and a non-string one
raises TypeError (`ReviewFeed.DateUpdatedSubstitute`). `sort_by_language`
raises AttributeError when a year is given and a Book's date is raw text or
None (bookarranger.py:20; `Arranger.ByLanguageShape`).

## Model

| member | source | states |
|---|---|---|
| Xml.Pluck | rattle_cli/goodreads.py:123-124 | the comprehension succeeds iff every item has the key, yielding the items' values in order and of the same length; otherwise the first failing lookup's exception |
| Xml.Strings | rattle_cli/goodreads.py:125 | joining succeeds iff every name is a string, and yields exactly those strings in order; otherwise TypeError |
| Xml.JoinSnoc | rattle_cli/goodreads.py:125 | joining one more name appends the separator and that name, so names appear in list order |
| Records.NewBook | rattle_cli/goodreads.py:150-157 | title, author and date are kept as given; shelves given as None become the empty list, otherwise they are kept |
| Entry.ReadAtDate | rattle_cli/goodreads.py:83-98 | a parsable `read_at` gives the parsed date; an unparsable string is returned raw; a missing or non-string `read_at` gives the empty text; it raises only when a handler runs and the entry has no `id`, with that lookup's exception |
| Entry.AuthorsJoined | rattle_cli/goodreads.py:122-125 | a list of authors with string names gives the names joined with ", " in list order |
| Entry.AuthorsMalformed | rattle_cli/goodreads.py:122-125 | one author in the list without a string name makes the author expression raise |
| Entry.ShelvesInOrder | rattle_cli/goodreads.py:136-138 | a list of shelves gives every `@name` in list order, duplicates kept, same length |
| Entry.ShelvesMalformed | rattle_cli/goodreads.py:136-138 | one shelf without `@name` makes the shelf expression raise, so no partial list is produced |
| Entry.SingleAuthor | rattle_cli/goodreads.py:126-127 | an author element that is not a list gives its `name`, or the exception that looking it up raises |
| Entry.SingleShelf | rattle_cli/goodreads.py:139-140 | a shelf element that is not a list gives the one-element list of its `@name`, or the exception that looking it up raises |
| Feed.RequestsInOrder | rattle_cli/goodreads.py:40-58 | the k-th query posted asks for page k+1 of the shelf, version 2, sorted by `date_read`, for the user |
| Feed.Session.constructor | rattle_cli/goodreads.py:48 | a session answers the given pages and has posted nothing |
| Feed.Session.Post | rattle_cli/goodreads.py:48 | posting the query for page k logs it and answers the k-th page |
| Feed.ParseAll | rattle_cli/goodreads.py:70-78 | parsing a page's entries yields at most one Book per entry; it raises iff it stops before the end, and then with the exception of the entry right after the Books it kept |
| Feed.ParseAllInOrder | rattle_cli/goodreads.py:70-78 | the i-th Book is the parse of the i-th entry: nothing is skipped, reordered or duplicated |
| Feed.Collect | rattle_cli/goodreads.py:53-80 | the pager requests at least one page and never beyond the pages that exist; when it ends normally the last page requested reports end >= total; when it raises, that page raised it |
| Feed.PagerStep | rattle_cli/goodreads.py:56-78 | one pass appends the page's Books and goes on exactly when the page raised nothing and reported end < total |
| Feed.CollectStopsAtFirst | rattle_cli/goodreads.py:56-60 | every page before the last one requested raised nothing and reported end < total, so paging stops right after the first page with end >= total |
| Feed.FeedCount | rattle_cli/goodreads.py:53-80 | when every page's counters agree with its entries and only the last page reports end >= total, every page is requested, nothing raises, and the number of Books is the last page's `end` |
| ReviewFeed.ParseDateRead | rattle_cli/goodreads.py:82-118 | a parsable `read_at` or any non-empty first-stage result is returned unchanged; an exception of the first stage (a handler meeting no `id`) is raised as it is; a successful result is never None |
| ReviewFeed.DateUpdatedOnlySubstitutes | rattle_cli/goodreads.py:104 | `date_updated` changes nothing unless the `read_at` stage gave the empty text |
| ReviewFeed.DateUpdatedSubstitute | rattle_cli/goodreads.py:104-116 | after an empty first stage: a parsable `date_updated` gives that date, an unparsable one the empty text; a missing one raises KeyError and a non-string one TypeError |
| ReviewFeed.DateReadExamples | rattle_cli/tests/test_goodreads.py:76-112 | the date cases of the client's tests: a parsed `read_at`, a raw unparsable one, empty stays empty, the `date_updated` substitute, no tag at all |
| ReviewFeed.ParseAuthor | rattle_cli/goodreads.py:120-132 | a successful author expression is returned as it is; when it raises, the empty string; it raises only when that handler meets an entry without `id` |
| ReviewFeed.AuthorsOfList | rattle_cli/goodreads.py:120-132 | a list of authors with string names gives the names joined with ", "; one malformed author gives the empty string |
| ReviewFeed.AuthorExamples | rattle_cli/tests/test_goodreads.py:114-143 | one author gives its name; an empty author element or no book gives the empty string |
| ReviewFeed.TwoAuthorsExample | rattle_cli/tests/test_goodreads.py:121-126 | two authors give "John Doe, Jane Doe" |
| ReviewFeed.ParseShelves | rattle_cli/goodreads.py:134-145 | a successful shelf expression is returned as it is; when it raises, the empty list; it raises only when that handler meets an entry without `id` |
| ReviewFeed.ShelvesOfList | rattle_cli/goodreads.py:134-145 | a list of shelves gives every name in order, duplicates kept; one malformed shelf gives the empty list, never a partial one |
| ReviewFeed.ShelfExamples | rattle_cli/tests/test_goodreads.py:145-182 | one shelf gives a one-name list; two shelves give both names in order; an empty shelf element or no shelves give the empty list |
| ReviewFeed.ParseReview | rattle_cli/goodreads.py:70-78 | a Book is built iff the `id`, the title and the date succeed, and it is exactly `Book(title, ParseAuthor, ParseDateRead, ParseShelves)` of the entry, its date parsed or text, never None; otherwise the exception of the first of those three steps that raised |
| ReviewFeed.Goodreads.constructor | rattle_cli/goodreads.py:12-17 | a new client has the session, no user id and no Books |
| ReviewFeed.Goodreads.RetrieveReviews | rattle_cli/goodreads.py:40-51 | posts exactly the query for the given page and shelf, and returns that page |
| ReviewFeed.Goodreads.AppendReviews | rattle_cli/goodreads.py:70-78 | `books` grows by exactly the parsed Books of the entries, in order, and the loop's exception is the first entry's that raised |
| ReviewFeed.Goodreads.ReadPage | rattle_cli/goodreads.py:56-78 | one pass requests the page, reads a single review as a one-element list, and appends the page's Books |
| ReviewFeed.Goodreads.GetBooks | rattle_cli/goodreads.py:53-80 | `books` becomes its old value followed by the Books the pager specification collects; the queries posted are pages 1..n of the shelf in order; the result is `books`, or the exception that ended paging |
| ReviewFeed.SingleReviewPage | rattle_cli/goodreads.py:64-68 | a page whose `review` is one entry gives exactly one Book, with that entry's title |
| ReviewFeed.FeedSplitsEven | rattle_cli/tests/test_goodreads.py:270-341 | 8 reviews served as 5+3, and 100 served as 10 pages of 10: every page is requested and exactly `total` Books are collected |
| ReviewFeed.FeedSplits | rattle_cli/tests/test_goodreads.py:294-362 | 8 reviews served as 7+1 (the last a single entry), and 12 served one per page: every page is requested and exactly `total` Books are collected |
| LegacyFeed.IterateReviews | goodreads.py:62 | a list's items are iterated as they are; an empty map or string yields no entry; a non-empty map or string, or None, raises TypeError; a page without `review` raises KeyError |
| LegacyFeed.ParseReview | goodreads.py:62-82 | a Book is built iff the id, title, author and shelf expressions all succeed, and it carries their values and the `read_at` stage's date; there is no fallback |
| LegacyFeed.Goodreads.constructor | goodreads.py:12-17 | a new client has the session, no user id and no Books |
| LegacyFeed.Goodreads.RetrieveReviews | goodreads.py:40-51 | posts exactly the query for the given page of the `read` shelf, and returns that page |
| LegacyFeed.Goodreads.AppendReviews | goodreads.py:62-82 | `books` grows by exactly the parsed Books of the entries, in order, and the loop's exception is the first entry's that raised |
| LegacyFeed.Goodreads.ReadPage | goodreads.py:56-82 | one pass requests the page, iterates its `review` field as it comes, and appends the Books |
| LegacyFeed.Goodreads.GetBooks | goodreads.py:53-84 | `books` becomes its old value followed by the collected Books; the queries posted are pages 1..n of `read` in order; the result is `books` or the exception that ended paging |
| LegacyFeed.DateReadExamples | tests/test_goodreads.py:70-96 | the earlier revision's date tests: parsed, raw unparsable, empty kept empty, and a missing tag giving the empty text |
| Revisions.NoDateSubstitute | goodreads.py:86-101 | with an empty `read_at` and a parsable `date_updated`, the earlier revision keeps the empty text and the current one uses the substitute |
| Revisions.MalformedAuthorRaises | goodreads.py:68-73 | an author list with a nameless entry makes the earlier revision raise, while the current one records the empty author |
| Revisions.SingleReviewPageRaises | goodreads.py:62 | a page with one review as a single entry makes the earlier revision raise TypeError with no Book, while the current one gives that review's Book |
| Revisions.SevenPlusOneRaises | goodreads.py:53-84 | 8 reviews served as 7+1: the earlier revision collects 7 Books and then raises TypeError on page 2 |
| Arranger.Languages | bookarranger.py:11-12 | `languages=None` is read as no language, and a list is kept as it is |
| Arranger.FirstShelved | bookarranger.py:23-26 | the language the inner loop breaks on is one of the requested languages and is among the Book's shelves |
| Arranger.FirstShelvedSpec | bookarranger.py:23-26 | the language chosen is in the list and among the shelves, and no earlier language is; none is chosen iff no language is among the shelves |
| Arranger.Destination | bookarranger.py:23-29 | a Book goes to a requested language on its shelves or, when `other` is set, to the catch-all; it goes nowhere only when `other` is unset |
| Arranger.DestinationSpec | bookarranger.py:23-29 | a destination is always a key of the result; a book on no requested shelf goes to the catch-all iff there is one |
| Arranger.ByLanguage | bookarranger.py:8-31 | the result of `sort_by_language`: AttributeError only under a year filter, and a result only when no Book's date raises on `.year` |
| Arranger.ByLanguageShape | bookarranger.py:8-31 | the call raises AttributeError iff a year is given and some Book has no parsed date; otherwise the keys are exactly the languages plus `other_label` when `other` is set |
| Arranger.EmptyForSpec | bookarranger.py:13-14 | the first loop creates exactly one key per language, each with an empty bucket |
| Arranger.InitialIsBuckets | bookarranger.py:10-16 | before any Book, the buckets are those of an empty book list |
| Arranger.ArrangedKeys | bookarranger.py:10-29 | placing Books never adds or removes a key |
| Arranger.BucketSnoc | bookarranger.py:18-29 | one more Book changes only its destination's bucket, by appending it, and only when it passes the year filter |
| Arranger.PlacedIsBuckets | bookarranger.py:18-29 | placing one more Book on the buckets of the Books before it gives the buckets of them all |
| Arranger.ArrangedIsBuckets | bookarranger.py:18-29 | placing the Books one at a time builds, for every key, the Books in input order that pass the filter and go there |
| Arranger.BucketAppend | bookarranger.py:18-29 | buckets keep input order: the bucket of two runs of Books is the first run's bucket followed by the second's |
| Arranger.InBucket | bookarranger.py:18-29 | a Book is in a bucket iff it is one of the Books, passes the year filter and has that key as its destination |
| Arranger.AtMostOneBucket | bookarranger.py:23-29 | a Book is in at most one bucket |
| Arranger.FirstLanguageWins | bookarranger.py:23-26 | a Book on a requested shelf is in the bucket of the first such language in list order |
| Arranger.UnmatchedBook | bookarranger.py:27-29 | a Book on no requested shelf is in the catch-all bucket when `other` is set, and in no bucket otherwise |
| Arranger.OtherYearExcluded | bookarranger.py:19-21 | a Book read in another year than the one given is in no bucket, the catch-all included |
| Arranger.NothingRequested | bookarranger.py:10-16 | with no language and no catch-all the result is empty whatever the Books |
| Arranger.SizesAddUp | bookarranger.py:18-29 | with the catch-all and no year, the bucket sizes over the distinct keys add up to the number of Books |
| Arranger.YearExamples2016 | tests/test_bookarranger.py:132-144 | the 2016 cases of the year tests: one English Book, and two in the catch-all |
| Arranger.YearExamples2015 | tests/test_bookarranger.py:146-166 | the 2015 cases: with "de" and the catch-all, no "de" Book and two in the catch-all; with "en" alone, no Book |
| Arranger.YearExamples2014 | tests/test_bookarranger.py:154-160 | 2014: both the "en" bucket and the catch-all are empty |
| Arranger.EmptyBuckets | bookarranger.py:10-16 | the loop over the languages and the catch-all step build exactly the initial empty buckets |
| Arranger.Place | bookarranger.py:23-29 | the `for ... else` appends the Book to its first shelved language's bucket, else to the catch-all when there is one, and changes nothing else |
| Arranger.BookArranger.constructor | bookarranger.py:3-4 | the arranger holds the given Books |
| Arranger.BookArranger.SortByLanguage | bookarranger.py:8-31 | the result is exactly `ByLanguage` of the held Books, so the lemmas above hold of it; the Books themselves are not modified |

## Left out

- The OAuth session, the HTTP requests and `xmltodict` decoding are left
  out. `retrieve_reviews` is a post to a `Session` that answers from a fixed
  sequence of pages, and entries are already-decoded `Value`s.
- `initialise_user` and `get_authenticated_user` are left out. They are an
  HTTP call and a fatal `exit()`. `userId` is a field the model never sets.
- The `int()` conversion of the `@end` and `@total` counters is left out.
  A `Page` holds them as integers, so a counter that is not a number, or a
  page without one, is not modelled.
- The internals of `datetime.strptime`, time zones included, are a library
  call. `strptime` is a parameter.
- Logging is left out. It has no effect on results, except that a handler
  logging `review['id']` raises when the entry has no `id`; that lookup is
  modelled.
- `print_sorted_books_nicely` is left out; it is console output.
- Python iterates a dict over its keys and a string over its characters.
  The earlier pager only meets these when it iterates a non-list `review`,
  and the model reduces them to their outcome there: TypeError, or no entry
  when the dict or string is empty.
- The result of `sort_by_language` is a `map`, so the insertion order of the
  dict's keys is not modelled.
- `get_books` returns `self.books` itself, not a copy. The model returns the
  value of `books`, so later aliasing of that list is not modelled.
- When `get_books` raises, the model keeps the state it had when the
  exception was raised: the Books appended so far and the queries posted so
  far.
- Feed.Requests: its own contract states only the number of queries; their
  contents are stated by `Feed.RequestsInOrder`.
- ReviewFeed.NormaliseReviews, Entry.Title, Entry.ExtractAuthor and
  Entry.ExtractShelves carry no contract of their own. They are stated
  through the lemmas about them and the members that use them.
- Arranger.SortByLanguage: `languages` is any list of strings. Other
  iterables (a tuple, a generator) are not modelled.
