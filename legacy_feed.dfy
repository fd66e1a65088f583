/** goodreads.py: the earlier client. It always asks for the "read" shelf,
    iterates a page's `review` field as it comes, extracts the author and
    the shelves inline with no fallback, and has no `date_updated`
    substitute for a missing read date. */
module LegacyFeed {
  import opened Xml
  import opened Records
  import opened Entry
  import opened Feed

  /** The shelf this revision always requests. */
  const ReadShelf := "read"

  /** `for review in reviews['review']`: a list yields its items. Anything
      else is iterated as Python iterates it: a dict yields its keys and a
      string its characters, and indexing either of those with 'id' raises
      TypeError, so only an empty dict or an empty string yields nothing;
      None is not iterable. A page without `review` raises KeyError. */
  function IterateReviews(p: Page): (r: Result<seq<Value>>)
    ensures r.Ok? ==> p.review.Some?
    ensures p.review.Some? && p.review.value.VList? ==> r == Ok(p.review.value.items)
    ensures r.Ok? && !p.review.value.VList? ==> r.value == []
    ensures r.Err? <==> p.review.None? || p.review.value.VNone? ||
                        (p.review.value.VMap? && p.review.value.m != map[]) ||
                        (p.review.value.VStr? && p.review.value.s != "")
    ensures r.Err? ==> r.error == if p.review.None? then KeyError else TypeError
  {
    match p.review
    case None => Err(KeyError)
    case Some(VList(items)) => Ok(items)
    case Some(VMap(m)) => if m == map[] then Ok([]) else Err(TypeError)
    case Some(VStr(s)) => if s == "" then Ok([]) else Err(TypeError)
    case Some(VNone) => Err(TypeError)
  }

  /** The body of the per-review loop: log `review['id']`, read the title
      and the date, then the author and the shelves, whose exceptions are
      not caught. */
  function ParseReview(review: Value, strptime: string -> Option<DateTime>): (r: Result<Book>)
    ensures r.Ok? <==> Get(review, "id").Ok? && Title(review).Ok? &&
                       ExtractAuthor(review).Ok? && ExtractShelves(review).Ok?
    ensures r.Ok? ==> r.value.title == Title(review).value &&
                      r.value.author == ExtractAuthor(review).value &&
                      r.value.shelves == ExtractShelves(review).value &&
                      Ok(r.value.dateRead) == ReadAtDate(review, strptime)
  {
    var id :- Get(review, "id");
    var title :- Title(review);
    // with the id present, the date handlers cannot raise
    var dateRead := ReadAtDate(review, strptime).value;
    var author :- ExtractAuthor(review);
    var shelves :- ExtractShelves(review);
    Ok(NewBook(title, author, dateRead, Some(shelves)))
  }

  /** `ParseReview` with the date parser fixed, as the pager applies it. */
  function ReviewParser(strptime: string -> Option<DateTime>): Value -> Result<Book>
  {
    review => ParseReview(review, strptime)
  }

  /** The earlier client: its session, the user id, the books collected so
      far, and the per-review parse with `datetime.strptime` fixed. */
  class Goodreads {
    const session: Session
    const parseReview: Value -> Result<Book>
    var userId: Option<string>
    var books: seq<Book>

    constructor (session: Session, strptime: string -> Option<DateTime>)
      ensures this.session == session && parseReview == ReviewParser(strptime)
      ensures userId == None && books == []
    {
      this.session := session;
      parseReview := ReviewParser(strptime);
      userId := None;
      books := [];
    }

    /** `retrieve_reviews(page)`: post the query for one page of "read". */
    method RetrieveReviews(page: int) returns (reviews: Page)
      requires 1 <= page <= |session.pages|
      modifies session
      ensures session.posted == old(session.posted) + [ReviewQuery(userId, ReadShelf, page)]
      ensures reviews == session.pages[page - 1]
    {
      reviews := session.Post(ReviewQuery(userId, ReadShelf, page));
    }

    /** The `for review in reviews['review']` loop: parse each entry in
      order and append its Book; the first exception ends the loop. */
    method AppendReviews(entries: seq<Value>) returns (error: Option<Exc>)
      modifies this`books
      ensures books == old(books) + ParseAll(entries, parseReview).books
      ensures error == ParseAll(entries, parseReview).error
    {
      var parse := parseReview;
      ghost var added: seq<Book> := [];
      var i := 0;
      assert entries[i..] == entries;
      while i < |entries|
        invariant 0 <= i <= |entries|
        invariant books == old(books) + added
        invariant ParseAll(entries, parse) == Prepend(added, ParseAll(entries[i..], parse))
      {
        var book := parse(entries[i]);
        ParseAllStep(entries, i, parse);
        if book.Err? {
          return Some(book.error);
        }
        ghost var tail := ParseAll(entries[i + 1..], parse);
        assert added + ([book.value] + tail.books) == (added + [book.value]) + tail.books;
        books := books + [book.value];
        added := added + [book.value];
        i := i + 1;
      }
      error := None;
    }

    /** One pass of the `get_books` loop: request page `page`, iterate its
      `review` field and append the Books. */
    method ReadPage(page: int) returns (reviews: Page, error: Option<Exc>)
      requires 1 <= page <= |session.pages|
      modifies this`books, session
      ensures reviews == session.pages[page - 1]
      ensures session.posted == old(session.posted) + [ReviewQuery(userId, ReadShelf, page)]
      ensures books == old(books) + ParsePage(reviews, IterateReviews, parseReview).books
      ensures error == ParsePage(reviews, IterateReviews, parseReview).error
    {
      reviews := RetrieveReviews(page);
      var entries := IterateReviews(reviews);
      if entries.Err? {
        return reviews, Some(entries.error);
      }
      error := AppendReviews(entries.value);
    }

    /** `get_books()`: request pages 1, 2, ... of "read" until a page
      reports `end >= total`, appending one Book per review to `books`. */
    method GetBooks() returns (r: Result<seq<Book>>)
      requires StopsFrom(session.pages, 0)
      modifies this`books, session
      ensures var fetched := Collect(session.pages, 0, IterateReviews, parseReview);
              books == old(books) + fetched.books &&
              session.posted == old(session.posted) + Requests(userId, ReadShelf, fetched.requested) &&
              r == match fetched.error
                   case None => Ok(books)
                   case Some(e) => Err(e)
    {
      ghost var pages := session.pages;
      ghost var fetched := Collect(pages, 0, IterateReviews, parseReview);
      ghost var done: seq<Book> := [];
      PagerStart(pages, IterateReviews, parseReview);
      var page, end, total := 0, 0, 1;
      var error: Option<Exc> := None;
      while end < total && error.None?
        invariant books == old(books) + done
        invariant session.posted == old(session.posted) + Requests(userId, ReadShelf, page)
        invariant Pager(pages, IterateReviews, parseReview, fetched, page, done, end < total && error.None?, error)
        decreases |pages| - page
      {
        PagerStep(pages, IterateReviews, parseReview, fetched, page, done);
        ghost var batch := ParsePage(pages[page], IterateReviews, parseReview);
        RequestsSnoc(old(session.posted), userId, ReadShelf, page);
        AppendBooks(old(books), done, batch.books);
        page := page + 1;
        var reviews;
        reviews, error := ReadPage(page);
        end, total := reviews.end, reviews.total;
        done := done + batch.books;
      }
      r := if error.None? then Ok(books) else Err(error.value);
    }
  }

  /** The date cases fixed by this revision's tests, with `strptime` pinned
      on the strings they use: a parsable `read_at`, an unparsable one
      returned as it is, an empty one kept empty, and none at all. */
  lemma DateReadExamples(strptime: string -> Option<DateTime>)
    requires strptime("Fri Mar 04 00:00:00 -0800 2016") == Some(DateTime(2016, 3, 4, 0, 0, 0, -480))
    requires strptime("This is not a date").None? && strptime("").None?
    ensures ReadAtDate(VMap(map["id" := VStr("1"), "read_at" := VStr("Fri Mar 04 00:00:00 -0800 2016")]), strptime) ==
            Ok(Parsed(DateTime(2016, 3, 4, 0, 0, 0, -480)))
    ensures ReadAtDate(VMap(map["id" := VStr("1"), "read_at" := VStr("This is not a date")]), strptime) ==
            Ok(Text("This is not a date"))
    ensures ReadAtDate(VMap(map["id" := VStr("1"), "read_at" := VStr("")]), strptime) == Ok(Text(""))
    ensures ReadAtDate(VMap(map["id" := VStr("1")]), strptime) == Ok(Text(""))
  {
  }
}
