/** rattle_cli/goodreads.py: the current client. Each entry's fields are
    parsed by fault-tolerant helpers, a page holding a single review is
    read as a one-element list, and a missing read date falls back to the
    date the review was last updated. */
module ReviewFeed {
  import opened Xml
  import opened Records
  import opened Entry
  import opened Feed

  /** `parse_date_read(review, title)`: the `read_at` stage, then, only
      when that gave the empty text, `date_updated` parsed the same way.
      Only ValueError is caught around that second parse, so a missing
      `date_updated` raises KeyError and a non-string one TypeError.
      `title` is used for logging only. */
  function ParseDateRead(review: Value, title: Value, strptime: string -> Option<DateTime>): (r: Result<DateRead>)
    ensures ReadAtParses(review, strptime) ==> r == ReadAtDate(review, strptime)
    ensures ReadAtDate(review, strptime).Ok? && ReadAtDate(review, strptime) != Ok(Text("")) ==>
              r == ReadAtDate(review, strptime)
    ensures ReadAtDate(review, strptime).Err? ==> r == ReadAtDate(review, strptime)
    ensures r.Ok? ==> !r.value.NoDate?
  {
    var first :- ReadAtDate(review, strptime);
    if first != Text("") then Ok(first)
    else
      match Get(review, "date_updated")
      case Err(e) => Err(e)
      case Ok(VStr(s)) =>
        if strptime(s).Some? then Ok(Parsed(strptime(s).value)) else Ok(Text(""))
      case Ok(_) => Err(TypeError)
  }

  /** `parse_author(review)`: the author expression, or the empty string
      when it raises; the handler logs `review['id']`. */
  function ParseAuthor(review: Value): (r: Result<Value>)
    ensures r.Err? <==> ExtractAuthor(review).Err? && Get(review, "id").Err?
    ensures ExtractAuthor(review).Ok? ==> r == ExtractAuthor(review)
    ensures r.Ok? && ExtractAuthor(review).Err? ==> r.value == VStr("")
  {
    match ExtractAuthor(review)
    case Ok(author) => Ok(author)
    case Err(_) =>
      var id :- Get(review, "id");
      Ok(VStr(""))
  }

  /** `parse_shelves(review)`: the shelves expression, or the empty list
      when it raises; the handler logs `review['id']`. */
  function ParseShelves(review: Value): (r: Result<seq<Value>>)
    ensures r.Err? <==> ExtractShelves(review).Err? && Get(review, "id").Err?
    ensures ExtractShelves(review).Ok? ==> r == ExtractShelves(review)
    ensures r.Ok? && ExtractShelves(review).Err? ==> r.value == []
  {
    match ExtractShelves(review)
    case Ok(shelves) => Ok(shelves)
    case Err(_) =>
      var id :- Get(review, "id");
      Ok([])
  }

  /** The entries of a page: a list stays a list, a single review becomes
      a one-element list; a page without `review` raises KeyError. */
  function NormaliseReviews(p: Page): (r: Result<seq<Value>>)
  {
    match p.review
    case None => Err(KeyError)
    case Some(VList(items)) => Ok(items)
    case Some(single) => Ok([single])
  }

  /** The body of the per-review loop of `get_books`: log `review['id']`,
      read the title, then the date, the author and the shelves, and build
      the Book. */
  function ParseReview(review: Value, strptime: string -> Option<DateTime>): (r: Result<Book>)
    ensures r.Ok? <==> Get(review, "id").Ok? && Title(review).Ok? &&
                       ParseDateRead(review, Title(review).value, strptime).Ok?
    ensures r.Ok? ==> r.value == Book(Title(review).value, ParseAuthor(review).value,
                                      ParseDateRead(review, Title(review).value, strptime).value,
                                      ParseShelves(review).value)
    ensures r.Ok? ==> r.value.dateRead.Parsed? || r.value.dateRead.Text?
    ensures r.Err? ==> r.error == if Get(review, "id").Err? then Get(review, "id").error
                                  else if Title(review).Err? then Title(review).error
                                  else ParseDateRead(review, Title(review).value, strptime).error
  {
    var id :- Get(review, "id");
    var title :- Title(review);
    var dateRead :- ParseDateRead(review, title, strptime);
    // with the id present, the author and shelf handlers cannot raise
    var author := ParseAuthor(review).value;
    var shelves := ParseShelves(review).value;
    Ok(NewBook(title, author, dateRead, Some(shelves)))
  }

  /** `ParseReview` with the date parser fixed, as the pager applies it. */
  function ReviewParser(strptime: string -> Option<DateTime>): Value -> Result<Book>
  {
    review => ParseReview(review, strptime)
  }

  /** The client: its session, the user id, the books collected so far,
      and the per-review parse with `datetime.strptime` (for the format
      `date_format`) fixed at construction. */
  class Goodreads {
    const session: Session
    const parseReview: Value -> Result<Book>
    var userId: Option<string>
    var books: seq<Book>

    constructor (session: Session, strptime: string -> Option<DateTime>)
      ensures this.session == session && parseReview == ReviewParser(strptime)
      ensures userId == None && books == []
    {
      this.session := session;
      parseReview := ReviewParser(strptime);
      userId := None;
      books := [];
    }

    /** `retrieve_reviews(shelf, page)`: post the query for one page. */
    method RetrieveReviews(shelf: string, page: int) returns (reviews: Page)
      requires 1 <= page <= |session.pages|
      modifies session
      ensures session.posted == old(session.posted) + [ReviewQuery(userId, shelf, page)]
      ensures reviews == session.pages[page - 1]
    {
      reviews := session.Post(ReviewQuery(userId, shelf, page));
    }

    /** The `for review in reviews` loop of `get_books`: parse each entry
      in order and append its Book; the first entry that raises ends the
      loop with that exception. */
    method AppendReviews(entries: seq<Value>) returns (error: Option<Exc>)
      modifies this`books
      ensures books == old(books) + ParseAll(entries, parseReview).books
      ensures error == ParseAll(entries, parseReview).error
    {
      var parse := parseReview;
      ghost var added: seq<Book> := [];
      var i := 0;
      assert entries[i..] == entries;
      while i < |entries|
        invariant 0 <= i <= |entries|
        invariant books == old(books) + added
        invariant ParseAll(entries, parse) == Prepend(added, ParseAll(entries[i..], parse))
      {
        var book := parse(entries[i]);
        ParseAllStep(entries, i, parse);
        if book.Err? {
          return Some(book.error);
        }
        ghost var tail := ParseAll(entries[i + 1..], parse);
        assert added + ([book.value] + tail.books) == (added + [book.value]) + tail.books;
        books := books + [book.value];
        added := added + [book.value];
        i := i + 1;
      }
      error := None;
    }

    /** One pass of the `get_books` loop: request page `page` of `shelf`,
      read its entries (a single review as a one-element list) and append
      their Books. */
    method ReadPage(shelf: string, page: int) returns (reviews: Page, error: Option<Exc>)
      requires 1 <= page <= |session.pages|
      modifies this`books, session
      ensures reviews == session.pages[page - 1]
      ensures session.posted == old(session.posted) + [ReviewQuery(userId, shelf, page)]
      ensures books == old(books) + ParsePage(reviews, NormaliseReviews, parseReview).books
      ensures error == ParsePage(reviews, NormaliseReviews, parseReview).error
    {
      reviews := RetrieveReviews(shelf, page);
      var entries := NormaliseReviews(reviews);
      if entries.Err? {
        return reviews, Some(entries.error);
      }
      error := AppendReviews(entries.value);
    }

    /** `get_books(shelf)`: request pages 1, 2, ... of `shelf` until a page
      reports `end >= total`, appending one Book per review to `books`.
      An exception leaves in `books` what was appended before it. */
    method GetBooks(shelf: string) returns (r: Result<seq<Book>>)
      requires StopsFrom(session.pages, 0)
      modifies this`books, session
      ensures var fetched := Collect(session.pages, 0, NormaliseReviews, parseReview);
              books == old(books) + fetched.books &&
              session.posted == old(session.posted) + Requests(userId, shelf, fetched.requested) &&
              r == match fetched.error
                   case None => Ok(books)
                   case Some(e) => Err(e)
    {
      ghost var pages := session.pages;
      ghost var fetched := Collect(pages, 0, NormaliseReviews, parseReview);
      ghost var done: seq<Book> := [];
      PagerStart(pages, NormaliseReviews, parseReview);
      var page, end, total := 0, 0, 1;
      var error: Option<Exc> := None;
      while end < total && error.None?
        invariant books == old(books) + done
        invariant session.posted == old(session.posted) + Requests(userId, shelf, page)
        invariant Pager(pages, NormaliseReviews, parseReview, fetched, page, done, end < total && error.None?, error)
        decreases |pages| - page
      {
        PagerStep(pages, NormaliseReviews, parseReview, fetched, page, done);
        ghost var batch := ParsePage(pages[page], NormaliseReviews, parseReview);
        RequestsSnoc(old(session.posted), userId, shelf, page);
        AppendBooks(old(books), done, batch.books);
        page := page + 1;
        var reviews;
        reviews, error := ReadPage(shelf, page);
        end, total := reviews.end, reviews.total;
        done := done + batch.books;
      }
      r := if error.None? then Ok(books) else Err(error.value);
    }
  }

  /** Whatever `date_updated` holds, it changes nothing unless the
      `read_at` stage gave the empty text: it is only a substitute. */
  lemma DateUpdatedOnlySubstitutes(review: Value, updated: Value, title: Value,
                                   strptime: string -> Option<DateTime>)
    requires review.VMap?
    requires ReadAtDate(review, strptime) != Ok(Text(""))
    ensures ParseDateRead(VMap(review.m["date_updated" := updated]), title, strptime) ==
            ParseDateRead(review, title, strptime)
  {
    var other := VMap(review.m["date_updated" := updated]);
    assert Get(other, "read_at") == Get(review, "read_at");
    assert Get(other, "id") == Get(review, "id");
  }

  /** When the `read_at` stage gave the empty text (no `read_at`, an empty
      one, or one that is not a string), the result is `date_updated`
      parsed; an unparsable `date_updated` leaves the empty text, and a
      missing one raises KeyError. */
  lemma DateUpdatedSubstitute(review: Value, title: Value, strptime: string -> Option<DateTime>)
    requires ReadAtDate(review, strptime) == Ok(Text(""))
    ensures review.VMap?
    ensures "date_updated" !in review.m ==> ParseDateRead(review, title, strptime) == Err(KeyError)
    ensures "date_updated" in review.m && review.m["date_updated"].VStr? ==>
              var u := review.m["date_updated"].s;
              ParseDateRead(review, title, strptime) ==
                if strptime(u).Some? then Ok(Parsed(strptime(u).value)) else Ok(Text(""))
    ensures "date_updated" in review.m && !review.m["date_updated"].VStr? ==>
              ParseDateRead(review, title, strptime) == Err(TypeError)
  {
    assert Get(review, "id").Ok?;
  }

  /** The cases fixed by the client's tests, with `strptime` pinned on the
      strings they use: a parsable `read_at`, an unparsable one returned as
      it is, an empty one with an empty `date_updated`, an empty one with a
      parsable `date_updated`, and no `read_at` at all. */
  lemma DateReadExamples(strptime: string -> Option<DateTime>, title: Value)
    requires strptime("Fri Mar 04 00:00:00 -0800 2016") == Some(DateTime(2016, 3, 4, 0, 0, 0, -480))
    requires strptime("Thu Feb 15 13:54:37 -0800 2018") == Some(DateTime(2018, 2, 15, 13, 54, 37, -480))
    requires strptime("This is not a date").None? && strptime("").None?
    ensures var base := map["id" := VStr("1"), "date_updated" := VStr("")];
            ParseDateRead(VMap(base["read_at" := VStr("Fri Mar 04 00:00:00 -0800 2016")]), title, strptime) ==
              Ok(Parsed(DateTime(2016, 3, 4, 0, 0, 0, -480))) &&
            ParseDateRead(VMap(base["read_at" := VStr("This is not a date")]), title, strptime) ==
              Ok(Text("This is not a date")) &&
            ParseDateRead(VMap(base["read_at" := VStr("")]), title, strptime) == Ok(Text("")) &&
            ParseDateRead(VMap(base["read_at" := VStr("")]["date_updated" := VStr("Thu Feb 15 13:54:37 -0800 2018")]),
                          title, strptime) == Ok(Parsed(DateTime(2018, 2, 15, 13, 54, 37, -480))) &&
            ParseDateRead(VMap(base), title, strptime) == Ok(Text(""))
  {
  }

  /** A list of authors whose names are all strings gives the names joined
      with ", " in order; one malformed entry gives the empty string, never
      part of the list. */
  lemma AuthorsOfList(review: Value, items: seq<Value>, names: seq<string>)
    requires AuthorField(review) == Ok(VList(items))
    requires |items| == |names| && Get(review, "id").Ok?
    ensures (forall i :: 0 <= i < |items| ==> Get(items[i], "name") == Ok(VStr(names[i]))) ==>
              ParseAuthor(review) == Ok(VStr(Join(names, ", ")))
    ensures (exists i :: 0 <= i < |items| && !(Get(items[i], "name").Ok? && Get(items[i], "name").value.VStr?)) ==>
              ParseAuthor(review) == Ok(VStr(""))
  {
    assert Get(review, "book").Ok?;
    if forall i :: 0 <= i < |items| ==> Get(items[i], "name") == Ok(VStr(names[i])) {
      AuthorsJoined(review, items, names);
    }
    if exists i :: 0 <= i < |items| && !(Get(items[i], "name").Ok? && Get(items[i], "name").value.VStr?) {
      var i :| 0 <= i < |items| && !(Get(items[i], "name").Ok? && Get(items[i], "name").value.VStr?);
      AuthorsMalformed(review, items, i);
    }
  }

  /** A list of shelves gives their names in order, duplicates kept; one
      entry without `@name` gives the empty list, never a partial one. */
  lemma ShelvesOfList(review: Value, items: seq<Value>)
    requires ShelfField(review) == Ok(VList(items)) && Get(review, "id").Ok?
    ensures (forall i :: 0 <= i < |items| ==> Get(items[i], "@name").Ok?) ==>
              ParseShelves(review).Ok? && |ParseShelves(review).value| == |items| &&
              forall i :: 0 <= i < |items| ==> ParseShelves(review).value[i] == Get(items[i], "@name").value
    ensures (exists i :: 0 <= i < |items| && Get(items[i], "@name").Err?) ==> ParseShelves(review) == Ok([])
  {
    assert Get(review, "shelves").Ok?;
    if forall i :: 0 <= i < |items| ==> Get(items[i], "@name").Ok? {
      ShelvesInOrder(review, items);
    } else {
      var i :| 0 <= i < |items| && Get(items[i], "@name").Err?;
      ShelvesMalformed(review, items, i);
    }
  }

  /** The base test entry: an id and an empty `date_updated`, with no
      book, no shelves and no `read_at`. */
  const BaseEntry: map<string, Value> := map["id" := VStr("1"), "date_updated" := VStr("")]

  /** A test entry: the base entry with `field` set to `v`. */
  function Fixture(field: string, v: Value): Value
  {
    VMap(BaseEntry[field := v])
  }

  /** The single-author cases fixed by the client's tests: one author, an
      empty author element, no book at all. */
  lemma AuthorExamples()
    ensures ParseAuthor(Fixture("book", VMap(map["authors" := VMap(map["author" :=
              VMap(map["name" := VStr("John Doe")])])]))) == Ok(VStr("John Doe"))
    ensures ParseAuthor(Fixture("book", VMap(map["authors" := VMap(map["author" := VStr("")])]))) == Ok(VStr(""))
    ensures ParseAuthor(VMap(BaseEntry)) == Ok(VStr(""))
  {
  }

  /** The two-author case fixed by the client's tests: the names joined
      with ", " in list order. */
  lemma TwoAuthorsExample()
    ensures ParseAuthor(Fixture("book", VMap(map["authors" := VMap(map["author" :=
              VList([VMap(map["name" := VStr("John Doe")]), VMap(map["name" := VStr("Jane Doe")])])])]))) ==
            Ok(VStr("John Doe, Jane Doe"))
  {
    var john := VMap(map["name" := VStr("John Doe")]);
    var jane := VMap(map["name" := VStr("Jane Doe")]);
    var two := Fixture("book", VMap(map["authors" := VMap(map["author" := VList([john, jane])])]));
    assert AuthorField(two) == Ok(VList([john, jane]));
    AuthorsJoined(two, [john, jane], ["John Doe", "Jane Doe"]);
    assert Join(["John Doe", "Jane Doe"], ", ") == "John Doe, Jane Doe" by {
      assert ["John Doe", "Jane Doe"][1..] == ["Jane Doe"];
    }
  }

  /** The shelf cases fixed by the client's tests: one shelf, two shelves in
      order, an empty shelf element, no shelves at all. */
  lemma ShelfExamples()
    ensures ParseShelves(Fixture("shelves", VMap(map["shelf" := VMap(map["@name" := VStr("My shelf")])]))) ==
            Ok([VStr("My shelf")])
    ensures ParseShelves(Fixture("shelves", VMap(map["shelf" :=
              VList([VMap(map["@name" := VStr("My shelf")]), VMap(map["@name" := VStr("Your shelf")])])]))) ==
            Ok([VStr("My shelf"), VStr("Your shelf")])
    ensures ParseShelves(Fixture("shelves", VMap(map["shelf" := VMap(map[])]))) == Ok([])
    ensures ParseShelves(VMap(BaseEntry)) == Ok([])
  {
    var mine := VMap(map["@name" := VStr("My shelf")]);
    var yours := VMap(map["@name" := VStr("Your shelf")]);
    var two := Fixture("shelves", VMap(map["shelf" := VList([mine, yours])]));
    assert ShelfField(two) == Ok(VList([mine, yours]));
    ShelvesInOrder(two, [mine, yours]);
    var names := ExtractShelves(two).value;
    assert names == [VStr("My shelf"), VStr("Your shelf")] by {
      assert names[0] == VStr("My shelf") && names[1] == VStr("Your shelf");
    }
  }

  /** A page whose `review` is one entry rather than a list is read as a
      one-element list: it gives exactly one Book, with that entry's title. */
  lemma SingleReviewPage(p: Page, strptime: string -> Option<DateTime>)
    requires p.review.Some? && !p.review.value.VList?
    requires ParseReview(p.review.value, strptime).Ok?
    ensures var b := ParsePage(p, NormaliseReviews, ReviewParser(strptime));
            b.error.None? && |b.books| == 1 && Ok(b.books[0].title) == Title(p.review.value)
  {
    assert NormaliseReviews(p) == Ok([p.review.value]);
    assert [p.review.value][1..] == [];
  }

  /** Eight reviews served as five and then three, and a hundred served
      ten per page: every page is requested, nothing raises, and exactly
      the total number of Books is collected. */
  lemma FeedSplitsEven(review: Value, parse: Value -> Result<Book>)
    requires parse(review).Ok?
    ensures var pages := [Page(5, 8, Some(VList(seq(5, _ => review)))), Page(8, 8, Some(VList(seq(3, _ => review))))];
            StopsFrom(pages, 0) &&
            var f := Collect(pages, 0, NormaliseReviews, parse);
            f.error.None? && f.requested == 2 && |f.books| == 8
    ensures var pages := seq(10, k => Page(10 * (k + 1), 100, Some(VList(seq(10, _ => review)))));
            StopsFrom(pages, 0) &&
            var f := Collect(pages, 0, NormaliseReviews, parse);
            f.error.None? && f.requested == 10 && |f.books| == 100
  {
    var two := [Page(5, 8, Some(VList(seq(5, _ => review)))), Page(8, 8, Some(VList(seq(3, _ => review))))];
    assert CountsAgree(two, 0, NormaliseReviews, parse);
    assert CountsAgree(two, 1, NormaliseReviews, parse);
    FeedCount(two, NormaliseReviews, parse);
    var ten := seq(10, k => Page(10 * (k + 1), 100, Some(VList(seq(10, _ => review)))));
    forall k | 0 <= k < 10
      ensures CountsAgree(ten, k, NormaliseReviews, parse)
    {
      assert ten[k] == Page(10 * (k + 1), 100, Some(VList(seq(10, _ => review))));
    }
    FeedCount(ten, NormaliseReviews, parse);
  }

  /** Eight reviews served as seven and then one (the second page a
      single entry, as the decoder gives it), and twelve served one per
      page: every page is requested, nothing raises, and exactly the total
      number of Books is collected. */
  lemma FeedSplits(review: Value, parse: Value -> Result<Book>)
    requires !review.VList? && parse(review).Ok?
    ensures var pages := [Page(7, 8, Some(VList(seq(7, _ => review)))), Page(8, 8, Some(review))];
            StopsFrom(pages, 0) &&
            var f := Collect(pages, 0, NormaliseReviews, parse);
            f.error.None? && f.requested == 2 && |f.books| == 8
    ensures var pages := seq(12, k => Page(k + 1, 12, Some(review)));
            StopsFrom(pages, 0) &&
            var f := Collect(pages, 0, NormaliseReviews, parse);
            f.error.None? && f.requested == 12 && |f.books| == 12
  {
    var two := [Page(7, 8, Some(VList(seq(7, _ => review)))), Page(8, 8, Some(review))];
    assert CountsAgree(two, 0, NormaliseReviews, parse);
    assert CountsAgree(two, 1, NormaliseReviews, parse);
    FeedCount(two, NormaliseReviews, parse);
    var twelve := seq(12, k => Page(k + 1, 12, Some(review)));
    forall k | 0 <= k < 12
      ensures CountsAgree(twelve, k, NormaliseReviews, parse)
    {
      assert twelve[k] == Page(k + 1, 12, Some(review));
    }
    FeedCount(twelve, NormaliseReviews, parse);
  }
}
