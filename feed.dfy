/** The paginated review feed as the pager sees it: the pages the service
    answers, the request data it is sent, and the specification of the
    pager loop shared by both revisions of `Goodreads.get_books`
    (rattle_cli/goodreads.py:53-80 and goodreads.py:53-84). */
module Feed {
  import opened Xml
  import opened Records

  /** One answer of the service: the cumulative `@end` counter, the
      `@total` counter, and the `review` field (None when the page has no
      `review` element at all). */
  datatype Page = Page(end: int, total: int, review: Option<Value>)

  /** The form data posted for one page (`retrieve_reviews`). */
  datatype Query = Query(id: Option<string>, v: string, page: int, shelf: string, sort: string)

  function ReviewQuery(userId: Option<string>, shelf: string, page: int): Query
  {
    Query(userId, "2", page, shelf, "date_read")
  }

  /** The queries for pages 1, 2, ..., n of `shelf`, in that order. */
  function Requests(userId: Option<string>, shelf: string, n: nat): (qs: seq<Query>)
    ensures |qs| == n
  {
    if n == 0 then [] else Requests(userId, shelf, n - 1) + [ReviewQuery(userId, shelf, n)]
  }

  /** The k-th query asks for page k + 1 of `shelf`, sorted by read date,
      in version 2 of the API, for the user. */
  lemma {:induction false} RequestsInOrder(userId: Option<string>, shelf: string, n: nat)
    ensures forall k :: 0 <= k < n ==> Requests(userId, shelf, n)[k] == ReviewQuery(userId, shelf, k + 1)
  {
    if n > 0 {
      RequestsInOrder(userId, shelf, n - 1);
    }
  }

  /** The log after one more request: the queries for pages 1..n+1. */
  lemma RequestsSnoc(log: seq<Query>, userId: Option<string>, shelf: string, n: nat)
    ensures log + Requests(userId, shelf, n + 1) == (log + Requests(userId, shelf, n)) + [ReviewQuery(userId, shelf, n + 1)]
  {
    assert Requests(userId, shelf, n + 1) == Requests(userId, shelf, n) + [ReviewQuery(userId, shelf, n + 1)];
  }

  /** The authenticated session, reduced to what the pager uses: posting
      the query for page k answers `pages[k - 1]`; every post is logged. */
  class Session {
    const pages: seq<Page>
    var posted: seq<Query>

    constructor (pages: seq<Page>)
      ensures this.pages == pages && posted == []
    {
      this.pages := pages;
      posted := [];
    }

    method Post(q: Query) returns (answer: Page)
      requires 1 <= q.page <= |pages|
      modifies this
      ensures posted == old(posted) + [q]
      ensures answer == pages[q.page - 1]
    {
      posted := posted + [q];
      answer := pages[q.page - 1];
    }
  }

  /** The loop `while end < total` ends after this page. */
  predicate Stops(p: Page)
  {
    p.end >= p.total
  }

  /** Some page from index `from` on ends the paging: the condition under
      which the pager terminates. */
  predicate StopsFrom(pages: seq<Page>, from: nat)
  {
    exists j :: from <= j < |pages| && Stops(pages[j])
  }

  /** Books parsed from some entries, and the exception that stopped the
      parsing, if any. */
  datatype Batch = Batch(books: seq<Book>, error: Option<Exc>)

  /** Books collected by the pager, the exception that ended it, if any,
      and how many pages it requested. */
  datatype Fetch = Fetch(books: seq<Book>, error: Option<Exc>, requested: nat)

  /** Parsing the entries of one page in order; the first entry whose
      parse raises ends the page with that exception. */
  function ParseAll(entries: seq<Value>, parse: Value -> Result<Book>): (b: Batch)
    ensures |b.books| <= |entries|
    ensures b.error.None? <==> |b.books| == |entries|
    ensures b.error.Some? ==> parse(entries[|b.books|]) == Err(b.error.value)
  {
    if entries == [] then Batch([], None)
    else match parse(entries[0])
      case Err(e) => Batch([], Some(e))
      case Ok(book) =>
        var rest := ParseAll(entries[1..], parse);
        Batch([book] + rest.books, rest.error)
  }

  /** The books of a page are, in order, the parses of its first entries:
      nothing is skipped, reordered or duplicated. */
  lemma {:induction false} ParseAllInOrder(entries: seq<Value>, parse: Value -> Result<Book>)
    ensures forall i :: 0 <= i < |ParseAll(entries, parse).books| ==>
              parse(entries[i]) == Ok(ParseAll(entries, parse).books[i])
  {
    if entries != [] && parse(entries[0]).Ok? {
      ParseAllInOrder(entries[1..], parse);
    }
  }

  /** Parsing from entry i on, unfolded by one entry. */
  lemma ParseAllStep(entries: seq<Value>, i: nat, parse: Value -> Result<Book>)
    requires i < |entries|
    ensures parse(entries[i]).Err? ==> ParseAll(entries[i..], parse) == Batch([], Some(parse(entries[i]).error))
    ensures parse(entries[i]).Ok? ==>
              ParseAll(entries[i..], parse) == Prepend([parse(entries[i]).value], ParseAll(entries[i + 1..], parse))
  {
    assert entries[i..][1..] == entries[i + 1..];
  }

  /** One page: its entries (as the revision reads them) parsed in order. */
  function ParsePage(p: Page, entries: Page -> Result<seq<Value>>, parse: Value -> Result<Book>): Batch
  {
    match entries(p)
    case Err(e) => Batch([], Some(e))
    case Ok(rs) => ParseAll(rs, parse)
  }

  /** `added` followed by what parsing went on to give. */
  function Prepend(added: seq<Book>, b: Batch): Batch
  {
    Batch(added + b.books, b.error)
  }

  /** `done` followed by what the pager went on to collect. */
  function Extend(done: seq<Book>, f: Fetch): Fetch
  {
    Fetch(done + f.books, f.error, f.requested)
  }

  /** The pager from page index `from` on (page number `from + 1`): it
      requests pages one after another and stops after the first page whose
      counters report `end >= total`, or at the first exception. */
  function Collect(pages: seq<Page>, from: nat, entries: Page -> Result<seq<Value>>,
                   parse: Value -> Result<Book>): (f: Fetch)
    requires StopsFrom(pages, from)
    ensures from < f.requested <= |pages|
    ensures f.error.None? ==> Stops(pages[f.requested - 1])
    ensures f.error.Some? ==> ParsePage(pages[f.requested - 1], entries, parse).error == f.error
    decreases |pages| - from
  {
    var b := ParsePage(pages[from], entries, parse);
    if b.error.Some? || Stops(pages[from]) then Fetch(b.books, b.error, from + 1)
    else
      var rest := Collect(pages, from + 1, entries, parse);
      Fetch(b.books + rest.books, rest.error, rest.requested)
  }

  /** The books appended by one more page. */
  lemma AppendBooks(start: seq<Book>, done: seq<Book>, more: seq<Book>)
    ensures start + (done + more) == (start + done) + more
  {
  }

  /** The state of the pager loop against its specification `fetched`:
      while `running`, the books `done` so far followed by what the pages
      from index `page` on give are `fetched`; once stopped, `fetched` is
      exactly `done`, the exception `error` and `page` requests. */
  ghost predicate Pager(pages: seq<Page>, entries: Page -> Result<seq<Value>>, parse: Value -> Result<Book>,
                        fetched: Fetch, page: nat, done: seq<Book>, running: bool, error: Option<Exc>)
  {
    page <= |pages| &&
    (running ==> page < |pages| && StopsFrom(pages, page) &&
                 fetched == Extend(done, Collect(pages, page, entries, parse))) &&
    (!running ==> fetched == Fetch(done, error, page))
  }

  /** The pager loop starts at page index 0 with nothing done. */
  lemma PagerStart(pages: seq<Page>, entries: Page -> Result<seq<Value>>, parse: Value -> Result<Book>)
    requires StopsFrom(pages, 0)
    ensures Pager(pages, entries, parse, Collect(pages, 0, entries, parse), 0, [], true, None)
  {
    assert [] + Collect(pages, 0, entries, parse).books == Collect(pages, 0, entries, parse).books;
  }

  /** One pass of the pager loop: reading page index `page` appends its
      books and goes on exactly when the page raised nothing and reported
      `end < total`. */
  lemma PagerStep(pages: seq<Page>, entries: Page -> Result<seq<Value>>, parse: Value -> Result<Book>,
                  fetched: Fetch, page: nat, done: seq<Book>)
    requires Pager(pages, entries, parse, fetched, page, done, true, None)
    ensures page < |pages|
    ensures var b := ParsePage(pages[page], entries, parse);
            Pager(pages, entries, parse, fetched, page + 1, done + b.books,
                  !Stops(pages[page]) && b.error.None?, b.error)
  {
    var b := ParsePage(pages[page], entries, parse);
    if !(b.error.Some? || Stops(pages[page])) {
      var rest := Collect(pages, page + 1, entries, parse);
      assert done + (b.books + rest.books) == (done + b.books) + rest.books;
    }
  }

  /** Every page requested before the last one raised nothing and reported
      `end < total`: the pager never stops early, and never goes on past a
      page reporting `end >= total`. */
  lemma {:induction false} CollectStopsAtFirst(pages: seq<Page>, from: nat, entries: Page -> Result<seq<Value>>,
                                               parse: Value -> Result<Book>)
    requires StopsFrom(pages, from)
    ensures var f := Collect(pages, from, entries, parse);
            forall k :: from <= k < f.requested - 1 ==>
              !Stops(pages[k]) && ParsePage(pages[k], entries, parse).error.None?
    decreases |pages| - from
  {
    var b := ParsePage(pages[from], entries, parse);
    if !(b.error.Some? || Stops(pages[from])) {
      CollectStopsAtFirst(pages, from + 1, entries, parse);
    }
  }

  /** The counters of page k agree with its entries: it carries exactly
      `end - previous end` entries, and every one of them parses. */
  predicate CountsAgree(pages: seq<Page>, k: nat, entries: Page -> Result<seq<Value>>,
                        parse: Value -> Result<Book>)
    requires k < |pages|
  {
    var previous := if k == 0 then 0 else pages[k - 1].end;
    entries(pages[k]).Ok? &&
    |entries(pages[k]).value| == pages[k].end - previous &&
    forall i :: 0 <= i < |entries(pages[k]).value| ==> parse(entries(pages[k]).value[i]).Ok?
  }

  /** When every page's counters agree with its entries and only the last
      page reports `end >= total`, the pager requests every page, raises
      nothing and returns as many books as the last page's `end`: with
      `end == total` there, exactly `total` books, however the service
      splits them into pages. */
  lemma FeedCount(pages: seq<Page>, entries: Page -> Result<seq<Value>>, parse: Value -> Result<Book>)
    requires pages != []
    requires forall k :: 0 <= k < |pages| - 1 ==> !Stops(pages[k])
    requires Stops(pages[|pages| - 1])
    requires forall k :: 0 <= k < |pages| ==> CountsAgree(pages, k, entries, parse)
    ensures StopsFrom(pages, 0)
    ensures Collect(pages, 0, entries, parse).error.None?
    ensures Collect(pages, 0, entries, parse).requested == |pages|
    ensures |Collect(pages, 0, entries, parse).books| == pages[|pages| - 1].end
  {
    assert Stops(pages[|pages| - 1]);
    FeedCountFrom(pages, 0, entries, parse);
  }

  lemma {:induction false} FeedCountFrom(pages: seq<Page>, from: nat, entries: Page -> Result<seq<Value>>,
                                         parse: Value -> Result<Book>)
    requires from < |pages|
    requires forall k :: 0 <= k < |pages| - 1 ==> !Stops(pages[k])
    requires Stops(pages[|pages| - 1])
    requires forall k :: 0 <= k < |pages| ==> CountsAgree(pages, k, entries, parse)
    ensures StopsFrom(pages, from)
    ensures Collect(pages, from, entries, parse).error.None?
    ensures Collect(pages, from, entries, parse).requested == |pages|
    ensures |Collect(pages, from, entries, parse).books| ==
              pages[|pages| - 1].end - (if from == 0 then 0 else pages[from - 1].end)
    decreases |pages| - from
  {
    assert Stops(pages[|pages| - 1]);
    assert CountsAgree(pages, from, entries, parse);
    var b := ParsePage(pages[from], entries, parse);
    assert b.error.None?;
    if from < |pages| - 1 {
      FeedCountFrom(pages, from + 1, entries, parse);
    }
  }
}
