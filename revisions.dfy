/** The two revisions of the client side by side: where the earlier one
    (goodreads.py) raises or keeps less than the current one
    (rattle_cli/goodreads.py) on the same input. */
module Revisions {
  import opened Xml
  import opened Records
  import opened Entry
  import opened Feed
  import Current = ReviewFeed
  import Earlier = LegacyFeed

  /** An entry whose `read_at` is empty but whose `date_updated` parses:
      this revision keeps the empty text, the current one uses the
      substitute. */
  lemma NoDateSubstitute(review: Value, strptime: string -> Option<DateTime>)
    requires review.VMap? && Get(review, "id").Ok? && Title(review).Ok?
    requires ReadAtText(review) == Some("") && strptime("").None?
    requires Get(review, "date_updated").Ok? && Get(review, "date_updated").value.VStr?
    requires strptime(Get(review, "date_updated").value.s).Some?
    ensures Earlier.ParseReview(review, strptime).Ok? ==> Earlier.ParseReview(review, strptime).value.dateRead == Text("")
    ensures Current.ParseReview(review, strptime).Ok? &&
            Current.ParseReview(review, strptime).value.dateRead ==
              Parsed(strptime(Get(review, "date_updated").value.s).value)
  {
  }

  /** An entry whose author list has an entry without a name: this revision
      raises out of the loop, the current one records the empty author. */
  lemma MalformedAuthorRaises(review: Value, items: seq<Value>, i: nat, strptime: string -> Option<DateTime>)
    requires Get(review, "id").Ok? && Title(review).Ok?
    requires AuthorField(review) == Ok(VList(items))
    requires i < |items| && Get(items[i], "name").Err?
    requires Current.ParseDateRead(review, Title(review).value, strptime).Ok?
    ensures Earlier.ParseReview(review, strptime).Err?
    ensures Current.ParseReview(review, strptime).Ok? &&
            Current.ParseReview(review, strptime).value.author == VStr("")
  {
    AuthorsMalformed(review, items, i);
  }

  /** A page holding one review as a single entry rather than a list: this
      revision iterates the entry's keys and raises TypeError with no Book,
      the current one gives that review's Book. */
  lemma SingleReviewPageRaises(p: Page, strptime: string -> Option<DateTime>)
    requires p.review.Some? && p.review.value.VMap? && p.review.value.m != map[]
    requires Current.ParseReview(p.review.value, strptime).Ok?
    ensures ParsePage(p, Earlier.IterateReviews, Earlier.ReviewParser(strptime)) == Batch([], Some(TypeError))
    ensures ParsePage(p, Current.NormaliseReviews, Current.ReviewParser(strptime)).books ==
            [Current.ParseReview(p.review.value, strptime).value]
  {
    Current.SingleReviewPage(p, strptime);
  }

  /** Eight reviews served as seven and then one: this revision collects
      the seven Books of the first page and then raises TypeError on the
      second, where the current one collects all eight. */
  lemma SevenPlusOneRaises(review: Value, parse: Value -> Result<Book>)
    requires review.VMap? && review.m != map[] && parse(review).Ok?
    ensures var pages := [Page(7, 8, Some(VList(seq(7, _ => review)))), Page(8, 8, Some(review))];
            StopsFrom(pages, 0) &&
            var f := Collect(pages, 0, Earlier.IterateReviews, parse);
            f.error == Some(TypeError) && f.requested == 2 && |f.books| == 7
  {
    var pages := [Page(7, 8, Some(VList(seq(7, _ => review)))), Page(8, 8, Some(review))];
    assert Stops(pages[1]);
    assert ParseAll(seq(7, _ => review), parse).error.None?;
  }
}
