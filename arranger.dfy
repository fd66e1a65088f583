/** bookarranger.py: sorting Books into buckets named after shelves (used
    as languages), with an optional catch-all bucket and an optional filter
    on the year the book was read. */
module Arranger {
  import opened Xml
  import opened Records

  /** `languages=None` is treated as no language at all. */
  function Languages(languages: Option<seq<string>>): (langs: seq<string>)
    ensures languages.None? ==> langs == []
    ensures languages.Some? ==> langs == languages.value
  {
    match languages
    case None => []
    case Some(ls) => ls
  }

  /** The keys of the result: every requested language, and the catch-all
      label when `other` is set (one key when the label is also a
      language). */
  function Keys(langs: seq<string>, other: bool, catchAll: string): set<string>
  {
    (set l | l in langs) + (if other then {catchAll} else {})
  }

  /** The first language, in list order, that is among the shelves. */
  function FirstShelved(langs: seq<string>, shelves: seq<Value>): (r: Option<string>)
    ensures r.Some? ==> r.value in langs && VStr(r.value) in shelves
  {
    if langs == [] then None
    else if VStr(langs[0]) in shelves then Some(langs[0])
    else FirstShelved(langs[1..], shelves)
  }

  /** The language chosen is one of the languages, is among the shelves,
      and no language before it in the list is; there is none exactly when
      no language is among the shelves. */
  lemma {:induction false} FirstShelvedSpec(langs: seq<string>, shelves: seq<Value>)
    ensures var r := FirstShelved(langs, shelves);
            r.Some? ==> exists i :: 0 <= i < |langs| && langs[i] == r.value && VStr(r.value) in shelves &&
                                    forall j :: 0 <= j < i ==> VStr(langs[j]) !in shelves
    ensures FirstShelved(langs, shelves).None? <==> forall l :: l in langs ==> VStr(l) !in shelves
  {
    if langs != [] && VStr(langs[0]) !in shelves {
      FirstShelvedSpec(langs[1..], shelves);
      var r := FirstShelved(langs, shelves);
      if r.Some? {
        var i :| 0 <= i < |langs[1..]| && langs[1..][i] == r.value && VStr(r.value) in shelves &&
                  forall j :: 0 <= j < i ==> VStr(langs[1..][j]) !in shelves;
        forall j | 0 <= j < i + 1
          ensures VStr(langs[j]) !in shelves
        {
          if j > 0 {
            assert langs[j] == langs[1..][j - 1];
          }
        }
        assert langs[i + 1] == r.value;
      }
      assert forall l :: l in langs ==> l == langs[0] || l in langs[1..];
    } else if langs != [] {
      assert langs[0] == FirstShelved(langs, shelves).value;
    }
  }

  /** The bucket a Book goes to once it passed the year filter: its first
      shelved language, else the catch-all when `other` is set, else none. */
  function Destination(b: Book, langs: seq<string>, other: bool, catchAll: string): (d: Option<string>)
    ensures d.Some? ==> (d.value in langs && VStr(d.value) in b.shelves) || (other && d.value == catchAll)
    ensures d.None? ==> !other
  {
    match FirstShelved(langs, b.shelves)
    case Some(l) => Some(l)
    case None => if other then Some(catchAll) else None
  }

  /** A destination is always one of the keys; a Book on no requested
      language shelf goes to the catch-all exactly when there is one. */
  lemma DestinationSpec(b: Book, langs: seq<string>, other: bool, catchAll: string)
    ensures var d := Destination(b, langs, other, catchAll);
            (d.Some? ==> d.value in Keys(langs, other, catchAll)) &&
            ((forall l :: l in langs ==> VStr(l) !in b.shelves) ==> d == (if other then Some(catchAll) else None))
  {
    FirstShelvedSpec(langs, b.shelves);
  }

  /** With a year given, `book.date_read.year` raises AttributeError for a
      date that is not a parsed date (the raw text, or None). */
  predicate Raises(b: Book, year: Option<int>)
  {
    year.Some? && !b.dateRead.Parsed?
  }

  /** The Book passes the year filter. */
  predicate Chosen(b: Book, year: Option<int>)
  {
    year.None? || (b.dateRead.Parsed? && b.dateRead.at.year == year.value)
  }

  /** The Books, in their order, that pass the year filter and go to
      bucket `key`. */
  function Bucket(books: seq<Book>, key: string, langs: seq<string>, other: bool, catchAll: string,
                  year: Option<int>): seq<Book>
  {
    if books == [] then []
    else
      var b := books[|books| - 1];
      Bucket(books[..|books| - 1], key, langs, other, catchAll, year) +
        (if Chosen(b, year) && Destination(b, langs, other, catchAll) == Some(key) then [b] else [])
  }

  /** Every bucket, one per key. */
  function Buckets(books: seq<Book>, langs: seq<string>, other: bool, catchAll: string,
                   year: Option<int>): map<string, seq<Book>>
  {
    map k | k in Keys(langs, other, catchAll) :: Bucket(books, k, langs, other, catchAll, year)
  }

  /** `sort_by_language(languages, other, other_label, year)`: the buckets,
      or AttributeError when a year is given and some Book has no parsed
      read date. */
  function ByLanguage(books: seq<Book>, languages: Option<seq<string>>, other: bool, catchAll: string,
                      year: Option<int>): (r: Result<map<string, seq<Book>>>)
    ensures r.Err? ==> r.error == AttributeError && year.Some?
    ensures r.Ok? ==> forall i :: 0 <= i < |books| ==> !Raises(books[i], year)
  {
    if exists i :: 0 <= i < |books| && Raises(books[i], year) then Err(AttributeError)
    else Ok(Buckets(books, Languages(languages), other, catchAll, year))
  }

  /** The result raises exactly when a year is given and some Book has no
      parsed date; otherwise its keys are the languages (None read as
      none) and the catch-all label when `other` is set. */
  lemma ByLanguageShape(books: seq<Book>, languages: Option<seq<string>>, other: bool, catchAll: string,
                        year: Option<int>)
    ensures var r := ByLanguage(books, languages, other, catchAll, year);
            (r.Err? <==> year.Some? && exists i :: 0 <= i < |books| && !books[i].dateRead.Parsed?) &&
            (r.Err? ==> r.error == AttributeError) &&
            (r.Ok? ==> r.value.Keys == (set l | l in Languages(languages)) + (if other then {catchAll} else {}))
  {
  }

  /** The empty bucket of every language, in list order. */
  function EmptyFor(langs: seq<string>): map<string, seq<Book>>
  {
    if langs == [] then map[]
    else EmptyFor(langs[..|langs| - 1])[langs[|langs| - 1] := []]
  }

  /** The buckets before any Book is placed: one empty bucket per
      language, then the catch-all. */
  function Initial(langs: seq<string>, other: bool, catchAll: string): map<string, seq<Book>>
  {
    if other then EmptyFor(langs)[catchAll := []] else EmptyFor(langs)
  }

  /** One Book placed: appended to its destination bucket, if it has one
      (a destination is always a key of the buckets built so far). */
  function Placed(m: map<string, seq<Book>>, b: Book, langs: seq<string>, other: bool, catchAll: string)
    : map<string, seq<Book>>
  {
    var d := Destination(b, langs, other, catchAll);
    if d.Some? && d.value in m then m[d.value := m[d.value] + [b]] else m
  }

  /** The Books placed one after another, starting from `Initial`, each
      one only when it passes the year filter. */
  function Arranged(books: seq<Book>, langs: seq<string>, other: bool, catchAll: string,
                    year: Option<int>): map<string, seq<Book>>
  {
    if books == [] then Initial(langs, other, catchAll)
    else
      var before := Arranged(books[..|books| - 1], langs, other, catchAll, year);
      var b := books[|books| - 1];
      if Chosen(b, year) then Placed(before, b, langs, other, catchAll) else before
  }

  lemma {:induction false} EmptyForSpec(langs: seq<string>)
    ensures EmptyFor(langs).Keys == set l | l in langs
    ensures forall k :: k in EmptyFor(langs) ==> EmptyFor(langs)[k] == []
  {
    if langs != [] {
      var init := langs[..|langs| - 1];
      EmptyForSpec(init);
      assert langs == init + [langs[|langs| - 1]];
    }
  }

  /** Appending one Book changes only the bucket of its destination, by
      adding it at the end, and only when it passes the year filter. */
  lemma BucketSnoc(books: seq<Book>, b: Book, key: string, langs: seq<string>, other: bool, catchAll: string,
                   year: Option<int>)
    ensures Bucket(books + [b], key, langs, other, catchAll, year) ==
            Bucket(books, key, langs, other, catchAll, year) +
            (if Chosen(b, year) && Destination(b, langs, other, catchAll) == Some(key) then [b] else [])
  {
    assert (books + [b])[..|books|] == books;
  }

  /** Before any Book, every bucket is empty. */
  lemma InitialIsBuckets(langs: seq<string>, other: bool, catchAll: string, year: Option<int>)
    ensures Initial(langs, other, catchAll) == Buckets([], langs, other, catchAll, year)
  {
    EmptyForSpec(langs);
    var m := Initial(langs, other, catchAll);
    assert m.Keys == Keys(langs, other, catchAll);
    forall k | k in m
      ensures m[k] == []
    {
      if !(other && k == catchAll) {
        assert k in EmptyFor(langs);
      }
    }
  }

  /** Placing one more Book on the buckets of the Books before it gives
      the buckets of all of them. */
  lemma PlacedIsBuckets(init: seq<Book>, b: Book, langs: seq<string>, other: bool, catchAll: string,
                        year: Option<int>)
    ensures var before := Buckets(init, langs, other, catchAll, year);
            (if Chosen(b, year) then Placed(before, b, langs, other, catchAll) else before) ==
            Buckets(init + [b], langs, other, catchAll, year)
  {
    var before := Buckets(init, langs, other, catchAll, year);
    var after := Buckets(init + [b], langs, other, catchAll, year);
    var placed := if Chosen(b, year) then Placed(before, b, langs, other, catchAll) else before;
    DestinationSpec(b, langs, other, catchAll);
    assert placed.Keys == after.Keys;
    forall k | k in after
      ensures placed[k] == after[k]
    {
      BucketSnoc(init, b, k, langs, other, catchAll, year);
    }
  }

  /** Placing the Books one at a time builds, for every key, the bucket of
      that key: the Books in order that pass the filter and go there. */
  lemma {:induction false} ArrangedIsBuckets(books: seq<Book>, langs: seq<string>, other: bool,
                                             catchAll: string, year: Option<int>)
    ensures Arranged(books, langs, other, catchAll, year) == Buckets(books, langs, other, catchAll, year)
    decreases |books|
  {
    if books == [] {
      InitialIsBuckets(langs, other, catchAll, year);
    } else {
      var init := books[..|books| - 1];
      var b := books[|books| - 1];
      ArrangedIsBuckets(init, langs, other, catchAll, year);
      assert books == init + [b];
      PlacedIsBuckets(init, b, langs, other, catchAll, year);
    }
  }

  /** The buckets keep the input order: the buckets of two runs of Books
      are the buckets of each run, one after the other. */
  lemma {:induction false} BucketAppend(xs: seq<Book>, ys: seq<Book>, key: string, langs: seq<string>,
                                        other: bool, catchAll: string, year: Option<int>)
    ensures Bucket(xs + ys, key, langs, other, catchAll, year) ==
            Bucket(xs, key, langs, other, catchAll, year) + Bucket(ys, key, langs, other, catchAll, year)
    decreases |ys|
  {
    if ys == [] {
      assert xs + ys == xs;
    } else {
      var init := ys[..|ys| - 1];
      assert (xs + ys)[..|xs + ys| - 1] == xs + init;
      BucketAppend(xs, init, key, langs, other, catchAll, year);
    }
  }

  /** A Book is in bucket `key` exactly when it is one of the Books, passes
      the year filter and has `key` as its destination. */
  lemma {:induction false} InBucket(books: seq<Book>, b: Book, key: string, langs: seq<string>,
                                    other: bool, catchAll: string, year: Option<int>)
    ensures b in Bucket(books, key, langs, other, catchAll, year) <==>
            b in books && Chosen(b, year) && Destination(b, langs, other, catchAll) == Some(key)
  {
    if books != [] {
      var init := books[..|books| - 1];
      InBucket(init, b, key, langs, other, catchAll, year);
      assert books == init + [books[|books| - 1]];
    }
  }

  /** A Book is in at most one bucket. */
  lemma AtMostOneBucket(books: seq<Book>, b: Book, k1: string, k2: string, langs: seq<string>,
                        other: bool, catchAll: string, year: Option<int>)
    requires k1 != k2
    ensures !(b in Bucket(books, k1, langs, other, catchAll, year) && b in Bucket(books, k2, langs, other, catchAll, year))
  {
    InBucket(books, b, k1, langs, other, catchAll, year);
    InBucket(books, b, k2, langs, other, catchAll, year);
  }

  /** A Book that passes the filter and is on a requested language shelf
      is in the bucket of the first such language in list order. */
  lemma FirstLanguageWins(books: seq<Book>, b: Book, i: nat, langs: seq<string>, other: bool,
                          catchAll: string, year: Option<int>)
    requires b in books && Chosen(b, year)
    requires i < |langs| && VStr(langs[i]) in b.shelves
    requires forall j :: 0 <= j < i ==> VStr(langs[j]) !in b.shelves
    ensures b in Bucket(books, langs[i], langs, other, catchAll, year)
  {
    FirstShelvedSpec(langs, b.shelves);
    var r := FirstShelved(langs, b.shelves);
    var i' :| 0 <= i' < |langs| && langs[i'] == r.value && VStr(r.value) in b.shelves &&
              forall j :: 0 <= j < i' ==> VStr(langs[j]) !in b.shelves;
    InBucket(books, b, langs[i], langs, other, catchAll, year);
  }

  /** A Book that passes the filter and is on none of the requested
      language shelves is in the catch-all bucket when `other` is set, and
      in no bucket otherwise. */
  lemma UnmatchedBook(books: seq<Book>, b: Book, langs: seq<string>, other: bool, catchAll: string,
                      year: Option<int>)
    requires b in books && Chosen(b, year)
    requires forall l :: l in langs ==> VStr(l) !in b.shelves
    ensures other ==> b in Bucket(books, catchAll, langs, other, catchAll, year)
    ensures !other ==> forall k :: b !in Bucket(books, k, langs, other, catchAll, year)
  {
    DestinationSpec(b, langs, other, catchAll);
    InBucket(books, b, catchAll, langs, other, catchAll, year);
    forall k | !other
      ensures b !in Bucket(books, k, langs, other, catchAll, year)
    {
      InBucket(books, b, k, langs, other, catchAll, year);
    }
  }

  /** A Book read in another year than the one given is in no bucket, the
      catch-all included. */
  lemma OtherYearExcluded(books: seq<Book>, b: Book, langs: seq<string>, other: bool, catchAll: string, y: int)
    requires b.dateRead.Parsed? && b.dateRead.at.year != y
    ensures forall k :: b !in Bucket(books, k, langs, other, catchAll, Some(y))
  {
    forall k
      ensures b !in Bucket(books, k, langs, other, catchAll, Some(y))
    {
      InBucket(books, b, k, langs, other, catchAll, Some(y));
    }
  }

  /** With no language and no catch-all, the result is empty whatever the
      Books, unless a year filter meets a Book without a parsed date. */
  lemma NothingRequested(books: seq<Book>, languages: Option<seq<string>>, catchAll: string, year: Option<int>)
    requires Languages(languages) == []
    ensures ByLanguage(books, languages, false, catchAll, year).Ok? ==>
            ByLanguage(books, languages, false, catchAll, year).value == map[]
    ensures year.None? ==> ByLanguage(books, languages, false, catchAll, year) == Ok(map[])
  {
    assert Keys([], false, catchAll) == {};
  }

  /** The sizes of the buckets of the keys `ks`, added up. */
  function SizeSum(books: seq<Book>, ks: seq<string>, langs: seq<string>, other: bool, catchAll: string,
                   year: Option<int>): nat
  {
    if ks == [] then 0
    else |Bucket(books, ks[0], langs, other, catchAll, year)| + SizeSum(books, ks[1..], langs, other, catchAll, year)
  }

  /** One more Book adds one to the bucket sizes of the keys `ks` when its
      destination is one of them, and nothing otherwise. */
  lemma {:induction false} SizeSumSnoc(books: seq<Book>, b: Book, ks: seq<string>, langs: seq<string>,
                                       other: bool, catchAll: string, year: Option<int>)
    requires forall i, j :: 0 <= i < j < |ks| ==> ks[i] != ks[j]
    ensures var d := Destination(b, langs, other, catchAll);
            SizeSum(books + [b], ks, langs, other, catchAll, year) ==
              SizeSum(books, ks, langs, other, catchAll, year) +
              (if Chosen(b, year) && d.Some? && d.value in ks then 1 else 0)
  {
    if ks != [] {
      BucketSnoc(books, b, ks[0], langs, other, catchAll, year);
      SizeSumSnoc(books, b, ks[1..], langs, other, catchAll, year);
      var d := Destination(b, langs, other, catchAll);
      if d.Some? && d.value == ks[0] {
        assert d.value !in ks[1..] by {
          forall i | 0 <= i < |ks[1..]|
            ensures ks[1..][i] != ks[0]
          {
            assert ks[1..][i] == ks[i + 1];
          }
        }
      }
      if d.Some? && d.value in ks && d.value != ks[0] {
        var i :| 0 <= i < |ks| && ks[i] == d.value;
        assert ks[1..][i - 1] == d.value;
      }
    }
  }

  lemma {:induction false} SizeSumEmpty(ks: seq<string>, langs: seq<string>, catchAll: string)
    ensures SizeSum([], ks, langs, true, catchAll, None) == 0
  {
    if ks != [] {
      SizeSumEmpty(ks[1..], langs, catchAll);
    }
  }

  /** With the catch-all and no year filter every Book lands in exactly one
      bucket: over the distinct keys, the bucket sizes add up to the number
      of Books. */
  lemma {:induction false} SizesAddUp(books: seq<Book>, ks: seq<string>, langs: seq<string>, catchAll: string)
    requires forall i, j :: 0 <= i < j < |ks| ==> ks[i] != ks[j]
    requires (set k | k in ks) == Keys(langs, true, catchAll)
    ensures SizeSum(books, ks, langs, true, catchAll, None) == |books|
    decreases |books|
  {
    if books == [] {
      SizeSumEmpty(ks, langs, catchAll);
    } else {
      var init := books[..|books| - 1];
      var b := books[|books| - 1];
      assert books == init + [b];
      SizesAddUp(init, ks, langs, catchAll);
      SizeSumSnoc(init, b, ks, langs, true, catchAll, None);
      DestinationSpec(b, langs, true, catchAll);
      var d := Destination(b, langs, true, catchAll);
      assert d.value in (set k | k in ks);
    }
  }

  /** The buckets placing keeps: those of the languages and the
      catch-all, whatever the Books. */
  lemma {:induction false} ArrangedKeys(books: seq<Book>, langs: seq<string>, other: bool, catchAll: string,
                                        year: Option<int>)
    ensures Arranged(books, langs, other, catchAll, year).Keys == Keys(langs, other, catchAll)
  {
    if books == [] {
      EmptyForSpec(langs);
    } else {
      ArrangedKeys(books[..|books| - 1], langs, other, catchAll, year);
    }
  }

  /** The first part of `sort_by_language`: an empty bucket for each
      language in turn, then for the catch-all when `other` is set. */
  method EmptyBuckets(langs: seq<string>, other: bool, catchAll: string) returns (sorted: map<string, seq<Book>>)
    ensures sorted == Initial(langs, other, catchAll)
  {
    sorted := map[];
    for j := 0 to |langs|
      invariant sorted == EmptyFor(langs[..j])
    {
      assert langs[..j + 1][..j] == langs[..j];
      sorted := sorted[langs[j] := []];
    }
    assert langs[..|langs|] == langs;
    if other {
      sorted := sorted[catchAll := []];
    }
  }

  /** What bucket `key` receives from one Book. */
  function Share(b: Book, key: string, langs: seq<string>, other: bool, catchAll: string, year: Option<int>)
    : seq<Book>
  {
    if Chosen(b, year) && Destination(b, langs, other, catchAll) == Some(key) then [b] else []
  }

  /** Bucket `key` of five Books is what each of them, in turn, gives it. */
  lemma BucketOfFive(books: seq<Book>, key: string, langs: seq<string>, other: bool,
                     catchAll: string, year: Option<int>)
    requires |books| == 5
    ensures Bucket(books, key, langs, other, catchAll, year) ==
            Share(books[0], key, langs, other, catchAll, year) + Share(books[1], key, langs, other, catchAll, year) +
            Share(books[2], key, langs, other, catchAll, year) + Share(books[3], key, langs, other, catchAll, year) +
            Share(books[4], key, langs, other, catchAll, year)
  {
    var b0, b1, b2, b3 := Bucket(books[..1], key, langs, other, catchAll, year),
                          Bucket(books[..2], key, langs, other, catchAll, year),
                          Bucket(books[..3], key, langs, other, catchAll, year),
                          Bucket(books[..4], key, langs, other, catchAll, year);
    var first := Share(books[0], key, langs, other, catchAll, year);
    assert books[..1][..0] == [] && books[..1][0] == books[0];
    assert Bucket(books[..1][..0], key, langs, other, catchAll, year) == [];
    assert b0 == [] + first;
    assert [] + first == first;
    assert books[..2][..1] == books[..1];
    assert b1 == b0 + Share(books[1], key, langs, other, catchAll, year);
    assert books[..3][..2] == books[..2];
    assert b2 == b1 + Share(books[2], key, langs, other, catchAll, year);
    assert books[..4][..3] == books[..3];
    assert b3 == b2 + Share(books[3], key, langs, other, catchAll, year);
    assert books[..4] == books[..|books| - 1];
  }

  /** A Book of the year-filter fixture: read on 25 April of `year`, on
      the "read" shelf and one language shelf. */
  function YearFixture(n: string, year: int, lang: string): Book
  {
    Book(VStr(n), VStr("An author"), Parsed(DateTime(year, 4, 25, 0, 0, 0, 0)), [VStr("read"), VStr(lang)])
  }

  /** The Books of the year-filter tests: read in 2016 (en, es, fr) and in
      2015 (es, es). */
  const YearBooks: seq<Book> :=
    [YearFixture("1", 2016, "en"), YearFixture("2", 2015, "es"), YearFixture("3", 2016, "es"),
     YearFixture("4", 2015, "es"), YearFixture("5", 2016, "fr")]

  /** The 2016 cases of the year-filter tests: one English Book, and with
      the catch-all the two others of that year. */
  lemma YearExamples2016()
    ensures |Bucket(YearBooks, "en", ["en"], false, "default", Some(2016))| == 1
    ensures |Bucket(YearBooks, "en", ["en"], true, "default", Some(2016))| == 1
    ensures |Bucket(YearBooks, "default", ["en"], true, "default", Some(2016))| == 2
  {
    BucketOfFive(YearBooks, "en", ["en"], false, "default", Some(2016));
    BucketOfFive(YearBooks, "en", ["en"], true, "default", Some(2016));
    BucketOfFive(YearBooks, "default", ["en"], true, "default", Some(2016));
  }

  /** The 2015 cases of those tests: no Book is on a "de" shelf and both
      go to the catch-all; no English Book was read that year. */
  lemma YearExamples2015()
    ensures |Bucket(YearBooks, "de", ["de"], true, "default", Some(2015))| == 0
    ensures |Bucket(YearBooks, "default", ["de"], true, "default", Some(2015))| == 2
    ensures |Bucket(YearBooks, "en", ["en"], false, "default", Some(2015))| == 0
  {
    BucketOfFive(YearBooks, "de", ["de"], true, "default", Some(2015));
    BucketOfFive(YearBooks, "default", ["de"], true, "default", Some(2015));
    BucketOfFive(YearBooks, "en", ["en"], false, "default", Some(2015));
  }

  /** The 2014 case of those tests: nothing was read that year, so the
      language bucket and the catch-all both stay empty. */
  lemma YearExamples2014()
    ensures |Bucket(YearBooks, "en", ["en"], true, "default", Some(2014))| == 0
    ensures |Bucket(YearBooks, "default", ["en"], true, "default", Some(2014))| == 0
  {
    BucketOfFive(YearBooks, "en", ["en"], true, "default", Some(2014));
    BucketOfFive(YearBooks, "default", ["en"], true, "default", Some(2014));
  }

  /** The inner `for ... else` of `sort_by_language`: append the Book to
      the bucket of the first language among its shelves; when none is,
      to the catch-all if there is one. */
  method Place(sorted: map<string, seq<Book>>, book: Book, langs: seq<string>, other: bool, catchAll: string)
    returns (placed: map<string, seq<Book>>)
    requires forall l :: l in langs ==> l in sorted
    requires other ==> catchAll in sorted
    ensures placed == Placed(sorted, book, langs, other, catchAll)
  {
    placed := sorted;
    var j := 0;
    while j < |langs|
      invariant j <= |langs|
      invariant FirstShelved(langs, book.shelves) == FirstShelved(langs[j..], book.shelves)
    {
      if VStr(langs[j]) in book.shelves {
        placed := placed[langs[j] := placed[langs[j]] + [book]];
        break;
      }
      assert langs[j..][1..] == langs[j + 1..];
      j := j + 1;
    }
    if j == |langs| && other {
      placed := placed[catchAll := placed[catchAll] + [book]];
    }
  }

  /** The arranger holds the Books it sorts. */
  class BookArranger {
    var books: seq<Book>

    constructor (books: seq<Book>)
      ensures this.books == books
    {
      this.books := books;
    }

    /** `sort_by_language`: one empty bucket per language, and for the
        catch-all when `other` is set; then each Book, in order, skipped
        when read in another year, appended to the bucket of its first
        shelved language, else to the catch-all when there is one. The
        Books themselves are left as they are. */
    method SortByLanguage(languages: Option<seq<string>>, other: bool, otherLabel: string, year: Option<int>)
      returns (r: Result<map<string, seq<Book>>>)
      ensures r == ByLanguage(books, languages, other, otherLabel, year)
    {
      var langs := if languages.None? then [] else languages.value;
      var sorted := EmptyBuckets(langs, other, otherLabel);
      var all := books;
      assert all[..0] == [];
      for i := 0 to |all|
        invariant forall i' :: 0 <= i' < i ==> !Raises(all[i'], year)
        invariant sorted == Arranged(all[..i], langs, other, otherLabel, year)
      {
        var book := all[i];
        assert all[..i + 1][..i] == all[..i];
        if year.Some? {
          if !book.dateRead.Parsed? {
            return Err(AttributeError);
          }
          if book.dateRead.at.year != year.value {
            continue;
          }
        }
        ArrangedKeys(all[..i], langs, other, otherLabel, year);
        sorted := Place(sorted, book, langs, other, otherLabel);
      }
      assert all[..|all|] == all;
      ArrangedIsBuckets(all, langs, other, otherLabel, year);
      r := Ok(sorted);
    }
  }
}
