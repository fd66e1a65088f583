/** Field extraction from one decoded review entry, as both revisions of
    the client write it (rattle_cli/goodreads.py and goodreads.py). The two
    revisions differ in what they do when an extraction raises; that part
    lives in ReviewFeed and LegacyFeed. */
module Entry {
  import opened Xml
  import opened Records

  /** `review['book']['title']`. */
  function Title(review: Value): Result<Value>
  {
    var book :- Get(review, "book");
    Get(book, "title")
  }

  /** `review['book']['authors']['author']`. */
  function AuthorField(review: Value): Result<Value>
  {
    var book :- Get(review, "book");
    var authors :- Get(book, "authors");
    Get(authors, "author")
  }

  /** The author expression: a list of authors gives their names joined
      with ", ", a single author its `name`. */
  function ExtractAuthor(review: Value): Result<Value>
  {
    var author :- AuthorField(review);
    if author.VList? then
      var names :- Pluck(author.items, "name");
      var parts :- Strings(names);
      Ok(VStr(Join(parts, ", ")))
    else
      Get(author, "name")
  }

  /** `review['shelves']['shelf']`. */
  function ShelfField(review: Value): Result<Value>
  {
    var shelves :- Get(review, "shelves");
    Get(shelves, "shelf")
  }

  /** The shelves expression: a list of shelves gives their `@name`s in
      order, a single shelf a one-element list. */
  function ExtractShelves(review: Value): Result<seq<Value>>
  {
    var shelf :- ShelfField(review);
    if shelf.VList? then
      Pluck(shelf.items, "@name")
    else
      var name :- Get(shelf, "@name");
      Ok([name])
  }

  /** The `read_at` text, when the entry has one that is a string. */
  function ReadAtText(review: Value): Option<string>
  {
    match Get(review, "read_at")
    case Ok(VStr(s)) => Some(s)
    case _ => None
  }

  /** `strptime` accepts the entry's `read_at` text. */
  predicate ReadAtParses(review: Value, strptime: string -> Option<DateTime>)
  {
    ReadAtText(review).Some? && strptime(ReadAtText(review).value).Some?
  }

  /** The `read_at` stage of `parse_date_read`, the same in both revisions:
      a parsable date is returned parsed; a string that does not parse
      (ValueError) is returned as it is; a missing key (KeyError) or any
      other failure gives the empty text. Every handler logs `review['id']`,
      so an entry without an id raises from the handler. */
  function ReadAtDate(review: Value, strptime: string -> Option<DateTime>): (r: Result<DateRead>)
    ensures ReadAtParses(review, strptime) ==> r == Ok(Parsed(strptime(ReadAtText(review).value).value))
    ensures r.Ok? && r.value.Parsed? ==> ReadAtParses(review, strptime)
    ensures r.Err? <==> !ReadAtParses(review, strptime) && Get(review, "id").Err?
    ensures r.Err? ==> r.error == Get(review, "id").error
    ensures r.Ok? && !ReadAtParses(review, strptime) ==>
              r.value == Text(match ReadAtText(review) case Some(s) => s case None => "")
  {
    match Get(review, "read_at")
    case Ok(VStr(s)) =>
      if strptime(s).Some? then Ok(Parsed(strptime(s).value))
      else
        var id :- Get(review, "id");
        Ok(Text(s))
    case _ =>
      var id :- Get(review, "id");
      Ok(Text(""))
  }

  /** A list of authors whose names are all strings gives those names
      joined with ", ", in list order. */
  lemma AuthorsJoined(review: Value, items: seq<Value>, names: seq<string>)
    requires AuthorField(review) == Ok(VList(items))
    requires |items| == |names|
    requires forall i :: 0 <= i < |items| ==> Get(items[i], "name") == Ok(VStr(names[i]))
    ensures ExtractAuthor(review) == Ok(VStr(Join(names, ", ")))
  {
    var plucked := Pluck(items, "name");
    assert plucked.Ok?;
    var parts := Strings(plucked.value);
    assert parts.Ok?;
    assert parts.value == names by {
      forall i | 0 <= i < |names|
        ensures parts.value[i] == names[i]
      {
        assert plucked.value[i] == VStr(names[i]);
      }
    }
  }

  /** A list of authors in which one entry has no `name`, or a name that is
      not a string, makes the author expression raise. */
  lemma AuthorsMalformed(review: Value, items: seq<Value>, i: nat)
    requires AuthorField(review) == Ok(VList(items))
    requires i < |items|
    requires !(Get(items[i], "name").Ok? && Get(items[i], "name").value.VStr?)
    ensures ExtractAuthor(review).Err?
  {
    var plucked := Pluck(items, "name");
    if plucked.Ok? {
      assert plucked.value[i] == Get(items[i], "name").value;
      assert Strings(plucked.value).Err?;
    }
  }

  /** A single author, anything but a list, gives its `name`: the name, or
      the exception that looking it up raises. */
  lemma SingleAuthor(review: Value, author: Value)
    requires AuthorField(review) == Ok(author) && !author.VList?
    ensures ExtractAuthor(review) == Get(author, "name")
  {
  }

  /** A single shelf, anything but a list, gives the one-element list of
      its `@name`, or the exception that looking it up raises. */
  lemma SingleShelf(review: Value, shelf: Value)
    requires ShelfField(review) == Ok(shelf) && !shelf.VList?
    ensures Get(shelf, "@name").Ok? ==> ExtractShelves(review) == Ok([Get(shelf, "@name").value])
    ensures Get(shelf, "@name").Err? ==> ExtractShelves(review) == Err(Get(shelf, "@name").error)
  {
  }

  /** A list of shelves, each with a `@name`, gives exactly those names in
      list order, repeated names included. */
  lemma ShelvesInOrder(review: Value, items: seq<Value>)
    requires ShelfField(review) == Ok(VList(items))
    requires forall i :: 0 <= i < |items| ==> Get(items[i], "@name").Ok?
    ensures ExtractShelves(review).Ok?
    ensures |ExtractShelves(review).value| == |items|
    ensures forall i :: 0 <= i < |items| ==> ExtractShelves(review).value[i] == Get(items[i], "@name").value
  {
  }

  /** A list of shelves in which one entry has no `@name` makes the shelf
      expression raise: no partial list is produced. */
  lemma ShelvesMalformed(review: Value, items: seq<Value>, i: nat)
    requires ShelfField(review) == Ok(VList(items))
    requires i < |items| && Get(items[i], "@name").Err?
    ensures ExtractShelves(review).Err?
  {
  }
}
