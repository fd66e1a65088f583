/** The record built for one reviewed book (class `Book`, identical in
    rattle_cli/goodreads.py and goodreads.py). */
module Records {
  import opened Xml

  /** A timezone-aware date and time, as `datetime.strptime` returns it for
      the feed's `%a %b %d %H:%M:%S %z %Y` format; `utcOffset` is in minutes. */
  datatype DateTime = DateTime(year: int, month: int, day: int,
                               hour: int, minute: int, second: int,
                               utcOffset: int)

  /** What `date_read` holds: a parsed date, the raw (or empty) text the
      parser fell back to, or None when a Book is built without a date. */
  datatype DateRead = Parsed(at: DateTime) | Text(text: string) | NoDate

  /** Title and author are whatever the decoded entry held (normally
      strings); shelves are the shelf-name values in feed order. */
  datatype Book = Book(title: Value, author: Value, dateRead: DateRead, shelves: seq<Value>)

  /** `Book(title, author, date_read, shelves)`: shelves given as None
      become the empty list, never a missing value. */
  function NewBook(title: Value, author: Value, dateRead: DateRead, shelves: Option<seq<Value>>): (b: Book)
    ensures b.title == title && b.author == author && b.dateRead == dateRead
    ensures shelves.None? ==> b.shelves == []
    ensures shelves.Some? ==> b.shelves == shelves.value
  {
    Book(title, author, dateRead, match shelves case Some(s) => s case None => [])
  }
}
