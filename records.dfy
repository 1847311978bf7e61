/** The records of the current schema (`Read/Model`): a book, an author and a series. The
    store keeps them in maps keyed by their persistent id, so a relationship is the id of
    the related record. */
module Records {
  import opened Common

  /** A persistent model id, unique across all kinds of record. */
  type Id = nat

  /** The value of an `Author.id` UUID. */
  type Uuid = nat

  /** `Book`. `authors` is an implicitly unwrapped array that `init` makes `[]`, so it is a
      plain list here. */
  datatype Book = Book(added: Date, release: Option<Date>, title: string,
                       authors: seq<Id>, series: Option<Id>, seriesOrder: Option<int>)

  /** `Author`; `books` is the inverse of `Book.authors`. */
  datatype Author = Author(uuid: Uuid, lastName: string, firstName: string,
                           books: seq<Id>, expanded: bool)

  /** `Series`; `books` is the inverse of `Book.series`. */
  datatype Series = Series(name: string, books: seq<Id>, expanded: bool)

  /** `Book.init(title:release:)`, with `added` the clock reading `now`. */
  function NewBook(title: string, release: Option<Date>, now: Date): (b: Book)
    ensures Unlinked(b) && b.seriesOrder.None?
    ensures b.title == title && b.release == release
  {
    Book(now, release, title, [], None, None)
  }

  /** A record that refers to no other record. */
  predicate Unlinked(b: Book)
  {
    b.authors == [] && b.series.None?
  }

  /** `Author.init(lastName:firstName:)`; the first name defaults to "". */
  function NewAuthor(uuid: Uuid, lastName: string, firstName: string := ""): (a: Author)
    ensures a.books == [] && !a.expanded
    ensures a.lastName == lastName && a.firstName == firstName
  {
    Author(uuid, lastName, firstName, [], false)
  }

  /** `Series.init(name:)`. */
  function NewSeries(name: string): (s: Series)
    ensures s.books == [] && !s.expanded && s.name == name
  {
    Series(name, [], false)
  }

  /** `Author.name`: the display name "first last". */
  function Name(a: Author): string
  {
    a.firstName + " " + a.lastName
  }

  /** The display name is the first name, one space and the last name, so an author with
      no first name is shown with a leading space. */
  lemma NameParts(a: Author)
    ensures |Name(a)| == |a.firstName| + 1 + |a.lastName|
    ensures Name(a)[..|a.firstName|] == a.firstName && Name(a)[|a.firstName|] == ' '
    ensures Name(a)[|a.firstName| + 1..] == a.lastName
    ensures a.firstName == "" ==> Name(a) == " " + a.lastName && Name(a)[0] == ' '
  {
  }

  /** Different names can share a display name when a part holds a space: "Mary Ann" +
      "Lee" and "Mary" + "Ann Lee" are both shown as "Mary Ann Lee". */
  lemma NameNotInjective(u: Uuid)
    ensures var a := NewAuthor(u, "Lee", "Mary Ann");
            var b := NewAuthor(u, "Ann Lee", "Mary");
            Name(a) == Name(b) && a.lastName != b.lastName
  {
    assert "Mary Ann" + " " + "Lee" == "Mary" + " " + "Ann Lee";
  }

  // ------------------------------------------------------------ to-many lists

  /** The array after the store drops a related record: every occurrence goes. */
  function Remove(s: seq<Id>, x: Id): (r: seq<Id>)
    ensures forall y :: y in r <==> y in s && y != x
    ensures |r| <= |s|
  {
    if s == [] then [] else (if s[0] == x then [] else [s[0]]) + Remove(s[1..], x)
  }

  /** The array after the store relates a record: a to-many relationship holds each
      related record once, so it is appended only when absent. */
  function AddIfAbsent(s: seq<Id>, x: Id): (r: seq<Id>)
    ensures forall y :: y in r <==> y in s || y == x
    ensures s <= r && |r| <= |s| + 1
    ensures x in s ==> r == s
    ensures x !in s ==> r == s + [x]
  {
    if x in s then s else s + [x]
  }
}
