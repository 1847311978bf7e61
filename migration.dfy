/** The migration plan from schema V1 to schema V4: the V1->V2 `author` join, the V2->V3
    `sortAuthor` pass, and the V3->V4 snapshot-then-rebuild of the Book/Author/Series graph. */
module Migration {
  import opened Common
  import opened Text
  import opened Legacy

  // ------------------------------------------------------------ stage order

  datatype SchemaVersion = V1 | V2 | V3 | V4

  datatype Stage = Stage(from: SchemaVersion, to: SchemaVersion)

  /** `schemas`: the versions in the order they were introduced. */
  function Schemas(): seq<SchemaVersion>
  {
    [V1, V2, V3, V4]
  }

  /** `stages`: each stage leaves the version the previous one reached, so the three run
      strictly in the order V1->V2, V2->V3, V3->V4 and together lead from V1 to V4. */
  function Stages(): (st: seq<Stage>)
    ensures |st| == |Schemas()| - 1
    ensures forall i :: 0 <= i < |st| ==> st[i].from == Schemas()[i] && st[i].to == Schemas()[i + 1]
    ensures st[0].from == V1 && st[|st| - 1].to == V4
    ensures forall i :: 0 < i < |st| ==> st[i].from == st[i - 1].to
  {
    [Stage(V1, V2), Stage(V2, V3), Stage(V3, V4)]
  }

  // ---------------------------------------------------------------- V1 -> V2

  /** The `author` value `migrateV1toV2` derives from a V1 `authors` list. */
  function MigratedAuthor(authors: seq<string>): string
  {
    if authors == [] then "unknown"
    else if |authors| > 1 then FoldJoin(authors[0], authors[1..])
    else authors[0]
  }

  /** An empty list gives "unknown"; otherwise the names, in order, joined with ", ",
      which is the V1 `authorString` of the same list. */
  lemma {:induction false} MigratedAuthorIsJoin(authors: seq<string>)
    ensures authors == [] ==> MigratedAuthor(authors) == "unknown"
    ensures authors != [] ==> MigratedAuthor(authors) == Join(authors, ", ")
    ensures forall b: BookV1 :: b.authors == authors && authors != [] ==>
              MigratedAuthor(authors) == AuthorString(b)
  {
    if authors != [] {
      FoldJoinIsJoin(authors[0], authors[1..]);
      assert [authors[0]] + authors[1..] == authors;
      forall b: BookV1 | b.authors == authors
        ensures MigratedAuthor(authors) == AuthorString(b)
      {
        AuthorStringIsJoin(b);
      }
    }
  }

  /** `migrateV1toV2.didMigrate`: every fetched V2 book gets the joined `author`. */
  method MigrateV1toV2(books: seq<BookV2>)
    modifies books`author
    ensures forall b :: b in books ==> b.author == MigratedAuthor(b.authors)
    ensures forall b :: b in books ==> b.authors == old(b.authors) && b.title == old(b.title)
    ensures forall b :: b in books ==> b.series == old(b.series) && b.seriesOrder == old(b.seriesOrder)
    ensures forall b :: b in books ==> b.added == old(b.added) && b.estRelease == old(b.estRelease)
  {
    for i := 0 to |books|
      invariant forall j :: 0 <= j < i ==> books[j].author == MigratedAuthor(books[j].authors)
      invariant forall b :: b in books ==> b.authors == old(b.authors) && b.title == old(b.title)
      invariant forall b :: b in books ==> b.series == old(b.series) && b.seriesOrder == old(b.seriesOrder)
      invariant forall b :: b in books ==> b.added == old(b.added) && b.estRelease == old(b.estRelease)
    {
      var book := books[i];
      if book.authors == [] {
        book.author := "unknown";
      } else {
        book.author := book.authors[0];
        if |book.authors| > 1 {
          book.author := FoldJoin(book.author, book.authors[1..]);
        }
      }
    }
  }

  // ---------------------------------------------------------------- V2 -> V3

  /** `migrateV2toV3.didMigrate`: `setSortAuthor` on every fetched V3 book. A book fetched
      twice ends as if it had been visited once, because the pass is idempotent. */
  method MigrateV2toV3(books: seq<BookV3>)
    modifies books`sortAuthor
    ensures forall b :: b in books ==> b.sortAuthor == SortAuthorOf(b.author, old(b.sortAuthor))
    ensures forall b :: b in books ==> b.author == old(b.author) && b.title == old(b.title)
    ensures forall b :: b in books ==> b.series == old(b.series) && b.seriesOrder == old(b.seriesOrder)
    ensures forall b :: b in books ==> b.added == old(b.added) && b.estRelease == old(b.estRelease)
  {
    for i := 0 to |books|
      invariant forall b :: b in books ==> b.author == old(b.author) && b.title == old(b.title)
      invariant forall b :: b in books ==> b.series == old(b.series) && b.seriesOrder == old(b.seriesOrder)
      invariant forall b :: b in books ==> b.added == old(b.added) && b.estRelease == old(b.estRelease)
      invariant forall b :: b in books[..i] ==> b.sortAuthor == SortAuthorOf(b.author, old(b.sortAuthor))
      invariant forall b :: b in books && b !in books[..i] ==> b.sortAuthor == old(b.sortAuthor)
    {
      var book := books[i];
      SortAuthorIdempotent(book.author, old(book.sortAuthor));
      book.SetSortAuthor();
      assert books[..i + 1] == books[..i] + [book];
    }
  }

  // ---------------------------------------------------------------- V3 -> V4

  type Id = nat

  /** What `didMigrate` reads from a saved V3 book. */
  datatype Snapshot = Snapshot(title: string, author: string, series: Option<string>, seriesOrder: Option<int>)

  /** The V4 records (`BookSchemaV4`); relationships are the ids of the related records, and
      an optional list stands for the source's optional arrays. */
  datatype BookV4 = BookV4(added: Date, release: Option<Date>, title: string,
                           authors: Option<seq<Id>>, series: Option<Id>, seriesOrder: Option<int>)
  datatype AuthorV4 = AuthorV4(lastName: string, firstName: string, books: Option<seq<Id>>)
  datatype SeriesV4 = SeriesV4(name: string, books: Option<seq<Id>>)

  /** The content of the V4 model context; `next` is the id the next inserted record gets. */
  datatype Graph = Graph(books: map<Id, BookV4>, authors: map<Id, AuthorV4>,
                         series: map<Id, SeriesV4>, next: Id)

  ghost predicate Fresh(g: Graph)
  {
    forall id :: (id in g.books || id in g.authors || id in g.series) ==> id < g.next
  }

  /** The fetched authors are stored and their `books` arrays are non-nil (the source
      force-unwraps them). */
  ghost predicate ReusableAuthors(g: Graph, fetched: seq<Id>)
  {
    forall k :: 0 <= k < |fetched| ==> fetched[k] in g.authors && g.authors[fetched[k]].books.Some?
  }

  ghost predicate ReusableSeries(g: Graph, fetched: seq<Id>)
  {
    forall k :: 0 <= k < |fetched| ==> fetched[k] in g.series && g.series[fetched[k]].books.Some?
  }

  /** The index of the first snapshot with the given title: `v3Books.first(where:)`. */
  function FirstSnapshot(v3: seq<Snapshot>, title: string): (r: Option<nat>)
    ensures r.Some? ==> r.value < |v3| && v3[r.value].title == title
    ensures r.Some? ==> forall j :: 0 <= j < r.value ==> v3[j].title != title
    ensures r.None? ==> forall j :: 0 <= j < |v3| ==> v3[j].title != title
  {
    if v3 == [] then None
    else if v3[0].title == title then Some(0)
    else match FirstSnapshot(v3[1..], title)
      case None => None
      case Some(i) => Some(i + 1)
  }

  datatype Name = Name(last: string, first: string)

  /** The (lastName, firstName) pair `v4Authors` reads from one comma segment. */
  function ParseName(segment: string): (n: Name)
  {
    var components := Words(segment);
    if |components| == 1 then Name(components[0], "")
    else if |components| >= 1 then
      Name(components[|components| - 1], Join(components[..|components| - 1], " "))
    else Name("Unknown", "")
  }

  /** One word is a last name alone; more words give the final word as last name and the
      others, joined by one space, as first name. */
  lemma {:induction false} ParseNameOfWords(ws: seq<string>)
    requires |ws| > 0 && Pieces(ws, ' ')
    ensures ParseName(Join(ws, " ")) == Name(ws[|ws| - 1], Join(ws[..|ws| - 1], " "))
    ensures |ws| == 1 ==> ParseName(ws[0]) == Name(ws[0], "")
  {
    SplitJoin(ws, ' ');
  }

  /** A segment of spaces only is read as ("Unknown", ""). */
  lemma {:induction false} ParseNameOfBlank(segment: string)
    requires forall i :: 0 <= i < |segment| ==> segment[i] == ' '
    ensures ParseName(segment) == Name("Unknown", "")
  {
    SplitOnlySeparators(segment, ' ');
  }

  /** The V3 sort key of a name and the V4 author parsed from it agree. */
  lemma ParseNameMatchesSortForm(segment: string)
    requires Words(segment) != []
    ensures SortForm(segment) == ParseName(segment).last + ", " + ParseName(segment).first
  {
  }

  /** The names `v4Authors` reads from a V3 author string, one per non-empty comma segment. */
  function NamesOf(author: string): (ns: seq<Name>)
    ensures |ns| == |Split(author, ',')|
  {
    var segs := Split(author, ',');
    seq(|segs|, i requires 0 <= i < |segs| => ParseName(segs[i]))
  }

  ghost predicate NamedAs(authors: map<Id, AuthorV4>, id: Id, n: Name)
  {
    id in authors && authors[id].lastName == n.last && authors[id].firstName == n.first
  }

  /** `authors.first(where:)` over the authors fetched once at the start of `didMigrate`:
      the position of the first one named exactly `n`. */
  function FindAuthor(fetched: seq<Id>, authors: map<Id, AuthorV4>, n: Name): (r: Option<nat>)
    ensures r.Some? ==> r.value < |fetched| && NamedAs(authors, fetched[r.value], n)
    ensures r.Some? ==> forall j :: 0 <= j < r.value ==> !NamedAs(authors, fetched[j], n)
    ensures r.None? ==> forall k :: 0 <= k < |fetched| ==> !NamedAs(authors, fetched[k], n)
  {
    if fetched == [] then None
    else if fetched[0] in authors && authors[fetched[0]].lastName == n.last
            && authors[fetched[0]].firstName == n.first then Some(0)
    else match FindAuthor(fetched[1..], authors, n)
      case None => None
      case Some(i) => Some(i + 1)
  }

  /** The lookup reads only the names of the fetched authors. */
  lemma {:induction false} FindAuthorSameNames(fetched: seq<Id>, a1: map<Id, AuthorV4>, a2: map<Id, AuthorV4>, n: Name)
    requires forall k :: 0 <= k < |fetched| ==>
               (fetched[k] in a1 && fetched[k] in a2 &&
                a1[fetched[k]].lastName == a2[fetched[k]].lastName &&
                a1[fetched[k]].firstName == a2[fetched[k]].firstName)
    ensures FindAuthor(fetched, a1, n) == FindAuthor(fetched, a2, n)
    decreases |fetched|
  {
    if fetched != [] {
      FindAuthorSameNames(fetched[1..], a1, a2, n);
    }
  }

  /** The series lookup of `v4Series`, by exact name, over the series fetched once. */
  function FindSeries(fetched: seq<Id>, series: map<Id, SeriesV4>, name: string): (r: Option<nat>)
    ensures r.Some? ==> r.value < |fetched| && fetched[r.value] in series && series[fetched[r.value]].name == name
    ensures r.Some? ==> forall j :: 0 <= j < r.value && fetched[j] in series ==> series[fetched[j]].name != name
    ensures r.None? ==> forall k :: 0 <= k < |fetched| && fetched[k] in series ==> series[fetched[k]].name != name
  {
    if fetched == [] then None
    else if fetched[0] in series && series[fetched[0]].name == name then Some(0)
    else match FindSeries(fetched[1..], series, name)
      case None => None
      case Some(i) => Some(i + 1)
  }

  ghost predicate Attachable(g: Graph, book: Id, fetched: seq<Id>)
  {
    book in g.books && g.books[book].authors.Some? && ReusableAuthors(g, fetched)
  }

  /** Every stored author stays stored under the same name, and a non-nil `books` array only
      grows at its end. */
  ghost predicate KeepsAuthors(g: Graph, r: Graph)
  {
    forall a :: a in g.authors ==>
      (a in r.authors && r.authors[a].lastName == g.authors[a].lastName &&
       r.authors[a].firstName == g.authors[a].firstName &&
       (g.authors[a].books.Some? ==> r.authors[a].books.Some? && g.authors[a].books.value <= r.authors[a].books.value))
  }

  /** A pass on `book` keeps the series, the set of books and every other book, only
      appends to the book's authors, and does not reuse ids. */
  ghost predicate KeepsOthers(g: Graph, r: Graph, book: Id)
    requires Attachable(g, book, []) && Attachable(r, book, [])
  {
    r.books.Keys == g.books.Keys && g.next <= r.next && r.series == g.series &&
    r.books[book].(authors := g.books[book].authors) == g.books[book] &&
    g.books[book].authors.value <= r.books[book].authors.value &&
    forall b :: b in g.books && b != book ==> r.books[b] == g.books[b]
  }

  lemma PrefixTrans<T>(s: seq<T>, t: seq<T>, u: seq<T>)
    requires s <= t && t <= u
    ensures s <= u
  {
    assert u[..|s|] == t[..|s|];
  }

  lemma InPrefix<T>(x: T, s: seq<T>, t: seq<T>)
    requires x in s && s <= t
    ensures x in t
  {
    var i :| 0 <= i < |s| && s[i] == x;
    assert t[i] == x;
  }

  lemma KeepsTrans(g: Graph, g1: Graph, r: Graph, book: Id)
    requires Attachable(g, book, []) && Attachable(g1, book, []) && Attachable(r, book, [])
    requires KeepsAuthors(g, g1) && KeepsAuthors(g1, r)
    requires KeepsOthers(g, g1, book) && KeepsOthers(g1, r, book)
    ensures KeepsAuthors(g, r) && KeepsOthers(g, r, book)
  {
    forall a | a in g.authors && g.authors[a].books.Some?
      ensures g.authors[a].books.value <= r.authors[a].books.value
    {
      PrefixTrans(g.authors[a].books.value, g1.authors[a].books.value, r.authors[a].books.value);
    }
    PrefixTrans(g.books[book].authors.value, g1.books[book].authors.value, r.books[book].authors.value);
  }

  /** The author a name resolves to in one pass of `v4Authors`: the first fetched author
      with that exact name, else the record about to be inserted. */
  function AuthorFor(g: Graph, n: Name, fetched: seq<Id>): Id
  {
    match FindAuthor(fetched, g.authors, n)
    case Some(i) => fetched[i]
    case None => g.next
  }

  /** One pass of the loop body of `v4Authors`: reuse or insert the author, then append it
      to the book and the book to it. */
  function AttachAuthor(g: Graph, book: Id, n: Name, fetched: seq<Id>): (r: Graph)
    requires Attachable(g, book, fetched) && Fresh(g)
    ensures Attachable(r, book, fetched) && Fresh(r)
  {
    var b := g.books[book];
    match FindAuthor(fetched, g.authors, n)
    case Some(i) =>
      var a := fetched[i];
      var author := g.authors[a];
      g.(books := g.books[book := b.(authors := Some(b.authors.value + [a]))],
         authors := g.authors[a := author.(books := Some(author.books.value + [book]))])
    case None =>
      var a := g.next;
      var author := AuthorV4(n.last, n.first, Some([]));
      g.(books := g.books[book := b.(authors := Some(b.authors.value + [a]))],
         authors := g.authors[a := author.(books := Some(author.books.value + [book]))],
         next := g.next + 1)
  }

  /** One pass appends the resolved author to the book, gives that author the name and the
      book, creates it exactly when no fetched author has the name, and changes nothing
      else. */
  lemma AttachAuthorStep(g: Graph, book: Id, n: Name, fetched: seq<Id>)
    requires Attachable(g, book, fetched) && Fresh(g)
    ensures var r := AttachAuthor(g, book, n, fetched);
            var id := AuthorFor(g, n, fetched);
            Attachable(r, book, []) && Attachable(g, book, []) &&
            KeepsAuthors(g, r) && KeepsOthers(g, r, book) &&
            r.books[book].authors.value == g.books[book].authors.value + [id] &&
            NamedAs(r.authors, id, n) && r.authors[id].books.Some? && book in r.authors[id].books.value &&
            (FindAuthor(fetched, g.authors, n).None? ==> r.next == g.next + 1)
  {
  }

  /** The loop of `v4Authors` over the names of a V3 author string, as a left fold. */
  function AttachAuthors(g: Graph, book: Id, names: seq<Name>, fetched: seq<Id>): (r: Graph)
    requires Attachable(g, book, fetched) && Fresh(g)
    ensures Attachable(r, book, fetched) && Fresh(r)
    decreases |names|
  {
    if names == [] then g
    else AttachAuthor(AttachAuthors(g, book, names[..|names| - 1], fetched), book, names[|names| - 1], fetched)
  }

  /** The whole loop keeps every stored author and every other part of the graph. */
  lemma {:induction false} AttachAuthorsKeeps(g: Graph, book: Id, names: seq<Name>, fetched: seq<Id>)
    requires Attachable(g, book, fetched) && Fresh(g)
    ensures var r := AttachAuthors(g, book, names, fetched);
            Attachable(r, book, []) && Attachable(g, book, []) && KeepsAuthors(g, r) && KeepsOthers(g, r, book)
    decreases |names|
  {
    if names != [] {
      var m := |names| - 1;
      var g1 := AttachAuthors(g, book, names[..m], fetched);
      AttachAuthorsKeeps(g, book, names[..m], fetched);
      AttachAuthorStep(g1, book, names[m], fetched);
      KeepsTrans(g, g1, AttachAuthors(g, book, names, fetched), book);
    }
  }

  /** What `v4Authors` promises of the author `id` it appended for the name `n`: it carries
      that name and lists the book, and it is the first fetched author with exactly that
      name, or, when there is none, an author that was not stored before. */
  ghost predicate Attached(g: Graph, r: Graph, book: Id, fetched: seq<Id>, n: Name, id: Id)
  {
    NamedAs(r.authors, id, n) && r.authors[id].books.Some? && book in r.authors[id].books.value &&
    match FindAuthor(fetched, g.authors, n)
    case Some(i) => id == fetched[i]
    case None => id !in g.authors && g.next <= id
  }

  /** A later pass keeps what an earlier pass promised of the author it appended. */
  lemma AttachedKept(g: Graph, g1: Graph, r: Graph, book: Id, fetched: seq<Id>, n: Name, id: Id)
    requires Attached(g, g1, book, fetched, n, id) && KeepsAuthors(g1, r)
    ensures Attached(g, r, book, fetched, n, id)
  {
    InPrefix(book, g1.authors[id].books.value, r.authors[id].books.value);
  }

  /** The author appended by the pass after `g1` resolves as it would against `g`, because
      the passes before it only add authors and keep the names of the fetched ones. */
  lemma AttachedLast(g: Graph, g1: Graph, book: Id, fetched: seq<Id>, n: Name)
    requires ReusableAuthors(g, fetched) && Attachable(g1, book, fetched) && Fresh(g1)
    requires KeepsAuthors(g, g1) && g.next <= g1.next
    ensures Attached(g, AttachAuthor(g1, book, n, fetched), book, fetched, n, AuthorFor(g1, n, fetched))
  {
    AttachAuthorStep(g1, book, n, fetched);
    FindAuthorSameNames(fetched, g.authors, g1.authors, n);
  }

  /** The authors appended for `names` sit, in order, after the book's authors in `g`. */
  ghost predicate AttachedAll(g: Graph, r: Graph, book: Id, fetched: seq<Id>, names: seq<Name>)
    requires Attachable(g, book, []) && Attachable(r, book, [])
  {
    var was := g.books[book].authors.value;
    var now := r.books[book].authors.value;
    |now| == |was| + |names| &&
    forall k :: 0 <= k < |names| ==> Attached(g, r, book, fetched, names[k], now[|was| + k])
  }

  /** Extending `AttachedAll` by one pass that appends `id` for the name `n`. */
  lemma AttachedAllSnoc(g: Graph, g1: Graph, r: Graph, book: Id, fetched: seq<Id>, names: seq<Name>, n: Name, id: Id)
    requires Attachable(g, book, []) && Attachable(g1, book, []) && Attachable(r, book, [])
    requires AttachedAll(g, g1, book, fetched, names) && KeepsAuthors(g1, r)
    requires r.books[book].authors.value == g1.books[book].authors.value + [id]
    requires Attached(g, r, book, fetched, n, id)
    ensures AttachedAll(g, r, book, fetched, names + [n])
  {
    var was := g.books[book].authors.value;
    var mid := g1.books[book].authors.value;
    var now := r.books[book].authors.value;
    var all := names + [n];
    forall k | 0 <= k < |all|
      ensures Attached(g, r, book, fetched, all[k], now[|was| + k])
    {
      if k < |names| {
        AttachedKept(g, g1, r, book, fetched, names[k], mid[|was| + k]);
      }
    }
  }

  /** `v4Authors` appends exactly one author per name, in the order of the names, after the
      book's earlier authors. */
  lemma {:induction false} AttachAuthorsSpec(g: Graph, book: Id, names: seq<Name>, fetched: seq<Id>)
    requires Attachable(g, book, fetched) && Fresh(g)
    ensures Attachable(g, book, []) && Attachable(AttachAuthors(g, book, names, fetched), book, [])
    ensures AttachedAll(g, AttachAuthors(g, book, names, fetched), book, fetched, names)
    decreases |names|
  {
    if names != [] {
      var m := |names| - 1;
      assert names[..m] + [names[m]] == names;
      var g1 := AttachAuthors(g, book, names[..m], fetched);
      var r := AttachAuthors(g, book, names, fetched);
      AttachAuthorsSpec(g, book, names[..m], fetched);
      AttachAuthorsKeeps(g, book, names[..m], fetched);
      AttachAuthorStep(g1, book, names[m], fetched);
      AttachedLast(g, g1, book, fetched, names[m]);
      AttachedAllSnoc(g, g1, r, book, fetched, names[..m], names[m], AuthorFor(g1, names[m], fetched));
    }
  }

  /** The V4 author table is new when this stage runs, so nothing is fetched: then every
      name becomes a new author, numbered in order, even a name that repeats, since reuse
      never sees the authors this pass itself created. */
  lemma {:induction false} NoFetchedAuthorsAllNew(g: Graph, book: Id, names: seq<Name>)
    requires Attachable(g, book, []) && Fresh(g)
    ensures var r := AttachAuthors(g, book, names, []);
            var was := g.books[book].authors.value;
            var now := r.books[book].authors.value;
            |now| == |was| + |names| && r.next == g.next + |names| &&
            forall k :: |was| <= k < |now| ==> now[k] == g.next + (k - |was|)
    decreases |names|
  {
    if names != [] {
      var m := |names| - 1;
      var g1 := AttachAuthors(g, book, names[..m], []);
      NoFetchedAuthorsAllNew(g, book, names[..m]);
      AttachAuthorStep(g1, book, names[m], []);
      var was := g.books[book].authors.value;
      var mid := g1.books[book].authors.value;
      var r := AttachAuthors(g, book, names, []);
      assert r == AttachAuthor(g1, book, names[m], []);
      var now := r.books[book].authors.value;
      assert now == mid + [g1.next];
      forall k | |was| <= k < |now|
        ensures now[k] == g.next + (k - |was|)
      {
        if k < |mid| {
          assert now[k] == mid[k];
        }
      }
    }
  }

  /** Normalise a nil `authors` array to `[]`. */
  function WithAuthors(g: Graph, book: Id): (r: Graph)
    requires book in g.books
    ensures r.books.Keys == g.books.Keys && r.books[book].authors.Some?
    ensures r.books[book].authors.value == g.books[book].authors.GetOr([])
    ensures r.books[book].(authors := g.books[book].authors) == g.books[book]
    ensures r.authors == g.authors && r.series == g.series && r.next == g.next
  {
    var b := g.books[book];
    if b.authors.None? then g.(books := g.books[book := b.(authors := Some([]))]) else g
  }

  /** `v4Authors`: the first snapshot with the book's title, if any, supplies the names. */
  function V4Authors(g: Graph, book: Id, fetched: seq<Id>, v3: seq<Snapshot>): (r: Graph)
    requires book in g.books && ReusableAuthors(g, fetched) && Fresh(g)
    ensures Attachable(r, book, fetched) && Fresh(r)
    ensures r.books.Keys == g.books.Keys && r.series == g.series
  {
    var g1 := WithAuthors(g, book);
    match FirstSnapshot(v3, g.books[book].title)
    case None => g1
    case Some(i) =>
      AttachAuthorsKeeps(g1, book, NamesOf(v3[i].author), fetched);
      AttachAuthors(g1, book, NamesOf(v3[i].author), fetched)
  }

  /** A book with no snapshot of its title keeps its authors, a nil array read as `[]`;
      with one, its authors are followed by exactly one author per name of the first
      snapshot with that title, as `AttachAuthorsSpec` describes. Its title and
      `seriesOrder` are kept either way. */
  lemma V4AuthorsSpec(g: Graph, book: Id, fetched: seq<Id>, v3: seq<Snapshot>)
    requires book in g.books && ReusableAuthors(g, fetched) && Fresh(g)
    ensures var r := V4Authors(g, book, fetched, v3);
            var was := g.books[book].authors.GetOr([]);
            var now := r.books[book].authors.value;
            r.books[book].title == g.books[book].title &&
            r.books[book].seriesOrder == g.books[book].seriesOrder &&
            match FirstSnapshot(v3, g.books[book].title)
            case None => now == was && r.authors == g.authors
            case Some(i) =>
              var names := NamesOf(v3[i].author);
              |now| == |was| + |names| && now[..|was|] == was &&
              forall k :: 0 <= k < |names| ==> Attached(g, r, book, fetched, names[k], now[|was| + k])
  {
    var g1 := WithAuthors(g, book);
    match FirstSnapshot(v3, g.books[book].title)
    case None =>
    case Some(i) =>
      var names := NamesOf(v3[i].author);
      AttachAuthorsSpec(g1, book, names, fetched);
      AttachAuthorsKeeps(g1, book, names, fetched);
      var r := AttachAuthors(g1, book, names, fetched);
      assert V4Authors(g, book, fetched, v3) == r;
      AttachedSameAuthors(g, g1, r, book, fetched, names);
  }

  /** `Attached` reads only the authors and the next id of the graph before the pass. */
  lemma AttachedSameAuthors(g: Graph, g1: Graph, r: Graph, book: Id, fetched: seq<Id>, names: seq<Name>)
    requires book in g.books && Attachable(g1, book, []) && Attachable(r, book, [])
    requires g1.authors == g.authors && g1.next == g.next
    requires g1.books[book].authors.value == g.books[book].authors.GetOr([])
    requires AttachedAll(g1, r, book, fetched, names)
    ensures var was := g.books[book].authors.GetOr([]);
            var now := r.books[book].authors.value;
            |now| == |was| + |names| &&
            forall k :: 0 <= k < |names| ==> Attached(g, r, book, fetched, names[k], now[|was| + k])
  {
    var was := g.books[book].authors.GetOr([]);
    var now := r.books[book].authors.value;
    forall k | 0 <= k < |names|
      ensures Attached(g, r, book, fetched, names[k], now[|was| + k])
    {
      assert Attached(g1, r, book, fetched, names[k], now[|was| + k]);
    }
  }

  /** The series a name resolves to in `v4Series`: the first fetched series with that exact
      name, else the record about to be inserted. */
  function SeriesFor(g: Graph, name: string, fetched: seq<Id>): Id
  {
    match FindSeries(fetched, g.series, name)
    case Some(j) => fetched[j]
    case None => g.next
  }

  /** `v4Series`: when the first snapshot with the book's title names a series, reuse or
      insert it, set `book.series` and append the book to the series; `seriesOrder` is not
      touched. */
  function V4Series(g: Graph, book: Id, fetched: seq<Id>, v3: seq<Snapshot>): (r: Graph)
    requires book in g.books && ReusableSeries(g, fetched) && Fresh(g)
    ensures Fresh(r) && ReusableSeries(r, fetched) && r.books.Keys == g.books.Keys && r.authors == g.authors
  {
    var b := g.books[book];
    match FirstSnapshot(v3, b.title)
    case None => g
    case Some(i) =>
      match v3[i].series
      case None => g
      case Some(name) =>
        match FindSeries(fetched, g.series, name)
        case Some(j) =>
          var s := fetched[j];
          g.(books := g.books[book := b.(series := Some(s))],
             series := g.series[s := g.series[s].(books := Some(g.series[s].books.value + [book]))])
        case None =>
          var s := g.next;
          var created := SeriesV4(name, Some([]));
          g.(books := g.books[book := b.(series := Some(s))],
             series := g.series[s := created.(books := Some(created.books.value + [book]))],
             next := g.next + 1)
  }

  /** A series is attached exactly when the first snapshot with the book's title carries a
      series name; it has that name, it is the first fetched series of that name if there
      is one and a series not stored before otherwise, and it lists the book. */
  lemma V4SeriesSpec(g: Graph, book: Id, fetched: seq<Id>, v3: seq<Snapshot>)
    requires book in g.books && ReusableSeries(g, fetched) && Fresh(g)
    ensures var r := V4Series(g, book, fetched, v3);
            var i := FirstSnapshot(v3, g.books[book].title);
            if i.Some? && v3[i.value].series.Some? then
              var name := v3[i.value].series.value;
              var s := SeriesFor(g, name, fetched);
              r.books[book].series == Some(s) && s in r.series && r.series[s].name == name &&
              r.series[s].books.Some? && book in r.series[s].books.value &&
              (FindSeries(fetched, g.series, name).None? ==> s !in g.series) &&
              r.books[book] == g.books[book].(series := Some(s)) &&
              (forall b :: b in g.books && b != book ==> r.books[b] == g.books[b]) &&
              (forall x :: x in g.series && x != s ==> x in r.series && r.series[x] == g.series[x])
            else r == g
  {
  }

  /** The body of the loop of `didMigrate` for one book: `v4Series` runs only when the
      book's `seriesOrder` is not nil. */
  function MigrateBook(g: Graph, book: Id, fetchedAuthors: seq<Id>, fetchedSeries: seq<Id>,
                       v3: seq<Snapshot>): (r: Graph)
    requires book in g.books
    requires ReusableAuthors(g, fetchedAuthors) && ReusableSeries(g, fetchedSeries) && Fresh(g)
    ensures r.books.Keys == g.books.Keys && Fresh(r)
    ensures ReusableAuthors(r, fetchedAuthors) && ReusableSeries(r, fetchedSeries)
  {
    var g2 := V4Authors(g, book, fetchedAuthors, v3);
    if g2.books[book].seriesOrder.Some? then V4Series(g2, book, fetchedSeries, v3) else g2
  }

  /** The loop of `didMigrate` over the fetched V4 books, as a left fold. */
  function MigrateBooks(g: Graph, books: seq<Id>, fetchedAuthors: seq<Id>, fetchedSeries: seq<Id>,
                        v3: seq<Snapshot>): (r: Graph)
    requires forall k :: 0 <= k < |books| ==> books[k] in g.books
    requires ReusableAuthors(g, fetchedAuthors) && ReusableSeries(g, fetchedSeries) && Fresh(g)
    ensures r.books.Keys == g.books.Keys && Fresh(r)
    ensures ReusableAuthors(r, fetchedAuthors) && ReusableSeries(r, fetchedSeries)
    decreases |books|
  {
    if books == [] then g
    else
      var g1 := MigrateBooks(g, books[..|books| - 1], fetchedAuthors, fetchedSeries, v3);
      MigrateBook(g1, books[|books| - 1], fetchedAuthors, fetchedSeries, v3)
  }

  /** The author `id` carries the name `n` and lists the book `b`. */
  ghost predicate ListsBookAs(r: Graph, b: Id, id: Id, n: Name)
  {
    NamedAs(r.authors, id, n) && r.authors[id].books.Some? && b in r.authors[id].books.value
  }

  /** Every stored series stays stored under the same name, and a non-nil `books` array only
      grows at its end. */
  ghost predicate KeepsSeries(g: Graph, r: Graph)
  {
    forall x :: x in g.series ==>
      (x in r.series && r.series[x].name == g.series[x].name &&
       (g.series[x].books.Some? ==> r.series[x].books.Some? && g.series[x].books.value <= r.series[x].books.value))
  }

  /** The series of the book `b` in `r` is what the snapshot `snap` asks for: the series it
      names, listing the book, when the book has a `seriesOrder`; the series of `g` otherwise. */
  ghost predicate SeriesApplied(g: Graph, r: Graph, b: Id, snap: Snapshot)
    requires b in g.books && b in r.books
  {
    if g.books[b].seriesOrder.Some? && snap.series.Some? then
      r.books[b].series.Some? && var x := r.books[b].series.value;
      x in r.series && r.series[x].name == snap.series.value &&
      r.series[x].books.Some? && b in r.series[x].books.value
    else r.books[b].series == g.books[b].series
  }

  /** The book `b` is in both graphs, with a non-nil authors array in `r`, and keeps its
      title and order. */
  ghost predicate TitleAndOrderKept(g: Graph, r: Graph, b: Id)
  {
    b in g.books && b in r.books && r.books[b].authors.Some? &&
    r.books[b].title == g.books[b].title && r.books[b].seriesOrder == g.books[b].seriesOrder
  }

  /** The authors of `b` in `r` are those of `g`, followed, when a snapshot has its title,
      by one author per name of the first such snapshot, each carrying that name and listing
      the book. */
  ghost predicate AuthorsApplied(g: Graph, r: Graph, b: Id, v3: seq<Snapshot>)
    requires b in g.books && b in r.books && r.books[b].authors.Some?
  {
    var was := g.books[b].authors.GetOr([]);
    var now := r.books[b].authors.value;
    match FirstSnapshot(v3, g.books[b].title)
    case None => now == was
    case Some(i) =>
      var names := NamesOf(v3[i].author);
      |now| == |was| + |names| && now[..|was|] == was &&
      forall k :: 0 <= k < |names| ==> ListsBookAs(r, b, now[|was| + k], names[k])
  }

  /** The series of `b` in `r` is what the first snapshot with its title asks for, and that
      of `g` when there is no such snapshot. */
  ghost predicate SeriesFollows(g: Graph, r: Graph, b: Id, v3: seq<Snapshot>)
    requires b in g.books && b in r.books
  {
    match FirstSnapshot(v3, g.books[b].title)
    case None => r.books[b].series == g.books[b].series
    case Some(i) => SeriesApplied(g, r, b, v3[i])
  }

  /** The book `b` in `r` is the book of `g` rebuilt from the first snapshot with its title:
      title and order kept, one author per name of the snapshot appended, each carrying that
      name and listing the book, and the series the snapshot names. With no such snapshot,
      authors and series stay. */
  ghost predicate SnapshotApplied(g: Graph, r: Graph, b: Id, v3: seq<Snapshot>)
  {
    TitleAndOrderKept(g, r, b) && AuthorsApplied(g, r, b, v3) && SeriesFollows(g, r, b, v3)
  }

  /** A pass of `v4Authors` keeps the stored authors, the series and every other book. */
  lemma V4AuthorsFrame(g: Graph, book: Id, fetched: seq<Id>, v3: seq<Snapshot>)
    requires book in g.books && ReusableAuthors(g, fetched) && Fresh(g)
    ensures var r := V4Authors(g, book, fetched, v3);
            KeepsAuthors(g, r) && r.series == g.series &&
            r.books[book].(authors := g.books[book].authors) == g.books[book] &&
            forall b :: b in g.books && b != book ==> r.books[b] == g.books[b]
  {
    var g1 := WithAuthors(g, book);
    match FirstSnapshot(v3, g.books[book].title)
    case None =>
    case Some(i) =>
      AttachAuthorsKeeps(g1, book, NamesOf(v3[i].author), fetched);
  }

  /** A pass of `v4Series` keeps the authors, the stored series and every other book. */
  lemma V4SeriesFrame(g: Graph, book: Id, fetched: seq<Id>, v3: seq<Snapshot>)
    requires book in g.books && ReusableSeries(g, fetched) && Fresh(g)
    ensures var r := V4Series(g, book, fetched, v3);
            KeepsSeries(g, r) && r.authors == g.authors &&
            forall b :: b in g.books && b != book ==> r.books[b] == g.books[b]
  {
    V4SeriesSpec(g, book, fetched, v3);
  }

  /** One pass of the loop keeps the stored authors, the stored series and every other book. */
  lemma MigrateBookFrame(g: Graph, book: Id, fetchedAuthors: seq<Id>, fetchedSeries: seq<Id>, v3: seq<Snapshot>)
    requires book in g.books
    requires ReusableAuthors(g, fetchedAuthors) && ReusableSeries(g, fetchedSeries) && Fresh(g)
    ensures var r := MigrateBook(g, book, fetchedAuthors, fetchedSeries, v3);
            KeepsAuthors(g, r) && KeepsSeries(g, r) &&
            forall b :: b in g.books && b != book ==> r.books[b] == g.books[b]
  {
    var g2 := V4Authors(g, book, fetchedAuthors, v3);
    V4AuthorsFrame(g, book, fetchedAuthors, v3);
    if g2.books[book].seriesOrder.Some? {
      V4SeriesFrame(g2, book, fetchedSeries, v3);
    }
  }

  /** One pass of the loop rebuilds its book from the first snapshot with its title. */
  lemma MigrateBookApplied(g: Graph, book: Id, fetchedAuthors: seq<Id>, fetchedSeries: seq<Id>, v3: seq<Snapshot>)
    requires book in g.books
    requires ReusableAuthors(g, fetchedAuthors) && ReusableSeries(g, fetchedSeries) && Fresh(g)
    ensures SnapshotApplied(g, MigrateBook(g, book, fetchedAuthors, fetchedSeries, v3), book, v3)
  {
    var g2 := V4Authors(g, book, fetchedAuthors, v3);
    var r := MigrateBook(g, book, fetchedAuthors, fetchedSeries, v3);
    V4AuthorsApplied(g, book, fetchedAuthors, v3);
    V4AuthorsFrame(g, book, fetchedAuthors, v3);
    if g2.books[book].seriesOrder.Some? {
      V4SeriesSpec(g2, book, fetchedSeries, v3);
      V4SeriesFrame(g2, book, fetchedSeries, v3);
      AuthorsAppliedSame(g, g2, r, book, v3);
    }
    assert g2.books[book].series == g.books[book].series;
    assert SeriesFollows(g, r, book, v3);
  }

  /** After `v4Authors` the book's authors are rebuilt from the snapshot. */
  lemma V4AuthorsApplied(g: Graph, book: Id, fetched: seq<Id>, v3: seq<Snapshot>)
    requires book in g.books && ReusableAuthors(g, fetched) && Fresh(g)
    ensures var r := V4Authors(g, book, fetched, v3);
            TitleAndOrderKept(g, r, book) && AuthorsApplied(g, r, book, v3)
  {
    V4AuthorsSpec(g, book, fetched, v3);
    AttachedApplied(g, V4Authors(g, book, fetched, v3), book, fetched, v3);
  }

  /** The outcome `V4AuthorsSpec` describes is the book's part of `SnapshotApplied`. */
  lemma AttachedApplied(g: Graph, r: Graph, book: Id, fetched: seq<Id>, v3: seq<Snapshot>)
    requires book in g.books && book in r.books && r.books[book].authors.Some?
    requires var was := g.books[book].authors.GetOr([]);
             var now := r.books[book].authors.value;
             r.books[book].title == g.books[book].title &&
             r.books[book].seriesOrder == g.books[book].seriesOrder &&
             match FirstSnapshot(v3, g.books[book].title)
             case None => now == was
             case Some(i) =>
               var names := NamesOf(v3[i].author);
               |now| == |was| + |names| && now[..|was|] == was &&
               forall k :: 0 <= k < |names| ==> Attached(g, r, book, fetched, names[k], now[|was| + k])
    ensures TitleAndOrderKept(g, r, book) && AuthorsApplied(g, r, book, v3)
  {
    match FirstSnapshot(v3, g.books[book].title)
    case None =>
    case Some(i) =>
      var was := g.books[book].authors.GetOr([]);
      var now := r.books[book].authors.value;
      AttachedLists(g, r, book, fetched, NamesOf(v3[i].author), was, now);
  }

  /** An appended author that `Attached` describes carries its name and lists the book. */
  lemma AttachedLists(g: Graph, r: Graph, book: Id, fetched: seq<Id>, names: seq<Name>, was: seq<Id>, now: seq<Id>)
    requires |now| == |was| + |names|
    requires forall k :: 0 <= k < |names| ==> Attached(g, r, book, fetched, names[k], now[|was| + k])
    ensures forall k :: 0 <= k < |names| ==> ListsBookAs(r, book, now[|was| + k], names[k])
  {
    forall k | 0 <= k < |names|
      ensures ListsBookAs(r, book, now[|was| + k], names[k])
    {
      assert Attached(g, r, book, fetched, names[k], now[|was| + k]);
    }
  }

  /** `AuthorsApplied` reads only the book's authors array and the author records. */
  lemma AuthorsAppliedSame(g: Graph, r1: Graph, r2: Graph, b: Id, v3: seq<Snapshot>)
    requires b in g.books && b in r1.books && b in r2.books && r1.books[b].authors.Some?
    requires r2.books[b].authors == r1.books[b].authors && r2.authors == r1.authors
    requires AuthorsApplied(g, r1, b, v3)
    ensures AuthorsApplied(g, r2, b, v3)
  {
    match FirstSnapshot(v3, g.books[b].title)
    case None =>
    case Some(i) =>
      var was := g.books[b].authors.GetOr([]);
      var now := r1.books[b].authors.value;
      var names := NamesOf(v3[i].author);
      forall k | 0 <= k < |names|
        ensures ListsBookAs(r2, b, now[|was| + k], names[k])
      {
        assert ListsBookAs(r1, b, now[|was| + k], names[k]);
      }
  }

  /** What one pass promised of its book survives a later pass on another book. */
  lemma AppliedKept(g: Graph, r1: Graph, r2: Graph, b: Id, v3: seq<Snapshot>)
    requires SnapshotApplied(g, r1, b, v3) && b in r2.books && r2.books[b] == r1.books[b]
    requires KeepsAuthors(r1, r2) && KeepsSeries(r1, r2)
    ensures SnapshotApplied(g, r2, b, v3)
  {
    match FirstSnapshot(v3, g.books[b].title)
    case None =>
    case Some(i) =>
      var was := g.books[b].authors.GetOr([]);
      var now := r1.books[b].authors.value;
      var names := NamesOf(v3[i].author);
      forall k | 0 <= k < |names|
        ensures ListsBookAs(r2, b, now[|was| + k], names[k])
      {
        var id := now[|was| + k];
        assert ListsBookAs(r1, b, id, names[k]);
        InPrefix(b, r1.authors[id].books.value, r2.authors[id].books.value);
      }
      if g.books[b].seriesOrder.Some? && v3[i].series.Some? {
        var x := r1.books[b].series.value;
        InPrefix(b, r1.series[x].books.value, r2.series[x].books.value);
      }
  }

  /** `SnapshotApplied` reads only the book's own record in the graph before. */
  lemma AppliedSameBook(g1: Graph, g: Graph, r: Graph, b: Id, v3: seq<Snapshot>)
    requires SnapshotApplied(g1, r, b, v3) && b in g.books && g.books[b] == g1.books[b]
    ensures SnapshotApplied(g, r, b, v3)
  {
  }

  /** The loop of `didMigrate` over distinct books leaves every book rebuilt from the first
      snapshot with its title, as `SnapshotApplied` describes, and every book it does not
      visit as it was. */
  lemma {:induction false} MigrateBooksSpec(g: Graph, books: seq<Id>, fetchedAuthors: seq<Id>, fetchedSeries: seq<Id>,
                                            v3: seq<Snapshot>)
    requires forall k :: 0 <= k < |books| ==> books[k] in g.books
    requires forall j, k :: 0 <= j < k < |books| ==> books[j] != books[k]
    requires ReusableAuthors(g, fetchedAuthors) && ReusableSeries(g, fetchedSeries) && Fresh(g)
    ensures var r := MigrateBooks(g, books, fetchedAuthors, fetchedSeries, v3);
            (forall k :: 0 <= k < |books| ==> SnapshotApplied(g, r, books[k], v3)) &&
            (forall b :: b in g.books && b !in books ==> r.books[b] == g.books[b])
    decreases |books|
  {
    if books != [] {
      var m := |books| - 1;
      var init := books[..m];
      var last := books[m];
      assert books == init + [last];
      assert last !in init;
      MigrateBooksSpec(g, init, fetchedAuthors, fetchedSeries, v3);
      var g1 := MigrateBooks(g, init, fetchedAuthors, fetchedSeries, v3);
      assert MigrateBooks(g, books, fetchedAuthors, fetchedSeries, v3) == MigrateBook(g1, last, fetchedAuthors, fetchedSeries, v3);
      MigrateBookApplied(g1, last, fetchedAuthors, fetchedSeries, v3);
      MigrateBookFrame(g1, last, fetchedAuthors, fetchedSeries, v3);
      AppliedExtend(g, g1, MigrateBook(g1, last, fetchedAuthors, fetchedSeries, v3), init, last, v3);
    }
  }

  /** Extending the loop by one pass on a book it has not visited. */
  lemma AppliedExtend(g: Graph, g1: Graph, r: Graph, init: seq<Id>, last: Id, v3: seq<Snapshot>)
    requires forall k :: 0 <= k < |init| ==> SnapshotApplied(g, g1, init[k], v3)
    requires forall b :: b in g.books && b !in init ==> b in g1.books && g1.books[b] == g.books[b]
    requires last in g.books && last !in init
    requires SnapshotApplied(g1, r, last, v3) && KeepsAuthors(g1, r) && KeepsSeries(g1, r)
    requires forall b :: b in g1.books && b != last ==> b in r.books && r.books[b] == g1.books[b]
    ensures forall k :: 0 <= k < |init| + 1 ==> SnapshotApplied(g, r, (init + [last])[k], v3)
    ensures forall b :: b in g.books && b !in init + [last] ==> r.books[b] == g.books[b]
  {
    AppliedSameBook(g1, g, r, last, v3);
    forall k | 0 <= k < |init|
      ensures SnapshotApplied(g, r, init[k], v3)
    {
      AppliedKept(g, g1, r, init[k], v3);
    }
    forall k | 0 <= k < |init| + 1
      ensures SnapshotApplied(g, r, (init + [last])[k], v3)
    {
      if k < |init| {
        assert (init + [last])[k] == init[k];
      }
    }
  }

  /** The migration plan's own state: the static `v3Books` buffer. */
  class MigrationPlan {
    var v3Books: seq<Snapshot>

    constructor ()
      ensures v3Books == []
    {
      v3Books := [];
    }

    /** `migrateV3toV4.willMigrate`: copy every fetched V3 book into the buffer. */
    method WillMigrate(books: seq<BookV3>)
      modifies this
      ensures |v3Books| == |old(v3Books)| + |books| && v3Books[..|old(v3Books)|] == old(v3Books)
      ensures forall k :: 0 <= k < |books| ==>
                v3Books[|old(v3Books)| + k] == Snapshot(books[k].title, books[k].author, books[k].series, books[k].seriesOrder)
    {
      for i := 0 to |books|
        invariant |v3Books| == |old(v3Books)| + i && v3Books[..|old(v3Books)|] == old(v3Books)
        invariant forall k :: 0 <= k < i ==>
                    v3Books[|old(v3Books)| + k] == Snapshot(books[k].title, books[k].author, books[k].series, books[k].seriesOrder)
      {
        var book := books[i];
        v3Books := v3Books + [Snapshot(book.title, book.author, book.series, book.seriesOrder)];
      }
    }

    /** `v4Authors`, looping over the names of the first matching snapshot. */
    method AddAuthors(ctx: V4Context, book: Id, fetched: seq<Id>)
      requires book in ctx.books && ReusableAuthors(ctx.Value(), fetched) && Fresh(ctx.Value())
      modifies ctx
      ensures ctx.Value() == V4Authors(old(ctx.Value()), book, fetched, v3Books)
    {
      if ctx.books[book].authors.None? {
        ctx.books := ctx.books[book := ctx.books[book].(authors := Some([]))];
      }
      var g1 := ctx.Value();
      var found := FirstSnapshot(v3Books, ctx.books[book].title);
      if found.Some? {
        var names := NamesOf(v3Books[found.value].author);
        for k := 0 to |names|
          invariant ctx.Value() == AttachAuthors(g1, book, names[..k], fetched)
        {
          assert names[..k + 1][..k] == names[..k];
          AddAuthor(ctx, book, names[k], fetched);
        }
        assert names[..|names|] == names;
      }
    }

    /** The body of the loop of `v4Authors` for one name. */
    method AddAuthor(ctx: V4Context, book: Id, n: Name, fetched: seq<Id>)
      requires Attachable(ctx.Value(), book, fetched) && Fresh(ctx.Value())
      modifies ctx
      ensures ctx.Value() == AttachAuthor(old(ctx.Value()), book, n, fetched)
    {
      var existing := FindAuthor(fetched, ctx.authors, n);
      var author: Id;
      if existing.Some? {
        author := fetched[existing.value];
      } else {
        author := ctx.next;
        ctx.authors := ctx.authors[author := AuthorV4(n.last, n.first, Some([]))];
        ctx.next := ctx.next + 1;
      }
      ctx.books := ctx.books[book := ctx.books[book].(authors := Some(ctx.books[book].authors.value + [author]))];
      ctx.authors := ctx.authors[author := ctx.authors[author].(books := Some(ctx.authors[author].books.value + [book]))];
    }

    /** `v4Series`. */
    method AddSeries(ctx: V4Context, book: Id, fetched: seq<Id>)
      requires book in ctx.books && ReusableSeries(ctx.Value(), fetched) && Fresh(ctx.Value())
      modifies ctx
      ensures ctx.Value() == V4Series(old(ctx.Value()), book, fetched, v3Books)
    {
      var found := FirstSnapshot(v3Books, ctx.books[book].title);
      if found.None? {
        return;
      }
      var v3Series := v3Books[found.value].series;
      if v3Series.None? {
        return;
      }
      var existing := FindSeries(fetched, ctx.series, v3Series.value);
      var s: Id;
      if existing.Some? {
        s := fetched[existing.value];
      } else {
        s := ctx.next;
        ctx.series := ctx.series[s := SeriesV4(v3Series.value, Some([]))];
        ctx.next := ctx.next + 1;
      }
      ctx.books := ctx.books[book := ctx.books[book].(series := Some(s))];
      ctx.series := ctx.series[s := ctx.series[s].(books := Some(ctx.series[s].books.value + [book]))];
    }

    /** `migrateV3toV4.didMigrate`, given what its three fetches return: rebuild the authors
        and series of every book from the snapshots, then empty the buffer. */
    method DidMigrate(ctx: V4Context, books: seq<Id>, authors: seq<Id>, series: seq<Id>)
      requires forall k :: 0 <= k < |books| ==> books[k] in ctx.books
      requires ReusableAuthors(ctx.Value(), authors) && ReusableSeries(ctx.Value(), series)
      requires Fresh(ctx.Value())
      modifies this, ctx
      ensures ctx.Value() == MigrateBooks(old(ctx.Value()), books, authors, series, old(v3Books))
      ensures v3Books == []
    {
      var g0 := ctx.Value();
      for i := 0 to |books|
        invariant v3Books == old(v3Books)
        invariant ctx.Value() == MigrateBooks(g0, books[..i], authors, series, v3Books)
      {
        assert books[..i + 1][..i] == books[..i];
        AddAuthors(ctx, books[i], authors);
        if ctx.books[books[i]].seriesOrder.Some? {
          AddSeries(ctx, books[i], series);
        }
      }
      assert books[..|books|] == books;
      v3Books := [];
    }
  }

  /** The V4 model context during the migration. */
  class V4Context {
    var books: map<Id, BookV4>
    var authors: map<Id, AuthorV4>
    var series: map<Id, SeriesV4>
    var next: Id

    function Value(): Graph
      reads this
    {
      Graph(books, authors, series, next)
    }
  }

  // ------------------------------------------------------------ the pipeline

  /** A name of two words "first last" goes through the three stages intact: V1 ->V2 keeps
      the single name as `author`, V2->V3 sorts it as "last, first", and V3->V4 reads it as
      one author with last name `last` and first name `first`. */
  lemma TwoWordNamePipeline(first: string, last: string, current: string)
    requires first != [] && last != [] && ' ' !in first && ' ' !in last
    requires ',' !in first && ',' !in last
    ensures MigratedAuthor([first + " " + last]) == first + " " + last
    ensures SortAuthorOf(first + " " + last, current) == last + ", " + first
    ensures NamesOf(first + " " + last) == [Name(last, first)]
  {
    var name := first + " " + last;
    var ws := [first, last];
    assert Join(ws, " ") == name;
    SortFormOfWords(ws);
    ParseNameOfWords(ws);
    assert ws[..1] == [first];
    SplitSingle(name, ',');
  }
}
