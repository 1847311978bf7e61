/** The legacy schemas V1, V2 and V3 of the book record, whose authors are free text:
    V1 keeps a list of names, V2 a comma-separated `author` string with "Last, First" forms,
    V3 the `author` string and a `sortAuthor` key taken from its first name. */
module Legacy {
  import opened Common
  import opened Text

  // ---------------------------------------------------------------- schema V1

  /** `BookSchemaV1.Book`: nothing in the source updates it after `init`. */
  datatype BookV1 = BookV1(
    title: string,
    authors: seq<string>,
    series: Option<string>,
    seriesOrder: Option<int>,
    added: Date,
    estRelease: Option<Date>)

  /** `BookSchemaV1.Book.init`: the author string is cut at its commas, empty pieces dropped,
      nothing trimmed; `added` is the clock reading `now`. */
  function NewBookV1(title: string, series: Option<string>, seriesOrder: Option<int>,
                     authors: string, now: Date, estRelease: Option<Date>): (b: BookV1)
    ensures Pieces(b.authors, ',')
  {
    BookV1(title, Split(authors, ','), series, seriesOrder, now, estRelease)
  }

  /** `init` keeps every comma-free, non-empty name it was given, in order and untrimmed. */
  lemma {:induction false} NewBookV1Segments(title: string, names: seq<string>, now: Date)
    requires Pieces(names, ',')
    ensures NewBookV1(title, None, None, Join(names, [',']), now, None).authors == names
  {
    SplitJoin(names, ',');
  }

  /** `authorString`: the names joined with ", ". The source force-unwraps `authors.first`,
      so the list must not be empty. */
  function AuthorString(b: BookV1): string
    requires |b.authors| > 0
  {
    if |b.authors| == 1 then b.authors[0] else FoldJoin(b.authors[0], b.authors[1..])
  }

  lemma {:induction false} AuthorStringIsJoin(b: BookV1)
    requires |b.authors| > 0
    ensures AuthorString(b) == Join(b.authors, ", ")
    ensures |b.authors| == 1 ==> AuthorString(b) == b.authors[0]
  {
    FoldJoinIsJoin(b.authors[0], b.authors[1..]);
    assert [b.authors[0]] + b.authors[1..] == b.authors;
  }

  // ------------------------------------------------------- name formatting

  /** The words of a name: the pieces between single spaces. */
  function Words(name: string): (ws: seq<string>)
    ensures Pieces(ws, ' ')
  {
    Split(name, ' ')
  }

  /** The V2/V3 sort form of one comma segment: "<last word>, <other words>" when the
      segment has a word, the segment itself when it is blank. */
  function SortForm(segment: string): string
  {
    var ws := Words(segment);
    if |ws| > 0 then ws[|ws| - 1] + ", " + Join(ws[..|ws| - 1], " ") else segment
  }

  /** A name built from words w1 ... wn is sorted as "wn, w1 ... w(n-1)"; one word w as "w, ". */
  lemma {:induction false} SortFormOfWords(ws: seq<string>)
    requires |ws| > 0 && Pieces(ws, ' ')
    ensures SortForm(Join(ws, " ")) == ws[|ws| - 1] + ", " + Join(ws[..|ws| - 1], " ")
    ensures |ws| == 1 ==> SortForm(ws[0]) == ws[0] + ", "
  {
    SplitJoin(ws, ' ');
  }

  /** A segment made only of spaces is kept verbatim. */
  lemma {:induction false} SortFormOfBlank(segment: string)
    requires forall i :: 0 <= i < |segment| ==> segment[i] == ' '
    ensures SortForm(segment) == segment
  {
    SplitOnlySeparators(segment, ' ');
  }

  // ---------------------------------------------------------------- schema V2

  /** The value `updateAuthors` gives `authors`: one sort form per comma segment of `author`. */
  function SortNames(author: string): (names: seq<string>)
    ensures |names| == |Split(author, ',')|
    ensures forall i :: 0 <= i < |names| ==> names[i] == SortForm(Split(author, ',')[i])
  {
    var segs := Split(author, ',');
    seq(|segs|, i requires 0 <= i < |segs| => SortForm(segs[i]))
  }

  /** A V2 author string written as comma-joined names yields one sort form per name, in order. */
  lemma {:induction false} SortNamesOfNames(names: seq<string>)
    requires Pieces(names, ',')
    ensures |SortNames(Join(names, [',']))| == |names|
    ensures forall i :: 0 <= i < |names| ==> SortNames(Join(names, [',']))[i] == SortForm(names[i])
  {
    SplitJoin(names, ',');
  }

  /** `BookSchemaV2.Book`; `updateAuthors` overwrites `authors` in place. */
  class BookV2 {
    var author: string
    var title: string
    var series: Option<string>
    var seriesOrder: Option<int>
    var added: Date
    var estRelease: Option<Date>
    var authors: seq<string>

    /** `init` sets `author` first and derives `authors` from it. */
    constructor (title: string, series: Option<string>, seriesOrder: Option<int>,
                 author: string, now: Date, estRelease: Option<Date>)
      ensures this.author == author && authors == SortNames(author)
      ensures this.title == title && this.series == series && this.seriesOrder == seriesOrder
      ensures added == now && this.estRelease == estRelease
    {
      this.author := author;
      this.title := title;
      this.series := series;
      this.seriesOrder := seriesOrder;
      this.added := now;
      this.estRelease := estRelease;
      this.authors := SortNames(author);
    }

    method UpdateAuthors()
      modifies this`authors
      ensures authors == SortNames(author)
    {
      authors := SortNames(author);
    }

    /** `lastName`: the first sort form; the source indexes `authors[0]` unchecked. */
    function LastName(): string
      reads this
      requires |authors| > 0
    {
      authors[0]
    }
  }

  // ---------------------------------------------------------------- schema V3

  /** The value `setSortAuthor` leaves in `sortAuthor`, given its value `current` before the
      call: the sort form of the first comma segment, or `current` if there is none. */
  function SortAuthorOf(author: string, current: string): string
  {
    var segs := Split(author, ',');
    if segs == [] then current else SortForm(segs[0])
  }

  lemma {:induction false} SplitCons(p: string, rest: string, sep: char)
    requires p != [] && sep !in p
    ensures Split(p + [sep] + rest, sep) == [p] + Split(rest, sep)
  {
    var s := p + [sep] + rest;
    assert s == p + ([sep] + rest);
    TokenOfPiece(p, [sep] + rest, sep);
    assert s[|p|..] == [sep] + rest;
    assert ([sep] + rest)[1..] == rest;
  }

  /** Only the first comma segment of `author` decides `sortAuthor`. */
  lemma {:induction false} SortAuthorFirstSegment(first: string, rest: string, current: string)
    requires first != [] && ',' !in first
    ensures SortAuthorOf(first + "," + rest, current) == SortForm(first)
    ensures SortAuthorOf(first + "," + rest, current) == SortAuthorOf(first, current)
  {
    SplitCons(first, rest, ',');
    SplitSingle(first, ',');
  }

  /** With no non-empty comma segment (`""`, `",,"`), `sortAuthor` keeps its value. */
  lemma {:induction false} SortAuthorNoSegment(author: string, current: string)
    requires forall i :: 0 <= i < |author| ==> author[i] == ','
    ensures SortAuthorOf(author, current) == current
  {
    SplitOnlySeparators(author, ',');
  }

  /** `setSortAuthor` depends on `author` alone once a segment exists, and applying it twice
      is applying it once. */
  lemma SortAuthorIdempotent(author: string, current: string)
    ensures SortAuthorOf(author, SortAuthorOf(author, current)) == SortAuthorOf(author, current)
    ensures Split(author, ',') != [] ==> SortAuthorOf(author, current) == SortAuthorOf(author, "Unknown")
  {
  }

  /** The V3 sort key agrees with the V2 `lastName` derived from the same author string. */
  lemma SortAuthorIsV2LastName(author: string, current: string)
    requires Split(author, ',') != []
    ensures |SortNames(author)| > 0 && SortAuthorOf(author, current) == SortNames(author)[0]
  {
  }

  /** `BookSchemaV3.Book`; `setSortAuthor` conditionally overwrites `sortAuthor`. */
  class BookV3 {
    var author: string
    var sortAuthor: string
    var title: string
    var series: Option<string>
    var seriesOrder: Option<int>
    var added: Date
    var estRelease: Option<Date>

    /** `init` sets `author` first and derives `sortAuthor` from it; the declared default
        "Unknown" survives when `author` has no non-empty segment. */
    constructor (title: string, series: Option<string>, seriesOrder: Option<int>,
                 author: string, now: Date, estRelease: Option<Date>)
      ensures this.author == author && sortAuthor == SortAuthorOf(author, "Unknown")
      ensures this.title == title && this.series == series && this.seriesOrder == seriesOrder
      ensures added == now && this.estRelease == estRelease
    {
      this.author := author;
      this.sortAuthor := "Unknown";
      this.title := title;
      this.series := series;
      this.seriesOrder := seriesOrder;
      this.added := now;
      this.estRelease := estRelease;
      new;
      SetSortAuthor();
    }

    method SetSortAuthor()
      modifies this`sortAuthor
      ensures sortAuthor == SortAuthorOf(author, old(sortAuthor))
    {
      var segs := Split(author, ',');
      if |segs| > 0 {
        var name := segs[0];
        var components := Words(name);
        if |components| > 0 {
          var lastName := components[|components| - 1];
          var otherNames := Join(components[..|components| - 1], " ");
          sortAuthor := lastName + ", " + otherNames;
        } else {
          sortAuthor := name;
        }
      }
    }
  }
}
