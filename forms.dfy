/** The logic inside the entry forms: choosing authors for a book, completing a series
    name, checking a new author or series before it is added, and the text binding of an
    optional field. */
module Forms {
  import opened Common
  import opened Records
  import opened Store
  import opened Order
  import opened Text
  import opened Repository

  // --------------------------------------------------------- author selection

  /** The UUIDs of the chosen authors, in order. */
  function Uuids(authors: seq<Author>): (r: seq<Uuid>)
    ensures |r| == |authors|
    ensures forall i :: 0 <= i < |authors| ==> r[i] == authors[i].uuid
  {
    if authors == [] then [] else Uuids(authors[..|authors| - 1]) + [authors[|authors| - 1].uuid]
  }

  /** The authors chosen for a book (EditBookView.swift, BookFormView.swift). */
  class AuthorSelection {
    var selectedAuthors: seq<Author>

    constructor (selected: seq<Author>)
      ensures selectedAuthors == selected
    {
      selectedAuthors := selected;
    }

    /** `selectAuthor`: appends the author unless an author with the same UUID is
        already chosen. */
    method SelectAuthor(author: Author)
      modifies this
      ensures selectedAuthors == Selected(old(selectedAuthors), author)
    {
      if author.uuid !in Uuids(selectedAuthors) {
        selectedAuthors := selectedAuthors + [author];
      }
    }
  }

  /** The selection after choosing `author`. */
  function Selected(selected: seq<Author>, author: Author): seq<Author>
  {
    if author.uuid in Uuids(selected) then selected else selected + [author]
  }

  /** Choosing keeps the earlier choices in place, grows the list by at most one, adds
      the author at the end exactly when its UUID is new, and never repeats a UUID. */
  lemma SelectAuthorFacts(selected: seq<Author>, author: Author)
    ensures var r := Selected(selected, author);
            author.uuid in Uuids(r) && selected <= r && |r| <= |selected| + 1 &&
            (r == selected + [author] <==> author.uuid !in Uuids(selected)) &&
            (Distinct(Uuids(selected)) ==> Distinct(Uuids(r)))
  {
    var r := Selected(selected, author);
    if author.uuid !in Uuids(selected) {
      var u := Uuids(r);
      assert u[|selected|] == author.uuid;
      if Distinct(Uuids(selected)) {
        forall i, j | 0 <= i < j < |u|
          ensures u[i] != u[j]
        {
          assert u[i] == Uuids(selected)[i];
          if j < |selected| {
            assert u[j] == Uuids(selected)[j];
          }
        }
      }
    } else {
      assert |r| != |selected + [author]|;
    }
  }

  // ------------------------------------------------------------ series lookup

  /** `s` starts with `p`, both lowered: `lowercased().hasPrefix(lowercasedPrefix)`. */
  predicate MatchesPrefix(s: string, p: string)
  {
    Lower(p) <= Lower(s)
  }

  /** `lookups(prefix:)`: the names, in the order given, that match the prefix; the
      result holds every matching name and nothing else. */
  function Lookups(names: seq<string>, prefix: string): (r: seq<string>)
    ensures |r| <= |names|
    ensures forall x :: x in r <==> x in names && MatchesPrefix(x, prefix)
  {
    if names == [] then []
    else
      assert names == [names[0]] + names[1..];
      (if MatchesPrefix(names[0], prefix) then [names[0]] else []) + Lookups(names[1..], prefix)
  }

  /** The filter works name by name: a single name is kept exactly when it matches, and
      the result for a concatenation is the concatenation of the results. Together these fix
      the result as the matching names in query order, duplicates included. */
  lemma {:induction false} LookupsSingle(x: string, prefix: string)
    ensures Lookups([x], prefix) == if MatchesPrefix(x, prefix) then [x] else []
  {
    assert [x][1..] == [];
  }

  lemma {:induction false} LookupsAppend(a: seq<string>, b: seq<string>, prefix: string)
    ensures Lookups(a + b, prefix) == Lookups(a, prefix) + Lookups(b, prefix)
  {
    if a != [] {
      assert (a + b)[0] == a[0];
      assert (a + b)[1..] == a[1..] + b;
      LookupsAppend(a[1..], b, prefix);
    } else {
      assert a + b == b;
    }
  }

  /** Names in ascending order. */
  predicate Sorted(names: seq<string>)
  {
    forall i, j :: 0 <= i < j < |names| ==> StrLe(names[i], names[j])
  }

  /** The result keeps the order of the query, so names fetched sorted come back
      sorted. */
  lemma {:induction false} LookupsSorted(names: seq<string>, prefix: string)
    requires Sorted(names)
    ensures Sorted(Lookups(names, prefix))
  {
    if names != [] {
      var t := names[1..];
      assert Sorted(t) by {
        forall i, j | 0 <= i < j < |t|
          ensures StrLe(t[i], t[j])
        {
          assert t[i] == names[i + 1] && t[j] == names[j + 1];
        }
      }
      LookupsSorted(t, prefix);
      var rest := Lookups(t, prefix);
      if MatchesPrefix(names[0], prefix) {
        var r := [names[0]] + rest;
        forall i, j | 0 <= i < j < |r|
          ensures StrLe(r[i], r[j])
        {
          if i == 0 {
            assert r[j] in t;
            var k :| 0 <= k < |t| && t[k] == r[j];
            assert t[k] == names[k + 1];
          } else {
            assert r[i] == rest[i - 1] && r[j] == rest[j - 1];
          }
        }
      }
    }
  }

  /** The series name field with its completion popover (SeriesGroupView.swift). */
  class SeriesField {
    var seriesName: string
    var seriesMatches: seq<string>
    var autoselectSeries: bool

    constructor (name: string)
      ensures seriesName == name && seriesMatches == [] && !autoselectSeries
    {
      seriesName := name;
      seriesMatches := [];
      autoselectSeries := false;
    }

    /** `onChange(of: seriesName)`: a name of two or more characters recomputes the
        matches and shows the popover when there are any; a shorter one hides it and
        keeps the old matches. */
    method OnNameChange(names: seq<string>)
      modifies this
      ensures seriesName == old(seriesName)
      ensures |seriesName| > 1 ==> seriesMatches == Lookups(names, seriesName)
      ensures |seriesName| <= 1 ==> seriesMatches == old(seriesMatches)
      ensures autoselectSeries == Popover(seriesName, names)
    {
      if |seriesName| > 1 {
        seriesMatches := Lookups(names, seriesName);
        autoselectSeries := seriesMatches != [];
      } else {
        autoselectSeries := false;
      }
    }

    /** `onChange(of: focusedField)`: moving the focus hides the popover. */
    method OnFocusChange()
      modifies this
      ensures seriesName == old(seriesName) && seriesMatches == old(seriesMatches)
      ensures !autoselectSeries
    {
      autoselectSeries := false;
    }
  }

  /** Whether the popover shows after the name changed. */
  predicate Popover(name: string, names: seq<string>)
  {
    |name| > 1 && Lookups(names, name) != []
  }

  /** The popover shows exactly when the name has two or more characters and some series
      name starts with it, ignoring case. */
  lemma PopoverIff(name: string, names: seq<string>)
    ensures Popover(name, names) <==> |name| > 1 && exists i :: 0 <= i < |names| && MatchesPrefix(names[i], name)
  {
    var r := Lookups(names, name);
    if r != [] {
      assert r[0] in r;
    }
    if exists i :: 0 <= i < |names| && MatchesPrefix(names[i], name) {
      var i :| 0 <= i < |names| && MatchesPrefix(names[i], name);
      assert names[i] in names;
    }
  }

  // ------------------------------------------------------ new author / series

  /** `invalidAuthor`: no last name, or a stored author already shows that name. */
  predicate InvalidAuthor(d: Db, lastName: string, firstName: string)
  {
    lastName == "" || exists a :: a in d.authors && Name(d.authors[a]) == firstName + " " + lastName
  }

  /** The author being entered in NewAuthorView.swift. */
  class NewAuthorForm {
    var lastName: string
    var firstName: string
    const uuid: Uuid

    constructor (uuid: Uuid)
      ensures lastName == "" && firstName == "" && this.uuid == uuid
    {
      lastName := "";
      firstName := "";
      this.uuid := uuid;
    }

    /** `addAuthor`: inserts the author and, when a selection is bound, sets it to the
        author's name. */
    method AddAuthor(db: BookDB, selection: Option<string>) returns (selected: Option<string>)
      modifies db
      ensures db.context == InsertAuthor(old(db.context), uuid, lastName, firstName)
      ensures selected == if selection.Some? then Some(firstName + " " + lastName) else None
    {
      db.context := InsertAuthor(db.context, uuid, lastName, firstName);
      if selection.Some? {
        selected := Some(Name(db.context.authors[db.context.next - 1]));
      } else {
        selected := None;
      }
    }
  }

  /** An author that passes `invalidAuthor` has a last name and, once added, is the only
      stored author showing that name. */
  lemma ValidAuthorUnique(d: Db, uuid: Uuid, lastName: string, firstName: string)
    requires Fresh(d) && !InvalidAuthor(d, lastName, firstName)
    ensures lastName != ""
    ensures var r := InsertAuthor(d, uuid, lastName, firstName);
            forall a :: a in r.authors && Name(r.authors[a]) == firstName + " " + lastName <==> a == d.next
  {
    InsertAuthorShape(d, uuid, lastName, firstName);
  }

  /** An empty first name is allowed: only the last name and the shown name count. */
  lemma FirstNameOptional(d: Db, lastName: string)
    requires lastName != "" && forall a :: a in d.authors ==> Name(d.authors[a]) != " " + lastName
    ensures !InvalidAuthor(d, lastName, "")
  {
  }

  /** `invalidSeries`: no name, or a stored series already has exactly that name. */
  predicate InvalidSeries(d: Db, name: string)
  {
    name == "" || exists s :: s in d.series && d.series[s].name == name
  }

  /** `addSeries`: inserts a series with the entered name. */
  method AddSeries(db: BookDB, name: string)
    modifies db
    ensures db.context == InsertSeries(old(db.context), name)
  {
    db.context := InsertSeries(db.context, name);
  }

  /** A series that passes `invalidSeries` has a name and, once added, is the only stored
      series with that name; the store holds one series more. */
  lemma ValidSeriesUnique(d: Db, name: string)
    requires Fresh(d) && !InvalidSeries(d, name)
    ensures name != ""
    ensures var r := InsertSeries(d, name);
            |r.series| == |d.series| + 1 &&
            forall s :: s in r.series && r.series[s].name == name <==> s == d.next
  {
    InsertSeriesShape(d, name);
  }

  // ------------------------------------------------------------ bound text

  /** `bound` read: the text of an optional string, empty when there is none. */
  function Bound(o: Option<string>): (s: string)
    ensures o.None? ==> s == ""
    ensures o.Some? ==> s == o.value
  {
    o.GetOr("")
  }

  /** `bound` written: empty text stores nothing. */
  function Unbound(s: string): (o: Option<string>)
    ensures s == "" <==> o.None?
  {
    if s == "" then None else Some(s)
  }

  /** An optional text field edited through `bound`. */
  class OptionalText {
    var value: Option<string>

    constructor (value: Option<string>)
      ensures this.value == value
    {
      this.value := value;
    }

    /** The `bound` setter. */
    method SetBound(s: string)
      modifies this
      ensures value == Unbound(s)
    {
      value := if s == "" then None else Some(s);
    }
  }

  /** Reading after writing gives back the text written; writing back what was read
      keeps the value, except that a stored empty string becomes nothing. */
  lemma BoundRoundTrip(s: string, o: Option<string>)
    ensures Bound(Unbound(s)) == s
    ensures o != Some("") ==> Unbound(Bound(o)) == o
    ensures Unbound(Bound(Some(""))) == None
  {
  }
}
