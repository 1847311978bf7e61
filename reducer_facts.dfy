/** What the reducer's events do, stated over `Reducer.Effect`: the error it records,
    the records it keeps linked, and the effect of each handler on the records it names. */
module ReducerFacts {
  import opened Common
  import opened Records
  import opened Store
  import opened Order
  import opened Repository
  import opened State
  import opened Reducer

  // ----------------------------------------------------------------- errors

  /** The calls a step has attempted: the ones that returned, and the one that threw. */
  function Used(s: Step): nat
  {
    s.calls + if s.error.Some? then 1 else 0
  }

  /** The error a step holds is the one injected, raised by call `failAt`; without an
      error, no call numbered `failAt` was made. */
  ghost predicate Honest(s: Step, f: Faults)
  {
    (s.error.Some? ==> s.error == Some(f.description) && s.calls == f.failAt) &&
    (s.error.None? ==> s.calls <= f.failAt)
  }

  lemma WriteHonest(s: Step, d: Db, f: Faults)
    requires Honest(s, f) && s.error.None?
    ensures Honest(Write(s, d, f), f) && Used(Write(s, d, f)) == Used(s) + 1
  {
  }

  lemma ReadHonest(s: Step, k: Kind, f: Faults)
    requires Honest(s, f) && s.error.None?
    ensures Honest(Read(s, k, f), f) && Used(Read(s, k, f)) == Used(s) + 1
  {
  }

  lemma WriteReadHonest(s: Step, d: Db, k: Kind, f: Faults)
    requires Honest(s, f) && s.error.None?
    ensures Honest(WriteRead(s, d, k, f), f) && Used(WriteRead(s, d, k, f)) <= Used(s) + 2
  {
    WriteHonest(s, d, f);
    var w := Write(s, d, f);
    if w.error.None? {
      ReadHonest(w, k, f);
    }
  }

  lemma DeleteReadHonest(s: Step, before: Db, after: Db, k: Kind, f: Faults)
    requires Honest(s, f) && s.error.None?
    ensures Honest(DeleteRead(s, before, after, k, f), f) && Used(DeleteRead(s, before, after, k, f)) <= Used(s) + 2
  {
    if f.At(s.calls).None? {
      ReadHonest(s.(db := after, calls := s.calls + 1), k, f);
    }
  }

  lemma SeriesStepHonest(s: Step, b: Id, cached: seq<Id>, name: string, order: int, f: Faults)
    requires Honest(s, f) && b in s.db.books
    ensures var r := SeriesStep(s, b, cached, name, order, f);
            Honest(r, f) && Used(r) <= Used(s) + 2
  {
    if s.error.None? {
      if name == "" {
        if s.db.books[b].series.Some? {
          WriteHonest(s, SetOrder(SetSeries(s.db, b, None), b, None), f);
        }
      } else {
        var sr := GetSeries(s.db, cached, name);
        if SeriesDiffers(s.db.books[b].series, sr) {
          var p := ResolveSeries(s.db, Some(sr));
          WriteReadHonest(s, SetOrder(SetSeries(p.0, b, p.1), b, Some(order)), SeriesKind, f);
        } else if s.db.books[b].seriesOrder != Some(order) {
          WriteHonest(s, SetOrder(s.db, b, Some(order)), f);
        }
      }
    }
  }

  /** An event makes at most `MaxCalls` store calls, and any error it records is the one
      the failing call threw. */
  lemma EffectHonest(d: Db, cached: seq<Id>, e: ModelEvent, f: Faults)
    requires EventValid(d, e)
    ensures var r := Effect(d, cached, e, f);
            Honest(r, f) && Used(r) <= MaxCalls
  {
    match e
    case BookUpdateOrAddButton(b, t, refs, name, order) =>
      var s0 := Start(d);
      if s0.db.books[b].title != t {
        WriteReadHonest(s0, SetTitle(d, b, t), BookKind, f);
      }
      var s1 := TitleStep(s0, b, t, f);
      if s1.error.None? && !SameAuthors(s1.db.books[b].authors, refs) {
        var p := Resolve(s1.db, refs);
        WriteReadHonest(s1, SetAuthors(p.0, b, p.1), AuthorKind, f);
      }
      var s2 := AuthorsStep(s1, b, refs, f);
      SeriesStepHonest(s2, b, cached, name, order, f);
    case OnAuthorDelete(a) =>
      var d1 := ClearAuthorBooks(d, a);
      DeleteReadHonest(Start(d1), d1, Store.DeleteAuthor(d1, a), AuthorKind, f);
    case OnBookDelete(b) =>
      DeleteReadHonest(Start(d), d, Store.DeleteBook(d, b), BookKind, f);
    case OnSeriesDelete(s) =>
      var d1 := DetachAll(d, MembersOf(d, s));
      DeleteReadHonest(Start(d1), d1, Store.DeleteSeries(d1, s), SeriesKind, f);
    case AddAuthorButton(u, l, n) => WriteReadHonest(Start(d), InsertAuthor(d, u, l, n), AuthorKind, f);
    case AddBookButton(t, rel, now) => WriteReadHonest(Start(d), InsertBook(d, t, rel, now), BookKind, f);
    case EditAuthorDone(a, first, last) => WriteReadHonest(Start(d), SetAuthorName(d, a, first, last), AuthorKind, f);
    case EditSeriesDone(s, name) => WriteReadHonest(Start(d), SetSeriesName(d, s, name), SeriesKind, f);
  }

  /** `reduce` never fails: a thrown error becomes `lastError`, the text the failing call
      threw, and an event none of whose calls throws leaves `lastError` as it was. */
  lemma ReduceError(st: BookState, r: BookState, d: Db, e: ModelEvent, f: Faults)
    requires EventValid(d, e) && Follows(r, st, Effect(d, st.series, e, f))
    ensures r.lastError == st.lastError || r.lastError == Some(f.description)
    ensures f.failAt >= MaxCalls ==> r.lastError == st.lastError
  {
    EffectHonest(d, st.series, e, f);
  }

  // --------------------------------------------------------------- getSeries

  /** `getSeries` takes the first listed series stored under exactly that name, and
      makes a new one only when no listed series has it. */
  lemma {:induction false} GetSeriesFirst(d: Db, cached: seq<Id>, name: string)
    ensures var r := GetSeries(d, cached, name);
            (r.UnstoredSeries? <==> forall i :: 0 <= i < |cached| ==> !(cached[i] in d.series && d.series[cached[i]].name == name)) &&
            (r.StoredSeries? ==> exists i :: 0 <= i < |cached| && cached[i] == r.id &&
                                   forall j :: 0 <= j < i ==> !(cached[j] in d.series && d.series[cached[j]].name == name))
  {
    if cached != [] && !(cached[0] in d.series && d.series[cached[0]].name == name) {
      var t := cached[1..];
      GetSeriesFirst(d, t, name);
      var r := GetSeries(d, cached, name);
      assert forall i :: 1 <= i < |cached| ==> cached[i] == t[i - 1];
      if r.StoredSeries? {
        var i :| 0 <= i < |t| && t[i] == r.id &&
                 forall j :: 0 <= j < i ==> !(t[j] in d.series && d.series[t[j]].name == name);
        assert cached[i + 1] == r.id;
        assert forall j :: 0 <= j < i + 1 ==> !(cached[j] in d.series && d.series[cached[j]].name == name) by {
          forall j | 0 <= j < i + 1
            ensures !(cached[j] in d.series && d.series[cached[j]].name == name)
          {
            if j > 0 {
              assert cached[j] == t[j - 1];
            }
          }
        }
      } else {
        forall i | 0 <= i < |cached|
          ensures !(cached[i] in d.series && d.series[cached[i]].name == name)
        {
          if i > 0 {
            assert cached[i] == t[i - 1];
          }
        }
      }
    } else if cached != [] {
      assert GetSeries(d, cached, name) == StoredSeries(cached[0]);
    }
  }

  /** `getSeries` looks only at the series. */
  lemma {:induction false} GetSeriesOnlySeries(d: Db, d': Db, cached: seq<Id>, name: string)
    requires d.series == d'.series
    ensures GetSeries(d, cached, name) == GetSeries(d', cached, name)
  {
    if cached != [] {
      GetSeriesOnlySeries(d, d', cached[1..], name);
    }
  }

  // ---------------------------------------------------------- onSeriesDelete

  /** Clearing series and order of the listed books keeps the store linked and paired,
      leaves every other book as it was and keeps the keys. */
  lemma {:induction false} DetachAllKeeps(d: Db, bs: seq<Id>)
    requires Linked(d) && Paired(d)
    ensures var r := DetachAll(d, bs);
            Linked(r) && Paired(r) && r.books.Keys == d.books.Keys && r.series.Keys == d.series.Keys &&
            r.authors == d.authors &&
            (forall b :: b in r.books && b in bs ==> r.books[b].series.None? && r.books[b].seriesOrder.None?) &&
            (forall b :: b in r.books && b !in bs ==> r.books[b] == d.books[b])
    decreases |bs|
  {
    if bs != [] {
      var q := bs[..|bs| - 1];
      var x := bs[|bs| - 1];
      assert forall b :: b in bs <==> b in q || b == x by {
        assert bs == q + [x];
      }
      DetachAllKeeps(d, q);
      var p := DetachAll(d, q);
      DetachShape(p, x);
    }
  }

  /** Detaching one book keeps the store linked and paired and changes no other book. */
  lemma DetachShape(d: Db, x: Id)
    requires Linked(d) && Paired(d)
    ensures var r := Detach(d, x);
            Linked(r) && Paired(r) && r.books.Keys == d.books.Keys && r.series.Keys == d.series.Keys &&
            r.authors == d.authors &&
            (x in r.books ==> r.books[x].series.None? && r.books[x].seriesOrder.None?) &&
            (forall b :: b in r.books && b != x ==> r.books[b] == d.books[b])
  {
    if x in d.books {
      SetSeriesAndOrderPaired(d, x, None, None);
      SetSeriesShape(d, x, None);
    }
  }

  /** The books that list a series are exactly the members the loop visits. */
  lemma MembersAreListed(d: Db, s: Id, b: Id)
    requires Linked(d) && b in d.books && d.books[b].series == Some(s)
    ensures b in MembersOf(d, s)
  {
  }

  /** `onSeriesDelete` keeps the store linked and paired, unlike deleting the series
      alone: every book that was in the series ends with neither series nor order, and
      when no call throws the series is gone from the store and from `state.series`. */
  lemma OnSeriesDeleteEffect(d: Db, cached: seq<Id>, s: Id, f: Faults)
    requires Linked(d) && Paired(d)
    ensures var r := Effect(d, cached, ModelEvent.OnSeriesDelete(s), f);
            Linked(r.db) && Paired(r.db) && r.db.books.Keys == d.books.Keys &&
            (forall b :: b in d.books && d.books[b].series == Some(s) ==> r.db.books[b].series.None? && r.db.books[b].seriesOrder.None?) &&
            (f.failAt >= MaxCalls ==> s !in r.db.series && r.series == ReadAt(r.db) && r.books == Kept && r.authors == Kept)
  {
    SeriesDeleteStores(d, s);
  }

  /** The two stores `onSeriesDelete` can leave: after the loop, and after the delete. Both
      are linked and paired, the members have lost series and order, and the second no
      longer holds the series. */
  lemma SeriesDeleteStores(d: Db, s: Id)
    requires Linked(d) && Paired(d)
    ensures var d1 := DetachAll(d, MembersOf(d, s));
            var d2 := Store.DeleteSeries(d1, s);
            Linked(d1) && Paired(d1) && Linked(d2) && Paired(d2) &&
            d1.books.Keys == d.books.Keys && d2.books == d1.books && s !in d2.series &&
            d2.series.Keys == d.series.Keys - {s} &&
            (forall b :: b in d.books && d.books[b].series == Some(s) ==> d1.books[b].series.None? && d1.books[b].seriesOrder.None?)
  {
    var d1 := DetachAll(d, MembersOf(d, s));
    DetachAllKeeps(d, MembersOf(d, s));
    NoBookInSeries(d, s);
    DeleteUnlistedSeries(d1, s);
  }

  /** After the loop no book lists the series any more, and every book that did has
      neither series nor order. */
  lemma NoBookInSeries(d: Db, s: Id)
    requires Linked(d) && Paired(d)
    ensures var d1 := DetachAll(d, MembersOf(d, s));
            (forall b :: b in d1.books ==> d1.books[b].series != Some(s)) &&
            (forall b :: b in d.books && d.books[b].series == Some(s) ==>
               b in d1.books && d1.books[b].series.None? && d1.books[b].seriesOrder.None?)
  {
    var bs := MembersOf(d, s);
    DetachAllKeeps(d, bs);
    var d1 := DetachAll(d, bs);
    forall b | b in d.books && d.books[b].series == Some(s)
      ensures b in bs
    {
      MembersAreListed(d, s, b);
    }
  }

  /** Deleting a series no book lists changes no book and keeps the store linked and
      paired. */
  lemma DeleteUnlistedSeries(d: Db, s: Id)
    requires Linked(d) && Paired(d) && forall b :: b in d.books ==> d.books[b].series != Some(s)
    ensures var r := Store.DeleteSeries(d, s);
            Linked(r) && Paired(r) && r.books == d.books && s !in r.series
  {
    DeleteSeriesKeeps(d, s);
    var r := Store.DeleteSeries(d, s);
    assert forall b :: b in r.books ==> r.books[b] == d.books[b];
  }

  // ----------------------------------------------------- the other deletes

  /** `onBookDelete` keeps the store linked and paired; when no call throws the book is
      gone from the store, from every author's and series' `books`, and the books are
      re-read. */
  lemma OnBookDeleteEffect(d: Db, cached: seq<Id>, b: Id, f: Faults)
    requires Linked(d) && Paired(d)
    ensures var r := Effect(d, cached, ModelEvent.OnBookDelete(b), f);
            Linked(r.db) && Paired(r.db) &&
            (f.failAt >= MaxCalls ==>
               (r.db.books.Keys == d.books.Keys - {b} && r.books == ReadAt(r.db) &&
                (forall a :: a in r.db.authors ==> b !in r.db.authors[a].books) &&
                (forall x :: x in r.db.series ==> b !in r.db.series[x].books))) &&
            (f.failAt == 0 ==> r.db == d && r.books == Kept && r.error == Some(f.description))
  {
    DeleteBookKeeps(d, b);
    DeleteBookShape(d, b);
    EffectHonest(d, cached, ModelEvent.OnBookDelete(b), f);
  }

  /** `onAuthorDelete` keeps the store linked and paired; when no call throws the author
      is gone, no book lists it, and the authors are re-read. */
  lemma OnAuthorDeleteEffect(d: Db, cached: seq<Id>, a: Id, f: Faults)
    requires Linked(d) && Paired(d)
    ensures var r := Effect(d, cached, ModelEvent.OnAuthorDelete(a), f);
            Linked(r.db) && Paired(r.db) && r.db.books.Keys == d.books.Keys &&
            (forall b :: b in r.db.books ==> a !in r.db.books[b].authors) &&
            (f.failAt >= MaxCalls ==> r.db.authors.Keys == d.authors.Keys - {a} && r.authors == ReadAt(r.db))
  {
    AuthorDeleteStores(d, a);
    var d1 := ClearAuthorBooks(d, a);
    DeleteReadStores(d1, Store.DeleteAuthor(d1, a), AuthorKind, f);
  }

  /** A delete followed by a fetch leaves the store as it was before the delete or as the
      delete left it; when nothing throws, the latter, with the kind's list re-read. */
  lemma DeleteReadStores(before: Db, after: Db, k: Kind, f: Faults)
    ensures var r := DeleteRead(Start(before), before, after, k, f);
            (r.db == before || r.db == after) &&
            (f.failAt >= MaxCalls ==> r.db == after && r.error.None?) &&
            (f.failAt >= MaxCalls && k == AuthorKind ==> r.authors == ReadAt(after)) &&
            (f.failAt >= MaxCalls && k == SeriesKind ==> r.series == ReadAt(after))
  {
  }

  /** The two stores `onAuthorDelete` can leave: after `author.books = []`, and after the
      delete. Both are linked and paired, no book lists the author, and the second no
      longer holds it. */
  lemma AuthorDeleteStores(d: Db, a: Id)
    requires Linked(d) && Paired(d)
    ensures var d1 := ClearAuthorBooks(d, a);
            var d2 := Store.DeleteAuthor(d1, a);
            Linked(d1) && Paired(d1) && Linked(d2) && Paired(d2) &&
            d1.books.Keys == d.books.Keys && d2.books.Keys == d.books.Keys &&
            d2.authors.Keys == d.authors.Keys - {a} &&
            (forall b :: b in d1.books ==> a !in d1.books[b].authors) &&
            (forall b :: b in d2.books ==> a !in d2.books[b].authors)
  {
    ClearAuthorBooksKeeps(d, a);
    var d1 := ClearAuthorBooks(d, a);
    DeleteAuthorKeeps(d1, a);
    var d2 := Store.DeleteAuthor(d1, a);
    forall b | b in d2.books
      ensures a !in d2.books[b].authors
    {
      assert a !in d1.books[b].authors;
    }
  }

  /** After a delete none of whose calls throws, the refreshed list holds exactly the
      records that remain: the deleted one is not in it. */
  lemma DeletedNotListed(st: BookState, r: BookState, d: Db, e: ModelEvent, f: Faults)
    requires Linked(d) && Paired(d) && f.failAt >= MaxCalls
    requires e.OnBookDelete? || e.OnAuthorDelete? || e.OnSeriesDelete?
    requires Follows(r, st, Effect(d, st.series, e, f))
    ensures e.OnBookDelete? ==> e.book !in r.books && forall x :: x in r.books <==> x in d.books && x != e.book
    ensures e.OnAuthorDelete? ==> e.author !in r.authors && forall x :: x in r.authors <==> x in d.authors && x != e.author
    ensures e.OnSeriesDelete? ==> e.series !in r.series && forall x :: x in r.series <==> x in d.series && x != e.series
  {
    match e
    case OnBookDelete(b) => BookNotListed(st, r, d, b, f);
    case OnAuthorDelete(a) => AuthorNotListed(st, r, d, a, f);
    case OnSeriesDelete(s) => SeriesNotListed(st, r, d, s, f);
  }

  lemma BookNotListed(st: BookState, r: BookState, d: Db, b: Id, f: Faults)
    requires Linked(d) && Paired(d) && f.failAt >= MaxCalls
    requires Follows(r, st, Effect(d, st.series, ModelEvent.OnBookDelete(b), f))
    ensures b !in r.books && forall x :: x in r.books <==> x in d.books && x != b
  {
    OnBookDeleteEffect(d, st.series, b, f);
  }

  lemma AuthorNotListed(st: BookState, r: BookState, d: Db, a: Id, f: Faults)
    requires Linked(d) && Paired(d) && f.failAt >= MaxCalls
    requires Follows(r, st, Effect(d, st.series, ModelEvent.OnAuthorDelete(a), f))
    ensures a !in r.authors && forall x :: x in r.authors <==> x in d.authors && x != a
  {
    OnAuthorDeleteEffect(d, st.series, a, f);
  }

  lemma SeriesNotListed(st: BookState, r: BookState, d: Db, s: Id, f: Faults)
    requires Linked(d) && Paired(d) && f.failAt >= MaxCalls
    requires Follows(r, st, Effect(d, st.series, ModelEvent.OnSeriesDelete(s), f))
    ensures s !in r.series && forall x :: x in r.series <==> x in d.series && x != s
  {
    SeriesDeleteStores(d, s);
    var d1 := DetachAll(d, MembersOf(d, s));
    DeleteReadStores(d1, Store.DeleteSeries(d1, s), SeriesKind, f);
  }

  // ------------------------------------------------------ bookUpdateOrAddButtin

  /** The book's authors are what `refs` asks for: a stored author keeps its id, a new
      one is stored under the given names, and every one of them lists the book. */
  ghost predicate Realises(d: Db, b: Id, refs: seq<AuthorRef>)
  {
    b in d.books &&
    var ids := d.books[b].authors;
    |ids| == |refs| &&
    (forall i :: 0 <= i < |refs| ==> ids[i] in d.authors && b in d.authors[ids[i]].books) &&
    (forall i :: 0 <= i < |refs| && refs[i].Stored? ==> ids[i] == refs[i].id) &&
    (forall i :: 0 <= i < |refs| && refs[i].Unstored? ==>
       d.authors[ids[i]].lastName == refs[i].lastName && d.authors[ids[i]].firstName == refs[i].firstName)
  }

  /** The title step writes the title whatever happens to its save and fetch, and leaves
      everything else; a title that does not differ makes no call. */
  lemma TitleStepFacts(s: Step, b: Id, title: string, f: Faults)
    requires Linked(s.db) && b in s.db.books && s.error.None?
    ensures var r := TitleStep(s, b, title, f);
            Linked(r.db) && (Paired(s.db) ==> Paired(r.db)) &&
            r.db.books[b] == s.db.books[b].(title := title) &&
            (forall x :: x in r.db.books && x != b ==> r.db.books[x] == s.db.books[x]) &&
            r.authors == s.authors && r.series == s.series &&
            (s.db.books[b].title == title ==> r == s)
  {
    SetTitleKeeps(s.db, b, title);
  }

  /** A list that does not differ already realises the references. */
  lemma SameRealises(d: Db, b: Id, refs: seq<AuthorRef>)
    requires AuthorsListBooks(d) && b in d.books && SameAuthors(d.books[b].authors, refs)
    ensures Realises(d, b, refs)
  {
    var ids := d.books[b].authors;
    forall i | 0 <= i < |refs|
      ensures ids[i] in d.authors && b in d.authors[ids[i]].books
    {
      assert ids[i] in d.books[b].authors;
    }
  }

  /** `update(book:authors:)` realises the references. */
  lemma ResolvedRealises(d: Db, b: Id, refs: seq<AuthorRef>)
    requires Linked(d) && b in d.books && RefsStored(d, refs)
    ensures var p := Resolve(d, refs);
            Realises(SetAuthors(p.0, b, p.1), b, refs)
  {
    var p := Resolve(d, refs);
    ResolveKeeps(d, refs);
    ResolveIds(d, refs);
    SetAuthorsKeeps(p.0, b, p.1);
    var r := SetAuthors(p.0, b, p.1);
    forall i | 0 <= i < |refs| && refs[i].Unstored?
      ensures r.authors[p.1[i]].lastName == refs[i].lastName && r.authors[p.1[i]].firstName == refs[i].firstName
    {
      assert p.1[i] in p.1;
    }
  }

  /** The author step keeps the store linked and paired and leaves the series alone. */
  lemma AuthorsStepKeeps(s: Step, b: Id, refs: seq<AuthorRef>, f: Faults)
    requires Linked(s.db) && b in s.db.books && RefsStored(s.db, refs) && s.error.None?
    ensures var r := AuthorsStep(s, b, refs, f);
            Linked(r.db) && (Paired(s.db) ==> Paired(r.db)) && r.db.series == s.db.series
  {
    if !SameAuthors(s.db.books[b].authors, refs) {
      var p := Resolve(s.db, refs);
      ResolveKeeps(s.db, refs);
      SetAuthorsKeeps(p.0, b, p.1);
    }
  }

  /** The author step leaves the book listing the authors `refs` asks for, whatever
      happens to its save and fetch, and changes no other field and no other book; an
      unchanged list makes no call. */
  lemma AuthorsStepFacts(s: Step, b: Id, refs: seq<AuthorRef>, f: Faults)
    requires Linked(s.db) && b in s.db.books && RefsStored(s.db, refs) && s.error.None?
    ensures var r := AuthorsStep(s, b, refs, f);
            Realises(r.db, b, refs) &&
            r.db.books[b].(authors := []) == s.db.books[b].(authors := []) &&
            (forall x :: x in r.db.books && x != b ==> r.db.books[x] == s.db.books[x]) &&
            r.books == s.books && r.series == s.series &&
            (SameAuthors(s.db.books[b].authors, refs) ==> r == s)
  {
    if SameAuthors(s.db.books[b].authors, refs) {
      SameRealises(s.db, b, refs);
    } else {
      ResolvedRealises(s.db, b, refs);
      var p := Resolve(s.db, refs);
      var d2 := SetAuthors(p.0, b, p.1);
      assert d2.books == p.0.books[b := p.0.books[b].(authors := p.1)] && p.0.books == s.db.books;
      assert AuthorsStep(s, b, refs, f) == WriteRead(s, d2, AuthorKind, f);
      WriteReadLists(s, d2, AuthorKind, f);
    }
  }

  /** A write and a re-read of the authors leave the other two lists alone. */
  lemma WriteReadLists(s: Step, d: Db, k: Kind, f: Faults)
    requires k == AuthorKind
    ensures var r := WriteRead(s, d, k, f);
            r.db == d && r.books == s.books && r.series == s.series
  {
  }

  /** `update(book:series:order:)` as the series step makes it: keeps the store linked
      and paired. */
  lemma SeriesStepKeeps(s: Step, b: Id, cached: seq<Id>, name: string, order: int, f: Faults)
    requires Linked(s.db) && Paired(s.db) && b in s.db.books && s.error.None?
    ensures var r := SeriesStep(s, b, cached, name, order, f);
            Linked(r.db) && Paired(r.db) && r.db.authors == s.db.authors
  {
    var d := s.db;
    if name == "" {
      if d.books[b].series.Some? {
        SetSeriesAndOrderPaired(d, b, None, None);
      }
    } else {
      var sr := GetSeries(d, cached, name);
      if SeriesDiffers(d.books[b].series, sr) {
        var p := ResolveSeries(d, Some(sr));
        if sr.UnstoredSeries? {
          InsertSeriesKeeps(d, name);
        }
        SetSeriesAndOrderPaired(p.0, b, p.1, Some(order));
      } else {
        SetOrderKeeps(d, b, Some(order));
      }
    }
  }

  /** The series a book is set to, with its order: the book lands in that series. */
  lemma SetSeriesOrderShape(d: Db, b: Id, x: Id, order: Option<int>)
    requires b in d.books && x in d.series
    ensures var r := SetOrder(SetSeries(d, b, Some(x)), b, order);
            b in r.books && r.books[b] == d.books[b].(series := Some(x), seriesOrder := order) &&
            x in r.series && r.series[x].name == d.series[x].name && b in r.series[x].books &&
            (forall y :: y in r.books && y != b ==> r.books[y] == d.books[y])
  {
    var r1 := SetSeries(d, b, Some(x));
    assert r1.series[x].books == AddIfAbsent(d.series[x].books, b);
  }

  /** The series step writes only the book's series and order: the title, the authors,
      the other books and the books and authors lists stay. */
  lemma SeriesStepOthers(s: Step, b: Id, cached: seq<Id>, name: string, order: int, f: Faults)
    requires Fresh(s.db) && b in s.db.books && s.error.None?
    ensures var r := SeriesStep(s, b, cached, name, order, f);
            b in r.db.books &&
            r.db.books[b].title == s.db.books[b].title && r.db.books[b].authors == s.db.books[b].authors &&
            (forall x :: x in r.db.books && x != b ==> r.db.books[x] == s.db.books[x]) &&
            r.books == s.books && r.authors == s.authors
  {
    var d := s.db;
    if name == "" {
      if d.books[b].series.Some? {
        SeriesOrderFrame(d, b, None, None);
      }
    } else {
      var sr := GetSeries(d, cached, name);
      if SeriesDiffers(d.books[b].series, sr) {
        SeriesMovedOthers(s, b, sr, order, f);
      }
    }
  }

  /** The moving branch of the series step: resolve the series, set series and order,
      save and re-read the series list. */
  lemma SeriesMovedOthers(s: Step, b: Id, sr: SeriesRef, order: int, f: Faults)
    requires Fresh(s.db) && b in s.db.books && SeriesRefStored(s.db, Some(sr))
    ensures var p := ResolveSeries(s.db, Some(sr));
            var r := WriteRead(s, SetOrder(SetSeries(p.0, b, p.1), b, Some(order)), SeriesKind, f);
            b in r.db.books &&
            r.db.books[b].title == s.db.books[b].title && r.db.books[b].authors == s.db.books[b].authors &&
            (forall x :: x in r.db.books && x != b ==> r.db.books[x] == s.db.books[x]) &&
            r.books == s.books && r.authors == s.authors
  {
    var p := ResolveSeries(s.db, Some(sr));
    SeriesOrderFrame(p.0, b, p.1, Some(order));
  }

  /** Setting a book's series and order changes that book's two fields and no other book. */
  lemma SeriesOrderFrame(d: Db, b: Id, x: Option<Id>, o: Option<int>)
    requires b in d.books && (x.Some? ==> x.value in d.series)
    ensures var r := SetOrder(SetSeries(d, b, x), b, o);
            b in r.books && r.books[b] == d.books[b].(series := x, seriesOrder := o) &&
            (forall y :: y in r.books && y != b ==> r.books[y] == d.books[y])
  {
    var e := SetSeries(d, b, x);
    assert e.books == d.books[b := d.books[b].(series := x)];
  }

  /** An empty series name leaves the book with neither series nor order, whatever order
      was passed and whatever happens to the save. */
  lemma SeriesStepCleared(s: Step, b: Id, cached: seq<Id>, order: int, f: Faults)
    requires Paired(s.db) && b in s.db.books && s.error.None?
    ensures var r := SeriesStep(s, b, cached, "", order, f);
            b in r.db.books && r.db.books[b].series.None? && r.db.books[b].seriesOrder.None?
  {
  }

  /** A series name leaves the book in a series of that name with the given order: the
      first listed series stored under that name, or a new one, whatever happens to the
      save and the fetch. */
  lemma SeriesStepNamed(s: Step, b: Id, cached: seq<Id>, name: string, order: int, f: Faults)
    requires Fresh(s.db) && SeriesInverse(s.db) && b in s.db.books && s.error.None? && name != ""
    ensures var r := SeriesStep(s, b, cached, name, order, f);
            b in r.db.books && r.db.books[b].series.Some? && r.db.books[b].seriesOrder == Some(order) &&
            var x := r.db.books[b].series.value;
            x in r.db.series && r.db.series[x].name == name && b in r.db.series[x].books &&
            (x in s.db.series ==> GetSeries(s.db, cached, name) == StoredSeries(x)) &&
            (x !in s.db.series ==> GetSeries(s.db, cached, name).UnstoredSeries?)
  {
    var d := s.db;
    var sr := GetSeries(d, cached, name);
    if SeriesDiffers(d.books[b].series, sr) {
      var p := ResolveSeries(d, Some(sr));
      if sr.UnstoredSeries? {
        InsertSeriesShape(d, name);
      }
      SetSeriesOrderShape(p.0, b, p.1.value, Some(order));
    } else {
      assert d.books[b].series == Some(sr.id);
      assert b in d.series[sr.id].books;
    }
  }

  /** `bookUpdateOrAddButtin` keeps the store linked and paired, however far it gets. */
  lemma UpdateOrAddKeeps(d: Db, cached: seq<Id>, b: Id, title: string, refs: seq<AuthorRef>, name: string, order: int, f: Faults)
    requires Linked(d) && Paired(d) && b in d.books && RefsStored(d, refs)
    ensures var r := Effect(d, cached, ModelEvent.BookUpdateOrAddButton(b, title, refs, name, order), f);
            Linked(r.db) && Paired(r.db)
  {
    var s0 := Start(d);
    TitleStepFacts(s0, b, title, f);
    var s1 := TitleStep(s0, b, title, f);
    if s1.error.None? {
      AuthorsStepKeeps(s1, b, refs, f);
      var s2 := AuthorsStep(s1, b, refs, f);
      if s2.error.None? {
        SeriesStepKeeps(s2, b, cached, name, order, f);
      }
    }
  }

  /** The title and author steps of `bookUpdateOrAddButtin`, when neither throws. */
  lemma TitleAndAuthorsSteps(d: Db, b: Id, title: string, refs: seq<AuthorRef>, f: Faults)
    requires Linked(d) && Paired(d) && b in d.books && RefsStored(d, refs)
    ensures var s2 := AuthorsStep(TitleStep(Start(d), b, title, f), b, refs, f);
            s2.error.None? ==>
              Linked(s2.db) && Paired(s2.db) && b in s2.db.books && s2.db.books[b].title == title &&
              Realises(s2.db, b, refs) && s2.db.series == d.series &&
              s2.db.books[b].series == d.books[b].series && s2.db.books[b].seriesOrder == d.books[b].seriesOrder
  {
    var s0 := Start(d);
    TitleStepFacts(s0, b, title, f);
    var s1 := TitleStep(s0, b, title, f);
    if s1.error.None? {
      AuthorsStepKeeps(s1, b, refs, f);
      AuthorsStepFacts(s1, b, refs, f);
    }
  }

  /** `bookUpdateOrAddButtin` that ends without an error leaves the book with the new
      title, the authors the references ask for, and either no series and no order (an
      empty name) or the named series with the given order. */
  lemma UpdateOrAddResult(d: Db, cached: seq<Id>, b: Id, title: string, refs: seq<AuthorRef>, name: string, order: int, f: Faults)
    requires Linked(d) && Paired(d) && b in d.books && RefsStored(d, refs)
    ensures var r := Effect(d, cached, ModelEvent.BookUpdateOrAddButton(b, title, refs, name, order), f);
            r.error.None? ==>
              b in r.db.books && r.db.books[b].title == title && Realises(r.db, b, refs) &&
              (name == "" ==> r.db.books[b].series.None? && r.db.books[b].seriesOrder.None?) &&
              (name != "" ==>
                 r.db.books[b].series.Some? && r.db.books[b].seriesOrder == Some(order) &&
                 var x := r.db.books[b].series.value;
                 x in r.db.series && r.db.series[x].name == name && b in r.db.series[x].books &&
                 (x in d.series ==> GetSeries(d, cached, name) == StoredSeries(x)) &&
                 (x !in d.series ==> GetSeries(d, cached, name).UnstoredSeries?))
  {
    TitleAndAuthorsSteps(d, b, title, refs, f);
    var s2 := AuthorsStep(TitleStep(Start(d), b, title, f), b, refs, f);
    if s2.error.None? {
      GetSeriesOnlySeries(d, s2.db, cached, name);
      SeriesStepKeeps(s2, b, cached, name, order, f);
      SeriesStepOthers(s2, b, cached, name, order, f);
      if name == "" {
        SeriesStepCleared(s2, b, cached, order, f);
      } else {
        SeriesStepNamed(s2, b, cached, name, order, f);
      }
    }
  }

  /** Which lists a successful `bookUpdateOrAddButtin` re-reads: the books exactly when
      the title changed, read right after the title's save; the authors exactly when the
      author list changed, read with the authors as they end; the series exactly when a
      named series differs from the book's, read from the final store. A cleared series
      or an order-only change re-reads nothing. */
  lemma UpdateOrAddRefreshes(d: Db, cached: seq<Id>, b: Id, title: string, refs: seq<AuthorRef>, name: string, order: int, f: Faults)
    requires Linked(d) && Paired(d) && b in d.books && RefsStored(d, refs)
    ensures var r := Effect(d, cached, ModelEvent.BookUpdateOrAddButton(b, title, refs, name, order), f);
            r.error.None? ==>
              r.books == (if d.books[b].title != title then ReadAt(SetTitle(d, b, title)) else Kept) &&
              (r.authors.ReadAt? <==> !SameAuthors(d.books[b].authors, refs)) &&
              (r.authors.ReadAt? ==> r.authors.db.authors == r.db.authors) &&
              (r.series.ReadAt? <==> name != "" && SeriesDiffers(d.books[b].series, GetSeries(d, cached, name))) &&
              (r.series.ReadAt? ==> r.series.db == r.db)
  {
    var e := ModelEvent.BookUpdateOrAddButton(b, title, refs, name, order);
    var s0 := Start(d);
    var s1 := TitleStep(s0, b, title, f);
    TitleStepFacts(s0, b, title, f);
    TitleStepRefresh(s0, b, title, f);
    if s1.error.None? {
      var s2 := AuthorsStep(s1, b, refs, f);
      AuthorsStepFacts(s1, b, refs, f);
      AuthorsStepRefresh(s1, b, refs, f);
      if s2.error.None? {
        assert s2.db.books[b].series == d.books[b].series;
        GetSeriesOnlySeries(d, s2.db, cached, name);
        SeriesStepLists(s2, b, cached, name, order, f);
        SeriesStepRefresh(s2, b, cached, name, order, f);
      }
      assert Effect(d, cached, e, f) == SeriesStep(s2, b, cached, name, order, f);
    }
  }

  /** The title step re-reads the books exactly when the title changes, from the store
      right after the title's save. */
  lemma TitleStepRefresh(s: Step, b: Id, title: string, f: Faults)
    requires b in s.db.books && s.error.None?
    ensures var r := TitleStep(s, b, title, f);
            r.error.None? ==>
              r.books == (if s.db.books[b].title != title then ReadAt(SetTitle(s.db, b, title)) else s.books)
  {
  }

  /** The author step re-reads the authors exactly when the list changes, from the store
      it leaves. */
  lemma AuthorsStepRefresh(s: Step, b: Id, refs: seq<AuthorRef>, f: Faults)
    requires b in s.db.books && RefsStored(s.db, refs) && s.error.None? && s.authors == Kept
    ensures var r := AuthorsStep(s, b, refs, f);
            r.error.None? ==>
              (r.authors.ReadAt? <==> !SameAuthors(s.db.books[b].authors, refs)) &&
              (r.authors.ReadAt? ==> r.authors.db == r.db)
  {
  }

  /** The series step leaves the book and author lists as they were, and the authors too. */
  lemma SeriesStepLists(s: Step, b: Id, cached: seq<Id>, name: string, order: int, f: Faults)
    requires b in s.db.books && s.error.None?
    ensures var r := SeriesStep(s, b, cached, name, order, f);
            r.books == s.books && r.authors == s.authors && r.db.authors == s.db.authors
  {
  }

  /** The series step re-reads the series list exactly when it sets a different named
      series, and reads it from the store it leaves. */
  lemma SeriesStepRefresh(s: Step, b: Id, cached: seq<Id>, name: string, order: int, f: Faults)
    requires b in s.db.books && s.error.None? && s.series == Kept
    ensures var r := SeriesStep(s, b, cached, name, order, f);
            r.error.None? ==>
              (r.series.ReadAt? <==> name != "" && SeriesDiffers(s.db.books[b].series, GetSeries(s.db, cached, name))) &&
              (r.series.ReadAt? ==> r.series.db == r.db)
  {
  }

  /** The title is assigned before anything can throw, so a later failure never undoes
      it; when the title's own save throws, the handler stops with that error and no list
      is re-read. */
  lemma UpdateOrAddTitleStays(d: Db, cached: seq<Id>, b: Id, title: string, refs: seq<AuthorRef>, name: string, order: int, f: Faults)
    requires Linked(d) && Paired(d) && b in d.books && RefsStored(d, refs)
    ensures var r := Effect(d, cached, ModelEvent.BookUpdateOrAddButton(b, title, refs, name, order), f);
            b in r.db.books && r.db.books[b].title == title &&
            (f.failAt == 0 && d.books[b].title != title ==>
               r.db == SetTitle(d, b, title) && r.error == Some(f.description) &&
               r.books == Kept && r.authors == Kept && r.series == Kept)
  {
    var s0 := Start(d);
    TitleStepFacts(s0, b, title, f);
    var s1 := TitleStep(s0, b, title, f);
    if s1.error.None? {
      AuthorsStepKeeps(s1, b, refs, f);
      AuthorsStepFacts(s1, b, refs, f);
      var s2 := AuthorsStep(s1, b, refs, f);
      if s2.error.None? {
        SeriesStepOthers(s2, b, cached, name, order, f);
      }
    }
  }

  /** A book that already has that title, those authors and that series with that order
      makes no call and changes nothing. */
  lemma UpdateOrAddUnchanged(d: Db, cached: seq<Id>, b: Id, title: string, refs: seq<AuthorRef>, name: string, order: int, f: Faults)
    requires b in d.books && RefsStored(d, refs)
    requires d.books[b].title == title && SameAuthors(d.books[b].authors, refs)
    requires name == "" ==> d.books[b].series.None?
    requires name != "" ==> !SeriesDiffers(d.books[b].series, GetSeries(d, cached, name)) && d.books[b].seriesOrder == Some(order)
    ensures Effect(d, cached, ModelEvent.BookUpdateOrAddButton(b, title, refs, name, order), f) == Start(d)
  {
  }

  // ------------------------------------------------------------ adds and edits

  /** `addAuthorButton` stores the author under a fresh id even when the save throws (the
      insert stays in the context); when nothing throws there is one author more and the
      authors are re-read. */
  lemma AddAuthorEffect(d: Db, cached: seq<Id>, uuid: Uuid, lastName: string, firstName: string, f: Faults)
    requires Fresh(d)
    ensures var r := Effect(d, cached, ModelEvent.AddAuthorButton(uuid, lastName, firstName), f);
            r.db.authors.Keys == d.authors.Keys + {d.next} && d.next !in d.authors &&
            Name(r.db.authors[d.next]) == firstName + " " + lastName && r.db.books == d.books &&
            r.books == Kept && r.series == Kept &&
            (f.failAt >= MaxCalls ==> |r.db.authors| == |d.authors| + 1 && r.authors == ReadAt(r.db)) &&
            (f.failAt == 0 ==> r.authors == Kept && r.error == Some(f.description))
  {
    InsertAuthorShape(d, uuid, lastName, firstName);
    EffectHonest(d, cached, ModelEvent.AddAuthorButton(uuid, lastName, firstName), f);
  }

  /** `addBookButton`, as `AddAuthorEffect` for a book. */
  lemma AddBookEffect(d: Db, cached: seq<Id>, title: string, release: Option<Date>, now: Date, f: Faults)
    requires Fresh(d)
    ensures var r := Effect(d, cached, ModelEvent.AddBookButton(title, release, now), f);
            r.db.books.Keys == d.books.Keys + {d.next} && d.next !in d.books &&
            r.db.books[d.next].title == title && r.db.authors == d.authors && r.db.series == d.series &&
            r.authors == Kept && r.series == Kept &&
            (f.failAt >= MaxCalls ==> |r.db.books| == |d.books| + 1 && r.books == ReadAt(r.db)) &&
            (f.failAt == 0 ==> r.books == Kept && r.error == Some(f.description))
  {
    InsertBookShape(d, title, release, now);
    EffectHonest(d, cached, ModelEvent.AddBookButton(title, release, now), f);
  }

  /** `editAuthorDone` renames a stored author and changes nothing else; when nothing
      throws the authors are re-read. */
  lemma EditAuthorEffect(d: Db, cached: seq<Id>, a: Id, firstName: string, lastName: string, f: Faults)
    requires a in d.authors
    ensures var r := Effect(d, cached, ModelEvent.EditAuthorDone(a, firstName, lastName), f);
            r.db.authors[a] == d.authors[a].(firstName := firstName, lastName := lastName) &&
            r.db.authors.Keys == d.authors.Keys && r.db.books == d.books && r.db.series == d.series &&
            (forall x :: x in d.authors && x != a ==> r.db.authors[x] == d.authors[x]) &&
            (f.failAt >= MaxCalls ==> r.authors == ReadAt(r.db))
  {
    EffectHonest(d, cached, ModelEvent.EditAuthorDone(a, firstName, lastName), f);
  }

  /** `editSeriesDone` renames a stored series and changes nothing else; when nothing
      throws the series are re-read. */
  lemma EditSeriesEffect(d: Db, cached: seq<Id>, x: Id, name: string, f: Faults)
    requires x in d.series
    ensures var r := Effect(d, cached, ModelEvent.EditSeriesDone(x, name), f);
            r.db.series[x] == d.series[x].(name := name) &&
            r.db.series.Keys == d.series.Keys && r.db.books == d.books && r.db.authors == d.authors &&
            (forall y :: y in d.series && y != x ==> r.db.series[y] == d.series[y]) &&
            (f.failAt >= MaxCalls ==> r.series == ReadAt(r.db))
  {
    EffectHonest(d, cached, ModelEvent.EditSeriesDone(x, name), f);
  }

  /** Every event keeps the store linked and paired, whichever call throws. */
  lemma EffectKeeps(d: Db, cached: seq<Id>, e: ModelEvent, f: Faults)
    requires Linked(d) && Paired(d) && EventValid(d, e)
    ensures Linked(Effect(d, cached, e, f).db) && Paired(Effect(d, cached, e, f).db)
  {
    match e
    case AddAuthorButton(u, l, n) => InsertAuthorKeeps(d, u, l, n);
    case AddBookButton(t, rel, now) => InsertBookKeeps(d, t, rel, now);
    case BookUpdateOrAddButton(b, t, refs, name, order) => UpdateOrAddKeeps(d, cached, b, t, refs, name, order, f);
    case EditAuthorDone(a, first, last) => SetAuthorNameKeeps(d, a, first, last);
    case EditSeriesDone(x, name) => SetSeriesNameKeeps(d, x, name);
    case OnAuthorDelete(a) => OnAuthorDeleteEffect(d, cached, a, f);
    case OnBookDelete(b) => OnBookDeleteEffect(d, cached, b, f);
    case OnSeriesDelete(x) => OnSeriesDeleteEffect(d, cached, x, f);
  }

  // ---------------------------------------------------------------- scenarios

  /** A list that `read` returns for a single record holds just that record. */
  lemma ListsOne(r: seq<Id>, keys: map<Id, seq<string>>, id: Id)
    requires Lists(r, keys) && keys.Keys == {id}
    ensures r == [id]
  {
    DistinctCard(r, keys);
    assert r[0] in keys;
  }

  /** Adding "John Doe" to an empty store leaves one author, named "John Doe". */
  lemma AddJohnDoe(st: BookState, r: BookState, uuid: Uuid, f: Faults)
    requires f.failAt >= MaxCalls
    requires Follows(r, st, Effect(Empty(), st.series, ModelEvent.AddAuthorButton(uuid, "Doe", "John"), f))
    ensures |r.authors| == 1
    ensures Name(Effect(Empty(), st.series, ModelEvent.AddAuthorButton(uuid, "Doe", "John"), f).db.authors[r.authors[0]]) == "John Doe"
  {
    AddAuthorEffect(Empty(), st.series, uuid, "Doe", "John", f);
    ListsOne(r.authors, SortKeys(InsertAuthor(Empty(), uuid, "Doe", "John"), AuthorKind), 0);
  }

  /** Adding a book to an empty store leaves one book, with that title. */
  lemma AddOneBook(st: BookState, r: BookState, title: string, release: Option<Date>, now: Date, f: Faults)
    requires f.failAt >= MaxCalls
    requires Follows(r, st, Effect(Empty(), st.series, ModelEvent.AddBookButton(title, release, now), f))
    ensures |r.books| == 1
    ensures Effect(Empty(), st.series, ModelEvent.AddBookButton(title, release, now), f).db.books[r.books[0]].title == title
  {
    AddBookEffect(Empty(), st.series, title, release, now, f);
    ListsOne(r.books, SortKeys(InsertBook(Empty(), title, release, now), BookKind), 0);
  }

  /** The store after each event of the series scenario below. */
  function ScenarioBook(now: Date): Db
  {
    InsertBook(Empty(), "Test Book", None, now)
  }

  function ScenarioInSeries(now: Date): Db
  {
    SetOrder(SetSeries(InsertSeries(ScenarioBook(now), "Test Series"), 0, Some(1)), 0, Some(3))
  }

  function ScenarioReordered(now: Date): Db
  {
    SetOrder(ScenarioInSeries(now), 0, Some(2))
  }

  function ScenarioCleared(now: Date): Db
  {
    SetOrder(SetSeries(ScenarioReordered(now), 0, None), 0, None)
  }

  lemma ScenarioFirstUpdate(now: Date, f: Faults)
    ensures Effect(ScenarioBook(now), [], ModelEvent.BookUpdateOrAddButton(0, "Test Book", [], "Test Series", 3), f).db
            == ScenarioInSeries(now)
  {
    var d1 := ScenarioBook(now);
    assert d1.next == 1 && d1.books[0].title == "Test Book" && d1.books[0].authors == [] && d1.books[0].series.None?;
    assert SameAuthors(d1.books[0].authors, []);
  }

  lemma ScenarioSecondUpdate(now: Date, f: Faults)
    ensures Effect(ScenarioInSeries(now), [1], ModelEvent.BookUpdateOrAddButton(0, "Test Book", [], "Test Series", 2), f).db
            == ScenarioReordered(now)
  {
    var d2 := ScenarioInSeries(now);
    assert d2.books[0].title == "Test Book" && d2.books[0].authors == [] && d2.books[0].series == Some(1);
    assert SameAuthors(d2.books[0].authors, []);
    assert 1 in d2.series && d2.series[1].name == "Test Series";
    assert GetSeries(d2, [1], "Test Series") == StoredSeries(1);
  }

  lemma ScenarioThirdUpdate(now: Date, f: Faults)
    ensures Effect(ScenarioReordered(now), [1], ModelEvent.BookUpdateOrAddButton(0, "Test Book", [], "", 0), f).db
            == ScenarioCleared(now)
  {
    var d3 := ScenarioReordered(now);
    assert d3.books[0].title == "Test Book" && d3.books[0].authors == [] && d3.books[0].series == Some(1);
    assert SameAuthors(d3.books[0].authors, []);
  }

  /** The series test, event by event: a new book put in "Test Series" at 3 makes that
      series, the only one; asking for order 2 in the same series moves only the order;
      an empty name then takes the book out of the series and clears its order. The
      writes do not depend on which call throws, since each is made before its save. */
  lemma SeriesScenario(now: Date, f: Faults, listed: seq<Id>)
    requires Lists(listed, SortKeys(ScenarioInSeries(now), SeriesKind))
    ensures Effect(Empty(), [], ModelEvent.AddBookButton("Test Book", None, now), f).db == ScenarioBook(now)
    ensures Effect(ScenarioBook(now), [], ModelEvent.BookUpdateOrAddButton(0, "Test Book", [], "Test Series", 3), f).db
            == ScenarioInSeries(now)
    ensures Effect(ScenarioInSeries(now), listed, ModelEvent.BookUpdateOrAddButton(0, "Test Book", [], "Test Series", 2), f).db
            == ScenarioReordered(now)
    ensures Effect(ScenarioReordered(now), listed, ModelEvent.BookUpdateOrAddButton(0, "Test Book", [], "", 0), f).db
            == ScenarioCleared(now)
    ensures |listed| == 1 && listed[0] in ScenarioInSeries(now).series &&
            ScenarioInSeries(now).series[listed[0]].name == "Test Series"
    ensures var d3 := ScenarioReordered(now);
            0 in d3.books && d3.books[0].series == Some(listed[0]) && d3.books[0].seriesOrder == Some(2) &&
            d3.series.Keys == ScenarioInSeries(now).series.Keys
    ensures var d4 := ScenarioCleared(now);
            0 in d4.books && d4.books[0].series.None? && d4.books[0].seriesOrder.None?
  {
    ScenarioStores(now);
    ListsOne(listed, SortKeys(ScenarioInSeries(now), SeriesKind), 1);
    ScenarioFirstUpdate(now, f);
    ScenarioSecondUpdate(now, f);
    ScenarioThirdUpdate(now, f);
  }

  lemma ScenarioStores(now: Date)
    ensures ScenarioInSeries(now).series.Keys == {1} && ScenarioInSeries(now).series[1].name == "Test Series"
    ensures var d3 := ScenarioReordered(now);
            0 in d3.books && d3.books[0].series == Some(1) && d3.books[0].seriesOrder == Some(2) &&
            d3.series.Keys == {1}
    ensures var d4 := ScenarioCleared(now);
            0 in d4.books && d4.books[0].series.None? && d4.books[0].seriesOrder.None?
  {
  }
}
