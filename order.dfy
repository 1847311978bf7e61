/** The order `BookDB.read(sortBy:)` returns records in: ascending by a list of string sort
    keys, the first key deciding and later keys breaking ties (`[title]` for books,
    `[lastName, firstName]` for authors, `[name]` for series). Strings compare character
    by character. */
module Order {
  import opened Records

  /** `a` sorts before or together with `b`: a prefix comes first, otherwise the first
      differing character decides. */
  predicate StrLe(a: string, b: string)
  {
    a == [] || (b != [] && (a[0] < b[0] || (a[0] == b[0] && StrLe(a[1..], b[1..]))))
  }

  /** Key lists compare key by key; a shorter list that agrees on its keys comes first. */
  predicate KeyLe(a: seq<string>, b: seq<string>)
  {
    a == [] || (b != [] && ((StrLe(a[0], b[0]) && a[0] != b[0]) || (a[0] == b[0] && KeyLe(a[1..], b[1..]))))
  }

  lemma {:induction false} StrLeTotal(a: string, b: string)
    ensures StrLe(a, b) || StrLe(b, a)
  {
    if a != [] && b != [] && a[0] == b[0] {
      StrLeTotal(a[1..], b[1..]);
    }
  }

  lemma {:induction false} StrLeTrans(a: string, b: string, c: string)
    requires StrLe(a, b) && StrLe(b, c)
    ensures StrLe(a, c)
  {
    if a != [] && b != [] && c != [] && a[0] == b[0] && b[0] == c[0] {
      StrLeTrans(a[1..], b[1..], c[1..]);
    }
  }

  lemma {:induction false} StrLeAntisymmetric(a: string, b: string)
    requires StrLe(a, b) && StrLe(b, a)
    ensures a == b
  {
    if a != [] {
      StrLeAntisymmetric(a[1..], b[1..]);
      assert a == [a[0]] + a[1..] && b == [b[0]] + b[1..];
    }
  }

  lemma {:induction false} KeyLeTotal(a: seq<string>, b: seq<string>)
    ensures KeyLe(a, b) || KeyLe(b, a)
  {
    if a != [] && b != [] {
      if a[0] == b[0] {
        KeyLeTotal(a[1..], b[1..]);
      } else {
        StrLeTotal(a[0], b[0]);
      }
    }
  }

  lemma {:induction false} KeyLeTrans(a: seq<string>, b: seq<string>, c: seq<string>)
    requires KeyLe(a, b) && KeyLe(b, c)
    ensures KeyLe(a, c)
  {
    if a != [] && b != [] && c != [] {
      if a[0] == b[0] && b[0] == c[0] {
        KeyLeTrans(a[1..], b[1..], c[1..]);
      } else if a[0] == b[0] || b[0] == c[0] {
      } else {
        StrLeTrans(a[0], b[0], c[0]);
        if a[0] == c[0] {
          StrLeAntisymmetric(a[0], b[0]);
        }
      }
    }
  }

  /** `r` lists ids whose keys ascend. */
  ghost predicate Ascending(r: seq<Id>, keys: map<Id, seq<string>>)
  {
    (forall i :: 0 <= i < |r| ==> r[i] in keys) &&
    (forall i, j :: 0 <= i < j < |r| ==> KeyLe(keys[r[i]], keys[r[j]]))
  }

  /** `r` is what `read` returns: every record of the kind exactly once, in ascending key
      order. Records with equal keys may come in any order. */
  ghost predicate Lists(r: seq<Id>, keys: map<Id, seq<string>>)
  {
    Ascending(r, keys) && Distinct(r) &&
    (forall id :: id in r <==> id in keys)
  }

  /** Two answers of `read` for the same records hold the same ids, the same number of
      times. */
  lemma ListsAgree(r: seq<Id>, r': seq<Id>, keys: map<Id, seq<string>>)
    requires Lists(r, keys) && Lists(r', keys)
    ensures |r| == |r'| == |keys|
  {
    DistinctCard(r, keys);
    DistinctCard(r', keys);
  }

  lemma DistinctCard(r: seq<Id>, keys: map<Id, seq<string>>)
    requires Lists(r, keys)
    ensures |r| == |keys|
  {
    DistinctSetSize(r);
    assert Elements(r) == keys.Keys;
  }

  /** The ids a list holds. */
  ghost function Elements(r: seq<Id>): set<Id>
  {
    set id: Id | id in r
  }

  lemma {:induction false} DistinctSetSize(r: seq<Id>)
    requires Distinct(r)
    ensures |Elements(r)| == |r|
  {
    if r != [] {
      var t := r[..|r| - 1];
      DistinctSetSize(t);
      var last := r[|r| - 1];
      assert r == t + [last];
      assert Elements(r) == Elements(t) + {last};
      assert last !in Elements(t);
    }
  }

  /** No id occurs twice. */
  predicate Distinct(r: seq<Id>)
  {
    forall i, j :: 0 <= i < j < |r| ==> r[i] != r[j]
  }

  /** Inserts `x` after every id whose key sorts before or together with its key. */
  method Insert(r: seq<Id>, x: Id, keys: map<Id, seq<string>>) returns (s: seq<Id>)
    requires Ascending(r, keys) && x in keys
    ensures Ascending(s, keys)
    ensures multiset(s) == multiset(r) + multiset{x}
    ensures Distinct(r) && x !in r ==> Distinct(s)
  {
    var i := 0;
    while i < |r| && KeyLe(keys[r[i]], keys[x])
      invariant 0 <= i <= |r|
      invariant forall j :: 0 <= j < i ==> KeyLe(keys[r[j]], keys[x])
    {
      i := i + 1;
    }
    if i < |r| {
      KeyLeTotal(keys[r[i]], keys[x]);
      forall j | i <= j < |r|
        ensures KeyLe(keys[x], keys[r[j]])
      {
        if j > i {
          KeyLeTrans(keys[x], keys[r[i]], keys[r[j]]);
        }
      }
    }
    s := r[..i] + [x] + r[i..];
    assert r == r[..i] + r[i..];
    InsertedAscending(r, i, x, keys);
    if Distinct(r) && x !in r {
      InsertedDistinct(r, i, x);
    }
  }

  lemma InsertedAscending(r: seq<Id>, i: nat, x: Id, keys: map<Id, seq<string>>)
    requires Ascending(r, keys) && x in keys && i <= |r|
    requires forall j :: 0 <= j < i ==> KeyLe(keys[r[j]], keys[x])
    requires forall j :: i <= j < |r| ==> KeyLe(keys[x], keys[r[j]])
    ensures Ascending(r[..i] + [x] + r[i..], keys)
  {
    var s := r[..i] + [x] + r[i..];
    forall p, q | 0 <= p < q < |s|
      ensures KeyLe(keys[s[p]], keys[s[q]])
    {
      if q == i {
        assert s[p] == r[p];
      } else if p == i {
        assert s[q] == r[q - 1];
      } else if p < i && q > i {
        assert s[p] == r[p] && s[q] == r[q - 1];
        KeyLeTrans(keys[s[p]], keys[x], keys[s[q]]);
      } else if p < i {
        assert s[p] == r[p] && s[q] == r[q];
      } else {
        assert s[p] == r[p - 1] && s[q] == r[q - 1];
      }
    }
  }

  lemma InsertedDistinct(r: seq<Id>, i: nat, x: Id)
    requires Distinct(r) && x !in r && i <= |r|
    ensures Distinct(r[..i] + [x] + r[i..])
  {
    var s := r[..i] + [x] + r[i..];
    forall p, q | 0 <= p < q < |s|
      ensures s[p] != s[q]
    {
      if p != i && q != i {
        var p' := if p < i then p else p - 1;
        var q' := if q < i then q else q - 1;
        assert s[p] == r[p'] && s[q] == r[q'];
      } else if p == i {
        assert s[q] == r[q - 1];
      } else {
        assert s[p] == r[p];
      }
    }
  }

  /** `read(sortBy:)`: lists every id of `keys` once, in ascending key order. */
  method SortIds(keys: map<Id, seq<string>>) returns (r: seq<Id>)
    ensures Lists(r, keys)
  {
    r := [];
    var left := keys.Keys;
    while left != {}
      invariant Ascending(r, keys) && Distinct(r)
      invariant left <= keys.Keys
      invariant forall id :: id in r <==> id in keys && id !in left
      decreases left
    {
      var x :| x in left;
      var s := Insert(r, x, keys);
      assert forall id :: id in s <==> id in r || id == x by {
        forall id
          ensures id in s <==> id in multiset(s)
          ensures id in r <==> id in multiset(r)
        {
        }
      }
      r := s;
      left := left - {x};
    }
  }
}
