/** Strings as sequences of characters: Swift's `split(separator:omittingEmptySubsequences: true)`,
    `joined(separator:)`, the `reduce` join of the legacy schemas, and ASCII case folding. */
module Text {

  /** The longest prefix of `s` that holds no `sep`. */
  function Token(s: string, sep: char): (t: string)
    ensures t <= s && sep !in t
    ensures |t| < |s| ==> s[|t|] == sep
  {
    if s == [] || s[0] == sep then [] else [s[0]] + Token(s[1..], sep)
  }

  /** `s.split(separator: sep, omittingEmptySubsequences: true)`: the maximal runs of
      characters other than `sep`, in order. */
  function Split(s: string, sep: char): (r: seq<string>)
    ensures forall i :: 0 <= i < |r| ==> r[i] != [] && sep !in r[i]
    decreases |s|
  {
    if s == [] then []
    else if s[0] == sep then Split(s[1..], sep)
    else
      var t := Token(s, sep);
      [t] + Split(s[|t|..], sep)
  }

  /** `ps.joined(separator: sep)`. */
  function Join(ps: seq<string>, sep: string): string
  {
    if ps == [] then [] else if |ps| == 1 then ps[0] else ps[0] + sep + Join(ps[1..], sep)
  }

  /** Pieces that `Split` can return: non-empty and free of the separator. */
  ghost predicate Pieces(ps: seq<string>, sep: char)
  {
    forall i :: 0 <= i < |ps| ==> ps[i] != [] && sep !in ps[i]
  }

  lemma {:induction false} TokenOfPiece(p: string, rest: string, sep: char)
    requires sep !in p
    requires rest == [] || rest[0] == sep
    ensures Token(p + rest, sep) == p
    decreases |p|
  {
    if p == [] {
      assert p + rest == rest;
    } else {
      assert (p + rest)[1..] == p[1..] + rest;
      TokenOfPiece(p[1..], rest, sep);
    }
  }

  /** Splitting a joined list of pieces gives the pieces back. */
  lemma {:induction false} SplitJoin(ps: seq<string>, sep: char)
    requires Pieces(ps, sep)
    ensures Split(Join(ps, [sep]), sep) == ps
    decreases |ps|
  {
    if ps == [] {
    } else if |ps| == 1 {
      TokenOfPiece(ps[0], [], sep);
      assert ps[0] + [] == ps[0];
      assert ps[0][|ps[0]|..] == [];
    } else {
      var rest := Join(ps[1..], [sep]);
      assert Join(ps, [sep]) == ps[0] + ([sep] + rest);
      SplitJoin(ps[1..], sep);
      SplitPieceThen(ps[0], rest, sep);
      assert ps == [ps[0]] + ps[1..];
    }
  }

  /** A piece followed by a separator splits into that piece and whatever the rest splits into. */
  lemma SplitPieceThen(p: string, rest: string, sep: char)
    requires p != [] && sep !in p
    ensures Split(p + ([sep] + rest), sep) == [p] + Split(rest, sep)
  {
    var s := p + ([sep] + rest);
    TokenOfPiece(p, [sep] + rest, sep);
    assert s[|p|..] == [sep] + rest;
    assert ([sep] + rest)[1..] == rest;
  }

  /** Splitting a string with no separator at all gives the string itself, if it is not empty. */
  lemma {:induction false} SplitSingle(p: string, sep: char)
    requires p != [] && sep !in p
    ensures Split(p, sep) == [p]
  {
    SplitJoin([p], sep);
  }

  /** A string made only of separators splits into nothing. */
  lemma {:induction false} SplitOnlySeparators(s: string, sep: char)
    requires forall i :: 0 <= i < |s| ==> s[i] == sep
    ensures Split(s, sep) == []
    decreases |s|
  {
    if s != [] {
      SplitOnlySeparators(s[1..], sep);
    }
  }

  /** The left fold `rest.reduce(acc) { $0 + ", \($1)" }` of the legacy schemas. */
  function FoldJoin(acc: string, rest: seq<string>): string
    decreases |rest|
  {
    if rest == [] then acc else FoldJoin(acc + ", " + rest[0], rest[1..])
  }

  /** The left fold computes the same string as `joined(separator: ", ")`. */
  lemma {:induction false} FoldJoinIsJoin(acc: string, rest: seq<string>)
    ensures FoldJoin(acc, rest) == Join([acc] + rest, ", ")
    decreases |rest|
  {
    if rest == [] {
      assert [acc] + rest == [acc];
    } else {
      FoldJoinIsJoin(acc + ", " + rest[0], rest[1..]);
      assert ([acc + ", " + rest[0]] + rest[1..])[1..] == rest[1..];
      assert ([acc] + rest)[1..] == rest;
      JoinCons(acc, rest, ", ");
      JoinCons(rest[0], rest[1..], ", ");
      if |rest| == 1 {
        assert rest[1..] == [];
      } else {
        JoinCons(acc + ", " + rest[0], rest[1..], ", ");
      }
    }
  }

  lemma JoinCons(p: string, rest: seq<string>, sep: string)
    ensures Join([p] + rest, sep) == if rest == [] then p else p + sep + Join(rest, sep)
  {
    assert ([p] + rest)[1..] == rest;
  }

  /** ASCII lower-casing of one character; other characters are unchanged. */
  function LowerChar(c: char): (d: char)
    ensures 'A' <= c <= 'Z' ==> d as int == c as int + 32
    ensures !('A' <= c <= 'Z') ==> d == c
  {
    if 'A' <= c <= 'Z' then (c as int + 32) as char else c
  }

  /** `s.lowercased()`, restricted to ASCII letters. */
  function Lower(s: string): (r: string)
    ensures |r| == |s|
    ensures forall i :: 0 <= i < |s| ==> r[i] == LowerChar(s[i])
  {
    if s == [] then [] else [LowerChar(s[0])] + Lower(s[1..])
  }
}
