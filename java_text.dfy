/**
 * The few java.lang.String operations the lexer and the help formatter rely on:
 * `indexOf` of a character and `split` around a single, non-special character.
 * Strings are sequences of characters: one Dafny `char` per Java `char`, for text
 * without surrogate code units (characters outside the Basic Multilingual Plane
 * are not modelled).
 */
module JavaText {

  /** `s.indexOf(ch)`: the first position of `ch` in `s`, or -1 when there is none. */
  function IndexOf(s: string, ch: char): (r: int)
    ensures -1 <= r < |s|
    ensures r == -1 <==> ch !in s
    ensures r >= 0 ==> s[r] == ch && ch !in s[..r]
  {
    if s == [] then -1
    else if s[0] == ch then 0
    else
      var k := IndexOf(s[1..], ch);
      assert s[1..][..if k < 0 then 0 else k] == s[1..1 + if k < 0 then 0 else k];
      if k < 0 then -1 else k + 1
  }

  /** Every character of `s` is a space. */
  predicate IsSpaces(s: string) {
    forall k :: 0 <= k < |s| ==> s[k] == ' '
  }

  /** `n` spaces. */
  function Spaces(n: nat): (r: string)
    ensures |r| == n && IsSpaces(r)
  {
    seq(n, _ => ' ')
  }

  /** One more space. */
  lemma SpacesGrow(n: nat)
    ensures Spaces(n) + " " == Spaces(n + 1)
  {
    assert forall k :: 0 <= k < n + 1 ==> (Spaces(n) + " ")[k] == ' ';
  }

  /**
   * The pieces of `s` between the occurrences of `c`, empty pieces included:
   * k occurrences of `c` give k + 1 pieces, none of which contains `c`.
   */
  function Pieces(s: string, c: char): (r: seq<string>)
    ensures |r| >= 1
    ensures forall k :: 0 <= k < |r| ==> c !in r[k]
  {
    if s == [] then [""]
    else
      var rest := Pieces(s[1..], c);
      if s[0] == c then [""] + rest
      else [[s[0]] + rest[0]] + rest[1..]
  }

  /** The pieces joined again, with `c` between neighbours. */
  function Join(ps: seq<string>, c: char): string
  {
    if |ps| == 0 then ""
    else if |ps| == 1 then ps[0]
    else ps[0] + [c] + Join(ps[1..], c)
  }

  /** `ps` without its trailing empty strings. */
  function DropTrailingEmpty(ps: seq<string>): (r: seq<string>)
    ensures r <= ps
    ensures r == [] || r[|r| - 1] != ""
    ensures forall k :: |r| <= k < |ps| ==> ps[k] == ""
  {
    if ps == [] then []
    else if ps[|ps| - 1] == "" then DropTrailingEmpty(ps[..|ps| - 1])
    else ps
  }

  /**
   * `s.split(c)` for a one-character pattern that is not a regular-expression
   * metacharacter: the whole input when `c` does not occur, otherwise the pieces
   * around each `c` with the trailing empty pieces removed.
   */
  function Split(s: string, c: char): (r: seq<string>)
    ensures forall k :: 0 <= k < |r| ==> c !in r[k]
    ensures c !in s ==> r == [s]
  {
    if c !in s then [s] else DropTrailingEmpty(Pieces(s, c))
  }

  /** Concatenation regroups. */
  lemma Regroup<T>(x: seq<T>, y: seq<T>, z: seq<T>)
    ensures (x + y) + z == x + (y + z)
  {
  }

  /** Joining a first piece onto at least one more puts `c` between them. */
  lemma JoinCons(a: string, ps: seq<string>, c: char)
    requires |ps| >= 1
    ensures Join([a] + ps, c) == a + [c] + Join(ps, c)
  {
    assert ([a] + ps)[1..] == ps;
  }

  /** Joining two non-empty lists of pieces puts `c` between their joins. */
  lemma {:induction false} JoinAppend(ps: seq<string>, qs: seq<string>, c: char)
    requires |ps| >= 1 && |qs| >= 1
    ensures Join(ps + qs, c) == Join(ps, c) + [c] + Join(qs, c)
  {
    if |ps| == 1 {
      JoinCons(ps[0], qs, c);
      assert ps + qs == [ps[0]] + qs;
    } else {
      JoinAppend(ps[1..], qs, c);
      assert ps + qs == [ps[0]] + (ps[1..] + qs);
      JoinCons(ps[0], ps[1..] + qs, c);
      JoinCons(ps[0], ps[1..], c);
      assert ps == [ps[0]] + ps[1..];
    }
  }

  /** Joining the pieces of `s` gives `s` back. */
  lemma {:induction false} JoinPieces(s: string, c: char)
    ensures Join(Pieces(s, c), c) == s
  {
    if s != [] {
      JoinPieces(s[1..], c);
      var rest := Pieces(s[1..], c);
      if s[0] == c {
        assert Pieces(s, c) == [""] + rest;
        assert ([""] + rest)[1..] == rest;
      } else {
        var ps := Pieces(s, c);
        var r0 := rest[0];
        assert ps == [[s[0]] + r0] + rest[1..];
        if |rest| == 1 {
          assert Join(ps, c) == [s[0]] + r0;
        } else {
          var j := Join(rest[1..], c);
          assert ps[1..] == rest[1..];
          assert Join(rest, c) == r0 + [c] + j;
          assert Join(ps, c) == [s[0]] + r0 + [c] + j;
          Regroup([s[0]] + r0, [c], j);
          Regroup([s[0]], r0, [c] + j);
          Regroup(r0, [c], j);
        }
        assert [s[0]] + s[1..] == s;
      }
    }
  }

  /** A string without `c` is a single piece. */
  lemma {:induction false} PiecesOfFree(s: string, c: char)
    requires c !in s
    ensures Pieces(s, c) == [s]
  {
    if s != [] {
      assert c !in s[1..];
      PiecesOfFree(s[1..], c);
      assert [s[0]] + s[1..] == s;
    }
  }

  /** Splitting at one occurrence of `c` splits the pieces there. */
  lemma {:induction false} PiecesAt(a: string, b: string, c: char)
    ensures Pieces(a + [c] + b, c) == Pieces(a, c) + Pieces(b, c)
  {
    var s := a + [c] + b;
    var pb := Pieces(b, c);
    if a == [] {
      assert s[1..] == b;
      assert Pieces(s, c) == [""] + pb;
    } else {
      assert s[1..] == a[1..] + [c] + b;
      PiecesAt(a[1..], b, c);
      var pa := Pieces(a[1..], c);
      assert Pieces(s[1..], c) == pa + pb;
      if a[0] == c {
        assert Pieces(s, c) == [""] + (pa + pb);
        assert Pieces(a, c) == [""] + pa;
        Regroup([""], pa, pb);
      } else {
        assert Pieces(s, c) == [[a[0]] + (pa + pb)[0]] + (pa + pb)[1..];
        assert Pieces(a, c) == [[a[0]] + pa[0]] + pa[1..];
        assert (pa + pb)[0] == pa[0];
        assert (pa + pb)[1..] == pa[1..] + pb;
        Regroup([[a[0]] + pa[0]], pa[1..], pb);
      }
    }
  }

  /** Joining pieces free of `c` and splitting again gives the pieces back. */
  lemma {:induction false} PiecesJoin(ps: seq<string>, c: char)
    requires |ps| >= 1
    requires forall k :: 0 <= k < |ps| ==> c !in ps[k]
    ensures Pieces(Join(ps, c), c) == ps
  {
    if |ps| == 1 {
      PiecesOfFree(ps[0], c);
    } else {
      PiecesJoin(ps[1..], c);
      PiecesOfFree(ps[0], c);
      PiecesAt(ps[0], Join(ps[1..], c), c);
      assert [ps[0]] + ps[1..] == ps;
    }
  }

  /** A prefix of `s` without `c` is a prefix of its first piece. */
  lemma {:induction false} PiecesKeepPrefix(p: string, s: string, c: char)
    requires c !in p && p <= s
    ensures p <= Pieces(s, c)[0]
  {
    if p != [] {
      assert s[0] == p[0] && p[0] != c;
      assert p[1..] <= s[1..];
      PiecesKeepPrefix(p[1..], s[1..], c);
      var r0 := Pieces(s[1..], c)[0];
      assert Pieces(s, c)[0] == [s[0]] + r0;
      assert p == [p[0]] + p[1..];
    }
  }

  /** A character absent from `s` is absent from every piece of it. */
  lemma {:induction false} PiecesAvoid(s: string, c: char, d: char)
    requires d !in s
    ensures forall k :: 0 <= k < |Pieces(s, c)| ==> d !in Pieces(s, c)[k]
  {
    if s != [] {
      assert d !in s[1..];
      PiecesAvoid(s[1..], c, d);
    }
  }

  /** As `PiecesAvoid`, for `split`. */
  lemma SplitAvoids(s: string, c: char, d: char)
    requires d !in s
    ensures forall k :: 0 <= k < |Split(s, c)| ==> d !in Split(s, c)[k]
  {
    PiecesAvoid(s, c, d);
  }

  /** The last piece is what follows the last `c`; it is empty exactly when `s` ends in `c` or is empty. */
  lemma {:induction false} LastPieceNonEmpty(s: string, c: char)
    requires s != [] && s[|s| - 1] != c
    ensures Pieces(s, c)[|Pieces(s, c)| - 1] != ""
  {
    if |s| > 1 {
      assert s[1..][|s[1..]| - 1] == s[|s| - 1];
      LastPieceNonEmpty(s[1..], c);
    }
  }

  /** When `s` does not end in `c`, `split` keeps every piece and joining gives `s` back. */
  lemma SplitJoin(s: string, c: char)
    requires s == [] || s[|s| - 1] != c
    ensures Split(s, c) == (if c in s then Pieces(s, c) else [s])
    ensures Join(Split(s, c), c) == s
  {
    if c in s {
      LastPieceNonEmpty(s, c);
      JoinPieces(s, c);
    }
  }
}
