/** Cells of a square grid and the order in which a nested
    `for x … for y …` loop visits them: x-major, then y. Both passes of the
    generator walk the grid this way and append the cells they keep to a list,
    so the lists they build are the kept cells in this order. */
module GridScan {

  /** A tile coordinate; the first component indexes the outer array. */
  datatype Coord = Coord(x: int, y: int)

  predicate InGrid(n: int, c: Coord) {
    0 <= c.x < n && 0 <= c.y < n
  }

  /** `a` is visited strictly before `b` by the nested x/y loops. */
  predicate Precedes(a: Coord, b: Coord) {
    a.x < b.x || (a.x == b.x && a.y < b.y)
  }

  predicate StrictlyIncreasing(s: seq<Coord>) {
    forall i, j :: 0 <= i < j < |s| ==> Precedes(s[i], s[j])
  }

  /** The cells kept by `keep`, in visiting order, that nested loops over
      `0 <= x` and `0 <= y < n` have visited before reaching (x, y). */
  function Visited(n: nat, x: nat, y: nat, keep: Coord -> bool): seq<Coord>
    requires y <= n
    decreases x, y
  {
    if y > 0 then
      Visited(n, x, y - 1, keep) + (if keep(Coord(x, y - 1)) then [Coord(x, y - 1)] else [])
    else if x > 0 then
      Visited(n, x - 1, n, keep)
    else
      []
  }

  /** The cells of the n×n grid kept by `keep`, in visiting order. */
  function Scan(n: nat, keep: Coord -> bool): seq<Coord> {
    Visited(n, n, 0, keep)
  }

  /** `a` is obtained from `b` by deleting elements (order is kept). */
  predicate SubsequenceOf<T(==)>(a: seq<T>, b: seq<T>)
    decreases |b|
  {
    if b == [] then a == []
    else
      SubsequenceOf(a, b[..|b| - 1])
      || (a != [] && a[|a| - 1] == b[|b| - 1] && SubsequenceOf(a[..|a| - 1], b[..|b| - 1]))
  }

  /** A cell is listed exactly when it lies in the columns scanned so far,
      comes before (x, y), and is kept. */
  lemma {:induction false} VisitedMembers(n: nat, x: nat, y: nat, keep: Coord -> bool, c: Coord)
    requires y <= n
    ensures c in Visited(n, x, y, keep)
        <==> 0 <= c.x && 0 <= c.y < n && Precedes(c, Coord(x, y)) && keep(c)
    decreases x, y
  {
    if y > 0 {
      VisitedMembers(n, x, y - 1, keep, c);
    } else if x > 0 {
      VisitedMembers(n, x - 1, n, keep, c);
    }
  }

  lemma ScanMembers(n: nat, keep: Coord -> bool, c: Coord)
    ensures c in Scan(n, keep) <==> InGrid(n, c) && keep(c)
  {
    VisitedMembers(n, n, 0, keep, c);
  }

  /** The list is in visiting order, hence without duplicates. */
  lemma {:induction false} VisitedIncreasing(n: nat, x: nat, y: nat, keep: Coord -> bool)
    requires y <= n
    ensures StrictlyIncreasing(Visited(n, x, y, keep))
    decreases x, y
  {
    if y > 0 {
      var s := Visited(n, x, y - 1, keep);
      var c := Coord(x, y - 1);
      VisitedIncreasing(n, x, y - 1, keep);
      forall i | 0 <= i < |s|
        ensures Precedes(s[i], c)
      {
        VisitedMembers(n, x, y - 1, keep, s[i]);
      }
    } else if x > 0 {
      VisitedIncreasing(n, x - 1, n, keep);
    }
  }

  lemma ScanIncreasing(n: nat, keep: Coord -> bool)
    ensures StrictlyIncreasing(Scan(n, keep))
    ensures forall i, j :: 0 <= i < j < |Scan(n, keep)| ==> Scan(n, keep)[i] != Scan(n, keep)[j]
  {
    VisitedIncreasing(n, n, 0, keep);
  }

  /** Keeping fewer cells in the same scan yields a subsequence. */
  lemma {:induction false} VisitedSubsequence(n: nat, x: nat, y: nat, fewer: Coord -> bool, more: Coord -> bool)
    requires y <= n
    requires forall c :: fewer(c) ==> more(c)
    ensures SubsequenceOf(Visited(n, x, y, fewer), Visited(n, x, y, more))
    decreases x, y
  {
    if y > 0 {
      var a := Visited(n, x, y - 1, fewer);
      var b := Visited(n, x, y - 1, more);
      var c := Coord(x, y - 1);
      VisitedSubsequence(n, x, y - 1, fewer, more);
      if fewer(c) {
        assert (a + [c])[..|a|] == a;
        assert (b + [c])[..|b|] == b;
      } else if more(c) {
        assert Visited(n, x, y, fewer) == a;
        assert (b + [c])[..|b|] == b;
      } else {
        assert Visited(n, x, y, fewer) == a;
        assert Visited(n, x, y, more) == b;
      }
    } else if x > 0 {
      VisitedSubsequence(n, x - 1, n, fewer, more);
    }
  }

  lemma ScanSubsequence(n: nat, fewer: Coord -> bool, more: Coord -> bool)
    requires forall c :: fewer(c) ==> more(c)
    ensures SubsequenceOf(Scan(n, fewer), Scan(n, more))
  {
    VisitedSubsequence(n, n, 0, fewer, more);
  }

  /** The scan only looks at cells of the grid: two tests that agree there
      list the same cells. */
  lemma {:induction false} VisitedCongruent(n: nat, x: nat, y: nat, k1: Coord -> bool, k2: Coord -> bool)
    requires y <= n && (x < n || (x == n && y == 0))
    requires forall c :: InGrid(n, c) ==> k1(c) == k2(c)
    ensures Visited(n, x, y, k1) == Visited(n, x, y, k2)
    decreases x, y
  {
    if y > 0 {
      VisitedCongruent(n, x, y - 1, k1, k2);
      assert InGrid(n, Coord(x, y - 1));
    } else if x > 0 {
      VisitedCongruent(n, x - 1, n, k1, k2);
    }
  }

  lemma ScanCongruent(n: nat, k1: Coord -> bool, k2: Coord -> bool)
    requires forall c :: InGrid(n, c) ==> k1(c) == k2(c)
    ensures Scan(n, k1) == Scan(n, k2)
  {
    VisitedCongruent(n, n, 0, k1, k2);
  }
}
