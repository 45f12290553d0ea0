// The triangular matrix of station pairs, packed into one list.

module UpperMatrix {
  import opened Basics

  const SIZE_MAX: nat := 0xffff_ffff_ffff_ffff

  // The number of cells in the first n columns.
  function Tri(n: nat): nat {
    if n == 0 then 0 else Tri(n - 1) + n - 1
  }

  lemma {:induction false} TriFormula(n: nat)
    ensures n * n - n == 2 * Tri(n)
  {
    if n > 0 {
      TriFormula(n - 1);
      assert (n - 1) * (n - 1) == n * n - 2 * n + 1;
    }
  }

  // The offset of the cell of x and y.
  function Position(x: nat, y: nat): nat {
    if y <= x then Tri(x) + y else Tri(y) + x
  }

  // The offset as the source computes it.
  method ComputePosition(x: nat, y: nat) returns (p: nat)
    ensures p == Position(x, y)
  {
    var xc, yc := if x < y then y else x, if x < y then x else y;
    TriFormula(xc);
    p := (xc * xc - xc) / 2 + yc;
  }

  lemma {:induction false} TriGrows(m: nat, n: nat)
    requires m <= n
    ensures Tri(m) <= Tri(n)
    ensures m < n ==> Tri(m) + m <= Tri(n)
  {
    if m < n {
      TriGrows(m, n - 1);
    }
  }

  // The pair stored at offset p.
  function PairAt(p: nat, n: nat): (xy: (nat, nat))
    requires p < Tri(n)
    ensures xy.1 < xy.0 < n && Position(xy.0, xy.1) == p
  {
    if p >= Tri(n - 1) then (n - 1, p - Tri(n - 1)) else PairAt(p, n - 1)
  }

  // Position is a bijection between the unordered pairs below n and the offsets
  // below n(n-1)/2; it does not depend on n.
  lemma PositionBijective(x: nat, y: nat, n: nat)
    requires y < x < n
    ensures Position(x, y) == Position(y, x) < Tri(n)
    ensures PairAt(Position(x, y), n) == (x, y)
  {
    TriGrows(x + 1, n);
    PairAtUnique(x, y, n);
  }

  lemma {:induction false} PairAtUnique(x: nat, y: nat, n: nat)
    requires y < x < n && Tri(x) + y < Tri(n)
    ensures PairAt(Tri(x) + y, n) == (x, y)
  {
    if x == n - 1 {
    } else {
      TriGrows(x + 1, n - 1);
      PairAtUnique(x, y, n - 1);
    }
  }

  lemma PositionInjective(x: nat, y: nat, a: nat, b: nat)
    requires y < x && b < a && Position(x, y) == Position(a, b)
    ensures x == a && y == b
  {
    var n := x + a + 1;
    PositionBijective(x, y, n);
    PositionBijective(a, b, n);
  }

  // A list that holds the cells of n columns.
  ghost predicate Packs<T>(s: seq<T>, n: nat) {
    |s| == Tri(n)
  }

  function Cell<T>(s: seq<T>, n: nat, x: nat, y: nat): T
    requires Packs(s, n) && x < n && y < n && x != y
  {
    if y < x then PositionBijective(x, y, n); s[Position(x, y)]
    else PositionBijective(y, x, n); s[Position(x, y)]
  }

  lemma CellUpdateAt<T>(s: seq<T>, n: nat, x: nat, y: nat, v: T, a: nat, b: nat)
    requires Packs(s, n) && y < x < n && b < a < n
    ensures Position(x, y) < |s| && Packs(s[Position(x, y) := v], n)
    ensures Cell(s[Position(x, y) := v], n, a, b) == if a == x && b == y then v else Cell(s, n, a, b)
  {
    PositionBijective(x, y, n);
    PositionBijective(a, b, n);
    if Position(a, b) == Position(x, y) {
      PositionInjective(a, b, x, y);
    }
  }

  lemma CellUpdate<T>(s: seq<T>, n: nat, x: nat, y: nat, v: T, t: seq<T>)
    requires Packs(s, n) && y < x < n
    requires Position(x, y) < |s| && t == s[Position(x, y) := v]
    ensures Packs(t, n)
    ensures forall a: nat, b: nat :: b < a < n ==> Cell(t, n, a, b) == if a == x && b == y then v else Cell(s, n, a, b)
  {
    forall a: nat, b: nat | b < a < n
      ensures Cell(t, n, a, b) == if a == x && b == y then v else Cell(s, n, a, b)
    {
      CellUpdateAt(s, n, x, y, v, a, b);
    }
  }

  // --- swapping a column with the last one

  // The cell (a, b) after the first k rows of column f and of the last column have
  // been exchanged.
  function RowsSwapped<T>(s: seq<T>, n: nat, f: nat, k: nat, a: nat, b: nat): T
    requires Packs(s, n) && f + 1 < n && k <= f && b < a < n
  {
    if a == f && b < k then Cell(s, n, n - 1, b)
    else if a == n - 1 && b < k then Cell(s, n, f, b)
    else Cell(s, n, a, b)
  }

  // The cell (a, b) after all rows above the diagonal and the columns below k have
  // been exchanged; k == n is the end.
  function Swapped<T>(s: seq<T>, n: nat, f: nat, k: nat, a: nat, b: nat): T
    requires Packs(s, n) && f + 1 < n && f < k <= n && b < a < n
  {
    if a == f then Cell(s, n, n - 1, b)
    else if a < n - 1 then (if b == f && a < k then Cell(s, n, n - 1, a - 1) else Cell(s, n, a, b))
    else if b < f then Cell(s, n, f, b)
    else if k < n then (if b + 1 < k then Cell(s, n, b + 1, f) else Cell(s, n, n - 1, b))
    else if b == f then Cell(s, n, n - 1, n - 2)
    else if b == n - 2 then Cell(s, n, f + 1, f)
    else Cell(s, n, b + 1, f)
  }

  lemma SwapKeepsBag<T>(s: seq<T>, p: nat, q: nat)
    requires p < |s| && q < |s|
    ensures multiset(s[p := s[q]][q := s[p]]) == multiset(s)
  {
  }

  // Column f without its diagonal: one entry for each other index, in order.
  function Column<T>(s: seq<T>, n: nat, f: nat): (c: seq<T>)
    requires Packs(s, n) && f < n
    ensures |c| == n - 1
    ensures forall k :: 0 <= k < f ==> c[k] == Cell(s, n, f, k)
    ensures forall k :: f <= k < n - 1 ==> c[k] == Cell(s, n, k + 1, f)
  {
    seq(n - 1, k requires 0 <= k < n - 1 => if k < f then Cell(s, n, f, k) else Cell(s, n, k + 1, f))
  }

  lemma LastRow<T>(s: seq<T>, n: nat)
    requires Packs(s, n) && n > 0
    ensures s == s[..Tri(n - 1)] + Column(s, n, n - 1)
  {
    var last, row := Column(s, n, n - 1), s[Tri(n - 1)..];
    forall b | 0 <= b < n - 1 ensures row[b] == last[b] {
      assert Cell(s, n, n - 1, b) == s[Position(n - 1, b)];
    }
  }

  lemma CellPrefix<T>(s: seq<T>, n: nat, x: nat, y: nat)
    requires Packs(s, n) && y < x < n - 1
    ensures Packs(s[..Tri(n - 1)], n - 1) && Cell(s[..Tri(n - 1)], n - 1, x, y) == Cell(s, n, x, y)
  {
    PositionBijective(x, y, n - 1);
  }

  // After an exchange, column f read without its diagonal is the old last column.
  lemma SwappedColumn<T>(s: seq<T>, t: seq<T>, n: nat, f: nat)
    requires Packs(s, n) && Packs(t, n) && f + 1 < n
    requires Exchanged(s, t, n, f)
    ensures Column(t, n, f) == Column(s, n, n - 1)
  {
    forall k | 0 <= k < n - 1 ensures Column(t, n, f)[k] == Column(s, n, n - 1)[k] {
      if k < f {
        assert Cell(t, n, f, k) == Swapped(s, n, f, n, f, k);
      } else {
        assert Cell(t, n, k + 1, f) == Swapped(s, n, f, n, k + 1, f);
      }
    }
  }

  // --- removing an index

  // The cell (a, b) after index f has been removed. It is the cell of the old indices that
  // remain, in order, only for the last two indices.
  function RemovedCell<T>(s: seq<T>, n: nat, f: nat, a: nat, b: nat): T
    requires Packs(s, n) && f < n && b < a < n - 1
  {
    if f + 2 >= n then Cell(s, n, Skip(a, f), Skip(b, f))
    else if a == f then Cell(s, n, n - 2, b)
    else if a < n - 2 then
      if b != f then Cell(s, n, a, b)
      else if a == f + 1 then Cell(s, n, n - 1, n - 3)
      else Cell(s, n, n - 2, a - 1)
    else if b < f then Cell(s, n, n - 1, b)
    else if b == n - 3 then Cell(s, n, n - 1, f)
    else if b == f then Cell(s, n, n - 2, n - 3)
    else Cell(s, n, n - 1, b)
  }

  // The old index of new index a when f has been removed.
  function Skip(a: nat, f: nat): nat {
    if a < f then a else a + 1
  }

  function Removal<T>(s: seq<T>, n: nat, f: nat): (r: seq<T>)
    requires Packs(s, n) && f < n
    ensures Packs(r, n - 1)
  {
    seq(Tri(n - 1), p requires 0 <= p < Tri(n - 1) =>
        var (a, b) := PairAt(p, n - 1); RemovedCell(s, n, f, a, b))
  }

  lemma RemovalCell<T>(s: seq<T>, n: nat, f: nat, a: nat, b: nat)
    requires Packs(s, n) && f < n && b < a < n - 1
    ensures Cell(Removal(s, n, f), n - 1, a, b) == RemovedCell(s, n, f, a, b)
  {
    PositionBijective(a, b, n - 1);
  }

  lemma IsRemoval<T>(s: seq<T>, n: nat, f: nat, r: seq<T>, m: nat)
    requires Packs(s, n) && f < n && n == m + 1 && Packs(r, m)
    requires forall a: nat, b: nat :: b < a < m ==> Cell(r, m, a, b) == RemovedCell(s, n, f, a, b)
    ensures r == Removal(s, n, f)
  {
    forall p | 0 <= p < Tri(m) ensures r[p] == Removal(s, n, f)[p] {
      var (a, b) := PairAt(p, m);
      assert Cell(r, m, a, b) == RemovedCell(s, n, f, a, b);
    }
  }

  // Every old cell that avoids f, in the order of the indices.
  ghost predicate InOrder<T(!new)>(s: seq<T>, n: nat, f: nat, r: seq<T>)
    requires Packs(s, n) && f < n && Packs(r, n - 1)
  {
    forall a: nat, b: nat :: b < a < n - 1 ==> Cell(r, n - 1, a, b) == Cell(s, n, Skip(a, f), Skip(b, f))
  }

  // The same, except at the cell (c, d).
  ghost predicate InOrderBut<T(!new)>(s: seq<T>, n: nat, f: nat, r: seq<T>, c: nat, d: nat)
    requires Packs(s, n) && f < n && Packs(r, n - 1)
  {
    forall a: nat, b: nat :: b < a < n - 1 && (a != c || b != d) ==>
      Cell(r, n - 1, a, b) == Cell(s, n, Skip(a, f), Skip(b, f))
  }

  // Cells that all differ.
  function Numbered(n: nat): (s: seq<nat>)
    ensures Packs(s, n) && forall p :: 0 <= p < |s| ==> s[p] == p
  {
    seq(Tri(n), p requires 0 <= p => p)
  }

  lemma NumberedDiffer(n: nat, x: nat, y: nat, a: nat, b: nat)
    requires y < x < n && b < a < n && (x != a || y != b)
    ensures Cell(Numbered(n), n, x, y) != Cell(Numbered(n), n, a, b)
  {
    PositionBijective(x, y, n);
    PositionBijective(a, b, n);
  }

  // A removal leaves the right cells in order, whatever they hold, if and only if the
  // index is one of the last two.
  lemma RemovalInOrderIff(n: nat, f: nat)
    requires f < n
    ensures (forall s: seq<nat> :: Packs(s, n) ==> InOrder(s, n, f, Removal(s, n, f))) <==> f + 2 >= n
  {
    if f + 2 < n {
      NextIsWrong(n, f);
      assert Packs(Numbered(n), n) && !InOrder(Numbered(n), n, f, Removal(Numbered(n), n, f));
    } else {
      forall s: seq<nat> | Packs(s, n) ensures InOrder(s, n, f, Removal(s, n, f)) {
        forall a: nat, b: nat | b < a < n - 1
          ensures Cell(Removal(s, n, f), n - 1, a, b) == Cell(s, n, Skip(a, f), Skip(b, f))
        {
          RemovalCell(s, n, f, a, b);
        }
      }
    }
  }

  // The cell (f + 1, f) is wrong.
  lemma NextIsWrong(n: nat, f: nat)
    requires f + 2 < n
    ensures var s := Numbered(n);
            Cell(Removal(s, n, f), n - 1, f + 1, f) != Cell(s, n, Skip(f + 1, f), Skip(f, f))
  {
    RemovalCell(Numbered(n), n, f, f + 1, f);
    NumberedDiffer(n, n - 1, n - 3, f + 2, f + 1);
  }

  // It leaves them in order but for one cell, that of the last two remaining indices, if
  // and only if the index is one of the last three.
  lemma RemovalButOneIff(n: nat, f: nat)
    requires f < n && n >= 3
    ensures (forall s: seq<nat> :: Packs(s, n) ==> InOrderBut(s, n, f, Removal(s, n, f), n - 2, n - 3))
            <==> f + 3 >= n
  {
    if f + 3 < n {
      NextIsWrong(n, f);
      assert Packs(Numbered(n), n) && !InOrderBut(Numbered(n), n, f, Removal(Numbered(n), n, f), n - 2, n - 3);
    } else {
      forall s: seq<nat> | Packs(s, n) ensures InOrderBut(s, n, f, Removal(s, n, f), n - 2, n - 3) {
        forall a: nat, b: nat | b < a < n - 1 && (a != n - 2 || b != n - 3)
          ensures Cell(Removal(s, n, f), n - 1, a, b) == Cell(s, n, Skip(a, f), Skip(b, f))
        {
          RemovalCell(s, n, f, a, b);
        }
      }
    }
  }

  // Of three columns, removing the first keeps the pair (2, 0) that it should drop.
  lemma SmallestRemoval<T(!new)>(x: T, y: T, z: T)
    ensures Packs([x, y, z], 3) && Removal([x, y, z], 3, 0) == [y]
    ensures InOrder([x, y, z], 3, 0, [z])
  {
    var s := [x, y, z];
    assert Tri(3) == 3 && Tri(2) == 1;
    assert Cell(s, 3, 2, 0) == y && Cell(s, 3, 2, 1) == z;
    RemovalCell(s, 3, 0, 1, 0);
  }

  // Exchanging column f with the last one, dropping that, and exchanging f with the new
  // last one is such a removal.
  lemma RemovedByExchanges<T>(s: seq<T>, t: seq<T>, u: seq<T>, n: nat, f: nat, m: nat)
    requires Packs(s, n) && f + 1 < n == m + 1 && Packs(t, m) && Packs(u, m)
    requires forall a: nat, b: nat :: b < a < m ==> Cell(t, m, a, b) == Swapped(s, n, f, n, a, b)
    requires if f + 1 == m then u == t else Exchanged(t, u, m, f)
    ensures u == Removal(s, n, f)
  {
    forall a: nat, b: nat | b < a < m ensures Cell(u, m, a, b) == RemovedCell(s, n, f, a, b) {
      if f + 1 < m {
        assert Cell(u, m, a, b) == Swapped(t, m, f, m, a, b);
      }
    }
    IsRemoval(s, n, f, u, m);
  }

  // The cells of all pairs that avoid index i, in order.
  function Without<T>(s: seq<T>, n: nat, i: nat): seq<T>
    requires Packs(s, n) && i < n
  {
    if n == i + 1 then s[..Tri(i)]
    else Without(s[..Tri(n - 1)], n - 1, i) + Erase(Column(s, n, n - 1), i)
  }

  lemma ConcatBag<T>(a: seq<T>, b: seq<T>, v: T)
    ensures multiset(a + b)[v] == multiset(a)[v] + multiset(b)[v]
  {
  }

  lemma OneBag<T>(x: T, v: T)
    ensures multiset([x])[v] == if x == v then 1 else 0
  {
  }

  lemma EraseBag<T>(s: seq<T>, i: nat, v: T)
    requires i < |s|
    ensures multiset(Erase(s, i))[v] + (if s[i] == v then 1 else 0) == multiset(s)[v]
  {
    SplitAt(s, i);
  }

  lemma LastRowBag<T>(s: seq<T>, n: nat, v: T)
    requires Packs(s, n) && n > 0
    ensures Tri(n - 1) <= |s|
    ensures multiset(s)[v] == multiset(s[..Tri(n - 1)])[v] + multiset(Column(s, n, n - 1))[v]
  {
    LastRow(s, n);
    ConcatBag(s[..Tri(n - 1)], Column(s, n, n - 1), v);
  }

  lemma WithoutStepBag<T>(w: seq<T>, row: seq<T>, i: nat, v: T)
    requires i < |row|
    ensures multiset(w + Erase(row, i))[v] == multiset(w)[v] + multiset(row)[v] - (if row[i] == v then 1 else 0)
  {
    ConcatBag(w, Erase(row, i), v);
    EraseBag(row, i, v);
  }

  lemma ColumnPrefixBag<T>(s: seq<T>, n: nat, i: nat, v: T)
    requires Packs(s, n) && i < n - 1
    ensures Packs(s[..Tri(n - 1)], n - 1)
    ensures multiset(Column(s, n, i))[v]
         == multiset(Column(s[..Tri(n - 1)], n - 1, i))[v] + (if Column(s, n, n - 1)[i] == v then 1 else 0)
  {
    ColumnPrefix(s, n, i);
    var c, x := Column(s[..Tri(n - 1)], n - 1, i), Column(s, n, n - 1)[i];
    ConcatBag(c, [x], v);
    OneBag(x, v);
  }

  lemma WithoutGrows<T>(s: seq<T>, n: nat, i: nat, v: T)
    requires Packs(s, n) && i < n - 1
    ensures Packs(s[..Tri(n - 1)], n - 1)
    ensures multiset(Without(s, n, i))[v] == multiset(Without(s[..Tri(n - 1)], n - 1, i))[v]
            + multiset(Column(s, n, n - 1))[v] - (if Column(s, n, n - 1)[i] == v then 1 else 0)
  {
    TriGrows(n - 1, n);
    WithoutStepBag(Without(s[..Tri(n - 1)], n - 1, i), Column(s, n, n - 1), i, v);
  }

  lemma WithoutBagFrom<T>(s: seq<T>, n: nat, i: nat, v: T)
    requires Packs(s, n) && i < n - 1 && Packs(s[..Tri(n - 1)], n - 1)
    requires var front := s[..Tri(n - 1)];
             multiset(front)[v] == multiset(Without(front, n - 1, i))[v] + multiset(Column(front, n - 1, i))[v]
    ensures multiset(s)[v] == multiset(Without(s, n, i))[v] + multiset(Column(s, n, i))[v]
  {
    LastRowBag(s, n, v);
    ColumnPrefixBag(s, n, i, v);
    WithoutGrows(s, n, i, v);
  }

  // All cells are those avoiding i and those of column i.
  lemma {:induction false} WithoutBag<T>(s: seq<T>, n: nat, i: nat, v: T)
    requires Packs(s, n) && i < n
    ensures multiset(s)[v] == multiset(Without(s, n, i))[v] + multiset(Column(s, n, i))[v]
  {
    if n == i + 1 {
      LastRowBag(s, n, v);
    } else {
      TriGrows(n - 1, n);
      WithoutBag(s[..Tri(n - 1)], n - 1, i, v);
      WithoutBagFrom(s, n, i, v);
    }
  }

  lemma ColumnPrefix<T>(s: seq<T>, n: nat, i: nat)
    requires Packs(s, n) && i < n - 1
    ensures Packs(s[..Tri(n - 1)], n - 1)
    ensures Column(s, n, i) == Column(s[..Tri(n - 1)], n - 1, i) + [Column(s, n, n - 1)[i]]
  {
    var s' := s[..Tri(n - 1)];
    forall k | 0 <= k < n - 2 ensures Column(s', n - 1, i)[k] == Column(s, n, i)[k] {
      if k < i {
        CellPrefix(s, n, i, k);
      } else {
        CellPrefix(s, n, k + 1, i);
      }
    }
  }

  lemma TwoUpdatesBag<T>(c: seq<T>, f: nat, m: nat, x: T, v: T)
    requires f < m < |c|
    ensures multiset(c[f := x][m := c[f]])[v] + (if c[m] == v then 1 else 0)
         == multiset(c)[v] + (if x == v then 1 else 0)
  {
    var d := c[f := x];
    assert multiset(d)[v] + (if c[f] == v then 1 else 0) == multiset(c)[v] + (if x == v then 1 else 0);
    assert multiset(d[m := c[f]])[v] + (if c[m] == v then 1 else 0) == multiset(d)[v] + (if c[f] == v then 1 else 0);
  }

  lemma LastColumnEntries<T>(s: seq<T>, t: seq<T>, n: nat, f: nat)
    requires Packs(s, n) && Packs(t, n) && f + 2 < n
    requires Exchanged(s, t, n, f)
    ensures var c := Column(s, n, f); Column(t, n, n - 1) == c[f := Cell(s, n, n - 1, n - 2)][n - 2 := c[f]]
  {
    var c := Column(s, n, f);
    var r := c[f := Cell(s, n, n - 1, n - 2)][n - 2 := c[f]];
    forall b | 0 <= b < n - 1 ensures Column(t, n, n - 1)[b] == r[b] {
      assert Cell(t, n, n - 1, b) == Swapped(s, n, f, n, n - 1, b);
    }
  }

  lemma SameLastColumn<T>(s: seq<T>, t: seq<T>, n: nat, f: nat)
    requires Packs(s, n) && Packs(t, n) && f + 2 == n
    requires Exchanged(s, t, n, f)
    ensures Column(t, n, n - 1) == Column(s, n, f)
  {
    forall b | 0 <= b < n - 1 ensures Column(t, n, n - 1)[b] == Column(s, n, f)[b] {
      assert Cell(t, n, n - 1, b) == Swapped(s, n, f, n, n - 1, b);
    }
  }

  // The last column after an exchange with column f: the old column f, except that
  // it has the old cell (n - 1, n - 2) in place of the old cell (n - 1, f).
  lemma LastColumnAfterSwap<T>(s: seq<T>, t: seq<T>, n: nat, f: nat, v: T)
    requires Packs(s, n) && Packs(t, n) && f + 1 < n
    requires Exchanged(s, t, n, f)
    ensures multiset(Column(t, n, n - 1))[v] + (if Cell(s, n, n - 1, f) == v then 1 else 0)
         == multiset(Column(s, n, f))[v] + (if Cell(s, n, n - 1, n - 2) == v then 1 else 0)
  {
    if f + 2 < n {
      TwoUpdatesBag(Column(s, n, f), f, n - 2, Cell(s, n, n - 1, n - 2), v);
      LastColumnEntries(s, t, n, f);
    } else {
      SameLastColumn(s, t, n, f);
    }
  }

  class Matrix<T(==, !new)> {
    var columns: nat
    var elements: seq<T>
    const blank: T

    ghost predicate Valid()
      reads this
    {
      Packs(elements, columns)
    }

    // The cells of n columns start out as defaults.
    constructor (n: nat, blank: T)
      ensures Valid() && columns == n && this.blank == blank
      ensures elements == seq(Tri(n), _ => blank)
    {
      columns := n;
      this.blank := blank;
      elements := seq(Tri(n), _ => blank);
    }

    function At(x: nat, y: nat): T
      requires Valid() && x < columns && y < columns && x != y
      reads this
    {
      Cell(elements, columns, x, y)
    }

    // Sets one cell. On an empty list nothing happens.
    method Emplace(x: nat, y: nat, item: T)
      requires Valid() && x < columns && y < columns && x != y
      modifies this`elements
      ensures Valid()
      ensures forall a: nat, b: nat :: b < a < columns ==>
                At(a, b) == if a == Max(x, y) && b == Min(x, y) then item else old(At(a, b))
    {
      PositionBijective(Max(x, y), Min(x, y), columns);
      if |elements| == 0 {
        return;
      }
      ghost var was := elements;
      var p := ComputePosition(x, y);
      elements := elements[p := item];
      CellUpdate(was, columns, Max(x, y), Min(x, y), item, elements);
    }

    // Adds a column of defaults; no other cell moves.
    method Increase() returns (last: nat)
      requires Valid()
      modifies this
      ensures Valid() && last == old(columns) && columns == last + 1
      ensures forall a: nat, b: nat :: b < a < last ==> At(a, b) == old(At(a, b))
      ensures forall b: nat :: b < last ==> At(last, b) == blank
    {
      ghost var was, n := elements, columns;
      columns := columns + 1;
      elements := elements + seq(columns - 1, _ => blank);
      last := columns - 1;
      forall a: nat, b: nat | b < a < last ensures Cell(elements, columns, a, b) == Cell(was, n, a, b) {
        PositionBijective(a, b, n);
      }
      forall b: nat | b < last ensures Cell(elements, columns, last, b) == blank {
        assert Position(last, b) == Tri(last) + b;
      }
    }

    // Empties the matrix.
    method Reset()
      modifies this
      ensures Valid() && columns == 0
    {
      columns := 0;
      elements := [];
    }

    // Exchanges two cells.
    method Exchange(x: nat, y: nat, a: nat, b: nat)
      requires Valid() && y < x < columns && b < a < columns
      modifies this`elements
      ensures Valid() && multiset(elements) == multiset(old(elements))
      ensures forall c: nat, d: nat :: d < c < columns ==>
                At(c, d) == if c == a && d == b then old(At(x, y))
                            else if c == x && d == y then old(At(a, b))
                            else old(At(c, d))
    {
      PositionBijective(x, y, columns);
      PositionBijective(a, b, columns);
      ghost var s := elements;
      var p := ComputePosition(x, y);
      var q := ComputePosition(a, b);
      var temp := elements[p];
      elements := elements[p := elements[q]];
      ghost var t := elements;
      elements := elements[q := temp];
      CellUpdate(s, columns, x, y, s[q], t);
      CellUpdate(t, columns, a, b, s[p], elements);
      SwapKeepsBag(s, p, q);
    }

    // Exchanges all cells of one column with those of the last. On an empty matrix the
    // unsigned number of the last column wraps; `ok` is false where the source throws.
    method SwapLast(first: nat) returns (ok: bool)
      requires Valid()
      modifies this`elements
      ensures Valid() && multiset(elements) == multiset(old(elements))
      ensures ok <==> columns > 0 || first == 0 || first >= SIZE_MAX
      ensures columns == 0 || first >= columns - 1 ==> elements == old(elements)
      ensures columns > 0 && first < columns - 1 ==> Exchanged(old(elements), elements, columns, first)
    {
      var last: nat := if columns == 0 then SIZE_MAX else columns - 1;
      if first >= last {
        return true;
      }
      if columns == 0 {
        return first == 0;
      }
      SwapRows(first);
      SwapColumns(first, old(elements));
      return true;
    }

    method SwapRows(first: nat)
      requires Valid() && first + 1 < columns
      modifies this`elements
      ensures Valid() && multiset(elements) == multiset(old(elements))
      ensures forall a: nat, b: nat :: b < a < columns ==>
                At(a, b) == RowsSwapped(old(elements), columns, first, first, a, b)
    {
      var y := 0;
      while y < first
        invariant 0 <= y <= first && Valid() && multiset(elements) == multiset(old(elements))
        invariant forall a: nat, b: nat :: b < a < columns ==>
                    At(a, b) == RowsSwapped(old(elements), columns, first, y, a, b)
      {
        Exchange(first, y, columns - 1, y);
        y := y + 1;
      }
    }

    method SwapColumns(first: nat, ghost s: seq<T>)
      requires Valid() && first + 1 < columns && Packs(s, columns)
      requires forall a: nat, b: nat :: b < a < columns ==> At(a, b) == RowsSwapped(s, columns, first, first, a, b)
      modifies this`elements
      ensures Valid() && multiset(elements) == multiset(old(elements))
      ensures forall a: nat, b: nat :: b < a < columns ==> At(a, b) == Swapped(s, columns, first, columns, a, b)
    {
      var x := first + 1;
      while x < columns
        invariant first < x <= columns && Valid() && multiset(elements) == multiset(old(elements))
        invariant forall a: nat, b: nat :: b < a < columns ==> At(a, b) == Swapped(s, columns, first, x, a, b)
      {
        Exchange(x, first, columns - 1, x - 1);
        x := x + 1;
      }
    }

    // Drops the last column.
    method Shrink()
      requires Valid() && columns > 0
      modifies this
      ensures Valid() && columns == old(columns) - 1 && elements == old(elements)[..Tri(columns)]
      ensures forall a: nat, b: nat :: b < a < columns ==> At(a, b) == old(At(a, b))
    {
      ghost var was, n := elements, columns;
      LastRow(was, n);
      columns := columns - 1;
      var p := ComputePosition(columns, 0);
      elements := elements[..p];
      forall a: nat, b: nat | b < a < columns ensures Cell(elements, columns, a, b) == Cell(was, n, a, b) {
        CellPrefix(was, n, a, b);
      }
    }

    // Exchanges a column with the last one, and drops that.
    method CutOut(index: nat)
      requires Valid() && index + 1 < columns
      modifies this
      ensures Valid() && columns == old(columns) - 1
      ensures forall a: nat, b: nat :: b < a < columns ==>
                At(a, b) == Swapped(old(elements), old(columns), index, old(columns), a, b)
      ensures CutRight(old(elements), old(columns), index, elements)
    {
      ghost var was, n := elements, columns;
      var ok := SwapLast(index);
      ghost var swapped := elements;
      Shrink();
      SwappedFrontBag(was, swapped, n, index, elements);
    }

    // Removes an index. Unless that is one of the last two, the pair of the last two is lost
    // and the pair of the removed index with the last one stays instead.
    method RemoveIndex(index: nat)
      requires Valid()
      modifies this
      ensures Valid() && columns == old(columns) - (if index < old(columns) then 1 else 0)
      ensures elements == if index < old(columns) then Removal(old(elements), old(columns), index) else old(elements)
      ensures index < old(columns) <= index + 2 ==>
                multiset(elements) == multiset(Without(old(elements), old(columns), index))
      ensures index + 2 < old(columns) ==> CutRight(old(elements), old(columns), index, elements)
    {
      if index >= columns {
        return;
      }
      if index == columns - 1 {
        Shrink();
        forall a: nat, b: nat | b < a < columns
          ensures Cell(elements, columns, a, b) == RemovedCell(old(elements), old(columns), index, a, b)
        {
          assert At(a, b) == old(At(a, b));
        }
        IsRemoval(old(elements), old(columns), index, elements, columns);
        return;
      }
      CutAndRestore(index);
    }

    method CutAndRestore(index: nat)
      requires Valid() && index + 1 < columns
      modifies this
      ensures Valid() && columns == old(columns) - 1
      ensures elements == Removal(old(elements), old(columns), index)
      ensures CutRight(old(elements), old(columns), index, elements)
      ensures index + 2 == old(columns) ==>
                multiset(elements) == multiset(Without(old(elements), old(columns), index))
    {
      ghost var was, n := elements, columns;
      CutOut(index);
      ghost var cut := elements;
      if index == columns - 1 {
        RemovedByExchanges(was, cut, elements, n, index, columns);
        CutRightIff(was, n, index, elements);
        return;
      }
      var ok := SwapLast(index);
      RemovedByExchanges(was, cut, elements, n, index, columns);
    }

    // Applies the function to the cell of every pair that has the index, once each.
    method Iterate(index: nat, f: T -> T)
      requires Valid() && index < columns
      modifies this`elements
      ensures Valid()
      ensures forall a: nat, b: nat :: b < a < columns ==>
                At(a, b) == if a == index || b == index then f(old(At(a, b))) else old(At(a, b))
    {
      var y := 0;
      while y < columns
        invariant 0 <= y <= columns && Valid()
        invariant forall a: nat, b: nat :: b < a < columns ==>
                    At(a, b) == if (a == index && b < y) || (b == index && a < y) then f(old(At(a, b)))
                                else old(At(a, b))
      {
        if y != index {
          ApplyAt(if y < index then index else y, if y < index then y else index, f);
        }
        y := y + 1;
      }
    }

    method ApplyAt(x: nat, y: nat, f: T -> T)
      requires Valid() && y < x < columns
      modifies this`elements
      ensures Valid()
      ensures forall a: nat, b: nat :: b < a < columns ==>
                At(a, b) == if a == x && b == y then f(old(At(a, b))) else old(At(a, b))
    {
      PositionBijective(x, y, columns);
      var p := ComputePosition(x, y);
      ghost var was := elements;
      elements := elements[p := f(elements[p])];
      CellUpdate(was, columns, x, y, elements[p], elements);
    }
  }

  // t holds what w holds, except for one x more and one y less.
  ghost predicate Traded<T(!new)>(w: multiset<T>, t: multiset<T>, x: T, y: T) {
    forall v :: t[v] + (if y == v then 1 else 0) == w[v] + (if x == v then 1 else 0)
  }

  // What is left when column f has been cut out of s.
  ghost predicate CutRight<T(!new)>(s: seq<T>, n: nat, f: nat, front: seq<T>)
    requires Packs(s, n) && f + 1 < n
  {
    Traded(multiset(Without(s, n, f)), multiset(front), Cell(s, n, n - 1, f), Cell(s, n, n - 1, n - 2))
  }

  ghost predicate Exchanged<T>(s: seq<T>, t: seq<T>, n: nat, f: nat)
    requires Packs(s, n) && Packs(t, n) && f + 1 < n
  {
    forall a: nat, b: nat :: b < a < n ==> Cell(t, n, a, b) == Swapped(s, n, f, n, a, b)
  }

  lemma SwappedFrontBagAt<T>(s: seq<T>, t: seq<T>, n: nat, f: nat, x: T, y: T, v: T)
    requires Packs(s, n) && Packs(t, n) && f + 1 < n && multiset(t) == multiset(s)
    requires Exchanged(s, t, n, f)
    requires x == Cell(s, n, n - 1, f) && y == Cell(s, n, n - 1, n - 2)
    ensures Tri(n - 1) <= |t|
    ensures multiset(t[..Tri(n - 1)])[v] + (if y == v then 1 else 0)
         == multiset(Without(s, n, f))[v] + (if x == v then 1 else 0)
  {
    LastRowBag(t, n, v);
    WithoutBag(s, n, f, v);
    LastColumnAfterSwap(s, t, n, f, v);
  }

  lemma SwappedFrontBag<T(!new)>(s: seq<T>, t: seq<T>, n: nat, f: nat, front: seq<T>)
    requires Packs(s, n) && Packs(t, n) && f + 1 < n && multiset(t) == multiset(s)
    requires Exchanged(s, t, n, f)
    requires Tri(n - 1) <= |t| && front == t[..Tri(n - 1)]
    ensures CutRight(s, n, f, front)
  {
    var x, y, w := Cell(s, n, n - 1, f), Cell(s, n, n - 1, n - 2), Without(s, n, f);
    forall v
      ensures multiset(front)[v] + (if y == v then 1 else 0) == multiset(w)[v] + (if x == v then 1 else 0)
    {
      SwappedFrontBagAt(s, t, n, f, x, y, v);
    }
  }

  // The bag of cells left is the right one if and only if the two cells that take each
  // other's place hold the same.
  lemma CutRightIff<T(!new)>(s: seq<T>, n: nat, f: nat, r: seq<T>)
    requires Packs(s, n) && f + 1 < n && CutRight(s, n, f, r)
    ensures multiset(r) == multiset(Without(s, n, f)) <==> Cell(s, n, n - 1, f) == Cell(s, n, n - 1, n - 2)
  {
    var x, y, w := Cell(s, n, n - 1, f), Cell(s, n, n - 1, n - 2), multiset(Without(s, n, f));
    TradeExact(w, multiset(r), x, y);
  }

  lemma TradeExact<T(!new)>(w: multiset<T>, t: multiset<T>, x: T, y: T)
    requires Traded(w, t, x, y)
    ensures t == w <==> x == y
  {
    if x == y {
      assert forall v :: t[v] == w[v];
    } else {
      assert t[x] == w[x] + 1;
    }
  }
}
