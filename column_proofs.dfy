/** What the position ledger guarantees: a move or a delete applied to
    dense columns leaves them dense, with the right sizes, the moved card
    where it was asked to go and the other cards in their old relative
    order; every column the operation does not name is left as it was. */
module ColumnProofs {
  import opened Tables
  import opened ColumnOrder

  /** Every (board, status) column of the table is dense. */
  ghost predicate AllDense(cs: seq<Card>)
  {
    forall b, st :: Dense(cs, b, st)
  }

  /** A column whose membership and positions a step does not change keeps
      its size and its density. */
  lemma ColumnUntouched(cs: seq<Card>, ds: seq<Card>, b: BoardId, st: CardStatus)
    requires |cs| == |ds|
    requires forall i :: 0 <= i < |cs| ==> (InColumn(ds[i], b, st) <==> InColumn(cs[i], b, st))
    requires forall i :: 0 <= i < |cs| && InColumn(cs[i], b, st) ==> ds[i].position == cs[i].position
    ensures Count(ds, b, st) == Count(cs, b, st)
    ensures Dense(cs, b, st) ==> Dense(ds, b, st)
  {
    assert ColumnIndices(ds, b, st) == ColumnIndices(cs, b, st);
  }

  // =====================================================================
  // Moving inside one column
  // =====================================================================

  /** A move inside its own column to a position in 0..N-1 keeps the column
      dense and of the same size, and the card lands where it was sent. */
  lemma {:induction false} MoveWithinColumn(cs: seq<Card>, k: nat, to: int)
    requires k < |cs|
    requires Dense(cs, cs[k].board, cs[k].status)
    requires 0 <= to < Count(cs, cs[k].board, cs[k].status)
    ensures var ds := MoveResult(cs, k, cs[k].status, to);
      && Count(ds, cs[k].board, cs[k].status) == Count(cs, cs[k].board, cs[k].status)
      && Dense(ds, cs[k].board, cs[k].status)
      && ds[k] == cs[k].(position := to)
  {
    var b, st, from := cs[k].board, cs[k].status, cs[k].position;
    var ds := MoveResult(cs, k, st, to);
    var n := Count(cs, b, st);
    assert ColumnIndices(ds, b, st) == ColumnIndices(cs, b, st);
    forall i | 0 <= i < |ds| && InColumn(ds[i], b, st) ensures 0 <= ds[i].position < n {
      if i != k {
        assert cs[i].position != from;
      }
    }
    forall i, j | 0 <= i < |ds| && 0 <= j < |ds| && i != j && InColumn(ds[i], b, st) && InColumn(ds[j], b, st)
      ensures ds[i].position != ds[j].position
    {
      assert cs[i].position != cs[j].position;
    }
  }

  /** Whatever the target, a move inside a dense column keeps the relative
      order of the cards that were not moved. */
  lemma MoveWithinKeepsOrder(cs: seq<Card>, k: nat, to: int, i: nat, j: nat)
    requires k < |cs| && i < |cs| && j < |cs| && i != k && j != k
    requires Dense(cs, cs[k].board, cs[k].status)
    requires InColumn(cs[i], cs[k].board, cs[k].status) && InColumn(cs[j], cs[k].board, cs[k].status)
    ensures var ds := MoveResult(cs, k, cs[k].status, to);
      cs[i].position < cs[j].position <==> ds[i].position < ds[j].position
  {
    assert cs[i].position != cs[k].position;
    assert cs[j].position != cs[k].position;
  }

  // =====================================================================
  // Moving to another column
  // =====================================================================

  /** A move to another column, row by row: the moved card takes its new
      status and position, every other row goes through both shifts. */
  lemma MoveAcrossRows(cs: seq<Card>, k: nat, dst: CardStatus, to: int)
    requires k < |cs| && dst != cs[k].status
    ensures var ds := MoveResult(cs, k, dst, to);
      && ds[k] == cs[k].(status := dst, position := to)
      && forall i :: 0 <= i < |cs| && i != k ==>
           ds[i] == OpenSlot(CloseGap(cs[i], cs[k].board, cs[k].status, cs[k].position), cs[k].board, dst, to)
  {
  }

  /** A move to another column takes one card out of the source column. */
  lemma MoveAcrossSourceCount(cs: seq<Card>, k: nat, dst: CardStatus, to: int)
    requires k < |cs| && dst != cs[k].status
    ensures Count(MoveResult(cs, k, dst, to), cs[k].board, cs[k].status) == Count(cs, cs[k].board, cs[k].status) - 1
  {
    var b, src := cs[k].board, cs[k].status;
    var ds := MoveResult(cs, k, dst, to);
    forall i ensures i in ColumnIndices(ds, b, src) + {k} <==> i in ColumnIndices(cs, b, src) {
      if 0 <= i < |cs| && i != k { assert InColumn(ds[i], b, src) <==> InColumn(cs[i], b, src); }
    }
    assert ColumnIndices(ds, b, src) + {k} == ColumnIndices(cs, b, src);
    assert k !in ColumnIndices(ds, b, src);
  }

  /** A move to another column leaves the source column dense. */
  lemma {:induction false} MoveAcrossSource(cs: seq<Card>, k: nat, dst: CardStatus, to: int)
    requires k < |cs| && dst != cs[k].status
    requires Dense(cs, cs[k].board, cs[k].status)
    ensures var ds := MoveResult(cs, k, dst, to);
      && Count(ds, cs[k].board, cs[k].status) == Count(cs, cs[k].board, cs[k].status) - 1
      && Dense(ds, cs[k].board, cs[k].status)
  {
    var b, src, from := cs[k].board, cs[k].status, cs[k].position;
    var ds := MoveResult(cs, k, dst, to);
    var n := Count(cs, b, src);
    MoveAcrossRows(cs, k, dst, to);
    MoveAcrossSourceCount(cs, k, dst, to);
    forall i | 0 <= i < |ds| && InColumn(ds[i], b, src) ensures 0 <= ds[i].position < n - 1 {
      assert i != k && InColumn(cs[i], b, src) && ds[i] == CloseGap(cs[i], b, src, from);
      assert cs[i].position != from;
    }
    forall i, j | 0 <= i < |ds| && 0 <= j < |ds| && i != j && InColumn(ds[i], b, src) && InColumn(ds[j], b, src)
      ensures ds[i].position != ds[j].position
    {
      assert i != k && InColumn(cs[i], b, src) && ds[i] == CloseGap(cs[i], b, src, from);
      assert j != k && InColumn(cs[j], b, src) && ds[j] == CloseGap(cs[j], b, src, from);
      assert cs[i].position != cs[j].position;
    }
  }

  /** A move to another column puts one more card into the target column. */
  lemma MoveAcrossTargetCount(cs: seq<Card>, k: nat, dst: CardStatus, to: int)
    requires k < |cs| && dst != cs[k].status
    ensures Count(MoveResult(cs, k, dst, to), cs[k].board, dst) == Count(cs, cs[k].board, dst) + 1
  {
    var b := cs[k].board;
    var ds := MoveResult(cs, k, dst, to);
    MoveAcrossRows(cs, k, dst, to);
    forall i ensures i in ColumnIndices(ds, b, dst) <==> i in ColumnIndices(cs, b, dst) + {k} {
      if 0 <= i < |cs| && i != k { assert InColumn(ds[i], b, dst) <==> InColumn(cs[i], b, dst); }
    }
    assert ColumnIndices(ds, b, dst) == ColumnIndices(cs, b, dst) + {k};
    assert k !in ColumnIndices(cs, b, dst);
  }

  /** A move to another column at a position in 0..N (N the target's size)
      puts one card into the target column, which stays dense, with the
      card where it was sent. */
  lemma {:induction false} MoveAcrossTarget(cs: seq<Card>, k: nat, dst: CardStatus, to: int)
    requires k < |cs| && dst != cs[k].status
    requires Dense(cs, cs[k].board, dst)
    requires 0 <= to <= Count(cs, cs[k].board, dst)
    ensures var ds := MoveResult(cs, k, dst, to);
      && Count(ds, cs[k].board, dst) == Count(cs, cs[k].board, dst) + 1
      && Dense(ds, cs[k].board, dst)
      && ds[k] == cs[k].(status := dst, position := to)
  {
    var b := cs[k].board;
    var ds := MoveResult(cs, k, dst, to);
    var m := Count(cs, b, dst);
    MoveAcrossRows(cs, k, dst, to);
    MoveAcrossTargetCount(cs, k, dst, to);
    forall i | 0 <= i < |ds| && InColumn(ds[i], b, dst) ensures 0 <= ds[i].position < m + 1 {
      if i != k {
        assert InColumn(cs[i], b, dst) && ds[i] == OpenSlot(cs[i], b, dst, to);
      }
    }
    forall i, j | 0 <= i < |ds| && 0 <= j < |ds| && i != j && InColumn(ds[i], b, dst) && InColumn(ds[j], b, dst)
      ensures ds[i].position != ds[j].position
    {
      if i != k {
        assert InColumn(cs[i], b, dst) && ds[i] == OpenSlot(cs[i], b, dst, to);
      }
      if j != k {
        assert InColumn(cs[j], b, dst) && ds[j] == OpenSlot(cs[j], b, dst, to);
      }
      if i != k && j != k {
        assert cs[i].position != cs[j].position;
      }
    }
  }

  /** A move to another column keeps the relative order of the cards left
      in the source column and of the cards already in the target column;
      the cards of the target that were before the slot stay before the
      moved card, the others come after it. */
  lemma MoveAcrossKeepsOrder(cs: seq<Card>, k: nat, dst: CardStatus, to: int, i: nat, j: nat)
    requires k < |cs| && i < |cs| && j < |cs| && i != k && j != k && dst != cs[k].status
    requires Dense(cs, cs[k].board, cs[k].status)
    requires (InColumn(cs[i], cs[k].board, cs[k].status) && InColumn(cs[j], cs[k].board, cs[k].status))
          || (InColumn(cs[i], cs[k].board, dst) && InColumn(cs[j], cs[k].board, dst))
    ensures var ds := MoveResult(cs, k, dst, to);
      && (cs[i].position < cs[j].position <==> ds[i].position < ds[j].position)
      && (InColumn(cs[i], cs[k].board, dst) ==> (cs[i].position < to <==> ds[i].position < ds[k].position))
  {
    if InColumn(cs[i], cs[k].board, cs[k].status) {
      assert cs[i].position != cs[k].position;
      assert cs[j].position != cs[k].position;
    }
  }

  // =====================================================================
  // Deleting
  // =====================================================================

  /** Removing row k: row i of the result is row i (before k) or row i+1
      (from k on) of the original. */
  lemma RemoveAtIndices(gs: seq<Card>, k: nat, b: BoardId, st: CardStatus, g: int -> int)
    requires k < |gs|
    requires forall i :: g(i) == if i < k then i else i - 1
    ensures ColumnIndices(RemoveAt(gs, k), b, st) == set i | i in ColumnIndices(gs, b, st) - {k} :: g(i)
  {
    var ds := RemoveAt(gs, k);
    var src := ColumnIndices(gs, b, st) - {k};
    forall i | i in ColumnIndices(ds, b, st) ensures i in set x | x in src :: g(x) {
      var x := if i < k then i else i + 1;
      assert ds[i] == gs[x];
      assert x in src && g(x) == i;
    }
    forall x | x in src ensures g(x) in ColumnIndices(ds, b, st) {
      assert ds[g(x)] == gs[x];
    }
  }

  /** A column loses one card exactly when the removed row belonged to it. */
  lemma RemoveAtCount(gs: seq<Card>, k: nat, b: BoardId, st: CardStatus)
    requires k < |gs|
    ensures Count(RemoveAt(gs, k), b, st) == Count(gs, b, st) - (if InColumn(gs[k], b, st) then 1 else 0)
  {
    var src := ColumnIndices(gs, b, st) - {k};
    var g := (i: int) => if i < k then i else i - 1;
    RemoveAtIndices(gs, k, b, st, g);
    ImageCard(src, g, |gs|);
    if InColumn(gs[k], b, st) {
      assert ColumnIndices(gs, b, st) == src + {k};
    } else {
      assert src == ColumnIndices(gs, b, st);
    }
  }

  /** Deleting a card from a dense column leaves it dense and one card
      shorter. */
  lemma {:induction false} DeleteFromColumn(cs: seq<Card>, k: nat)
    requires k < |cs|
    requires Dense(cs, cs[k].board, cs[k].status)
    ensures Count(DeleteResult(cs, k), cs[k].board, cs[k].status) == Count(cs, cs[k].board, cs[k].status) - 1
    ensures Dense(DeleteResult(cs, k), cs[k].board, cs[k].status)
  {
    var b, st := cs[k].board, cs[k].status;
    var gs := AfterRemoval(cs, b, st, cs[k].position);
    assert ColumnIndices(gs, b, st) == ColumnIndices(cs, b, st);
    RemoveAtCount(gs, k, b, st);
    DeleteFromColumnBelow(cs, k);
    DeleteFromColumnDistinct(cs, k);
  }

  /** After the deletion every card of the column sits below the shrunk
      count. */
  lemma DeleteFromColumnBelow(cs: seq<Card>, k: nat)
    requires k < |cs|
    requires Dense(cs, cs[k].board, cs[k].status)
    ensures var ds := DeleteResult(cs, k);
      forall i :: 0 <= i < |ds| && InColumn(ds[i], cs[k].board, cs[k].status) ==>
        0 <= ds[i].position < Count(cs, cs[k].board, cs[k].status) - 1
  {
    var b, st, from := cs[k].board, cs[k].status, cs[k].position;
    var gs := AfterRemoval(cs, b, st, from);
    var ds := DeleteResult(cs, k);
    var n := Count(cs, b, st);
    forall i | 0 <= i < |ds| && InColumn(ds[i], b, st) ensures 0 <= ds[i].position < n - 1 {
      var x := if i < k then i else i + 1;
      assert ds[i] == gs[x] && x != k;
      assert cs[x].position != from;
    }
  }

  /** After the deletion no two cards of the column share a position. */
  lemma DeleteFromColumnDistinct(cs: seq<Card>, k: nat)
    requires k < |cs|
    requires Dense(cs, cs[k].board, cs[k].status)
    ensures NoDuplicatePositions(DeleteResult(cs, k), cs[k].board, cs[k].status)
  {
    var b, st, from := cs[k].board, cs[k].status, cs[k].position;
    var gs := AfterRemoval(cs, b, st, from);
    var ds := DeleteResult(cs, k);
    forall i, j | 0 <= i < |ds| && 0 <= j < |ds| && i != j && InColumn(ds[i], b, st) && InColumn(ds[j], b, st)
      ensures ds[i].position != ds[j].position
    {
      var x := if i < k then i else i + 1;
      var y := if j < k then j else j + 1;
      assert ds[i] == gs[x] && ds[j] == gs[y] && x != y;
      assert cs[x].position != cs[y].position;
    }
  }

  /** Deleting a card keeps the relative order of the cards left in its
      column. */
  lemma DeleteKeepsOrder(cs: seq<Card>, k: nat, i: nat, j: nat)
    requires k < |cs| && i < |cs| - 1 && j < |cs| - 1
    requires Dense(cs, cs[k].board, cs[k].status)
    requires InColumn(DeleteResult(cs, k)[i], cs[k].board, cs[k].status)
    requires InColumn(DeleteResult(cs, k)[j], cs[k].board, cs[k].status)
    ensures var x, y := (if i < k then i else i + 1), (if j < k then j else j + 1);
      cs[x].position < cs[y].position <==> DeleteResult(cs, k)[i].position < DeleteResult(cs, k)[j].position
  {
    var x, y := (if i < k then i else i + 1), (if j < k then j else j + 1);
    assert cs[x].position != cs[k].position;
    assert cs[y].position != cs[k].position;
  }

  /** A column the deleted card does not belong to keeps its positions and
      its density. */
  lemma DeleteOtherColumn(cs: seq<Card>, k: nat, b: BoardId, st: CardStatus)
    requires k < |cs|
    requires !InColumn(cs[k], b, st)
    requires Dense(cs, b, st)
    ensures Count(DeleteResult(cs, k), b, st) == Count(cs, b, st)
    ensures Dense(DeleteResult(cs, k), b, st)
  {
    var gs := AfterRemoval(cs, cs[k].board, cs[k].status, cs[k].position);
    ColumnUntouched(cs, gs, b, st);
    RemoveAtCount(gs, k, b, st);
    RemoveAtKeepsDense(gs, k, b, st);
  }

  /** Removing a row outside a dense column keeps that column dense. */
  lemma RemoveAtKeepsDense(gs: seq<Card>, k: nat, b: BoardId, st: CardStatus)
    requires k < |gs|
    requires !InColumn(gs[k], b, st)
    requires Dense(gs, b, st)
    requires Count(RemoveAt(gs, k), b, st) == Count(gs, b, st)
    ensures Dense(RemoveAt(gs, k), b, st)
  {
    var ds := RemoveAt(gs, k);
    forall i, j | 0 <= i < |ds| && 0 <= j < |ds| && i != j && InColumn(ds[i], b, st) && InColumn(ds[j], b, st)
      ensures ds[i].position != ds[j].position
    {
      var x := if i < k then i else i + 1;
      var y := if j < k then j else j + 1;
      assert ds[i] == gs[x] && ds[j] == gs[y] && x != y;
    }
    forall i | 0 <= i < |ds| && InColumn(ds[i], b, st) ensures 0 <= ds[i].position < Count(ds, b, st) {
      var x := if i < k then i else i + 1;
      assert ds[i] == gs[x];
    }
  }

  // =====================================================================
  // The whole table
  // =====================================================================

  /** Invariant I1 over the whole table: a move whose target lies in range
      (0..N-1 inside a column, 0..N into another one) keeps every column
      dense. */
  lemma MoveKeepsAllDense(cs: seq<Card>, k: nat, dst: CardStatus, to: int)
    requires k < |cs|
    requires AllDense(cs)
    requires 0 <= to
    requires dst == cs[k].status ==> to < Count(cs, cs[k].board, dst)
    requires dst != cs[k].status ==> to <= Count(cs, cs[k].board, dst)
    ensures AllDense(MoveResult(cs, k, dst, to))
  {
    var ds := MoveResult(cs, k, dst, to);
    var b0, src := cs[k].board, cs[k].status;
    forall b, st ensures Dense(ds, b, st) {
      assert Dense(cs, b, st);
      if b == b0 && st == src {
        if dst == src { MoveWithinColumn(cs, k, to); } else { MoveAcrossSource(cs, k, dst, to); }
      } else if b == b0 && st == dst {
        MoveAcrossTarget(cs, k, dst, to);
      } else {
        ColumnUntouched(cs, ds, b, st);
      }
    }
  }

  /** Invariant I1 over the whole table: deleting a card keeps every column
      dense. */
  lemma DeleteKeepsAllDense(cs: seq<Card>, k: nat)
    requires k < |cs|
    requires AllDense(cs)
    ensures AllDense(DeleteResult(cs, k))
  {
    forall b, st ensures Dense(DeleteResult(cs, k), b, st) {
      assert Dense(cs, b, st);
      if InColumn(cs[k], b, st) {
        DeleteFromColumn(cs, k);
      } else {
        DeleteOtherColumn(cs, k, b, st);
      }
    }
  }

  /** Invariant I1 over the whole table: appending a card at its column's
      append position keeps every column dense. */
  lemma AppendKeepsAllDense(cs: seq<Card>, c: Card)
    requires AllDense(cs)
    requires c.position == NextPosition(ColumnPositions(cs, c.board, c.status))
    ensures AllDense(cs + [c])
  {
    forall b, st ensures Dense(cs + [c], b, st) {
      assert Dense(cs, b, st);
      if InColumn(c, b, st) {
        AppendKeepsDense(cs, c);
      } else {
        AppendOtherColumn(cs, c, b, st);
      }
    }
  }

  lemma AppendOtherColumn(cs: seq<Card>, c: Card, b: BoardId, st: CardStatus)
    requires !InColumn(c, b, st)
    requires Dense(cs, b, st)
    ensures Dense(cs + [c], b, st)
  {
    var ds := cs + [c];
    AppendIndices(cs, c, b, st);
    assert forall i :: 0 <= i < |cs| ==> ds[i] == cs[i];
  }

  /** The cascade of `deleteBoard` to the board's cards: dropping every
      card of board d keeps every column dense, and leaves d's columns
      empty. */
  lemma DeleteBoardKeepsAllDense(cs: seq<Card>, d: BoardId, keep: Card -> bool)
    requires forall c :: keep(c) <==> c.board != d
    requires AllDense(cs)
    ensures AllDense(Filter(cs, keep))
    ensures forall st :: Count(Filter(cs, keep), d, st) == 0
  {
    var ds := Filter(cs, keep);
    var g := KeptIndices(cs, keep);
    KeptIndicesMap(cs, keep);
    forall st ensures Count(ds, d, st) == 0 {
      assert ColumnIndices(ds, d, st) == {};
    }
    forall b, st ensures Dense(ds, b, st) {
      if b != d {
        forall j | 0 <= j < |cs| && InColumn(cs[j], b, st) ensures j in g {
          KeptIndicesReach(cs, keep, j);
        }
        FilteredColumn(cs, ds, g, b, st);
      }
    }
  }

  /** A column every card of which survives a filter keeps its size and
      its density: `g` sends the filtered rows back to their old indices. */
  lemma FilteredColumn(cs: seq<Card>, ds: seq<Card>, g: seq<nat>, b: BoardId, st: CardStatus)
    requires Dense(cs, b, st)
    requires |g| == |ds|
    requires forall i :: 0 <= i < |g| ==> g[i] < |cs| && ds[i] == cs[g[i]]
    requires forall i, j :: 0 <= i < j < |g| ==> g[i] < g[j]
    requires forall j :: 0 <= j < |cs| && InColumn(cs[j], b, st) ==> j in g
    ensures Count(ds, b, st) == Count(cs, b, st)
    ensures Dense(ds, b, st)
  {
    FilteredColumnCount(cs, ds, g, b, st);
    forall i, j | 0 <= i < |ds| && 0 <= j < |ds| && i != j && InColumn(ds[i], b, st) && InColumn(ds[j], b, st)
      ensures ds[i].position != ds[j].position
    {
      if i < j { assert g[i] < g[j]; } else { assert g[j] < g[i]; }
    }
  }

  lemma FilteredColumnCount(cs: seq<Card>, ds: seq<Card>, g: seq<nat>, b: BoardId, st: CardStatus)
    requires |g| == |ds|
    requires forall i :: 0 <= i < |g| ==> g[i] < |cs| && ds[i] == cs[g[i]]
    requires forall i, j :: 0 <= i < j < |g| ==> g[i] < g[j]
    requires forall j :: 0 <= j < |cs| && InColumn(cs[j], b, st) ==> j in g
    ensures Count(ds, b, st) == Count(cs, b, st)
  {
    var idx := ColumnIndices(ds, b, st);
    var f := (i: int) => if 0 <= i < |g| then g[i] as int else 0;
    forall x, y | x in idx && y in idx && x != y ensures f(x) != f(y) {
      if x < y { assert g[x] < g[y]; } else { assert g[y] < g[x]; }
    }
    ImageCard(idx, f, |ds|);
    assert (set i | i in idx :: f(i)) == ColumnIndices(cs, b, st) by {
      forall j | j in ColumnIndices(cs, b, st) ensures j in (set i | i in idx :: f(i)) {
        var i :| 0 <= i < |g| && g[i] == j;
        assert i in idx && f(i) == j;
      }
    }
  }
}
