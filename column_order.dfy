/** The position ledger of the kanban board: every card has a status (its
    column) and an integer position, and the service keeps the positions of
    each (board, status) column in step by shifting whole ranges of cards by
    one. This module holds the card record, the three shifts the service
    performs, the effect of a move and of a delete on the whole card table,
    and the column-density invariant with the facts proved about it. */
module ColumnOrder {
  import opened Common
  import opened Tables
  import opened Sorting

  type BoardId = nat
  type CardId = nat
  type UserId = nat

  datatype CardStatus = TODO | IN_PROGRESS | DONE

  /** The priority enumeration is used by the service but not declared in
      the card entity, so it is kept opaque: a priority is known by its
      constant name, and MEDIUM is one of them. */
  datatype Priority = Priority(name: string)

  const MEDIUM: Priority := Priority("MEDIUM")

  /** One row of the `kanban_card` table. Dates are integer clock values. */
  datatype Card = Card(
    id: CardId,
    board: BoardId,
    title: string,
    description: string,
    status: CardStatus,
    position: int,
    assignee: Option<UserId>,
    createdBy: UserId,
    dueDate: Option<int>,
    priority: Priority)

  predicate InColumn(c: Card, b: BoardId, st: CardStatus)
  {
    c.board == b && c.status == st
  }

  // =====================================================================
  // The three shifts, card by card
  // =====================================================================

  /** `reorderCardsInSameColumn` on one card of the table: moving down
      (from < to) pulls the cards in (from, to] up by one, moving up
      (from > to) pushes the cards in [to, from) down by one. */
  function ShiftWithin(c: Card, b: BoardId, st: CardStatus, from: int, to: int): Card
  {
    if !InColumn(c, b, st) then c
    else if from < to && from < c.position <= to then c.(position := c.position - 1)
    else if from > to && to <= c.position < from then c.(position := c.position + 1)
    else c
  }

  /** `reorderAfterRemoval` on one card: the query behind it selects
      `position >= p`, so the card at p itself is decremented too. */
  function CloseGap(c: Card, b: BoardId, st: CardStatus, p: int): Card
  {
    if InColumn(c, b, st) && c.position >= p then c.(position := c.position - 1) else c
  }

  /** `insertCardIntoColumn` on one card: every card at p or after moves
      one place back. */
  function OpenSlot(c: Card, b: BoardId, st: CardStatus, p: int): Card
  {
    if InColumn(c, b, st) && c.position >= p then c.(position := c.position + 1) else c
  }

  // =====================================================================
  // The shifts over the whole table
  // =====================================================================

  function ReorderWithin(cs: seq<Card>, b: BoardId, st: CardStatus, from: int, to: int): (r: seq<Card>)
    ensures |r| == |cs|
    ensures forall i :: 0 <= i < |cs| ==> r[i] == ShiftWithin(cs[i], b, st, from, to)
  {
    seq(|cs|, i requires 0 <= i < |cs| => ShiftWithin(cs[i], b, st, from, to))
  }

  function AfterRemoval(cs: seq<Card>, b: BoardId, st: CardStatus, p: int): (r: seq<Card>)
    ensures |r| == |cs|
    ensures forall i :: 0 <= i < |cs| ==> r[i] == CloseGap(cs[i], b, st, p)
  {
    seq(|cs|, i requires 0 <= i < |cs| => CloseGap(cs[i], b, st, p))
  }

  function AfterInsertion(cs: seq<Card>, b: BoardId, st: CardStatus, p: int): (r: seq<Card>)
    ensures |r| == |cs|
    ensures forall i :: 0 <= i < |cs| ==> r[i] == OpenSlot(cs[i], b, st, p)
  {
    seq(|cs|, i requires 0 <= i < |cs| => OpenSlot(cs[i], b, st, p))
  }

  /** The card table after `moveCard` moves card number k to column st at
      position `to`: the shifts chosen by comparing the old and the new
      status, then the moved card overwritten with its new status and
      position. */
  function MoveResult(cs: seq<Card>, k: nat, st: CardStatus, to: int): (r: seq<Card>)
    requires k < |cs|
    ensures |r| == |cs|
    ensures r[k] == cs[k].(status := st, position := to)
    ensures forall i :: 0 <= i < |cs| && i != k ==> r[i] == cs[i].(position := r[i].position)
  {
    var c := cs[k];
    var shifted :=
      if c.status == st then ReorderWithin(cs, c.board, st, c.position, to)
      else AfterInsertion(AfterRemoval(cs, c.board, c.status, c.position), c.board, st, to);
    shifted[k := c.(status := st, position := to)]
  }

  /** A move to the card's own column and position changes no card. */
  lemma MoveToOwnSlot(cs: seq<Card>, k: nat)
    requires k < |cs|
    ensures MoveResult(cs, k, cs[k].status, cs[k].position) == cs
  {
    var c := cs[k];
    assert ReorderWithin(cs, c.board, c.status, c.position, c.position) == cs;
  }

  /** The card table after `deleteCard` removes card number k: its column's
      gap is closed first, then the row is deleted. */
  function DeleteResult(cs: seq<Card>, k: nat): (r: seq<Card>)
    requires k < |cs|
    ensures |r| == |cs| - 1
    ensures forall i :: 0 <= i < |r| ==> r[i] == (if i < k then cs[i] else cs[i + 1]).(position := r[i].position)
  {
    RemoveAt(AfterRemoval(cs, cs[k].board, cs[k].status, cs[k].position), k)
  }

  // =====================================================================
  // Column size and the density invariant
  // =====================================================================

  function ColumnIndices(cs: seq<Card>, b: BoardId, st: CardStatus): set<int>
  {
    set i | 0 <= i < |cs| && InColumn(cs[i], b, st)
  }

  /** N, the number of cards in the column. */
  function Count(cs: seq<Card>, b: BoardId, st: CardStatus): nat
  {
    |ColumnIndices(cs, b, st)|
  }

  /** Column density: the cards of the column hold pairwise different
      positions, all within 0..N-1. */
  ghost predicate Dense(cs: seq<Card>, b: BoardId, st: CardStatus)
  {
    && (forall i :: 0 <= i < |cs| && InColumn(cs[i], b, st) ==> 0 <= cs[i].position < Count(cs, b, st))
    && NoDuplicatePositions(cs, b, st)
  }

  ghost predicate NoDuplicatePositions(cs: seq<Card>, b: BoardId, st: CardStatus)
  {
    forall i, j :: 0 <= i < |cs| && 0 <= j < |cs| && i != j && InColumn(cs[i], b, st) && InColumn(cs[j], b, st) ==>
      cs[i].position != cs[j].position
  }

  ghost function PositionSet(cs: seq<Card>, b: BoardId, st: CardStatus): set<int>
  {
    set i | 0 <= i < |cs| && InColumn(cs[i], b, st) :: cs[i].position
  }

  /** {0, 1, ..., n-1}. */
  function Range(n: nat): (r: set<int>)
    ensures forall p :: p in r <==> 0 <= p < n
  {
    if n == 0 then {} else Range(n - 1) + {n - 1}
  }

  /** Every card outside the named columns is untouched. */
  ghost predicate OthersUnchanged(cs: seq<Card>, ds: seq<Card>, b: BoardId, st1: CardStatus, st2: CardStatus)
    requires |cs| == |ds|
  {
    forall i :: 0 <= i < |cs| && !InColumn(cs[i], b, st1) && !InColumn(cs[i], b, st2) ==> ds[i] == cs[i]
  }

  // =====================================================================
  // Counting
  // =====================================================================

  /** An injective map keeps the size of a finite set of indices. */
  lemma {:induction false} ImageCard(s: set<int>, f: int -> int, n: nat)
    requires forall x :: x in s ==> 0 <= x < n
    requires forall x, y :: x in s && y in s && x != y ==> f(x) != f(y)
    ensures |set x | x in s :: f(x)| == |s|
  {
    if n == 0 {
      assert forall x :: x !in s;
      assert s == {};
      assert (set x | x in s :: f(x)) == {};
    } else {
      var rest := s - {n - 1};
      ImageCard(rest, f, n - 1);
      if n - 1 in s {
        assert (set y | y in s :: f(y)) == (set y | y in rest :: f(y)) + {f(n - 1)};
      } else {
        assert rest == s;
      }
    }
  }

  lemma {:induction false} RangeCard(n: nat)
    ensures |Range(n)| == n
  {
    if n > 0 {
      RangeCard(n - 1);
    }
  }

  lemma SubsetOfSameSize(a: set<int>, b: set<int>)
    requires a <= b && |a| == |b|
    ensures a == b
  {
    assert b == a + (b - a);
    assert |b - a| == 0;
  }

  /** Invariant I1 read literally: a column is dense exactly when no two of
      its cards share a position and the set of its positions is
      {0, 1, ..., N-1}. */
  lemma DenseIffPositionsAreRange(cs: seq<Card>, b: BoardId, st: CardStatus)
    ensures Dense(cs, b, st) <==>
      NoDuplicatePositions(cs, b, st) && PositionSet(cs, b, st) == Range(Count(cs, b, st))
  {
    var n := Count(cs, b, st);
    var idx := ColumnIndices(cs, b, st);
    if Dense(cs, b, st) {
      var f := (i: int) => if 0 <= i < |cs| then cs[i].position else 0;
      ImageCard(idx, f, |cs|);
      assert (set i | i in idx :: f(i)) == PositionSet(cs, b, st) by {
        forall p | p in PositionSet(cs, b, st) ensures p in (set i | i in idx :: f(i)) {
          var i :| 0 <= i < |cs| && InColumn(cs[i], b, st) && cs[i].position == p;
          assert i in idx && f(i) == p;
        }
      }
      RangeCard(n);
      SubsetOfSameSize(PositionSet(cs, b, st), Range(n));
    }
    if NoDuplicatePositions(cs, b, st) && PositionSet(cs, b, st) == Range(n) {
      forall i | 0 <= i < |cs| && InColumn(cs[i], b, st) ensures 0 <= cs[i].position < n {
        assert cs[i].position in PositionSet(cs, b, st);
      }
    }
  }

  /** In a dense column every position 0..N-1 is held by some card. */
  lemma DenseCovers(cs: seq<Card>, b: BoardId, st: CardStatus, p: int)
    requires Dense(cs, b, st)
    requires 0 <= p < Count(cs, b, st)
    ensures exists i :: 0 <= i < |cs| && InColumn(cs[i], b, st) && cs[i].position == p
  {
    DenseIffPositionsAreRange(cs, b, st);
    assert p in PositionSet(cs, b, st);
  }

  // =====================================================================
  // The append position of createCard / addChecklistItem
  // =====================================================================

  /** The positions a column query returns, in table order. */
  function ColumnPositions(cs: seq<Card>, b: BoardId, st: CardStatus): (r: seq<int>)
    ensures forall i :: 0 <= i < |cs| && InColumn(cs[i], b, st) ==> cs[i].position in r
    ensures forall p :: p in r ==> exists i :: 0 <= i < |cs| && InColumn(cs[i], b, st) && cs[i].position == p
  {
    if cs == [] then []
    else
      var rest := ColumnPositions(cs[1..], b, st);
      assert forall i :: 1 <= i < |cs| && InColumn(cs[i], b, st) ==> cs[i].position in rest by {
        forall i | 1 <= i < |cs| && InColumn(cs[i], b, st) ensures cs[i].position in rest {
          assert cs[1..][i - 1] == cs[i];
        }
      }
      assert forall p :: p in rest ==> exists i :: 1 <= i < |cs| && InColumn(cs[i], b, st) && cs[i].position == p by {
        forall p | p in rest ensures exists i :: 1 <= i < |cs| && InColumn(cs[i], b, st) && cs[i].position == p {
          var j :| 0 <= j < |cs[1..]| && InColumn(cs[1..][j], b, st) && cs[1..][j].position == p;
          assert cs[j + 1] == cs[1..][j];
        }
      }
      (if InColumn(cs[0], b, st) then [cs[0].position] else []) + rest
  }

  /** `existing.isEmpty() ? 0 : existing.get(existing.size() - 1).getPosition() + 1`
      over the positions sorted ascending. */
  function NextPosition(ps: seq<int>): int
  {
    if ps == [] then 0
    else
      var sorted := SortBy(ps, (p: int) => p);
      SortBySpec(ps, (p: int) => p);
      sorted[|sorted| - 1] + 1
  }

  /** The append position is 0 for an empty scope and otherwise one past the
      largest position held, so it is never already taken. */
  lemma NextPositionIsPastMax(ps: seq<int>)
    ensures ps == [] ==> NextPosition(ps) == 0
    ensures ps != [] ==> NextPosition(ps) - 1 in ps
    ensures forall p :: p in ps ==> p < NextPosition(ps)
  {
    if ps != [] {
      LastIsMax(ps, (p: int) => p);
    }
  }

  /** On a dense column the append position is the column size N. */
  lemma NextPositionOnDenseColumn(cs: seq<Card>, b: BoardId, st: CardStatus)
    requires Dense(cs, b, st)
    ensures NextPosition(ColumnPositions(cs, b, st)) == Count(cs, b, st)
  {
    var ps := ColumnPositions(cs, b, st);
    var n := Count(cs, b, st);
    NextPositionIsPastMax(ps);
    if n != 0 {
      DenseCovers(cs, b, st, n - 1);
      assert n - 1 in ps;
      assert NextPosition(ps) - 1 in ps;
    }
  }

  lemma AppendIndices(cs: seq<Card>, c: Card, b: BoardId, st: CardStatus)
    ensures ColumnIndices(cs + [c], b, st) == ColumnIndices(cs, b, st) + (if InColumn(c, b, st) then {|cs|} else {})
    ensures Count(cs + [c], b, st) == Count(cs, b, st) + (if InColumn(c, b, st) then 1 else 0)
  {
    var ds := cs + [c];
    forall i ensures i in ColumnIndices(ds, b, st) <==> i in ColumnIndices(cs, b, st) + (if InColumn(c, b, st) then {|cs|} else {}) {
      if 0 <= i < |cs| { assert ds[i] == cs[i]; }
    }
    assert |cs| !in ColumnIndices(cs, b, st);
  }

  /** Appending a card at the append position of a dense column keeps it
      dense, one card longer; no other card is repositioned. */
  lemma AppendKeepsDense(cs: seq<Card>, c: Card)
    requires Dense(cs, c.board, c.status)
    requires c.position == NextPosition(ColumnPositions(cs, c.board, c.status))
    ensures Count(cs + [c], c.board, c.status) == Count(cs, c.board, c.status) + 1
    ensures Dense(cs + [c], c.board, c.status)
  {
    var b, st := c.board, c.status;
    var ds := cs + [c];
    var n := Count(cs, b, st);
    NextPositionOnDenseColumn(cs, b, st);
    AppendIndices(cs, c, b, st);
    forall i | 0 <= i < |ds| && InColumn(ds[i], b, st) ensures 0 <= ds[i].position < n + 1 {
      if i < |cs| { assert ds[i] == cs[i]; }
    }
    forall i, j | 0 <= i < |ds| && 0 <= j < |ds| && i != j && InColumn(ds[i], b, st) && InColumn(ds[j], b, st)
      ensures ds[i].position != ds[j].position
    {
      if i < |cs| { assert ds[i] == cs[i]; }
      if j < |cs| { assert ds[j] == cs[j]; }
    }
  }
}
