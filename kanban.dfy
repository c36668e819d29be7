/** `KanbanService`: boards, the cards on them and each card's checklist.
    The board, card and checklist tables are fields of the service object,
    updated in place; the membership table, the set of known users and the
    set of existing teams belong to other services and are passed in. */
module Kanban {
  import opened Common
  import opened Tables
  import opened ColumnOrder
  import opened ColumnProofs
  import Teams

  type ItemId = nat

  /** One row of the `kanban_board` table. */
  datatype Board = Board(team: Teams.TeamId, name: string, description: string)

  /** One row of the `kanban_checklist_item` table. */
  datatype ChecklistItem = ChecklistItem(id: ItemId, card: CardId, text: string, completed: bool, position: int)

  /** The fields of a card update request; `None` stands for a null field,
      which leaves the card's value alone. */
  datatype CardUpdate = CardUpdate(
    title: Option<string>,
    description: Option<string>,
    assignedTo: Option<UserId>,
    dueDate: Option<int>,
    priority: Option<string>)

  function CardKey(c: Card): CardId { c.id }

  function ItemKey(it: ChecklistItem): ItemId { it.id }

  // =====================================================================
  // Parsing the request's enumeration names
  // =====================================================================

  function StatusName(st: CardStatus): string
  {
    match st
    case TODO => "TODO"
    case IN_PROGRESS => "IN_PROGRESS"
    case DONE => "DONE"
  }

  /** `parseStatus`: the upper-cased text names a status, or the column is
      TODO (for no text and for an unknown name alike). */
  function ParseStatus(s: Option<string>): (r: CardStatus)
    ensures forall st :: s.Some? && ToUpper(s.value) == StatusName(st) ==> r == st
    ensures r != TODO ==> s.Some? && ToUpper(s.value) == StatusName(r)
  {
    if s.None? then TODO
    else
      var name := ToUpper(s.value);
      if name == "IN_PROGRESS" then IN_PROGRESS
      else if name == "DONE" then DONE
      else TODO
  }

  /** Every status name parses back to its status, in any letter case. */
  lemma ParseStatusNames(st: CardStatus)
    ensures ParseStatus(Some(StatusName(st))) == st
    ensures ParseStatus(Some(ToLower(StatusName(st)))) == st
  {
    var name := StatusName(st);
    assert NoLowerCase(name);
    UpperOfUpper(name);
    UpperOfLower(name);
    assert ToUpper(ToLower(name)) == name;
  }

  /** `parsePriority` over the declared priority names: the upper-cased text
      if it is one of them, MEDIUM otherwise; the result is always declared. */
  function ParsePriority(s: Option<string>, declared: set<string>): (r: Priority)
    requires MEDIUM.name in declared
    ensures r.name in declared
    ensures s.Some? && ToUpper(s.value) in declared ==> r.name == ToUpper(s.value)
    ensures (s.None? || ToUpper(s.value) !in declared) ==> r == MEDIUM
  {
    if s.Some? && ToUpper(s.value) in declared then Priority(ToUpper(s.value)) else MEDIUM
  }

  // =====================================================================
  // Card lookup and update
  // =====================================================================

  /** `findByIdAndBoard_Id`. */
  function FindCard(cs: seq<Card>, id: CardId, b: BoardId): (r: Option<nat>)
    ensures r.Some? ==> r.value < |cs| && cs[r.value].id == id && cs[r.value].board == b
    ensures r.None? ==> forall i :: 0 <= i < |cs| ==> !(cs[i].id == id && cs[i].board == b)
  {
    FindFirst(cs, (c: Card) => c.id == id && c.board == b)
  }

  /** `findById` on the checklist table. */
  function FindItem(items: seq<ChecklistItem>, id: ItemId): (r: Option<nat>)
    ensures r.Some? ==> r.value < |items| && items[r.value].id == id
    ensures r.None? ==> forall i :: 0 <= i < |items| ==> items[i].id != id
  {
    FindFirst(items, (it: ChecklistItem) => it.id == id)
  }

  /** The assignee a request names: the user when it exists, nobody when the
      id is unknown (`findById(...).orElse(null)`). */
  function Assignee(requested: UserId, users: set<UserId>): (r: Option<UserId>)
    ensures r.Some? <==> requested in users
    ensures r.Some? ==> r.value == requested
  {
    if requested in users then Some(requested) else None
  }

  /** `updateCard` on one card: each non-null request field replaces the
      card's value; status, position, board, creator and id never change. */
  function ApplyUpdate(c: Card, u: CardUpdate, users: set<UserId>, declared: set<string>): (r: Card)
    requires MEDIUM.name in declared
    ensures r.(title := c.title, description := c.description, assignee := c.assignee,
               dueDate := c.dueDate, priority := c.priority) == c
    ensures r.title == (if u.title.Some? then u.title.value else c.title)
    ensures r.description == (if u.description.Some? then u.description.value else c.description)
    ensures u.assignedTo.None? ==> r.assignee == c.assignee
    ensures u.assignedTo.Some? ==> r.assignee == Assignee(u.assignedTo.value, users)
    ensures r.dueDate == (if u.dueDate.Some? then u.dueDate else c.dueDate)
    ensures r.priority == (if u.priority.Some? then ParsePriority(u.priority, declared) else c.priority)
  {
    var c1 := if u.title.Some? then c.(title := u.title.value) else c;
    var c2 := if u.description.Some? then c1.(description := u.description.value) else c1;
    var c3 := if u.assignedTo.Some? then c2.(assignee := Assignee(u.assignedTo.value, users)) else c2;
    var c4 := if u.dueDate.Some? then c3.(dueDate := u.dueDate) else c3;
    if u.priority.Some? then c4.(priority := ParsePriority(u.priority, declared)) else c4
  }

  /** An update never moves a card, so every column stays dense. */
  lemma UpdateKeepsAllDense(cs: seq<Card>, k: nat, u: CardUpdate, users: set<UserId>, declared: set<string>)
    requires k < |cs| && MEDIUM.name in declared
    requires AllDense(cs)
    ensures AllDense(cs[k := ApplyUpdate(cs[k], u, users, declared)])
  {
    var ds := cs[k := ApplyUpdate(cs[k], u, users, declared)];
    forall b, st ensures Dense(ds, b, st) {
      assert Dense(cs, b, st);
      ColumnUntouched(cs, ds, b, st);
    }
  }

  // =====================================================================
  // Checklist positions
  // =====================================================================

  /** The positions `findByCard_IdOrderByPositionAsc` returns, in table order. */
  function ItemPositions(items: seq<ChecklistItem>, card: CardId): (r: seq<int>)
    ensures forall i :: 0 <= i < |items| && items[i].card == card ==> items[i].position in r
    ensures forall p :: p in r ==> exists i :: 0 <= i < |items| && items[i].card == card && items[i].position == p
  {
    if items == [] then []
    else
      var rest := ItemPositions(items[1..], card);
      assert forall i :: 1 <= i < |items| && items[i].card == card ==> items[i].position in rest by {
        forall i | 1 <= i < |items| && items[i].card == card ensures items[i].position in rest {
          assert items[1..][i - 1] == items[i];
        }
      }
      assert forall p :: p in rest ==> exists i :: 1 <= i < |items| && items[i].card == card && items[i].position == p by {
        forall p | p in rest ensures exists i :: 1 <= i < |items| && items[i].card == card && items[i].position == p {
          var j :| 0 <= j < |items[1..]| && items[1..][j].card == card && items[1..][j].position == p;
          assert items[j + 1] == items[1..][j];
        }
      }
      (if items[0].card == card then [items[0].position] else []) + rest
  }

  // =====================================================================
  // The service
  // =====================================================================

  class KanbanService {
    /** The names of the declared priority constants. */
    const priorities: set<string>
    var boards: map<BoardId, Board>
    var cards: seq<Card>
    var items: seq<ChecklistItem>
    var nextBoardId: BoardId
    var nextCardId: CardId
    var nextItemId: ItemId

    /** Ids come from identity columns; every card sits on an existing
        board. */
    ghost predicate Valid()
      reads this
    {
      && MEDIUM.name in priorities
      && (forall b :: b in boards ==> b < nextBoardId)
      && (forall i :: 0 <= i < |cards| ==> cards[i].board in boards && cards[i].id < nextCardId)
      && UniqueBy(cards, CardKey)
      && (forall i :: 0 <= i < |items| ==> items[i].id < nextItemId)
      && UniqueBy(items, ItemKey)
    }

    constructor (declared: set<string>)
      requires MEDIUM.name in declared
      ensures Valid() && priorities == declared
      ensures boards == map[] && cards == [] && items == []
    {
      priorities := declared;
      boards, cards, items := map[], [], [];
      nextBoardId, nextCardId, nextItemId := 0, 0, 0;
    }

    /** The prelude shared by every card operation: the card must exist on
        that board (else `IllegalArgumentException`) and the caller must be
        a member of the board's team (else `IllegalStateException`). */
    function Locate(b: BoardId, cardId: CardId, user: UserId, members: seq<Teams.Membership>): (r: Result<nat>)
      reads this
      requires Valid()
      ensures r == Err(IllegalArgument) <==> FindCard(cards, cardId, b).None?
      ensures r == Err(IllegalState) <==>
        FindCard(cards, cardId, b).Some? && !Teams.IsMember(members, boards[b].team, user)
      ensures r.Ok? ==>
        && r.value < |cards| && cards[r.value].id == cardId && cards[r.value].board == b
        && Teams.IsMember(members, boards[b].team, user)
    {
      match FindCard(cards, cardId, b)
      case None => Err(IllegalArgument)
      case Some(k) =>
        if Teams.IsMember(members, boards[cards[k].board].team, user) then Ok(k) else Err(IllegalState)
    }

    // -------------------------------------------------------------------
    // Boards
    // -------------------------------------------------------------------

    /** `createBoard`: membership is checked before the team is looked up. */
    method CreateBoard(team: Teams.TeamId, name: string, description: string, user: UserId,
                       members: seq<Teams.Membership>, teams: set<Teams.TeamId>)
      returns (r: Result<BoardId>)
      requires Valid()
      modifies this`boards, this`nextBoardId
      ensures Valid()
      ensures !Teams.IsMember(members, team, user) ==> r == Err(IllegalState)
      ensures Teams.IsMember(members, team, user) && team !in teams ==> r == Err(IllegalArgument)
      ensures r.Err? ==> boards == old(boards) && nextBoardId == old(nextBoardId)
      ensures r.Ok? <==> Teams.IsMember(members, team, user) && team in teams
      ensures r.Ok? ==> r.value !in old(boards) && boards == old(boards)[r.value := Board(team, name, description)]
    {
      if !Teams.IsMember(members, team, user) {
        return Err(IllegalState);
      }
      if team !in teams {
        return Err(IllegalArgument);
      }
      var id := nextBoardId;
      boards := boards[id := Board(team, name, description)];
      nextBoardId := nextBoardId + 1;
      r := Ok(id);
    }

    /** `deleteBoard`: OWNER or ADMIN of the board's team only; the board's
        cards go with it, and every column left stays dense. */
    method DeleteBoard(b: BoardId, user: UserId, members: seq<Teams.Membership>) returns (r: Outcome)
      requires Valid()
      modifies this`boards, this`cards
      ensures Valid()
      ensures b !in old(boards) ==> r == Fail(IllegalArgument)
      ensures b in old(boards) && Teams.CheckTeamAdminPermission(members, old(boards)[b].team, user).Fail? ==>
        r == Fail(IllegalState)
      ensures r.Fail? ==> boards == old(boards) && cards == old(cards)
      ensures r == Done <==> b in old(boards) && Teams.CheckTeamAdminPermission(members, old(boards)[b].team, user) == Done
      ensures r == Done ==>
        && boards == old(boards) - {b}
        && (forall c :: c in cards <==> c in old(cards) && c.board != b)
      ensures AllDense(old(cards)) ==> AllDense(cards)
    {
      if b !in boards {
        return Fail(IllegalArgument);
      }
      if Teams.CheckTeamAdminPermission(members, boards[b].team, user).Fail? {
        return Fail(IllegalState);
      }
      var keep := (c: Card) => c.board != b;
      FilterUniqueBy(cards, keep, CardKey);
      if AllDense(cards) {
        DeleteBoardKeepsAllDense(cards, b, keep);
      }
      boards := boards - {b};
      cards := Filter(cards, keep);
      r := Done;
    }

    // -------------------------------------------------------------------
    // Cards
    // -------------------------------------------------------------------

    /** `createCard`: the card is appended to its column, one past the last
        position, or at 0 in an empty column; an unknown assignee id leaves
        the card unassigned. */
    method CreateCard(b: BoardId, title: string, description: string, status: Option<string>,
                      assignedTo: Option<UserId>, dueDate: Option<int>, priority: Option<string>,
                      user: UserId, users: set<UserId>, members: seq<Teams.Membership>)
      returns (r: Result<Card>)
      requires Valid()
      modifies this`cards, this`nextCardId
      ensures Valid()
      ensures b !in boards ==> r == Err(IllegalArgument)
      ensures b in boards && !Teams.IsMember(members, boards[b].team, user) ==> r == Err(IllegalState)
      ensures b in boards && Teams.IsMember(members, boards[b].team, user) && user !in users ==>
        r == Err(IllegalArgument)
      ensures r.Err? ==> cards == old(cards) && nextCardId == old(nextCardId)
      ensures r.Ok? <==> b in boards && Teams.IsMember(members, boards[b].team, user) && user in users
      ensures r.Ok? ==>
        && cards == old(cards) + [r.value]
        && (forall i :: 0 <= i < |old(cards)| ==> old(cards)[i].id != r.value.id)
        && r.value == Card(r.value.id, b, title, description, ParseStatus(status),
                           NextPosition(ColumnPositions(old(cards), b, ParseStatus(status))),
                           if assignedTo.Some? then Assignee(assignedTo.value, users) else None,
                           user, dueDate, ParsePriority(priority, priorities))
      ensures r.Ok? && AllDense(old(cards)) ==> AllDense(cards)
    {
      if b !in boards {
        return Err(IllegalArgument);
      }
      if !Teams.IsMember(members, boards[b].team, user) {
        return Err(IllegalState);
      }
      if user !in users {
        return Err(IllegalArgument);
      }
      var st := ParseStatus(status);
      var pr := ParsePriority(priority, priorities);
      var position := NextPosition(ColumnPositions(cards, b, st));
      var assignee := if assignedTo.Some? then Assignee(assignedTo.value, users) else None;
      var card := Card(nextCardId, b, title, description, st, position, assignee, user, dueDate, pr);
      AppendUniqueBy(cards, card, CardKey);
      if AllDense(cards) {
        AppendKeepsAllDense(cards, card);
      }
      cards := cards + [card];
      nextCardId := nextCardId + 1;
      r := Ok(card);
    }

    /** `updateCard`: non-null fields replace the card's values; the card
        keeps its column and position. */
    method UpdateCard(b: BoardId, cardId: CardId, u: CardUpdate, user: UserId,
                      users: set<UserId>, members: seq<Teams.Membership>)
      returns (r: Result<Card>)
      requires Valid()
      modifies this`cards
      ensures Valid()
      ensures old(Locate(b, cardId, user, members)).Err? ==>
        r == Err(old(Locate(b, cardId, user, members)).error) && cards == old(cards)
      ensures old(Locate(b, cardId, user, members)).Ok? ==>
        (var k := old(Locate(b, cardId, user, members)).value;
         && |cards| == |old(cards)|
         && r == Ok(cards[k])
         && cards == old(cards)[k := ApplyUpdate(old(cards)[k], u, users, priorities)])
      ensures AllDense(old(cards)) ==> AllDense(cards)
    {
      var found := Locate(b, cardId, user, members);
      if found.Err? {
        return Err(found.error);
      }
      var k := found.value;
      var updated := ApplyUpdate(cards[k], u, users, priorities);
      UniqueByPointwise(cards, cards[k := updated], CardKey);
      if AllDense(cards) {
        UpdateKeepsAllDense(cards, k, u, users, priorities);
      }
      cards := cards[k := updated];
      r := Ok(updated);
    }

    /** `moveCard`. Inside one column the cards between the old and the new
        position shift by one towards the gap; across columns the source
        column closes its gap and the target column opens a slot. The
        target position is taken as given. */
    method MoveCard(b: BoardId, cardId: CardId, status: Option<string>, to: int, user: UserId,
                    members: seq<Teams.Membership>)
      returns (r: Result<Card>)
      requires Valid()
      modifies this`cards
      ensures Valid()
      ensures old(Locate(b, cardId, user, members)).Err? ==>
        r == Err(old(Locate(b, cardId, user, members)).error) && cards == old(cards)
      ensures old(Locate(b, cardId, user, members)).Ok? ==>
        (var k := old(Locate(b, cardId, user, members)).value;
         && |cards| == |old(cards)|
         && r == Ok(cards[k])
         && cards == MoveResult(old(cards), k, ParseStatus(status), to))
      ensures old(Locate(b, cardId, user, members)).Ok? && AllDense(old(cards)) ==>
        (var k := old(Locate(b, cardId, user, members)).value;
         var dst := ParseStatus(status);
         var n := Count(old(cards), b, dst);
         (if old(cards)[k].status == dst then 0 <= to < n else 0 <= to <= n) ==> AllDense(cards))
    {
      var found := Locate(b, cardId, user, members);
      if found.Err? {
        return Err(found.error);
      }
      var k := found.value;
      ghost var before := cards;
      var card := cards[k];
      var newStatus := ParseStatus(status);
      if card.status == newStatus {
        ReorderCardsInSameColumn(b, newStatus, card.position, to);
      } else {
        ReorderAfterRemoval(b, card.status, card.position);
        InsertCardIntoColumn(b, newStatus, to);
      }
      var moved := card.(status := newStatus, position := to);
      cards := cards[k := moved];
      assert cards == MoveResult(before, k, newStatus, to);
      UniqueByPointwise(before, cards, CardKey);
      var n := Count(before, b, newStatus);
      if AllDense(before) && (if card.status == newStatus then 0 <= to < n else 0 <= to <= n) {
        MoveKeepsAllDense(before, k, newStatus, to);
      }
      r := Ok(moved);
    }

    /** `deleteCard`: the column's gap is closed, then the row is deleted. */
    method DeleteCard(b: BoardId, cardId: CardId, user: UserId, members: seq<Teams.Membership>)
      returns (r: Outcome)
      requires Valid()
      modifies this`cards
      ensures Valid()
      ensures old(Locate(b, cardId, user, members)).Err? ==>
        r == Fail(old(Locate(b, cardId, user, members)).error) && cards == old(cards)
      ensures old(Locate(b, cardId, user, members)).Ok? ==>
        r == Done && cards == DeleteResult(old(cards), old(Locate(b, cardId, user, members)).value)
      ensures AllDense(old(cards)) ==> AllDense(cards)
    {
      var found := Locate(b, cardId, user, members);
      if found.Err? {
        return Fail(found.error);
      }
      var k := found.value;
      ghost var before := cards;
      var card := cards[k];
      ReorderAfterRemoval(b, card.status, card.position);
      UniqueByPointwise(before, cards, CardKey);
      RemoveAtUniqueBy(cards, k, CardKey);
      cards := RemoveAt(cards, k);
      if AllDense(before) {
        DeleteKeepsAllDense(before, k);
      }
      r := Done;
    }

    // -------------------------------------------------------------------
    // The three column shifts
    // -------------------------------------------------------------------

    /** `reorderCardsInSameColumn`: one pass over the column for each
        direction of the move. */
    method ReorderCardsInSameColumn(b: BoardId, st: CardStatus, from: int, to: int)
      modifies this`cards
      ensures cards == ReorderWithin(old(cards), b, st, from, to)
    {
      if from < to {
        var i := 0;
        while i < |cards|
          invariant 0 <= i <= |cards| == |old(cards)|
          invariant forall j :: 0 <= j < i ==> cards[j] == ShiftWithin(old(cards)[j], b, st, from, to)
          invariant forall j :: i <= j < |cards| ==> cards[j] == old(cards)[j]
        {
          var c := cards[i];
          if InColumn(c, b, st) && c.position > from && c.position <= to {
            cards := cards[i := c.(position := c.position - 1)];
          }
          i := i + 1;
        }
      } else if from > to {
        var i := 0;
        while i < |cards|
          invariant 0 <= i <= |cards| == |old(cards)|
          invariant forall j :: 0 <= j < i ==> cards[j] == ShiftWithin(old(cards)[j], b, st, from, to)
          invariant forall j :: i <= j < |cards| ==> cards[j] == old(cards)[j]
        {
          var c := cards[i];
          if InColumn(c, b, st) && c.position >= to && c.position < from {
            cards := cards[i := c.(position := c.position + 1)];
          }
          i := i + 1;
        }
      }
      assert cards == ReorderWithin(old(cards), b, st, from, to);
    }

    /** `reorderAfterRemoval`: every card of the column at `p` or after moves
        one place forward. */
    method ReorderAfterRemoval(b: BoardId, st: CardStatus, p: int)
      modifies this`cards
      ensures cards == AfterRemoval(old(cards), b, st, p)
    {
      var i := 0;
      while i < |cards|
        invariant 0 <= i <= |cards| == |old(cards)|
        invariant forall j :: 0 <= j < i ==> cards[j] == CloseGap(old(cards)[j], b, st, p)
        invariant forall j :: i <= j < |cards| ==> cards[j] == old(cards)[j]
      {
        var c := cards[i];
        if InColumn(c, b, st) && c.position >= p {
          cards := cards[i := c.(position := c.position - 1)];
        }
        i := i + 1;
      }
      assert cards == AfterRemoval(old(cards), b, st, p);
    }

    /** `insertCardIntoColumn`: every card of the column at `p` or after
        moves one place back. */
    method InsertCardIntoColumn(b: BoardId, st: CardStatus, p: int)
      modifies this`cards
      ensures cards == AfterInsertion(old(cards), b, st, p)
    {
      var i := 0;
      while i < |cards|
        invariant 0 <= i <= |cards| == |old(cards)|
        invariant forall j :: 0 <= j < i ==> cards[j] == OpenSlot(old(cards)[j], b, st, p)
        invariant forall j :: i <= j < |cards| ==> cards[j] == old(cards)[j]
      {
        var c := cards[i];
        if InColumn(c, b, st) && c.position >= p {
          cards := cards[i := c.(position := c.position + 1)];
        }
        i := i + 1;
      }
      assert cards == AfterInsertion(old(cards), b, st, p);
    }

    // -------------------------------------------------------------------
    // Checklist items
    // -------------------------------------------------------------------

    /** `addChecklistItem`: a new, not completed item one past the card's
        last item position (0 for the first item). */
    method AddChecklistItem(b: BoardId, cardId: CardId, text: string, user: UserId,
                            members: seq<Teams.Membership>)
      returns (r: Result<ChecklistItem>)
      requires Valid()
      modifies this`items, this`nextItemId
      ensures Valid()
      ensures old(Locate(b, cardId, user, members)).Err? ==>
        r == Err(old(Locate(b, cardId, user, members)).error) && items == old(items) && nextItemId == old(nextItemId)
      ensures old(Locate(b, cardId, user, members)).Ok? ==>
        && r.Ok?
        && items == old(items) + [r.value]
        && (forall i :: 0 <= i < |old(items)| ==> old(items)[i].id != r.value.id)
        && r.value == ChecklistItem(r.value.id, cardId, text, false, NextPosition(ItemPositions(old(items), cardId)))
    {
      var found := Locate(b, cardId, user, members);
      if found.Err? {
        return Err(found.error);
      }
      var position := NextPosition(ItemPositions(items, cardId));
      var item := ChecklistItem(nextItemId, cardId, text, false, position);
      AppendUniqueBy(items, item, ItemKey);
      items := items + [item];
      nextItemId := nextItemId + 1;
      r := Ok(item);
    }

    /** `toggleChecklistItem`: flips `completed` and nothing else. The item
        is looked up by its id alone: it need not belong to the card named
        in the request. */
    method ToggleChecklistItem(b: BoardId, cardId: CardId, itemId: ItemId, user: UserId,
                               members: seq<Teams.Membership>)
      returns (r: Result<ChecklistItem>)
      requires Valid()
      modifies this`items
      ensures Valid()
      ensures old(Locate(b, cardId, user, members)).Err? ==>
        r == Err(old(Locate(b, cardId, user, members)).error) && items == old(items)
      ensures old(Locate(b, cardId, user, members)).Ok? && FindItem(old(items), itemId).None? ==>
        r == Err(IllegalArgument) && items == old(items)
      ensures old(Locate(b, cardId, user, members)).Ok? && FindItem(old(items), itemId).Some? ==>
        (var k := FindItem(old(items), itemId).value;
         var it := old(items)[k];
         && r == Ok(it.(completed := !it.completed))
         && items == old(items)[k := it.(completed := !it.completed)])
    {
      var found := Locate(b, cardId, user, members);
      if found.Err? {
        return Err(found.error);
      }
      var k := FindItem(items, itemId);
      if k.None? {
        return Err(IllegalArgument);
      }
      var it := items[k.value];
      var flipped := it.(completed := !it.completed);
      UniqueByPointwise(items, items[k.value := flipped], ItemKey);
      items := items[k.value := flipped];
      r := Ok(flipped);
    }

    /** `deleteChecklistItem`: `deleteById`, silent when the id is absent;
        the item need not belong to the card, and the remaining items keep
        their positions. */
    method DeleteChecklistItem(b: BoardId, cardId: CardId, itemId: ItemId, user: UserId,
                               members: seq<Teams.Membership>)
      returns (r: Outcome)
      requires Valid()
      modifies this`items
      ensures Valid()
      ensures old(Locate(b, cardId, user, members)).Err? ==>
        r == Fail(old(Locate(b, cardId, user, members)).error) && items == old(items)
      ensures old(Locate(b, cardId, user, members)).Ok? ==>
        r == Done && forall it :: it in items <==> it in old(items) && it.id != itemId
    {
      var found := Locate(b, cardId, user, members);
      if found.Err? {
        return Fail(found.error);
      }
      var keep := (it: ChecklistItem) => it.id != itemId;
      FilterUniqueBy(items, keep, ItemKey);
      items := Filter(items, keep);
      r := Done;
    }
  }

  /** A new checklist item never takes a position its card already uses. */
  lemma NewItemPositionIsFree(items: seq<ChecklistItem>, card: CardId)
    ensures forall i :: 0 <= i < |items| && items[i].card == card ==>
      items[i].position < NextPosition(ItemPositions(items, card))
    ensures (forall i :: 0 <= i < |items| ==> items[i].card != card) ==> NextPosition(ItemPositions(items, card)) == 0
  {
    var ps := ItemPositions(items, card);
    NextPositionIsPastMax(ps);
    if ps != [] {
      assert ps[0] in ps;
    }
  }
}
