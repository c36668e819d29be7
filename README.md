# board_was core, modelled in Dafny

board_was is a Spring backend for a bulletin board with team kanban boards
and collaborative editing. This project models the parts of it that carry
rules:

- **The kanban column ledger** (`KanbanService`). Each card has a status,
  which is its column, and an integer position. Creating, moving and
  deleting a card shifts whole ranges of positions by one. The card,
  board and checklist tables are fields of a `KanbanService` class. The
  three shift helpers are loops that rewrite positions in place. Each is
  proved against a function of the old table (`ColumnOrder`), and
  `ColumnProofs` proves that the shifts keep every column dense: the
  positions of a column of N cards are exactly {0, ..., N-1}.
- **Edit sessions** (`CollaborativeEditService`,
  `CollaborativeEditController`):
  - joining is an upsert keyed by (post, transport session);
  - leaving deletes every session of that user on that post;
  - a sweep deletes sessions idle for more than five minutes;
  - the message handlers stamp the incoming message in place.
- **Teams** (`TeamService`): the membership table, with roles and the
  OWNER/ADMIN checks that guard it.
- **Posts and tags as entities** (`Post`, `Tag`): counters that are bumped
  in place with decrements floored at zero, and the many-to-many link that
  both sides keep as a list.
- **The tag registry** (`TagService`): get-or-create by normalised name,
  the unused-tag sweep and the top-20 listing.
- **Likes** (`PostLikeService`) and **comments** (`CommentService`): their
  tables, and the post counters kept alongside them.
- **The post service** (`PostService`): sort parsing, query selection,
  who sees a secret post in full, and the author-only updates.

Java exceptions become an `Error` value: `IllegalArgument` (HTTP 400),
`IllegalState` (409) and `Internal` (500). Operations answer a `Result` or
an `Outcome`. Repository queries become filters over the table sequences.
Clock values, the set of known users and the password encoder are
parameters.

In four places the model reproduces behaviour of the code that a reader
might not expect:

- A new card goes one past the last position of its column, not at the
  column size. The two agree on a dense column
  (`ColumnOrder.NextPositionOnDenseColumn`).
- The query behind `reorderAfterRemoval` selects `position >= p`, so the
  moved or deleted card is itself decremented before it is overwritten
  or removed.
- A card that is missing, or not on the given board, fails with
  `IllegalArgument`.
- `moveCard` broadcasts nothing. Only the `handleCardMove` handler relays
  moves, and it touches no card.

## Model

| member | source | states |
|---|---|---|
| Teams.RoleOf | src/main/java/com/example/board/service/TeamService.java:183-184 | a role is found exactly when the user is a member of the team, and the row (team, user, role) is in the table |
| Teams.RoleOfUnique | src/main/java/com/example/board/service/TeamService.java:183-184 | with one row per (team, user), the role found for a row's team and user is that row's role |
| Teams.CheckTeamMembership | src/main/java/com/example/board/service/TeamService.java:176-180 | passes exactly for members; anyone else gets IllegalState |
| Teams.CheckTeamAdminPermission | src/main/java/com/example/board/service/TeamService.java:182-190 | passes exactly for a member whose role is OWNER or ADMIN; a non-member and a plain MEMBER both get IllegalState |
| Teams.InvitedRole | src/main/java/com/example/board/service/TeamService.java:117-120 | an invitation never grants OWNER; it grants ADMIN iff the requested text equals "ADMIN" ignoring case |
| Teams.InvitedRoleExamples | src/main/java/com/example/board/service/TeamService.java:117-120 | "admin" gives ADMIN; "Owner" and no text give MEMBER |
| Teams.TeamService.CreateTeam | src/main/java/com/example/board/service/TeamService.java:36-61 | an unknown creator is IllegalArgument and changes nothing; otherwise a fresh team id records its creator, the creator's OWNER row is appended, and rows stay unique per (team, user) |
| Teams.CreatorIsAdmin | src/main/java/com/example/board/service/TeamService.java:50-56 | right after creation the creator passes the OWNER/ADMIN check |
| Teams.TeamService.GetTeamMembers | src/main/java/com/example/board/service/TeamService.java:86-94 | a non-member gets IllegalState; a member gets exactly the rows of that team |
| Teams.TeamService.InviteMember | src/main/java/com/example/board/service/TeamService.java:100-133 | checks in source order: caller OWNER/ADMIN (IllegalState), invitee exists (IllegalArgument), invitee not already a member (IllegalState), team exists (IllegalArgument); success appends exactly one row with the invited role; every failure changes nothing; membership stays unique |
| Teams.TeamService.RemoveMember | src/main/java/com/example/board/service/TeamService.java:139-154 | needs an OWNER/ADMIN caller and an existing target that is not OWNER; the errors are the source's; success deletes exactly the (team, user) row |
| Teams.TeamService.DeleteTeam | src/main/java/com/example/board/service/TeamService.java:160-172 | a missing team is IllegalArgument; a caller other than the recorded creator is IllegalState whatever their role; success removes the team and its membership rows; the membership removal is an assumed cascade (see Left out) |
| ColumnOrder.MoveResult | src/main/java/com/example/board/service/KanbanService.java:222-239 | after a move the moved card has the new status and the target position; every other card differs from before at most in its position |
| ColumnOrder.MoveToOwnSlot | src/main/java/com/example/board/service/KanbanService.java:295-312 | a move to the card's own column and position changes no card: neither shift branch applies when old equals new |
| ColumnOrder.DeleteResult | src/main/java/com/example/board/service/KanbanService.java:262-265 | after a delete the table is one row shorter, and each remaining card is the old card at the same or next index with at most its position changed |
| ColumnOrder.DenseIffPositionsAreRange | src/main/java/com/example/board/service/KanbanService.java:295-331 | a column is dense (no two cards share a position, all in 0..N-1) exactly when its positions are pairwise different and their set is {0, ..., N-1} |
| ColumnOrder.DenseCovers | src/main/java/com/example/board/service/KanbanService.java:295-331 | in a dense column every position 0..N-1 is held by some card |
| ColumnOrder.ColumnPositions | src/main/java/com/example/board/service/KanbanService.java:135 | the positions listed are exactly those of the cards in that (board, status) column |
| ColumnOrder.NextPositionIsPastMax | src/main/java/com/example/board/service/KanbanService.java:136 | the append position is 0 for an empty scope; otherwise it is one past a position that is held, and greater than every held position, so it is never taken |
| ColumnOrder.NextPositionOnDenseColumn | src/main/java/com/example/board/service/KanbanService.java:135-136 | on a dense column the append position equals the column size N |
| ColumnOrder.AppendKeepsDense | src/main/java/com/example/board/service/KanbanService.java:135-155 | appending a card at the append position makes its dense column one card longer and keeps it dense |
| ColumnProofs.ColumnUntouched | src/main/java/com/example/board/service/KanbanService.java:295-331 | a column whose members and positions a step leaves alone keeps its size and density |
| ColumnProofs.MoveWithinColumn | src/main/java/com/example/board/service/KanbanService.java:295-315 | a move inside a dense column to 0 <= to < N keeps the column's size and density, and the card lands at `to` |
| ColumnProofs.MoveWithinKeepsOrder | src/main/java/com/example/board/service/KanbanService.java:295-315 | a move inside a dense column keeps the relative order of the cards that were not moved |
| ColumnProofs.MoveAcrossRows | src/main/java/com/example/board/service/KanbanService.java:231-239 | a move across columns closes the source gap (positions >= old drop by one) and opens the target slot (positions >= to rise by one) on every other card; the moved card ends with the new status and `to` |
| ColumnProofs.MoveAcrossSourceCount | src/main/java/com/example/board/service/KanbanService.java:233 | the source column loses exactly one card |
| ColumnProofs.MoveAcrossSource | src/main/java/com/example/board/service/KanbanService.java:317-323 | the dense source column stays dense, one card shorter |
| ColumnProofs.MoveAcrossTargetCount | src/main/java/com/example/board/service/KanbanService.java:235 | the target column gains exactly one card |
| ColumnProofs.MoveAcrossTarget | src/main/java/com/example/board/service/KanbanService.java:325-331 | for 0 <= to <= N the dense target column stays dense, one card longer, with the card at `to` |
| ColumnProofs.MoveAcrossKeepsOrder | src/main/java/com/example/board/service/KanbanService.java:231-239 | the relative order of the cards left in the source, and of those already in the target, is kept; target cards before the slot stay before the moved card and the others come after it |
| ColumnProofs.RemoveAtCount | src/main/java/com/example/board/service/KanbanService.java:265 | deleting a row takes one card off its own column's count and none off any other column |
| ColumnProofs.DeleteFromColumnBelow | src/main/java/com/example/board/service/KanbanService.java:262-265 | after a delete from a dense column, every remaining card of that column sits below N-1 |
| ColumnProofs.DeleteFromColumnDistinct | src/main/java/com/example/board/service/KanbanService.java:262-265 | after a delete, no two cards of that column share a position |
| ColumnProofs.DeleteFromColumn | src/main/java/com/example/board/service/KanbanService.java:262-265 | a delete leaves its dense column dense and one card shorter |
| ColumnProofs.DeleteKeepsOrder | src/main/java/com/example/board/service/KanbanService.java:262-265 | a delete keeps the relative order of the cards left in the column |
| ColumnProofs.DeleteOtherColumn | src/main/java/com/example/board/service/KanbanService.java:262-265 | a delete changes neither the size nor the density of any other column |
| ColumnProofs.MoveKeepsAllDense | src/main/java/com/example/board/service/KanbanService.java:213-247 | if every column is dense and the target is in range (0 <= to < N within a column, 0 <= to <= N across columns), every column is dense after the move |
| ColumnProofs.DeleteKeepsAllDense | src/main/java/com/example/board/service/KanbanService.java:253-268 | if every column is dense, every column is dense after a delete |
| ColumnProofs.DeleteBoardKeepsAllDense | src/main/java/com/example/board/service/KanbanService.java:103-113 | dropping every card of one board keeps every column of a dense table dense, and leaves that board's columns empty |
| ColumnProofs.FilteredColumn | src/main/java/com/example/board/service/KanbanService.java:103-113 | a dense column all of whose cards survive a bulk delete keeps its size and stays dense |
| ColumnProofs.AppendKeepsAllDense | src/main/java/com/example/board/service/KanbanService.java:135-155 | appending a card at its column's append position keeps every column dense |
| ColumnProofs.AppendOtherColumn | src/main/java/com/example/board/service/KanbanService.java:155 | appending a card leaves every other column dense |
| Kanban.ParseStatus | src/main/java/com/example/board/service/KanbanService.java:274-283 | the status whose name equals the upper-cased text; TODO for no text and for an unknown name |
| Kanban.ParseStatusNames | src/main/java/com/example/board/service/KanbanService.java:274-283 | every status name parses back to its status, in upper and in lower case |
| Kanban.ParsePriority | src/main/java/com/example/board/service/KanbanService.java:198-207 | the upper-cased text when it names a declared priority, MEDIUM otherwise; the result is always declared |
| Kanban.FindCard | src/main/java/com/example/board/service/KanbanService.java:166-167 | finds a card with that id on that board, or reports that none exists |
| Kanban.FindItem | src/main/java/com/example/board/service/KanbanService.java:370-371 | finds a checklist item by id alone, or reports that none exists |
| Kanban.Assignee | src/main/java/com/example/board/service/KanbanService.java:138-141 | the assignee is the requested user when that user exists, and nobody otherwise |
| Kanban.ApplyUpdate | src/main/java/com/example/board/service/KanbanService.java:173-188 | each non-null request field replaces the card's value; id, board, status, position and creator never change |
| Kanban.UpdateKeepsAllDense | src/main/java/com/example/board/service/KanbanService.java:173-190 | an update keeps every column dense |
| Kanban.ItemPositions | src/main/java/com/example/board/service/KanbanService.java:343 | the positions listed are exactly those of the card's checklist items |
| Kanban.NewItemPositionIsFree | src/main/java/com/example/board/service/KanbanService.java:343-344 | a new checklist item never takes a position already used on its card, and it is 0 for a card's first item |
| Kanban.KanbanService.Locate | src/main/java/com/example/board/service/KanbanService.java:166-171 | the shared prelude: IllegalArgument iff the card is not on that board; IllegalState iff it is but the caller is not a member of the board's team |
| Kanban.KanbanService.CreateBoard | src/main/java/com/example/board/service/KanbanService.java:36-57 | membership is checked first (IllegalState), then the team (IllegalArgument); success adds exactly one board under a fresh id |
| Kanban.KanbanService.DeleteBoard | src/main/java/com/example/board/service/KanbanService.java:103-113 | a missing board is IllegalArgument; a caller who is not OWNER/ADMIN of its team is IllegalState; a failure changes nothing; success removes the board and exactly its cards, and if every column was dense every column left is dense |
| Kanban.KanbanService.CreateCard | src/main/java/com/example/board/service/KanbanService.java:121-161 | errors in source order, each changing nothing; success appends one card with a fresh id, the parsed status and priority, the column's append position and the resolved assignee; no card is repositioned and every column stays dense |
| Kanban.KanbanService.UpdateCard | src/main/java/com/example/board/service/KanbanService.java:165-195 | the prelude's error with nothing changed, or exactly that card replaced by the updated card; density is kept |
| Kanban.KanbanService.MoveCard | src/main/java/com/example/board/service/KanbanService.java:213-247 | the prelude's error with nothing changed, or the table becomes the move result; in-range targets keep every column dense |
| Kanban.KanbanService.DeleteCard | src/main/java/com/example/board/service/KanbanService.java:253-268 | the prelude's error with nothing changed, or the column's gap is closed and the row is deleted; density is kept |
| Kanban.KanbanService.ReorderCardsInSameColumn | src/main/java/com/example/board/service/KanbanService.java:295-315 | each card of the column is shifted as the source's two loops do: for from < to, positions in (from, to] drop by one; for from > to, positions in [to, from) rise by one; nothing else changes |
| Kanban.KanbanService.ReorderAfterRemoval | src/main/java/com/example/board/service/KanbanService.java:317-323 | exactly the column's cards at position >= p drop by one |
| Kanban.KanbanService.InsertCardIntoColumn | src/main/java/com/example/board/service/KanbanService.java:325-331 | exactly the column's cards at position >= p rise by one |
| Kanban.KanbanService.AddChecklistItem | src/main/java/com/example/board/service/KanbanService.java:335-358 | the prelude's error, or one new item with a fresh id, not completed, at the card's append position |
| Kanban.KanbanService.ToggleChecklistItem | src/main/java/com/example/board/service/KanbanService.java:362-379 | the prelude's error, IllegalArgument for an unknown item id, or only `completed` of that item is flipped; the item need not belong to the card |
| Kanban.KanbanService.DeleteChecklistItem | src/main/java/com/example/board/service/KanbanService.java:383-396 | the prelude's error, or exactly the item with that id is gone (silently, if absent); no other item is renumbered |
| Collab.FindSession | src/main/java/com/example/board/service/CollaborativeEditService.java:28 | finds the session with that (post, transport session), or reports that none exists |
| Collab.CollaborativeEditService.AddEditSession | src/main/java/com/example/board/service/CollaborativeEditService.java:24-49 | a known (post, session) only has lastActive set to now; otherwise exactly one session is created, connected and active now; (post, session) stays unique |
| Collab.CollaborativeEditService.RemoveEditSession | src/main/java/com/example/board/service/CollaborativeEditService.java:55-58 | every session of that user on that post is deleted, whatever its transport session, and every other session is kept |
| Collab.CollaborativeEditService.GetActiveSessionsByPostId | src/main/java/com/example/board/service/CollaborativeEditService.java:63-65 | exactly the stored sessions of the post, stale ones included |
| Collab.CollaborativeEditService.CleanupInactiveSessions | src/main/java/com/example/board/service/CollaborativeEditService.java:71-75 | deletes exactly the sessions last active strictly before now minus five minutes, keeps the rest, and reports how many it deleted |
| Collab.CollaborativeEditController.HandleEdit | src/main/java/com/example/board/controller/CollaborativeEditController.java:26-46 | the post id and timestamp are overwritten and the other fields kept; JOIN upserts the sender's session on the connection's session; LEAVE removes the sender's sessions on the post; the other kinds leave the table alone |
| Collab.CollaborativeEditController.HandleCardMove | src/main/java/com/example/board/controller/CollaborativeEditController.java:55-63 | only the board id and timestamp are overwritten; the same message is relayed |
| Entities.FloorDecrementBounds | src/main/java/com/example/board/entity/Post.java:103-107 | a floored decrement takes off at most one, exactly one iff the counter is positive, and never makes a counter negative |
| Entities.DecrementUndoesIncrement | src/main/java/com/example/board/entity/Tag.java:44-53 | an increment followed by a decrement restores a non-negative counter |
| Entities.DecrementAtZero | src/main/java/com/example/board/entity/Tag.java:49-53 | a decrement at zero is a no-op |
| Entities.DecrementTimes | src/main/java/com/example/board/entity/Post.java:143-147 | k floored decrements from n >= 0 give n - k, or 0 if k > n |
| Entities.Tag.constructor | src/main/java/com/example/board/entity/Tag.java:28-37 | a new tag has useCount 0 and no linked post |
| Entities.Tag.IncrementUseCount | src/main/java/com/example/board/entity/Tag.java:44-46 | useCount goes up by exactly one |
| Entities.Tag.DecrementUseCount | src/main/java/com/example/board/entity/Tag.java:49-53 | useCount goes down by one, floored at zero |
| Entities.Post.constructor | src/main/java/com/example/board/entity/Post.java:53-67 | views, likeCount and commentCount start at 0, with no tag and no attachment |
| Entities.Post.IncrementViews | src/main/java/com/example/board/entity/Post.java:95-97 | views goes up by one and no other field changes |
| Entities.Post.IncrementLikes | src/main/java/com/example/board/entity/Post.java:99-101 | likeCount goes up by one and no other field changes |
| Entities.Post.DecrementLikes | src/main/java/com/example/board/entity/Post.java:103-107 | likeCount goes down by one, floored at zero |
| Entities.Post.IncrementComments | src/main/java/com/example/board/entity/Post.java:109-111 | commentCount goes up by one and no other field changes |
| Entities.Post.DecrementComments | src/main/java/com/example/board/entity/Post.java:113-117 | commentCount goes down by one, floored at zero |
| Entities.Post.IncrementLikeCount | src/main/java/com/example/board/entity/Post.java:149-151 | the same increment as incrementLikes |
| Entities.Post.DecrementLikeCount | src/main/java/com/example/board/entity/Post.java:153-157 | the same floored decrement as decrementLikes |
| Entities.Post.AddTag | src/main/java/com/example/board/entity/Post.java:129-133 | the tag is appended to the post's list, the post to the tag's list, and the use count goes up by one, without a duplicate check |
| Entities.Post.RemoveTag | src/main/java/com/example/board/entity/Post.java:136-140 | one occurrence is removed from each side and the use count goes down by one, floored, even when the tag was not linked |
| Tables.RemoveFirstMultiset | src/main/java/com/example/board/entity/Post.java:136-140 | removing the first occurrence takes exactly one copy of a present element off the list and leaves every other element's count alone |
| Entities.Post.ClearTags | src/main/java/com/example/board/entity/Post.java:143-147 | the post has no tag left; a tag linked k times loses k uses (floored) and k links back to the post |
| Tables.RemoveFirstTimesMultiset | src/main/java/com/example/board/entity/Post.java:143-147 | k removals of x take min(k, count) copies of x off the list and no other element |
| TagRegistry.NormalizeIdempotent | src/main/java/com/example/board/service/TagService.java:44 | a normalised (trimmed, lower-cased) name normalises to itself |
| TagRegistry.TagService.FindOrStore | src/main/java/com/example/board/service/TagService.java:46-53 | a stored tag of that name is returned with the table unchanged; otherwise exactly one new tag, with useCount 0, is appended; names stay unique |
| TagRegistry.TagService.GetOrCreateTag | src/main/java/com/example/board/service/TagService.java:43-54 | the tag returned is the only one stored under the normalised name; at most one tag is created, with useCount 0, and none when the name is stored already |
| TagRegistry.TagService.GetOrCreateTags | src/main/java/com/example/board/service/TagService.java:58-62 | the result has the input's length and order; element i is the stored tag of the i-th normalised name; old tags are kept and only fresh tags, unused and unlinked, are added |
| TagRegistry.UsedTags | src/main/java/com/example/board/service/TagService.java:67-69 | the tags kept are exactly those whose use count is not 0 |
| TagRegistry.UsedTagsUnique | src/main/java/com/example/board/service/TagService.java:66-72 | the sweep keeps tag names unique |
| TagRegistry.TagService.DeleteUnusedTags | src/main/java/com/example/board/service/TagService.java:66-72 | exactly the tags with use count 0 are deleted |
| TagRegistry.TopRankedFromSnapshot | src/main/java/com/example/board/service/TagService.java:28-29 | the top rows are a sub-multiset of the snapshot: no row is returned more often than it is stored |
| TagRegistry.TopRankedOrdered | src/main/java/com/example/board/service/TagService.java:28-29 | the top rows come by non-increasing use count |
| TagRegistry.TopRankedLeftOut | src/main/java/com/example/board/service/TagService.java:28-29 | no row left out of the top is used more often than the last row kept |
| TagRegistry.TopRankedSpec | src/main/java/com/example/board/service/TagService.java:28-29 | min(20, snapshot size) rows, a sub-multiset of the snapshot, ordered by non-increasing use count; no row left out is used more than the last row kept |
| TagRegistry.LeftOutRow | src/main/java/com/example/board/service/TagService.java:28-29 | a tag missing from the top rows is used at most as often as the last top row |
| TagRegistry.TagService.GetPopularTags | src/main/java/com/example/board/service/TagService.java:28-32 | min(20, table size) stored tags, each listed at most as often as it is stored, by non-increasing use count; no tag left out is used more than the last one listed |
| Likes.DropPostLikes | src/main/java/com/example/board/entity/Post.java:83-85 | the likes cascaded away with a post: no row for that post is left, and every row for another post stays |
| Likes.Unlike | src/main/java/com/example/board/service/PostLikeService.java:37 | the like is gone and every other like is kept |
| Likes.Toggled | src/main/java/com/example/board/service/PostLikeService.java:35-49 | a toggle flips whether the (post, user) like exists and keeps every other like |
| Likes.ToggleTwice | src/main/java/com/example/board/service/PostLikeService.java:35-49 | toggling twice from "not liked" restores the like table and the counter |
| Likes.UnlikeCount | src/main/java/com/example/board/service/PostLikeService.java:37 | with one row per (post, user), unliking takes exactly one like off the post's count |
| Likes.ToggleMovesCountByOne | src/main/java/com/example/board/service/PostService.java:314-331 | with one row per (post, user), a toggle moves the number of stored likes of the post by exactly one, in the direction of the toggle |
| Likes.PostLikeService.ToggleLike | src/main/java/com/example/board/service/PostLikeService.java:25-56 | a missing user, then a missing post, is IllegalArgument and changes nothing; otherwise the like is toggled, the counter moved (the decrement floored) and the new state and counter reported |
| Likes.PostLikeService.IsLikedByUser | src/main/java/com/example/board/service/PostLikeService.java:58-63 | false without a user; otherwise true iff the (post, user) like exists |
| Comments.CommentsOf | src/main/java/com/example/board/service/CommentService.java:29 | the post's comments, sorted by creation time, as a permutation of the post's rows |
| Comments.FindComment | src/main/java/com/example/board/service/CommentService.java:57-58 | finds a comment by id, or reports that none exists |
| Comments.ForAuthorOnly | src/main/java/com/example/board/service/CommentService.java:61-63 | with unique ids, the comment found is the only one with that id, so the author check is about that row |
| Comments.CommentService.GetComments | src/main/java/com/example/board/service/CommentService.java:28-31 | exactly the post's comments, oldest first, with total equal to their number |
| Comments.CommentService.CreateComment | src/main/java/com/example/board/service/CommentService.java:34-53 | a missing user, then a missing post, is IllegalArgument and changes nothing; otherwise one comment with a fresh id is stored and the post's commentCount goes up by one |
| Comments.CommentService.UpdateComment | src/main/java/com/example/board/service/CommentService.java:56-68 | success iff the comment exists and the caller wrote it; then only its content is replaced; every failure, a missing comment or another author, is IllegalArgument and changes nothing |
| Comments.CommentService.DeleteComment | src/main/java/com/example/board/service/CommentService.java:71-85 | success iff the comment exists and the caller wrote it; then it is removed and its post's commentCount is decremented, floored; otherwise IllegalArgument, nothing is removed and the post, its commentCount included, is untouched |
| Posts.ParseSort | src/main/java/com/example/board/service/PostService.java:41-50 | no sort or an empty one gives createdAt descending; a parsed property always has text; the errors are Internal (no first field) and IllegalArgument (a property without text, refused by Sort.by) |
| Posts.ParseSortOfProperty | src/main/java/com/example/board/service/PostService.java:41-50 | a bare property with text sorts descending on that property; one without text is IllegalArgument |
| Posts.ParseSortOfPair | src/main/java/com/example/board/service/PostService.java:41-50 | "property,direction" with a property that has text sorts on it, ascending iff direction equals "asc" ignoring case; an empty or blank property is IllegalArgument |
| Posts.ParseSortOfCommas | src/main/java/com/example/board/service/PostService.java:41-50 | a sort made of commas only is an error: Java's split leaves no first field |
| Posts.SelectQueryFilters | src/main/java/com/example/board/service/PostService.java:55-81 | the query filters by the keyword iff it is not blank, by the category iff one is given, and by the tag iff it is given and not empty, using the values passed |
| Posts.SelectQueryRoundTrip | src/main/java/com/example/board/service/PostService.java:55-81 | each of the eight queries is the one its own filters select |
| Posts.ViewFor | src/main/java/com/example/board/service/PostService.java:85-91 | a secret post is shown in full only to its author; anyone else gets the masked content, no tags, no attachments and not liked |
| Posts.SummaryHidesContent | src/main/java/com/example/board/dto/response/PostResponse.java:72-90 | the summary of a secret post does not depend on its content, tags or attachments |
| Posts.ResolveCategory | src/main/java/com/example/board/service/PostService.java:262-268 | the category is the one named if it exists, and none otherwise |
| Posts.AddTags | src/main/java/com/example/board/service/PostService.java:199-201 | the tags are appended in order; a tag listed k times gains k uses and k links back to the post |
| Posts.PostService.GetPosts | src/main/java/com/example/board/service/PostService.java:37-105 | fails with the sort parser's error iff the sort fails to parse; otherwise the selected query, and each row shown under the visibility rule for the viewer |
| Posts.PostService.GetPost | src/main/java/com/example/board/service/PostService.java:107-127 | a missing post is IllegalArgument; otherwise what the visibility rule shows the viewer |
| Posts.PostService.GetSecretPost | src/main/java/com/example/board/service/PostService.java:129-149 | succeeds iff the post exists, is secret, and either the viewer is its author or the given password matches; then the full post is shown; every refusal is IllegalArgument |
| Posts.PostService.CreatePost | src/main/java/com/example/board/service/PostService.java:151-212 | an unknown user is IllegalArgument and changes no post, id, registry or tag; otherwise a fresh post with zero counters is stored under the next id, secret only when the request says true, with a password encoded only for a secret post that has one, and tagged with the normalised names in order; the registry only grows, a stored tag gains one use and one link per listing, and a created tag is used exactly by its links |
| Posts.PostService.UpdatePost | src/main/java/com/example/board/service/PostService.java:250-283 | succeeds iff the post exists and the caller wrote it; a failure changes neither the post nor any stored or linked tag; success overwrites title and content, resolves the category and keeps counters and secrecy; without tags no tag changes, with tags the tag accounting of `ReplaceTags` holds |
| Posts.PostService.EditPost | src/main/java/com/example/board/service/PostService.java:259-279 | title, content and category are overwritten and the counters, secrecy and attachments kept; without tags the registry and every stored or linked tag are unchanged, with tags the accounting of `ReplaceTags` holds |
| Posts.PostService.ReplaceTags | src/main/java/com/example/board/service/PostService.java:270-279 | the post's tags become the stored tags of the normalised names, in order; the registry only grows; every tag stored or linked before loses one use (floored) and one link per old link and gains one of each per new link, so a tag linked neither before nor after is unchanged; a created tag is used exactly by its new links |
| Posts.PostService.LinkNamedTags | src/main/java/com/example/board/service/PostService.java:273-278 | on a post without tags, the tags become the stored tags of the normalised names in order; the registry only grows; a stored tag gains one use and one link per listing, and a created tag is used exactly by its links |
| Posts.LinkStoredOrUnused | src/main/java/com/example/board/service/PostService.java:199-201 | linking tags that are stored or unused: a stored tag gains one use and one link per listing (none if not listed), any other listed tag ends up used exactly by its links |
| Posts.PostService.DeletePost | src/main/java/com/example/board/service/PostService.java:285-295 | succeeds iff the post exists and the caller wrote it; then it is removed and its likes are deleted with it; otherwise IllegalArgument, nothing is removed and the post, its commentCount included, is untouched |
| Posts.PostService.IncrementViews | src/main/java/com/example/board/service/PostService.java:297-302 | a missing post is IllegalArgument; otherwise views goes up by one |
| Posts.PostService.ToggleLike | src/main/java/com/example/board/service/PostService.java:305-340 | a missing post, then a missing user, is IllegalArgument and changes nothing; otherwise the like is toggled, the counter moved, and the count reported (stored likes) is the old count plus or minus one |

## Left out

- 32-bit integers: counters, positions and ids are unbounded, so overflow of Java's `Integer` and `Long` is not modelled.
- Transactions and concurrency: each operation is atomic and runs alone. The unlocked read-then-write on a column, and rollback on an exception, are not modelled.
- The WebSocket broker and its fan-out to subscribers: only the stamping of messages and the session table are modelled.
- File upload, download and attachment storage in `createPost`: the system's file I/O. Attachments are a list of stored names that the model only reads.
- AI text generation: an HTTP call to an external model.
- Authentication, JWT handling and password hashing: the current user is a parameter, and the password encoder and matcher are function parameters (`encode`, `matches`).
- Read-only listings with no rule beyond a lookup: `getMyTeams`, `getTeam`, `getMyBoards`, `getTeamBoards`, `getBoard`, `searchTags`, and the category service.
- Paging and query execution in `getPosts`: the rows a query returns are a parameter, and page totals are not modelled. Spring's check that the sort property names a field of the post is not modelled either; its check that the property has text is.
- Timestamps (`createdAt`, `updatedAt`) and the author's name in responses. Comment creation times are a parameter.
- Comments deleted with a post: Post.java:78-80 cascades a post's comments, but the post service holds no comment table in this model, so `Posts.PostService.DeletePost` leaves the comment table alone. Its likes, cascaded by Post.java:83-85, are deleted.
- Tag links of a deleted post: the `post_tags` join rows go with the post, but the tags' in-memory `posts` lists and use counts are not touched by `Posts.PostService.DeletePost`, as in the source.
- Checklist items of a deleted card: KanbanCard.java:57 cascades only the card's comments, and KanbanChecklistItem.java:21-23 keeps a non-null foreign key to the card. The model assumes the items stay; the database's refusal of such a delete is not modelled. Card comments are not part of this model.
- Cards of a deleted board: KanbanBoard.java is not part of this model; `Kanban.KanbanService.DeleteBoard` assumes its mapping cascades the board's cards and removes them.
- Response DTO mapping for cards and checklists: operations return the changed record.
- Entity identity: posts and tags are compared by reference. `List.remove` uses the Lombok `@Data` equality (Post.java:19, Tag.java:18), which compares fields starting with the id; the two agree because one persistence context hands out one instance per id.
- Debug printing and logging.
- Case mapping beyond ASCII: `Common.ToUpper`, `Common.ToLower` and `Common.EqualsIgnoreCase` fold only the letters A-Z and a-z, where Java folds every Unicode letter (for example "admın" equals "ADMIN" ignoring case, and "ÉTÉ" lower-cases to "été"). Their users, `Kanban.ParseStatus`, `Kanban.ParsePriority`, `Teams.InvitedRole`, `TagRegistry.Normalize` and `Posts.ParseSort`, therefore agree with the source on ASCII text only.
- Priority constants other than MEDIUM: the declaration of the priority enumeration is not part of this model, so a priority is known by its name, within a set of declared names that contains MEDIUM.
- Teams.TeamService.DeleteTeam: TeamService.java:168 only deletes the team row, and Team.java is not part of this model; the removal of the team's membership rows is an assumed cascade of its mapping. The team's kanban boards, and their cards, stay in `Kanban.KanbanService`, whose tables the team service does not hold.
- Collab.CollaborativeEditController.HandleEdit: a JOIN is stated through the session lookup and the table size, not the whole table; `Collab.CollaborativeEditService.AddEditSession` states the whole table.
