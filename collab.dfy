/** Collaborative editing: the table of open edit sessions
    (`CollaborativeEditService`) and the message handlers that stamp the
    incoming messages and keep that table up to date
    (`CollaborativeEditController`). Clock values are milliseconds; the
    current time is a parameter of every operation that reads the clock. */
module Collab {
  import opened Common
  import opened Tables

  type PostId = nat
  type UserId = nat
  type BoardId = nat

  /** A session is inactive once its last activity is five minutes old. */
  const INACTIVE_AFTER: int := 5 * 60 * 1000

  /** One row of the `edit_session` table. `sessionId` is the transport
      session of the editor's connection. */
  datatype EditSession = EditSession(
    id: nat,
    postId: PostId,
    userId: UserId,
    sessionId: string,
    connectedAt: int,
    lastActive: int)

  function SessionKey(s: EditSession): (PostId, string)
  {
    (s.postId, s.sessionId)
  }

  function SessionRowId(s: EditSession): nat
  {
    s.id
  }

  /** `findByPostIdAndSessionId`. */
  function FindSession(ss: seq<EditSession>, postId: PostId, sessionId: string): (r: Option<nat>)
    ensures r.Some? ==> r.value < |ss| && SessionKey(ss[r.value]) == (postId, sessionId)
    ensures r.None? ==> forall i :: 0 <= i < |ss| ==> SessionKey(ss[i]) != (postId, sessionId)
  {
    FindFirst(ss, (s: EditSession) => SessionKey(s) == (postId, sessionId))
  }

  /** The sessions `deleteByLastActiveBefore(now - 5 minutes)` deletes. */
  predicate Stale(s: EditSession, now: int)
  {
    s.lastActive < now - INACTIVE_AFTER
  }

  class CollaborativeEditService {
    var sessions: seq<EditSession>
    var nextId: nat

    /** Row ids come from an identity column; at most one session per
        (post, transport session). */
    ghost predicate Valid()
      reads this
    {
      && (forall i :: 0 <= i < |sessions| ==> sessions[i].id < nextId)
      && UniqueBy(sessions, SessionRowId)
      && UniqueBy(sessions, SessionKey)
    }

    constructor ()
      ensures Valid() && sessions == []
    {
      sessions, nextId := [], 0;
    }

    /** `addEditSession`: an upsert keyed by (post, transport session). A
        known session only has its last activity set to now; otherwise one
        session is created, connected and active now. */
    method AddEditSession(postId: PostId, userId: UserId, sessionId: string, now: int)
      requires Valid()
      modifies this
      ensures Valid()
      ensures FindSession(old(sessions), postId, sessionId).Some? ==>
        (var k := FindSession(old(sessions), postId, sessionId).value;
         sessions == old(sessions)[k := old(sessions)[k].(lastActive := now)])
      ensures FindSession(old(sessions), postId, sessionId).None? ==>
        sessions == old(sessions) + [EditSession(old(nextId), postId, userId, sessionId, now, now)]
      ensures FindSession(sessions, postId, sessionId).Some?
    {
      var found := FindSession(sessions, postId, sessionId);
      if found.Some? {
        var k := found.value;
        var refreshed := sessions[k].(lastActive := now);
        UniqueByPointwise(sessions, sessions[k := refreshed], SessionRowId);
        UniqueByPointwise(sessions, sessions[k := refreshed], SessionKey);
        sessions := sessions[k := refreshed];
      } else {
        var created := EditSession(nextId, postId, userId, sessionId, now, now);
        AppendUniqueBy(sessions, created, SessionRowId);
        AppendUniqueBy(sessions, created, SessionKey);
        sessions := sessions + [created];
        nextId := nextId + 1;
        assert FindSession(sessions, postId, sessionId).Some? by {
          assert SessionKey(sessions[|sessions| - 1]) == (postId, sessionId);
        }
      }
    }

    /** `removeEditSession`: `deleteByPostIdAndUserId` drops every session of
        that user on that post, whatever its transport session. */
    method RemoveEditSession(postId: PostId, userId: UserId)
      requires Valid()
      modifies this`sessions
      ensures Valid()
      ensures forall s :: s in sessions <==> s in old(sessions) && !(s.postId == postId && s.userId == userId)
    {
      var keep := (s: EditSession) => !(s.postId == postId && s.userId == userId);
      FilterUniqueBy(sessions, keep, SessionRowId);
      FilterUniqueBy(sessions, keep, SessionKey);
      sessions := Filter(sessions, keep);
    }

    /** `getActiveSessionsByPostId`: every stored session of the post,
        including stale ones the sweep has not removed yet. */
    method GetActiveSessionsByPostId(postId: PostId) returns (r: seq<EditSession>)
      ensures forall s :: s in r <==> s in sessions && s.postId == postId
    {
      r := Filter(sessions, (s: EditSession) => s.postId == postId);
    }

    /** `cleanupInactiveSessions`: deletes exactly the sessions last active
        strictly before now minus five minutes and reports how many. */
    method CleanupInactiveSessions(now: int) returns (deleted: nat)
      requires Valid()
      modifies this`sessions
      ensures Valid()
      ensures forall s :: s in sessions <==> s in old(sessions) && !Stale(s, now)
      ensures deleted == |old(sessions)| - |sessions|
      ensures deleted == |Filter(old(sessions), (s: EditSession) => Stale(s, now))|
    {
      var keep := (s: EditSession) => !Stale(s, now);
      var drop := (s: EditSession) => Stale(s, now);
      FilterComplement(sessions, keep, drop);
      deleted := |Filter(sessions, drop)|;
      FilterUniqueBy(sessions, keep, SessionRowId);
      FilterUniqueBy(sessions, keep, SessionKey);
      sessions := Filter(sessions, keep);
    }
  }

  // =====================================================================
  // Messages and handlers
  // =====================================================================

  datatype MessageType = JOIN | LEAVE | CONTENT_CHANGE | CURSOR_MOVE | SAVE

  /** A collaborative-edit message as it arrives from a client; its fields
      are set in place by the handler. */
  class CollaborativeEditMessage {
    var postId: Option<PostId>
    var userId: UserId
    var username: string
    var kind: MessageType
    var content: string
    var cursorPosition: Option<int>
    var timestamp: Option<int>

    constructor (postId: Option<PostId>, userId: UserId, username: string, kind: MessageType,
                 content: string, cursorPosition: Option<int>, timestamp: Option<int>)
      ensures this.postId == postId && this.userId == userId && this.username == username
      ensures this.kind == kind && this.content == content
      ensures this.cursorPosition == cursorPosition && this.timestamp == timestamp
    {
      this.postId := postId;
      this.userId := userId;
      this.username := username;
      this.kind := kind;
      this.content := content;
      this.cursorPosition := cursorPosition;
      this.timestamp := timestamp;
    }
  }

  /** A card-move notification; relayed as is apart from its stamps. */
  class KanbanCardMoveMessage {
    var cardId: Option<nat>
    var boardId: Option<BoardId>
    var status: Option<string>
    var position: Option<int>
    var userId: Option<UserId>
    var username: Option<string>
    var timestamp: Option<int>

    constructor (cardId: Option<nat>, boardId: Option<BoardId>, status: Option<string>, position: Option<int>,
                 userId: Option<UserId>, username: Option<string>, timestamp: Option<int>)
      ensures this.cardId == cardId && this.boardId == boardId && this.status == status
      ensures this.position == position && this.userId == userId && this.username == username
      ensures this.timestamp == timestamp
    {
      this.cardId := cardId;
      this.boardId := boardId;
      this.status := status;
      this.position := position;
      this.userId := userId;
      this.username := username;
      this.timestamp := timestamp;
    }
  }

  class CollaborativeEditController {
    const editService: CollaborativeEditService

    constructor (editService: CollaborativeEditService)
      ensures this.editService == editService
    {
      this.editService := editService;
    }

    /** `handleEdit`: the message gets the destination's post id and the
        server time whatever the client sent; a JOIN opens (or refreshes)
        the sender's session on the connection's transport session, a
        LEAVE closes all of the sender's sessions on the post, and the
        other kinds leave the session table alone. The same message object
        is relayed. */
    method HandleEdit(postId: PostId, message: CollaborativeEditMessage, transportSession: string, now: int)
      returns (r: CollaborativeEditMessage)
      requires editService.Valid()
      modifies message, editService
      ensures editService.Valid()
      ensures r == message
      ensures message.postId == Some(postId) && message.timestamp == Some(now)
      ensures message.userId == old(message.userId) && message.username == old(message.username)
      ensures message.kind == old(message.kind) && message.content == old(message.content)
      ensures message.cursorPosition == old(message.cursorPosition)
      ensures old(message.kind) == JOIN ==>
        FindSession(editService.sessions, postId, transportSession).Some? &&
        (FindSession(old(editService.sessions), postId, transportSession).Some? ==>
           |editService.sessions| == |old(editService.sessions)|) &&
        (FindSession(old(editService.sessions), postId, transportSession).None? ==>
           |editService.sessions| == |old(editService.sessions)| + 1 &&
           editService.sessions[|editService.sessions| - 1].userId == old(message.userId))
      ensures old(message.kind) == LEAVE ==>
        forall s :: s in editService.sessions <==>
          s in old(editService.sessions) && !(s.postId == postId && s.userId == old(message.userId))
      ensures old(message.kind) !in {JOIN, LEAVE} ==> editService.sessions == old(editService.sessions)
    {
      message.timestamp := Some(now);
      message.postId := Some(postId);
      if message.kind == JOIN {
        editService.AddEditSession(postId, message.userId, transportSession, now);
      } else if message.kind == LEAVE {
        editService.RemoveEditSession(postId, message.userId);
      }
      r := message;
    }

    /** `handleCardMove`: stamps the board id and the server time and relays
        the message; no card is touched. */
    method HandleCardMove(boardId: BoardId, message: KanbanCardMoveMessage, now: int)
      returns (r: KanbanCardMoveMessage)
      modifies message
      ensures r == message
      ensures message.boardId == Some(boardId) && message.timestamp == Some(now)
      ensures message.cardId == old(message.cardId) && message.status == old(message.status)
      ensures message.position == old(message.position) && message.userId == old(message.userId)
      ensures message.username == old(message.username)
    {
      message.timestamp := Some(now);
      message.boardId := Some(boardId);
      r := message;
    }
  }
}
