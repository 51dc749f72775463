/**
 * The server actions of a room: creating it, collecting opinions, turning them
 * into poll options, voting and closing. The hosted database is a `Store` whose
 * tables the actions read and then write, one statement at a time.
 */
module Room {
  import opened Wrappers
  import opened Strings
  import Analyze

  // ---------------------------------------------------------------------------
  // the lifecycle
  // ---------------------------------------------------------------------------

  /** `RoomStatus`. */
  datatype Status = Collecting | Voting | Closed

  function Rank(s: Status): nat {
    match s
    case Collecting => 0
    case Voting => 1
    case Closed => 2
  }

  /** The status changes an action can make: none, collecting to voting, voting to closed. */
  predicate Step(before: Status, after: Status) {
    || before == after
    || (before == Collecting && after == Voting)
    || (before == Voting && after == Closed)
  }

  /** Along any history of actions, a room's status never moves backward. */
  lemma {:induction false} HistoryIsMonotone(history: seq<Status>)
    requires forall i :: 0 <= i < |history| - 1 ==> Step(history[i], history[i + 1])
    ensures forall i, j :: 0 <= i <= j < |history| ==> Rank(history[i]) <= Rank(history[j])
  {
    if |history| > 1 {
      var prefix := history[..|history| - 1];
      HistoryIsMonotone(prefix);
      forall i, j | 0 <= i <= j < |history| ensures Rank(history[i]) <= Rank(history[j]) {
        if j == |history| - 1 && i < j {
          assert Rank(prefix[i]) <= Rank(prefix[j - 1]);
          assert Step(history[j - 1], history[j]);
        } else if i < j {
          assert Rank(prefix[i]) <= Rank(prefix[j]);
        }
      }
    }
  }

  /** No history skips a phase: a room that ends closed after collecting was voting in between. */
  lemma {:induction false} HistoryPassesThroughVoting(history: seq<Status>)
    requires |history| >= 1 && history[0] == Collecting && history[|history| - 1] == Closed
    requires forall i :: 0 <= i < |history| - 1 ==> Step(history[i], history[i + 1])
    ensures exists k :: 0 < k < |history| - 1 && history[k] == Voting
  {
    var last := |history| - 1;
    assert Step(history[last - 1], history[last]);
    if history[last - 1] != Voting {
      var prefix := history[..last];
      assert history[last - 1] == Closed;
      HistoryPassesThroughVoting(prefix);
      var k :| 0 < k < |prefix| - 1 && prefix[k] == Voting;
      assert history[k] == Voting;
    } else {
      assert history[last - 1] == Voting;
    }
  }

  /** Every room of `before` is still in `after`, with its title, and moved at most one legal step. */
  ghost predicate StatusesAdvance(before: map<Id, RoomRow>, after: map<Id, RoomRow>) {
    forall id :: id in before ==>
      id in after && after[id].title == before[id].title && Step(before[id].status, after[id].status)
  }

  // ---------------------------------------------------------------------------
  // the tables
  // ---------------------------------------------------------------------------

  /** A row identifier; the database's generated UUIDs. */
  type Id = nat

  datatype RoomRow = RoomRow(id: Id, title: string, status: Status)
  datatype EntryRow = EntryRow(id: Id, roomId: Id, content: string)
  datatype PollRow = PollRow(id: Id, roomId: Id, optionText: string, explanation: Option<string>)
  datatype VoteRow = VoteRow(id: Id, pollId: Id, userIdHash: string, nickname: Option<string>, comment: Option<string>)

  /** The errors the actions throw. */
  datatype ActionError =
    | EmptyTitle
    | EmptyContent
    | RoomNotFound
    | NotCollecting
    | AlreadyInVoting
    | NoEntries
    | AnalysisFailed
    | AlreadyVoted
    | NotVoting
    | DatabaseError(code: string)   // a database error passed on as it is

  /** PostgreSQL's SQLSTATE for a violated unique constraint. */
  const UniqueViolation: string := "23505"
  /** PostgreSQL's SQLSTATE for a violated foreign key. */
  const ForeignKeyViolation: string := "23503"

  /** Which database write of poll generation fails, if any. */
  datatype WriteFault = NoFault | PollInsertFails | StatusUpdateFails

  /** The message of each error the actions throw as an `Error`. */
  function Message(e: ActionError): (r: Option<string>)
    ensures r.None? <==> e.DatabaseError?
  {
    match e
    case EmptyTitle => Some("議題を入力してください")
    case EmptyContent => Some("意見を入力してください")
    case RoomNotFound => Some("ルームが見つかりません")
    case NotCollecting => Some("このルームは意見を受け付けていません")
    case AlreadyInVoting => Some("このルームは既に投票フェーズに移行しています")
    case NoEntries => Some("意見が投稿されていません")
    case AnalysisFailed => Some(Analyze.ErrorMessage(Analyze.Retry))
    case AlreadyVoted => Some("既にこの選択肢に投票済みです")
    case NotVoting => Some("このルームは投票中ではありません")
    case DatabaseError(_) => None
  }

  predicate PollExists(polls: seq<PollRow>, pollId: Id) {
    exists i :: 0 <= i < |polls| && polls[i].id == pollId
  }

  predicate HasVote(votes: seq<VoteRow>, pollId: Id, userIdHash: string) {
    exists i :: 0 <= i < |votes| && votes[i].pollId == pollId && votes[i].userIdHash == userIdHash
  }

  /** The unique constraint on (poll_id, user_id_hash). */
  predicate VotesUnique(votes: seq<VoteRow>) {
    forall i, j :: 0 <= i < j < |votes| ==>
      !(votes[i].pollId == votes[j].pollId && votes[i].userIdHash == votes[j].userIdHash)
  }

  /**
   * The pre-check query: the vote of `userIdHash` on `pollId`, if there is one.
   */
  function FindVote(votes: seq<VoteRow>, pollId: Id, userIdHash: string): (r: Option<VoteRow>)
    ensures r.Some? <==> HasVote(votes, pollId, userIdHash)
    ensures r.Some? ==> r.value in votes && r.value.pollId == pollId && r.value.userIdHash == userIdHash
  {
    if votes == [] then None
    else if votes[0].pollId == pollId && votes[0].userIdHash == userIdHash then Some(votes[0])
    else
      var r := FindVote(votes[1..], pollId, userIdHash);
      assert HasVote(votes, pollId, userIdHash) ==> HasVote(votes[1..], pollId, userIdHash) by {
        if HasVote(votes, pollId, userIdHash) {
          var i :| 0 <= i < |votes| && votes[i].pollId == pollId && votes[i].userIdHash == userIdHash;
          assert votes[1..][i - 1] == votes[i];
        }
      }
      assert HasVote(votes[1..], pollId, userIdHash) ==> HasVote(votes, pollId, userIdHash) by {
        if HasVote(votes[1..], pollId, userIdHash) {
          var i :| 0 <= i < |votes[1..]| && votes[1..][i].pollId == pollId && votes[1..][i].userIdHash == userIdHash;
          assert votes[i + 1] == votes[1..][i];
        }
      }
      r
  }

  /** The entries of a room in creation order (`order("created_at", { ascending: true })`). */
  function EntriesOf(entries: seq<EntryRow>, roomId: Id): (r: seq<EntryRow>)
    ensures forall e :: e in r <==> e in entries && e.roomId == roomId
    ensures |r| <= |entries|
  {
    if entries == [] then []
    else
      var rest := EntriesOf(entries[..|entries| - 1], roomId);
      var last := entries[|entries| - 1];
      assert entries == entries[..|entries| - 1] + [last];
      if last.roomId == roomId then rest + [last] else rest
  }

  /** Appending an entry to another room leaves a room's entries as they were. */
  lemma EntriesOfAppend(entries: seq<EntryRow>, e: EntryRow, roomId: Id)
    ensures EntriesOf(entries + [e], roomId) == EntriesOf(entries, roomId) + if e.roomId == roomId then [e] else []
  {
    assert (entries + [e])[..|entries|] == entries;
  }

  function Contents(entries: seq<EntryRow>): (r: seq<string>)
    ensures |r| == |entries|
    ensures forall i :: 0 <= i < |entries| ==> r[i] == entries[i].content
  {
    seq(|entries|, i requires 0 <= i < |entries| => entries[i].content)
  }

  /** The poll rows inserted for the options of an analysis, with ids from `firstId` on. */
  function PollRows(roomId: Id, options: seq<Analyze.PollOption>, firstId: Id): (r: seq<PollRow>)
    ensures |r| == |options|
    ensures forall i :: 0 <= i < |options| ==> r[i] == PollRow(firstId + i, roomId, options[i].optionText, Some(options[i].explanation))
  {
    seq(|options|, i requires 0 <= i < |options| => PollRow(firstId + i, roomId, options[i].optionText, Some(options[i].explanation)))
  }

  /** `value?.trim() || null`: trimmed, with an absent or blank value stored as null. */
  function Optional(value: Option<string>): (r: Option<string>)
    ensures r.None? <==> value.None? || Blank(value.value)
    ensures r.Some? ==> r.value == Trim(value.value) && r.value != []
    ensures r.Some? ==> !IsWhitespace(r.value[0]) && !IsWhitespace(r.value[|r.value| - 1])
  {
    match value
    case None => None
    case Some(s) => if Trim(s) == "" then None else Some(Trim(s))
  }

  /** Normalising a stored value again changes nothing. */
  lemma OptionalIdempotent(value: Option<string>)
    ensures Optional(Optional(value)) == Optional(value)
  {
    if value.Some? {
      TrimIdempotent(value.value);
    }
  }

  // ---------------------------------------------------------------------------
  // the store and the actions
  // ---------------------------------------------------------------------------

  class Store {
    var rooms: map<Id, RoomRow>
    var entries: seq<EntryRow>
    var polls: seq<PollRow>
    var votes: seq<VoteRow>
    /** The next identifier the database hands out. */
    var nextId: Id

    /** Every id is below `nextId`, foreign keys resolve and (poll, voter) pairs are unique. */
    ghost predicate Valid()
      reads this
    {
      && (forall id :: id in rooms ==> rooms[id].id == id && id < nextId)
      && (forall i :: 0 <= i < |entries| ==> entries[i].id < nextId && entries[i].roomId in rooms)
      && (forall i :: 0 <= i < |polls| ==> polls[i].id < nextId && polls[i].roomId in rooms)
      && (forall i :: 0 <= i < |votes| ==> votes[i].id < nextId && PollExists(polls, votes[i].pollId))
      && VotesUnique(votes)
    }

    constructor ()
      ensures Valid()
      ensures rooms == map[] && entries == [] && polls == [] && votes == []
    {
      rooms, entries, polls, votes, nextId := map[], [], [], [], 0;
    }

    /** `createRoomAction(title)`. */
    method CreateRoom(title: string) returns (result: Result<RoomRow, ActionError>)
      requires Valid()
      modifies this
      ensures Valid()
      ensures result.Err? <==> Blank(title)
      ensures result.Err? ==> result.error == EmptyTitle && rooms == old(rooms)
      ensures result.Ok? ==>
        && result.value.id !in old(rooms)
        && result.value.title == Trim(title) && result.value.title != []
        && result.value.status == Collecting
        && rooms == old(rooms)[result.value.id := result.value]
      ensures entries == old(entries) && polls == old(polls) && votes == old(votes)
      ensures StatusesAdvance(old(rooms), rooms)
    {
      if Trim(title) == "" {
        return Err(EmptyTitle);
      }
      var room := RoomRow(nextId, Trim(title), Collecting);
      rooms := rooms[room.id := room];
      nextId := nextId + 1;
      result := Ok(room);
    }

    /** `submitEntryAction(roomId, content)`. */
    method SubmitEntry(roomId: Id, content: string) returns (result: Result<EntryRow, ActionError>)
      requires Valid()
      modifies this
      ensures Valid()
      ensures result == Err(EmptyContent) <==> Blank(content)
      ensures result == Err(RoomNotFound) <==> !Blank(content) && roomId !in old(rooms)
      ensures result == Err(NotCollecting) <==>
        !Blank(content) && roomId in old(rooms) && old(rooms)[roomId].status != Collecting
      ensures result.Ok? <==>
        !Blank(content) && roomId in old(rooms) && old(rooms)[roomId].status == Collecting
      ensures result.Ok? ==>
        && result.value.roomId == roomId && result.value.content == Trim(content)
        && result.value.id >= old(nextId)
        && entries == old(entries) + [result.value]
      ensures result.Err? ==> entries == old(entries)
      ensures rooms == old(rooms) && polls == old(polls) && votes == old(votes)
    {
      if Trim(content) == "" {
        return Err(EmptyContent);
      }
      if roomId !in rooms {
        return Err(RoomNotFound);
      }
      if rooms[roomId].status != Collecting {
        return Err(NotCollecting);
      }
      var entry := EntryRow(nextId, roomId, Trim(content));
      entries := entries + [entry];
      nextId := nextId + 1;
      result := Ok(entry);
    }

    /** The checks `generatePollsAction` makes before calling the analysis. */
    ghost predicate ReadyToGenerate(roomId: Id)
      reads this
    {
      roomId in rooms && rooms[roomId].status == Collecting && EntriesOf(entries, roomId) != []
    }

    /**
     * `generatePollsAction(roomId)`: checks, the analysis, then two separate
     * writes: the poll rows and then the status. `fault` says which write the
     * database rejects.
     */
    method GeneratePolls(roomId: Id, apiKey: Option<string>, model: string -> Analyze.Upstream,
                         parse: string -> Option<Analyze.Json>, fault: WriteFault)
      returns (result: Result<Analyze.AnalysisResult, ActionError>)
      requires Valid()
      modifies this
      ensures Valid()
      ensures roomId !in old(rooms) ==> result == Err(RoomNotFound)
      ensures roomId in old(rooms) && old(rooms)[roomId].status != Collecting ==> result == Err(AlreadyInVoting)
      ensures roomId in old(rooms) && old(rooms)[roomId].status == Collecting && EntriesOf(old(entries), roomId) == [] ==>
        result == Err(NoEntries)
      ensures old(ReadyToGenerate(roomId)) ==>
        var room := old(rooms)[roomId];
        var analysis := Analyze.AnalyzeEntries(Contents(EntriesOf(old(entries), roomId)), room.title, apiKey, model, parse);
        && (analysis.Err? ==> result == Err(AnalysisFailed))
        && (analysis.Ok? ==>
              var inserted := old(polls) + PollRows(roomId, analysis.value.options, old(nextId));
              && (fault == PollInsertFails ==> result.Err? && result.error.DatabaseError?)
              && (fault == StatusUpdateFails ==>
                    result.Err? && result.error.DatabaseError? && polls == inserted && rooms == old(rooms))
              && (fault == NoFault ==>
                    && result == Ok(analysis.value)
                    && polls == inserted
                    && rooms == old(rooms)[roomId := room.(status := Voting)]))
      ensures result.Err? && !(fault == StatusUpdateFails && result.error.DatabaseError?) ==>
        rooms == old(rooms) && polls == old(polls)
      ensures entries == old(entries) && votes == old(votes)
      ensures StatusesAdvance(old(rooms), rooms)
    {
      if roomId !in rooms {
        return Err(RoomNotFound);
      }
      var room := rooms[roomId];
      if room.status != Collecting {
        return Err(AlreadyInVoting);
      }
      var roomEntries := EntriesOf(entries, roomId);
      if roomEntries == [] {
        return Err(NoEntries);
      }
      var analysis := Analyze.AnalyzeEntries(Contents(roomEntries), room.title, apiKey, model, parse);
      if analysis.Err? {
        return Err(if analysis.error == Analyze.NoEntries then NoEntries else AnalysisFailed);
      }
      result := WritePolls(roomId, analysis.value, fault);
    }

    /** The two writes that follow a successful analysis: insert the polls, then set `voting`. */
    method WritePolls(roomId: Id, analysis: Analyze.AnalysisResult, fault: WriteFault)
      returns (result: Result<Analyze.AnalysisResult, ActionError>)
      requires Valid() && roomId in rooms
      modifies this
      ensures Valid()
      ensures var inserted := old(polls) + PollRows(roomId, analysis.options, old(nextId));
        && (fault == PollInsertFails ==>
              result.Err? && result.error.DatabaseError? && polls == old(polls) && rooms == old(rooms))
        && (fault == StatusUpdateFails ==>
              result.Err? && result.error.DatabaseError? && polls == inserted && rooms == old(rooms))
        && (fault == NoFault ==>
              && result == Ok(analysis)
              && polls == inserted
              && rooms == old(rooms)[roomId := old(rooms)[roomId].(status := Voting)])
      ensures entries == old(entries) && votes == old(votes)
    {
      if fault == PollInsertFails {
        return Err(DatabaseError("polls insert"));
      }
      InsertPolls(PollRows(roomId, analysis.options, nextId));
      if fault == StatusUpdateFails {
        return Err(DatabaseError("rooms update"));
      }
      SetStatus(roomId, Voting);
      result := Ok(analysis);
    }

    /** The bulk insert into `polls`: one statement, so all rows or none. */
    method InsertPolls(rows: seq<PollRow>)
      requires Valid()
      requires forall i :: 0 <= i < |rows| ==> rows[i].roomId in rooms && rows[i].id == nextId + i
      modifies this`polls, this`nextId
      ensures Valid()
      ensures polls == old(polls) + rows && nextId == old(nextId) + |rows|
    {
      forall i | 0 <= i < |votes| ensures PollExists(polls + rows, votes[i].pollId) {
        var k :| 0 <= k < |polls| && polls[k].id == votes[i].pollId;
        assert (polls + rows)[k] == polls[k];
      }
      polls := polls + rows;
      nextId := nextId + |rows|;
    }

    /** `update({ status })` on one existing room. */
    method SetStatus(roomId: Id, status: Status)
      requires Valid() && roomId in rooms
      modifies this`rooms
      ensures Valid()
      ensures rooms == old(rooms)[roomId := old(rooms)[roomId].(status := status)]
    {
      rooms := rooms[roomId := rooms[roomId].(status := status)];
    }

    /**
     * The insert into `votes`, with the table's unique constraint on
     * (poll_id, user_id_hash) and its foreign key to `polls`.
     */
    method InsertVote(vote: VoteRow) returns (errorCode: Option<string>)
      requires Valid() && vote.id == nextId
      modifies this
      ensures Valid()
      ensures errorCode == Some(UniqueViolation) <==> HasVote(old(votes), vote.pollId, vote.userIdHash)
      ensures errorCode == Some(ForeignKeyViolation) <==>
        !HasVote(old(votes), vote.pollId, vote.userIdHash) && !PollExists(polls, vote.pollId)
      ensures errorCode.None? <==> !HasVote(old(votes), vote.pollId, vote.userIdHash) && PollExists(polls, vote.pollId)
      ensures votes == if errorCode.None? then old(votes) + [vote] else old(votes)
      ensures nextId == if errorCode.None? then old(nextId) + 1 else old(nextId)
      ensures rooms == old(rooms) && entries == old(entries) && polls == old(polls)
    {
      if FindVote(votes, vote.pollId, vote.userIdHash).Some? {
        return Some(UniqueViolation);
      }
      if !PollExists(polls, vote.pollId) {
        return Some(ForeignKeyViolation);
      }
      votes := votes + [vote];
      nextId := nextId + 1;
      errorCode := None;
    }

    /**
     * `submitVoteAction(pollId, userIdHash, nickname, comment)`. The room's
     * status is never consulted. `precheckFails` is the pre-check query erring,
     * which the action ignores, so that the insert's unique constraint is what
     * rejects the repeat.
     */
    method SubmitVote(pollId: Id, userIdHash: string, nickname: Option<string>, comment: Option<string>,
                      precheckFails: bool)
      returns (result: Result<VoteRow, ActionError>)
      requires Valid()
      modifies this
      ensures Valid()
      ensures result == Err(AlreadyVoted) <==> HasVote(old(votes), pollId, userIdHash)
      ensures result.Ok? <==> !HasVote(old(votes), pollId, userIdHash) && PollExists(old(polls), pollId)
      ensures !HasVote(old(votes), pollId, userIdHash) && !PollExists(old(polls), pollId) ==>
        result == Err(DatabaseError(ForeignKeyViolation))
      ensures result.Ok? ==>
        && result.value.pollId == pollId && result.value.userIdHash == userIdHash
        && result.value.nickname == Optional(nickname) && result.value.comment == Optional(comment)
        && result.value.id >= old(nextId)
        && votes == old(votes) + [result.value]
      ensures result.Err? ==> votes == old(votes)
      ensures rooms == old(rooms) && entries == old(entries) && polls == old(polls)
    {
      var existing := if precheckFails then None else FindVote(votes, pollId, userIdHash);
      if existing.Some? {
        return Err(AlreadyVoted);
      }
      var vote := VoteRow(nextId, pollId, userIdHash, Optional(nickname), Optional(comment));
      var errorCode := InsertVote(vote);
      if errorCode.Some? {
        if errorCode.value == UniqueViolation {
          return Err(AlreadyVoted);
        }
        return Err(DatabaseError(errorCode.value));
      }
      result := Ok(vote);
    }

    /** `closeVotingAction(roomId)`. */
    method CloseVoting(roomId: Id) returns (result: Result<(), ActionError>)
      requires Valid()
      modifies this
      ensures Valid()
      ensures result == Err(RoomNotFound) <==> roomId !in old(rooms)
      ensures result == Err(NotVoting) <==> roomId in old(rooms) && old(rooms)[roomId].status != Voting
      ensures result.Ok? <==> roomId in old(rooms) && old(rooms)[roomId].status == Voting
      ensures rooms == if result.Ok? then old(rooms)[roomId := old(rooms)[roomId].(status := Closed)] else old(rooms)
      ensures entries == old(entries) && polls == old(polls) && votes == old(votes)
      ensures StatusesAdvance(old(rooms), rooms)
    {
      if roomId !in rooms {
        return Err(RoomNotFound);
      }
      var room := rooms[roomId];
      if room.status != Voting {
        return Err(NotVoting);
      }
      SetStatus(roomId, Closed);
      result := Ok(());
    }
  }
}
