/**
 * End-to-end runs of the room lifecycle and the vote handler on a fresh
 * store, with the model and the JSON parser given as fixed functions.
 */
module Scenarios {
  import opened Wrappers
  import Strings
  import Analyze
  import Room
  import VotingPanel

  function LunchOption(text: string): Analyze.PollOption {
    Analyze.PollOption(text, "Mentioned by several people", [1.0])
  }

  /** Five options, as a well-formed reply to the lunch question would carry them. */
  function LunchOptions(): Analyze.AnalysisResult {
    Analyze.AnalysisResult([LunchOption("Ramen"), LunchOption("Curry"), LunchOption("Sushi"), LunchOption("Soba"), LunchOption("Bento")])
  }

  /** A fresh store with the room "Lunch spot?", collecting opinions. */
  method CreateLunchRoom() returns (store: Room.Store, roomId: Room.Id)
    ensures fresh(store) && store.Valid()
    ensures roomId in store.rooms && store.rooms[roomId].status == Room.Collecting
    ensures store.entries == [] && store.polls == [] && store.votes == []
  {
    store := new Room.Store();
    assert !Strings.Blank("Lunch spot?") by {
      assert !Strings.IsWhitespace("Lunch spot?"[0]);
    }
    var room := store.CreateRoom("Lunch spot?");
    roomId := room.value.id;
  }

  /** Two opinions submitted to a collecting room make it ready for poll generation. */
  method CollectOpinions(store: Room.Store, roomId: Room.Id)
    requires store.Valid() && roomId in store.rooms && store.rooms[roomId].status == Room.Collecting
    requires store.polls == [] && store.votes == []
    modifies store
    ensures store.Valid() && store.ReadyToGenerate(roomId) && store.polls == [] && store.votes == []
  {
    assert !Strings.Blank("Ramen is quick") by {
      assert !Strings.IsWhitespace("Ramen is quick"[0]);
    }
    var first := store.SubmitEntry(roomId, "Ramen is quick");
    assert first.value in store.entries;
    assert !Strings.Blank("Curry on Fridays") by {
      assert !Strings.IsWhitespace("Curry on Fridays"[0]);
    }
    var second := store.SubmitEntry(roomId, "Curry on Fridays");
    assert first.value in store.entries;
  }

  /**
   * Generating the polls of a room that is ready, with a model and a parser
   * that yield five well-formed options: the room moves to voting with five
   * polls.
   */
  method GenerateLunchPolls(store: Room.Store, roomId: Room.Id) returns (poll1: Room.Id, poll2: Room.Id)
    requires store.Valid() && store.ReadyToGenerate(roomId) && store.polls == [] && store.votes == []
    modifies store
    ensures store.Valid()
    ensures roomId in store.rooms && store.rooms[roomId].status == Room.Voting
    ensures |store.polls| == 5 && store.votes == []
    ensures poll1 != poll2 && Room.PollExists(store.polls, poll1) && Room.PollExists(store.polls, poll2)
  {
    var options := LunchOptions();
    var model := (prompt: string) => Analyze.Replied("{\"options\": []}");
    var parse := (text: string) => Some(Analyze.ToJson(options));
    Analyze.ValidateToJson(options);
    var contents := Room.Contents(Room.EntriesOf(store.entries, roomId));
    assert contents != [];
    assert Analyze.AnalyzeEntries(contents, store.rooms[roomId].title, Some("key"), model, parse) == Ok(options);
    var generated := store.GeneratePolls(roomId, Some("key"), model, parse, Room.NoFault);
    poll1, poll2 := store.polls[0].id, store.polls[1].id;
    assert Room.PollExists(store.polls, poll1);
    assert Room.PollExists(store.polls, poll2) by {
      assert store.polls[1].id == poll2;
    }
  }

  /** Two voters on one poll; the first one's blank nickname is stored as null. */
  method TwoVoters(store: Room.Store, poll: Room.Id) returns (first: Room.VoteRow, second: Room.VoteRow)
    requires store.Valid() && store.votes == [] && Room.PollExists(store.polls, poll)
    modifies store
    ensures store.Valid() && store.rooms == old(store.rooms) && store.polls == old(store.polls)
    ensures store.votes == [first, second]
    ensures first.pollId == poll && first.userIdHash == "voter-a" && first.nickname == None
    ensures second.pollId == poll && second.userIdHash == "voter-b"
  {
    assert Room.Optional(Some("   ")) == None;
    var a := store.SubmitVote(poll, "voter-a", Some("   "), None, false);
    first := a.value;
    assert store.votes == [first];
    assert !Room.HasVote(store.votes, poll, "voter-b");
    var b := store.SubmitVote(poll, "voter-b", None, Some("close to the office"), false);
    second := b.value;
  }

  /**
   * Two voters on one poll: a blank nickname is stored as null, a repeat vote
   * on the same poll is refused even when the pre-check fails, and the same
   * voter may still vote on another poll.
   */
  method VoteOnLunch(store: Room.Store, poll1: Room.Id, poll2: Room.Id)
    returns (firstVote: Room.VoteRow,
             repeat: Result<Room.VoteRow, Room.ActionError>,
             otherPoll: Result<Room.VoteRow, Room.ActionError>)
    requires store.Valid() && store.votes == []
    requires poll1 != poll2 && Room.PollExists(store.polls, poll1) && Room.PollExists(store.polls, poll2)
    modifies store
    ensures store.Valid() && store.rooms == old(store.rooms) && store.polls == old(store.polls)
    ensures firstVote.nickname == None
    ensures repeat == Err(Room.AlreadyVoted)
    ensures otherPoll.Ok?
    ensures forall i :: 0 <= i < |store.votes| ==> store.votes[i].userIdHash != "voter-c"
  {
    var second;
    firstVote, second := TwoVoters(store, poll2);
    assert Room.HasVote(store.votes, poll2, "voter-a") by {
      assert store.votes[0].pollId == poll2 && store.votes[0].userIdHash == "voter-a";
    }
    repeat := store.SubmitVote(poll2, "voter-a", None, None, true);
    assert store.votes == [firstVote, second];
    assert !Room.HasVote(store.votes, poll1, "voter-a");
    otherPoll := store.SubmitVote(poll1, "voter-a", None, None, false);
  }

  /**
   * The whole run: after voting is closed a second close is refused, yet a
   * vote arriving after the close is still stored, because the vote action
   * never looks at the room's status.
   */
  method LunchSpot()
    returns (firstVote: Room.VoteRow,
             repeat: Result<Room.VoteRow, Room.ActionError>,
             otherPoll: Result<Room.VoteRow, Room.ActionError>,
             secondClose: Result<(), Room.ActionError>,
             lateVote: Result<Room.VoteRow, Room.ActionError>)
    ensures firstVote.nickname == None
    ensures repeat == Err(Room.AlreadyVoted)
    ensures otherPoll.Ok?
    ensures secondClose == Err(Room.NotVoting)
    ensures lateVote.Ok?
  {
    var store, roomId := CreateLunchRoom();
    CollectOpinions(store, roomId);
    var poll1, poll2 := GenerateLunchPolls(store, roomId);
    firstVote, repeat, otherPoll := VoteOnLunch(store, poll1, poll2);
    var closed := store.CloseVoting(roomId);
    secondClose := store.CloseVoting(roomId);
    assert !Room.HasVote(store.votes, poll2, "voter-c");
    lateVote := store.SubmitVote(poll2, "voter-c", None, None, false);
  }

  /**
   * The panel refuses a vote while the fingerprint is still being computed,
   * sends one once it is ready, and refuses a second vote on the same poll
   * on the client without reaching the store.
   */
  method PanelVotesOnce(store: Room.Store, pollId: Room.Id)
    returns (pendingError: Option<string>, voted: seq<Room.Id>, repeatError: Option<string>)
    requires store.Valid() && Room.PollExists(store.polls, pollId)
    requires !Room.HasVote(store.votes, pollId, "fingerprint")
    modifies store
    ensures pendingError == Some(VotingPanel.HashPendingMessage)
    ensures voted == [pollId]
    ensures repeatError == Some(VotingPanel.AlreadyVotedMessage)
  {
    var panel := new VotingPanel.PanelState([]);
    panel.HandleVote(pollId, store, false);
    pendingError := panel.error;
    panel.HashReady("fingerprint");
    panel.HandleVote(pollId, store, false);
    voted := panel.votedPollIds;
    panel.HandleVote(pollId, store, false);
    repeatError := panel.error;
  }
}
