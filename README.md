# A verified model of the TOHYO room, voting and analysis core

TOHYO lets a group settle a question. Someone opens a **room** with a title
("Lunch spot?"). Participants post free-text **entries** (opinions) while the
room is *collecting*. The organiser then asks a generative model to condense
the entries into exactly five **poll options**, and the room moves to *voting*.
Each browser votes at most once per option, identified by a hash of a browser
fingerprint. Finally the organiser *closes* the room. The voting panel shows
the total, a rounded percentage per option and, in ranking mode, the options
sorted by votes with medals.

This project models that core in Dafny, file by file:

| file | models |
|---|---|
| `room.dfy` | the server actions of `app/actions/room.ts`, as methods of a `Store` class holding the rooms, entries, polls and votes tables, with the room status machine of `lib/types/database.ts` |
| `voting_panel.dfy` | `components/voting-panel.tsx`: the total, the percentage rounding, the stable descending ranking sort, the rank labels, the rendered rows, and the `handleVote` handler as a `PanelState` class |
| `analyze.dfy` | `lib/ai/analyze.ts`: the empty-input guard, the numbered prompt, the removal of Markdown code fences, and the schema that accepts exactly five options |
| `hash.dfy` | `lib/utils/hash.ts`: the lower-case hex rendering of the digest and the `|`-joined fingerprint |
| `strings.dfy` | the ECMAScript string operations these use: `trim`, `join`, `split`, decimal `toString` |
| `wrappers.dfy` | `Option` and `Result` |
| `scenarios.dfy` | end-to-end runs: a lunch room from creation to a vote after closing, and the panel refusing a repeat vote |

The code does not enforce some rules a reader might expect, and the model
follows the code:

- No action checks an admin token. The room's `admin_token` is not modelled.
- `submitVoteAction` never looks at the room status. A vote on a poll of a
  room that is still collecting, or already closed, is stored. `Scenarios.LunchSpot`
  shows a vote accepted after the room was closed.
- Inserting the polls and setting the status to voting are two separate
  writes. If the second one fails, the polls exist while the room is still
  collecting (`Room.Store.WritePolls`).
- Poll generation checks the status before the model call and sets voting
  afterwards without checking it again. Two overlapping generations of the
  same collecting room both pass the check and insert ten polls between them.
  A close that lands between the two status writes is undone, and the closed
  room is back in voting.
- Deduplication is per poll, not per room. One browser may vote on several
  options of the same room.
- A vote on a poll id that does not exist is rejected only by the database's
  foreign key, and the action rethrows that database error unchanged rather
  than an error of its own.

Database faults appear as parameters only where they change what an action
does. `WriteFault` picks the failing write of poll generation. `precheckFails`
makes the vote's pre-check query fail. The action ignores that failure, so the
table's unique constraint (SQLSTATE 23505) is what rejects the repeat. The
generative model is a function `model: string -> Upstream`, and `JSON.parse`
is a function `parse: string -> Option<Json>`. SHA-256 is a function
`sha256: string -> Digest`. Row ids come from a counter and stand for the
database's UUIDs.

## Model

| member | source | states |
|---|---|---|
| `Room.Store.CreateRoom` | app/actions/room.ts:11-33 | fails with the "empty title" error exactly when the title is empty or all whitespace; otherwise adds one new room with the trimmed, non-empty title in status collecting, and changes no other table |
| `Room.Store.SubmitEntry` | app/actions/room.ts:38-72 | each error holds exactly when its guard fails, in the source's order: blank content, missing room, room not collecting; on success exactly one entry with the trimmed content is appended for that room; rooms, polls and votes are unchanged |
| `Room.Store.GeneratePolls` | app/actions/room.ts:77-134 | a missing room, a room not collecting, or a room without entries gives its own error and writes nothing; a failed analysis writes nothing; otherwise the polls for the five options are appended in order with their text and explanation, then the status becomes voting; with a failing status write the polls stay while the status does not change; statuses only move forward |
| `Room.Store.WritePolls` | app/actions/room.ts:111-130 | the two writes one after the other: a failing poll insert writes nothing; a failing status update leaves the inserted polls in place; otherwise both happen |
| `Room.Store.InsertPolls` | app/actions/room.ts:118-122 | appends exactly the given rows to the polls table and keeps the store invariant |
| `Room.Store.SetStatus` | app/actions/room.ts:125-128 | changes only the status of the one room |
| `Room.Store.InsertVote` | app/actions/room.ts:166-178 | the votes table's constraints: code 23505 exactly when the (poll, hash) pair already has a vote, code 23503 exactly when the poll does not exist, otherwise the vote is appended |
| `Room.Store.SubmitVote` | app/actions/room.ts:139-192 | "already voted" exactly when the pair already has a vote, whether or not the pre-check query fails; success exactly when the pair is new and the poll exists, with nickname and comment normalised and the vote appended; a missing poll gives the raw foreign-key error; rooms, entries and polls never change, and the room status is not consulted |
| `Room.Store.CloseVoting` | app/actions/room.ts:197-219 | "room not found" exactly when the room is missing, "not voting" exactly when its status is not voting, otherwise the status becomes closed and nothing else changes |
| `Room.FindVote` | app/actions/room.ts:148-157 | finds a vote exactly when the (poll, hash) pair has one, and the vote found has that pair |
| `Room.Optional` | app/actions/room.ts:162-163 | an absent or blank value becomes null; any other value is stored trimmed, non-empty, without whitespace at either end |
| `Room.OptionalIdempotent` | app/actions/room.ts:162-163 | normalising a stored nickname or comment again changes nothing |
| `Room.EntriesOf` | app/actions/room.ts:93-97 | the entries of a room are exactly the stored entries with that room id |
| `Room.EntriesOfAppend` | app/actions/room.ts:93-97 | the entries of a room stay in creation order: a new entry is added at the end of its own room's list and leaves the other rooms' lists as they were |
| `Room.Contents` | app/actions/room.ts:105 | the texts handed to the analysis: one per entry, in the same order, each that entry's content |
| `Room.Message` | app/actions/room.ts:13-208 | exactly the errors the actions throw as `Error`s carry a message: the texts thrown at lines 13, 40, 52, 54, 89, 101, 156, 175 and 208, and the analysis failure passed on from generation; a database error is rethrown as it is, not as an `Error`, so the panel does not read its message |
| `Room.PollRows` | app/actions/room.ts:112-116 | one poll row per option, in order, with the option's text and explanation |
| `Room.HistoryIsMonotone` | lib/types/database.ts:3 | along any sequence of status changes made by actions that run one after another, the status never moves backward (overlapping generations can undo a close; see "## Left out") |
| `Room.HistoryPassesThroughVoting` | app/actions/room.ts:207-214 | a room that went from collecting to closed was voting at some point in between |
| `VotingPanel.TotalVotes` | components/voting-panel.tsx:72 | the sum is non-negative when every count is |
| `VotingPanel.SumByAppend` | components/voting-panel.tsx:72 | the left-to-right sum over two lists joined together is the sum of the two sums |
| `VotingPanel.SumByRankingOrder` | components/voting-panel.tsx:72 | the total, and any other sum over the polls, is the same in ranking order as in input order |
| `VotingPanel.Percentage` | components/voting-panel.tsx:93-95 | 0 when the total is 0; otherwise the integer nearest to 100·count/total with halves rounded up; between 0 and 100 when 0 ≤ count ≤ total |
| `VotingPanel.PercentagesNearHundred` | components/voting-panel.tsx:93-95 | with n polls and a positive total, the rounded percentages add up to more than 100 − n/2 and at most 100 + n/2 |
| `VotingPanel.RankingOrder` | components/voting-panel.tsx:32 | the copy sorted by `b.vote_count - a.vote_count`; its contract is carried by `RankingOrderSortedPermutation`, `RankingOrderStable` and `StableRankingIsRankingOrder` |
| `VotingPanel.Insert` | components/voting-panel.tsx:31-33 | inserting a poll into the ranking adds exactly that poll |
| `VotingPanel.InsertSorted` | components/voting-panel.tsx:31-33 | inserting a poll after every poll with at least as many votes keeps the list sorted by descending votes |
| `VotingPanel.RankingOrderSortedPermutation` | components/voting-panel.tsx:31-33 | the ranking is sorted by descending votes and is a permutation of the polls |
| `VotingPanel.RankingOrderStable` | components/voting-panel.tsx:31-33 | polls with equal votes keep their input order |
| `VotingPanel.StableRankingUnique` | components/voting-panel.tsx:31-33 | two lists sorted by descending votes that keep every tie group in the same order are equal |
| `VotingPanel.StableRankingIsRankingOrder` | components/voting-panel.tsx:31-33 | a list is a stable descending sort of the polls (what section 22.1.3.27 of ECMA-262 requires of `sort` with this comparator) exactly when it is the model's ranking |
| `VotingPanel.RankingExample` | components/voting-panel.tsx:31-33 | options with 2, 3 and 3 votes rank as the second, the third, then the first |
| `VotingPanel.DisplayPolls` | components/voting-panel.tsx:31-33 | in ranking mode a stable descending sort of the polls; otherwise the polls as given; always the same polls |
| `VotingPanel.Medal` | components/voting-panel.tsx:99-107 | a label exactly in ranking mode |
| `VotingPanel.MedalsDistinct` | components/voting-panel.tsx:99-107 | different ranks get different labels: the three medals and "N位" for N > 3 never clash |
| `VotingPanel.Rows` | components/voting-panel.tsx:90-107 | one row per displayed poll, in display order; the rank, label and percentage of each row are stated by `RankingPanelOrder` and `PanelPercentages` |
| `VotingPanel.ClientMessage` | components/voting-panel.tsx:57 | the panel shows the fallback "投票に失敗しました" exactly for a database error, and the duplicate-vote message for the action's "already voted" |
| `VotingPanel.Render` | components/voting-panel.tsx:63-72 | the placeholder exactly when there are no polls |
| `VotingPanel.RankingPanelOrder` | components/voting-panel.tsx:90-107 | in ranking mode the rows show a stable descending sort of the polls, the rank of row i is i + 1, and no two rows share a label |
| `VotingPanel.PanelPercentages` | components/voting-panel.tsx:90-96 | with non-negative counts every percentage shown is in 0..100, all are 0 when nobody voted, and otherwise they add up to 100 within half a point per poll, in either mode |
| `VotingPanel.PanelState.constructor` | components/voting-panel.tsx:24-28 | the initial state: no hash, no vote in flight, the voted list passed in, no error |
| `VotingPanel.PanelState.HashReady` | components/voting-panel.tsx:35-37 | stores the computed hash |
| `VotingPanel.PanelState.HandleVote` | components/voting-panel.tsx:39-61 | with no hash yet, or a poll already in the voted list, only the matching error is set and the store is untouched; otherwise the vote is submitted without nickname or comment, and on success the poll id is appended once, the error cleared and exactly one vote row added to the store's votes, earlier votes kept; on failure the list is kept and the error message set ("already voted", or the fallback for a database error); the vote in flight is cleared in both cases; rooms, entries and polls never change; a list without duplicates keeps none |
| `Analyze.AnalyzeEntries` | lib/ai/analyze.ts:23-106 | the "no entries" error exactly when the list is empty; every other failure is the single retry error; a result exists exactly when there are entries, the key is set and non-empty, the model replied to the prompt for these entries, and the fence-stripped reply parsed to a well-shaped value; the result is then the schema's parse of that value, with five options |
| `Analyze.EmptyEntriesShortCircuit` | lib/ai/analyze.ts:27-29 | with no entries the outcome depends neither on the key, nor on the model, nor on the parser |
| `Analyze.Prompt` | lib/ai/analyze.ts:31-73 | the prompt text; its property is `PromptReadsBack` |
| `Analyze.PromptReadsBack` | lib/ai/analyze.ts:31-73 | the prompt starts with the fixed introduction followed by the room title and ends with the fixed instructions; for opinions without line breaks, the part between the heading and the instructions splits into one line per opinion, line i reading back as i + 1 and opinion i |
| `Analyze.NumberedLine` | lib/ai/analyze.ts:38 | one prompt line; `NumberedLineRoundTrip` states that it reads back as its number and entry |
| `Analyze.NumberedList` | lib/ai/analyze.ts:38 | the lines joined with newlines; `NumberedListReadsBack` states that it splits back into one line per entry |
| `Analyze.NumberedLineRoundTrip` | lib/ai/analyze.ts:38 | each prompt line reads back as its 1-based number and the entry, even when the entry starts with digits |
| `Analyze.NumberedListReadsBack` | lib/ai/analyze.ts:38 | for entries without newlines, the list has one line per entry in input order, line i reading back as i + 1 and entry i |
| `Analyze.LeadingDigitsOfNumeral` | lib/ai/analyze.ts:38 | the number at the head of a prompt line ends exactly where its digits end |
| `Analyze.StripFences` | lib/ai/analyze.ts:89-94 | a trimmed reply that does not start with a fence is passed on unchanged; one that does comes out with no fence left anywhere |
| `Analyze.RemoveMarker` | lib/ai/analyze.ts:91-93 | the global `replace(/<marker>\n?/g, "")`: never lengthens the text; `NoFenceAfterRemoval` and `RemoveMarkerSkipsPlainText` state what it removes and what it keeps |
| `Analyze.NoFenceAfterRemoval` | lib/ai/analyze.ts:91-93 | after the global removal of the ``` marker no ``` remains in the text |
| `Analyze.RemoveMarkerSkipsPlainText` | lib/ai/analyze.ts:91-93 | text before the first backtick is kept as it is by the removal |
| `Analyze.StripJsonCodeBlock` | lib/ai/analyze.ts:89-91 | a reply wrapped in a ```json block yields its body and the newline before the closing fence |
| `Analyze.StripPlainCodeBlock` | lib/ai/analyze.ts:92-93 | a reply wrapped in a bare ``` block yields its body and the newline before the closing fence |
| `Analyze.Numbers` | lib/ai/analyze.ts:10 | accepts an array exactly when every item is a number, and returns those numbers |
| `Analyze.ParseOption` | lib/ai/analyze.ts:7-11 | accepts an object exactly when it has string `option_text`, string `explanation` and an array of numbers `related_opinions`, and returns those values |
| `Analyze.ParseOptions` | lib/ai/analyze.ts:6-11 | accepts an array exactly when every item has the option shape, keeping their order |
| `Analyze.Validate` | lib/ai/analyze.ts:5-13 | accepts exactly the well-shaped values: an `options` array of exactly five options; each result option is the parse of the matching item |
| `Analyze.ParseOptionToJson` | lib/ai/analyze.ts:7-11 | parsing the JSON form of an option gives the option back |
| `Analyze.ValidateToJson` | lib/ai/analyze.ts:5-13 | the schema gives back any result with five options unchanged, whatever its `related_opinions` numbers (they are not range-checked), and rejects any other count |
| `Hash.HexByte` | lib/utils/hash.ts:12 | two lower-case hex digits, high nibble first, that read back as the byte |
| `Hash.HexValue` | lib/utils/hash.ts:12 | the value of a lower-case hex digit, whose rendering is that digit |
| `Hash.ToHex` | lib/utils/hash.ts:12 | two characters per byte, every one a lower-case hex digit |
| `Hash.FromToHex` | lib/utils/hash.ts:12 | reading the hex string back gives the bytes |
| `Hash.ToHexInjective` | lib/utils/hash.ts:12 | distinct byte sequences give distinct strings |
| `Hash.HexByteOrder` | lib/utils/hash.ts:12 | the order of two bytes is the order of their two-digit renderings |
| `Hash.ToHexOrder` | lib/utils/hash.ts:12 | the rendering preserves the lexicographic order of equal-length byte sequences |
| `Hash.DigestHex` | lib/utils/hash.ts:11-13 | a SHA-256 digest renders as 64 lower-case hex digits that read back as the digest |
| `Hash.Fingerprint` | lib/utils/hash.ts:32-38 | the five browser properties joined with '\|'; `FingerprintFieldsRecovered` states that they split back out |
| `Hash.FingerprintFieldsRecovered` | lib/utils/hash.ts:32-38 | when the user agent and language contain no '\|', the fingerprint splits into exactly five fields: user agent, language, time-zone offset, "WxH" (which splits into width and height) and colour depth |
| `Hash.UserIdHash` | lib/utils/hash.ts:25-41 | the browser's user hash is 64 lower-case hex digits that decode to the digest of the fingerprint |
| `Strings.Trim` | app/actions/room.ts:12-19 | removes exactly the leading and trailing whitespace: the result is a slice of the input, what was cut is whitespace, it is empty exactly for blank input, and it neither starts nor ends with whitespace |
| `Strings.TrimIdempotent` | app/actions/room.ts:19 | a trimmed title or content is unchanged by trimming again |
| `Strings.SplitJoin` | lib/utils/hash.ts:38 | splitting a join of parts that do not contain the separator gives the parts back |
| `Strings.JoinSplit` | lib/utils/hash.ts:38 | joining the pieces of a split gives the text back |
| `Strings.NatToStringValue` | lib/ai/analyze.ts:38 | the decimal rendering of a number reads back as the number |
| `Strings.NatToStringInjective` | lib/ai/analyze.ts:38 | distinct numbers render differently |
| `Strings.IntToStringInjective` | lib/utils/hash.ts:35-37 | distinct integers, negative ones included, render differently |
| `Scenarios.LunchSpot` | app/actions/room.ts:139-219 | in a full run a blank nickname is stored as null, a repeat vote is refused even when the pre-check fails, the same voter may vote on another option, a second close is refused, and a vote after closing is still accepted |
| `Scenarios.PanelVotesOnce` | components/voting-panel.tsx:39-61 | the panel refuses a vote while the hash is pending, records the vote once it is ready, and refuses a repeat on the same poll |

## Left out

- The SHA-256 digest (section 6.2 of FIPS 180-4), `TextEncoder`'s UTF-8 encoding, `window.crypto` and Node's `crypto` are a parameter `sha256`. The server-side branch of `generateUserIdHash`, which hashes `Math.random()`, is not modelled, because it is non-deterministic. The room page does use it: it computes the panel's initial voted list on the server from that random hash (app/[roomId]/page.tsx:117-120), so the list starts empty, and after a reload only the database's unique constraint refuses a repeat vote. `generateSimpleUserHash` is not modelled, because the application does not use it.
- `navigator` and `screen` values are parameters of `Hash.Fingerprint`. A user agent that contains '|' makes two fingerprints collide. The model only states recovery when no '|' occurs.
- The Gemini call, `JSON.parse` and Zod's internals are parameters: `model`, `parse`, and the `Validate` schema over an abstract `Json` value. `Json` numbers are plain reals. Whether an out-of-range literal such as `1e400` parses to `Infinity`, and whether the schema then rejects it, is left to the `parse` parameter.
- `VotingPanel.Percentage`: uses exact rational rounding. `Math.round((c / t) * 100)` on doubles can differ when 100·c/t is within rounding error of a .5 boundary.
- `VotingPanel.TotalVotes`: adds unbounded integers. Doubles above 2^53 are not modelled.
- `Room.Store.GeneratePolls`: an error from the entries query (app/actions/room.ts:99) is not modelled. The other error paths are, including the two writes' failures.
- `Room.Store.SubmitVote`: the poll lookup after the insert only feeds `revalidatePath`, so it is left out.
- VotingPanel.PanelState.HandleVote: the server action is modelled as a direct call. The framework's serialisation of a thrown error across the server-action boundary is not modelled. That serialisation hands the client an `Error` whose message may be replaced by a generic one in production builds. So the message the model shows (the action's own message, or the fallback "投票に失敗しました" for a database error) is the one a direct call would produce.
- VotingPanel.PanelState.HandleVote: each call runs to completion on the current fields, so overlapping calls are not modelled. In the source only the button of the poll being voted on is disabled, so a vote on poll B can start while the vote on poll A is pending. Each handler appends to the `votedPollIds` of the render that created it, so when both are accepted, B's completion overwrites the list with `[B]` and A's id is lost from it. A's `finally` also clears `votingFor` while B is still pending.
- `revalidatePath` cache invalidation and console logging are I/O.
- Room.Store.CreateRoom: a failing room insert (app/actions/room.ts:29) is not modelled. It would surface as a raw database error and change nothing.
- Room.Store.SubmitEntry: a failing entry insert (app/actions/room.ts:68) is not modelled, for the same reason.
- Room.Store.CloseVoting: a failing status update (app/actions/room.ts:216) is not modelled, for the same reason.
- Room.Store.SubmitVote: a failing pre-check is modelled as `precheckFails`, but no other transport error of the pre-check or the insert is.
- Concurrency is not modelled. The check-then-insert race of `submitVoteAction` is captured by the store refusing a duplicate pair, with `precheckFails` reaching that path. Interleaved `generatePollsAction` calls are not. The model's `Room.Store.GeneratePolls` runs its check and its writes as one step, but in the source the model call lies between the status check (app/actions/room.ts:88) and the unconditional status update (app/actions/room.ts:125-128). Two overlapping calls on a collecting room both pass the check and insert five polls each. A `closeVotingAction` between their status writes is undone: the second write sets the closed room back to voting. `Room.HistoryIsMonotone` holds only for actions that run one after another.
- The room page never passes `showRanking` to the panel (app/[roomId]/page.tsx:176 and 203). The ranking mode modelled by `VotingPanel.RankingOrder`, `VotingPanel.Medal` and `VotingPanel.RankingPanelOrder` is the component's own behaviour, which the application does not currently render.
- UUIDs and timestamps: row ids are a counter, and creation order is the order of the sequences.
- `admin_token` generation, the other pages and components, and the `lib/database.ts` wrappers are not part of this model.
- Rendering details (badges, progress bar width, button state, spinner) are not modelled. `VotingPanel.Render` keeps only what the rows show: poll, rank, label, percentage, voted and in-flight flags.
- The input `polls` of the panel is a value here. Sorting a copy cannot change it, so "the input is left untouched" holds by construction rather than as a proved statement about aliasing.
