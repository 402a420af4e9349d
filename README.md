# resistance-server, modelled in Dafny

This project models the core of resistance-server, a Go game server for a
hidden-role party game ("The Resistance" / "Avalon"). Players meet in lobbies
over websocket connections. A game gives each player a secret role. It then
runs rounds of team proposals, votes and secret mission decisions.

The model covers these parts of the server:

- **Game rules** (`internal/game`):
  - the option bit mask, the roles and player validity;
  - the per-player-count round table, round conclusion and the game-status tally;
  - role assignment by drawing without replacement from a swap-shrunk pool;
  - the per-viewer role masks and captain reselection and rotation;
  - the `choose`, `vote` and `decide` phase callbacks, each reporting "phase complete" as a returned flag.

  The package holds two iterations of the game, which really differ:
  - the slice-based game of `model.go` with `mission.go` (module `SliceGame`);
  - the map-based game of `game.go` with `round.go` (module `MapGame`).

  They share the role rules (`GameRoles`), the draw-list reasoning (`DrawOrder`) and the round data (`GameRound`).
- **Lobby** (`internal/lobby`):
  - membership bookkeeping: connections by client ID, the client list kept sorted by ID, and the owner;
  - subscriber lists with swap-and-truncate removal;
  - the `lobby` commands each member receives, and the `kick` guard;
  - lobby comparison, type validation and configuration validation;
  - the service's lobby-ID range, its ID choice with collision retry, and the ID-length check on lookup.
- **Connections** (`internal/conn`):
  - the command table (group → name → callback), with merge, lookup and deletion;
  - the close-once send channel and the done subscribers;
  - the process-wide registry in which a new connection replaces an old one;
  - the rule by which an inbound message selects a callback;
  - the in-memory mock connection.
- **Stores** (`internal/repo/plain`): the map-backed lobby and client repositories with their sentinel errors.
- **Helpers**:
  - the Discord avatar URL, with Go's `strconv.Atoi`/`strconv.Itoa` and truncating `%` modelled in `GoStrconv`;
  - the logger's pad/truncate `calc`, prefix and suffix, and type-name width.

The model follows the source's own form:

- Objects whose fields the source updates in place are classes. Their methods state the new state and are proved against specification functions.
- Loops are `while`/`for` loops with invariants.
- Go's map iteration order and `rand.Intn(n)` are nondeterministic choices (`:|`). CreateLobby's random picks are an explicit sequence argument.
- Go panics become either an `Option` result or a precondition. The "Left out" section lists which.

## Model

| member | source | states |
|---|---|---|
| GameOption.Add | internal/game/option.go:17-19 | the result holds every bit of both masks |
| GameOption.Has | internal/game/option.go:32-34 | the masks share a bit: it holds in either order and only when both masks are non-zero, so it is not a test for containing all of x |
| GameOption.Remove | internal/game/option.go:22-24 | the result shares no bit with the removed mask and keeps every other bit of the original |
| GameOption.Toggle | internal/game/option.go:27-29 | toggling the result by the same mask gives the original back |
| GameOption.Constants | internal/game/option.go:3-10 | OptionNone is 0, OptionPercival is 2 (iota is 1 on its line), OptionMorgana is 3 |
| GameOption.AddHas | internal/game/option.go:17-34 | after adding a non-zero mask, Has reports it |
| GameOption.RemoveNotHas | internal/game/option.go:22-34 | after removing a mask, Has never reports it |
| GameOption.ToggleInvolution | internal/game/option.go:27-29 | Toggle is its own inverse |
| GameOption.PercivalMorganaOverlap | internal/game/option.go:7-34 | Has means "shares a bit": Percival and Morgana each report the other, though they differ |
| GameOption.NoneNeverHeld | internal/game/option.go:32-34 | no mask has OptionNone |
| GamePlayer.RoleCode | internal/game/player.go:12-40 | every role's code is at most 5, and the code is 0 exactly for Default |
| GamePlayer.RoleOfCode | internal/game/player.go:12-44 | a code names a role exactly when it is at most 5 |
| GamePlayer.RoleCodeRoundTrip | internal/game/player.go:12-40 | codes and roles correspond one to one, both ways |
| GamePlayer.NewPlayer | internal/game/player.go:46-52 | newPlayer keeps the client, copies its ID and leaves the role Default |
| GamePlayer.IsValid | internal/game/player.go:55-63 | a valid player has a valid client, so it holds a connection and is not the zero Player |
| GamePlayer.NewPlayerInvalid | internal/game/player.go:46-63 | a freshly created player is never valid |
| GamePlayer.AssignedPlayerValid | internal/game/player.go:55-63 | a connected client's player with any non-Default role is valid |
| GamePlayer.ZeroPlayerInvalid | internal/game/player.go:55-63 | the zero Player is invalid |
| ClientModel.ValidIffConnected | internal/client/model.go:27-35 | a client is valid exactly when it holds a connection (the zero client has none) |
| ClientModel.IsValid | internal/client/model.go:27-35 | not the zero Client and holding a connection; ClientModel.ValidIffConnected shows this is just holding a connection |
| GameRound.Declined | internal/game/round.go:125-137 | the count of proposed and rejected missions among the first k is at most k |
| GameRound.IsAccepted | internal/game/mission.go:23-25 | strictly more accepts than declines, so an accepted mission has at least one accept |
| GameRound.IsEmpty | internal/game/mission.go:28-30 | no votes and no assignees; an empty mission is never accepted |
| GameRound.DeclinedAll | internal/game/round.go:125-137 | the count reaches k exactly when each of the first k missions was proposed and not accepted |
| GameRound.GetConclusion | internal/game/round.go:115-145 | Default exactly when the first mission is empty; Lost exactly when the round was played and all five proposals were rejected or the failures reached the threshold |
| GameRound.ConclusionIgnoresLaterMissions | internal/game/round.go:121-123 | while the first mission is empty, later missions do not change the conclusion |
| GameRound.PlayedRoundDecided | internal/game/round.go:125-143 | a played round is Lost or Won, never Default, with both conditions as if-and-only-if |
| GameRound.AcceptNeedsMajority | internal/game/mission.go:23-30 | a tie, and a mission with no votes, are not accepted |
| GameRound.RoundDefaultsRows | internal/game/round.go:15-112 | the table has rows for exactly 5, 6, 7 and 8 players |
| GameRound.RoundDefaultsShape | internal/game/round.go:15-112 | every team size is between 1 and the row's player count; the failure threshold is 2 only in round 4 with 7 or 8 players, else 1; every table round starts undecided |
| GameRound.CountConclusion | internal/game/round.go:115-145 | the number of rounds among the first k with a given conclusion is at most k |
| GameRound.CountsBounded | internal/game/model.go:121-149 | lost and won rounds together never exceed the rounds counted |
| GameRound.GetStatus | internal/game/model.go:121-149 | the tally loop returns StatusOf: Lost as soon as a lost round's fifth proposal was not accepted, otherwise Lost for exactly three lost rounds, Won for exactly three won, else Default (game.go:61-89 is identical) |
| GameRound.StatusOf | internal/game/model.go:121-149 | getStatus as a specification: a round lost by rejection loses the game, then exactly three lost rounds lose it, then exactly three won rounds win it; GameRound.WonMeansThreeWins and GameRound.FourWinsNoWinner state its consequences |
| GameRound.LostByRejection | internal/game/model.go:121-149 | the round concluded Lost and its fifth proposal was not accepted, the test getStatus applies to each round |
| GameRound.WonMeansThreeWins | internal/game/model.go:121-149 | a Won status means exactly three won rounds, not three lost, and no lost round whose fifth proposal failed |
| GameRound.FourWinsNoWinner | internal/game/model.go:121-149 | four won rounds never give Won: the tally asks for exactly three |
| GameRoles.SpyCount | internal/game/game.go:97-104 | spies exist exactly for 5 to 10 players, 2 to 4 of them, leaving at least 3 others |
| GameRoles.Specials | internal/game/game.go:142-208 | at most three special roles are drawn |
| GameRoles.SpecialsShape | internal/game/game.go:142-208 | Percival is drawn with Morgana's bit too, and the specials are Merlin's part followed by Percival and Morgana, or Merlin's part alone |
| GameRoles.PercivalBringsMorgana | internal/game/game.go:158-208 | a mask with the Percival bit also triggers the Morgana block, so both are drawn |
| GameRoles.SpecialsCount | internal/game/game.go:142-208 | each special appears at most once: Merlin exactly for Avalon, Percival for either bit, Morgana for the Morgana bit; never Spy, Resistance or Default |
| GameRoles.Layout | internal/game/game.go:92-209 | the final roles along the draw list, one per position (its counts are GameRoles.LayoutCounts) |
| GameRoles.Arrange | internal/game/game.go:119-208 | Resistance pool, then the specials in reverse draw order, then the spies, one role per position (its counts are GameRoles.ArrangeCounts) |
| GameRoles.RepeatCount | internal/game/game.go:119-140 | a run of one role counts that role k times and no other |
| GameRoles.ReversePermutes | internal/game/game.go:142-208 | reversing the drawn specials keeps their multiset |
| GameRoles.ArrangeParts | internal/game/game.go:119-208 | with room for every special, the arrangement's role counts are the sum of its three parts |
| GameRoles.ArrangeCounts | internal/game/game.go:119-208 | with room for every special, each role's count is its Resistance, special and Spy shares |
| GameRoles.LayoutNoDefault | internal/game/game.go:119-208 | no position is left with the Default role |
| GameRoles.LayoutCounts | internal/game/game.go:92-209 | for 5 to 10 players: SpyCount(n) spies, Merlin exactly for Avalon, Percival and Morgana as the bits ask, the rest Resistance, no Default |
| DrawOrder.Range | internal/game/model.go:154-159 | the initial pool lists every position in order |
| DrawOrder.Roles | internal/game/model.go:152-244 | the roles of the players, position by position |
| DrawOrder.Along | internal/game/model.go:152-244 | the roles read in draw-list order, one per list entry |
| DrawOrder.DeleteIndex | internal/game/model.go:173-181 | deleteIndex swaps the drawn entry with the last pool entry and nothing else, keeping the multiset |
| DrawOrder.DeleteIndexDistinct | internal/game/game.go:109-117 | a swap keeps a duplicate-free list duplicate-free |
| DrawOrder.SwapPermutes | internal/game/game.go:109-117 | exchanging two entries keeps the multiset |
| DrawOrder.PermutationInRange | internal/game/model.go:154-181 | a permutation of the positions only holds valid positions |
| DrawOrder.RangeLast | internal/game/model.go:154-159 | the positions up to n are those up to n-1 plus n-1 |
| DrawOrder.CancelLast | internal/game/model.go:154-181 | removing the largest position from a permutation leaves a permutation of the smaller ones |
| DrawOrder.PeelLast | internal/game/model.go:154-181 | the largest position can be swapped out, leaving a permutation of the rest |
| DrawOrder.AlongPeeled | internal/game/model.go:152-244 | reading along the peeled list accounts for every role but the last |
| DrawOrder.AlongStep | internal/game/model.go:152-244 | the multiset claim for n positions follows from the claim for n-1 |
| DrawOrder.AlongPermutes | internal/game/model.go:152-244 | reading roles along any permutation of the positions keeps their multiset |
| SliceGame.PlayerIndex | internal/game/model.go:372-380 | the first position with the ID, or -1 exactly when no player has it |
| SliceGame.PlayerById | internal/game/model.go:362-369 | a player with the ID when one exists, the zero Player otherwise |
| SliceGame.NextCaptain | internal/game/mission.go:99-107 | the rotated captain is a valid index (0 when there are no players) |
| SliceGame.MaskedView | internal/game/model.go:305-345 | the list is never longer than the player list |
| SliceGame.OldMaskRole | internal/game/model.go:305-345 | the older per-role mask; the cases are stated by SliceGame.PercivalSeesOnlyResistance, MorganaSeesTruth, SpySeesSpies, ResistanceSeesNoRoles and MerlinSeesSpies |
| SliceGame.MaskedViewMeaning | internal/game/model.go:305-345 | the list holds exactly the players before the first invalid one, each with its role masked for the viewer, the viewer's own entry included |
| SliceGame.SendPlanMeaning | internal/game/model.go:347-357 | each message goes to a valid player and carries that viewer's masked list; every player gets one when all are valid |
| SliceGame.SendPlan | internal/game/model.go:347-357 | the messages Send writes, one per valid player in slice order; SliceGame.SendPlanMeaning states what they hold |
| SliceGame.Game.constructor | internal/game/model.go:91-101 | the Game literal: type and option set, no players, zero rounds, captain 0 |
| SliceGame.Game.NewGame | internal/game/model.go:91-118 | an error exactly outside 5..10 clients; otherwise one player per client in client order, the table row for min(N, 8), and roles laid out by the draw rules over some permutation |
| SliceGame.Game.AssignRoles | internal/game/model.go:152-244 | only roles change and the player order is kept; the roles read along the final draw list are exactly the layout |
| SliceGame.Game.DrawSpies | internal/game/model.go:154-195 | SpyCount(N) spies are drawn, and the players left in the pool are Resistance |
| SliceGame.Game.PoolIndices | internal/game/model.go:154-159 | the pool starts as every position in order |
| SliceGame.Game.FillResistance | internal/game/model.go:193-195 | every player still in the pool becomes Resistance and the drawn ones keep their roles |
| SliceGame.Game.DrawSpecials | internal/game/model.go:197-243 | the specials drawn are all of them, or a prefix cut short by an empty pool, and the pool stays Resistance |
| SliceGame.Game.DrawMerlin | internal/game/model.go:197-206 | for Avalon, Merlin is drawn unless the pool is empty, which ends the assignment |
| SliceGame.Game.DrawPercival | internal/game/model.go:208-220 | Percival is drawn when the mask has the Percival bit, unless the pool is empty |
| SliceGame.Game.DrawMorgana | internal/game/model.go:222-243 | with the Morgana bit, a missing Percival then Morgana are drawn; the specials drawn are all of them or a prefix cut short by an empty pool |
| SliceGame.Game.DrawSpecial | internal/game/model.go:197-243 | one pool entry receives the special role and leaves the pool; the earlier draws stay in place |
| SliceGame.Game.Draw | internal/game/model.go:183-191 | one random pool entry receives the role and is swapped out of the shrinking pool |
| SliceGame.DrawKeeps | internal/game/model.go:173-191 | one draw keeps the draw state |
| SliceGame.PoolStart | internal/game/model.go:154-159 | before any draw the pool is every position |
| SliceGame.ResistanceKeeps | internal/game/model.go:193-195 | making a pool entry Resistance keeps the draw state |
| SliceGame.SpecialKeeps | internal/game/model.go:197-243 | a special draw keeps the pool all Resistance and puts the special in front of the spies |
| SliceGame.SpecialDrawn | internal/game/model.go:197-243 | a special draw puts the special in front of the spies and the earlier specials |
| SliceGame.PoolKept | internal/game/model.go:197-243 | removing one entry from an all-Resistance pool leaves an all-Resistance pool |
| SliceGame.Finish | internal/game/model.go:152-244 | when the draws are over, only roles have changed, the draw list is a permutation, and the roles along it are the layout |
| SliceGame.DrawsArrange | internal/game/model.go:152-244 | the draw state spelled out equals the arrangement |
| SliceGame.NewGameRoleCounts | internal/game/model.go:91-118 | a new game has exactly SpyCount(N) spies, one Merlin for Avalon, Percival and Morgana as the bits ask, and no Default |
| SliceGame.Game.SetCaptain | internal/game/model.go:247-255 | succeeds exactly when the index is below the player count (negative ones included); otherwise the captain is unchanged |
| SliceGame.Game.Captain | internal/game/model.go:258-266 | the player at the captain index, or the zero Player past the end |
| SliceGame.Game.GetPlayerIndex | internal/game/model.go:372-380 | the loop finds the first matching position, or -1 |
| SliceGame.Game.GetPlayer | internal/game/model.go:362-369 | the first player with the ID, or the zero Player |
| SliceGame.Game.MaskPlayers | internal/game/model.go:305-345 | the loop builds exactly the viewer's masked list |
| SliceGame.Game.Send | internal/game/model.go:300-359 | one message per valid player, in slice order, each with that viewer's masked list |
| SliceGame.PercivalSeesOnlyResistance | internal/game/model.go:305-345 | under the older mask a Percival viewer sees every listed player as Resistance |
| SliceGame.MorganaSeesTruth | internal/game/model.go:305-345 | under the older mask a Morgana viewer sees the listed players unmasked |
| SliceGame.SpySeesSpies | internal/game/model.go:305-345 | a spy sees fellow spies, and never sees Merlin or Percival |
| SliceGame.ResistanceSeesNoRoles | internal/game/model.go:305-345 | a Resistance viewer sees every listed player as Resistance |
| SliceGame.MerlinSeesSpies | internal/game/model.go:305-345 | Merlin sees spies as spies and Morgana as Resistance |
| SliceGame.MaskStopsAtInvalid | internal/game/model.go:305-345 | the list ends exactly at the first invalid player |
| SliceGame.Game.StartMission | internal/game/mission.go:37-40 | a valid captain is kept; an invalid one is replaced by some index below the player count |
| SliceGame.Game.Choose | internal/game/mission.go:118-149 | the wrong number of IDs gives ErrMinAssignees; with the right number, any invalid ID gives ErrInvalidPlayer and nothing is assigned; otherwise exactly this mission's assignees become the IDs in order and the phase completes |
| SliceGame.ZeroPlayerNeverChosen | internal/game/mission.go:133-139 | an ID no player has looks up an invalid player, so choose refuses it |
| SliceGame.AfterVote | internal/game/mission.go:154-186 | the intended vote: the voter's ID joins this mission's accept or decline list, and no other mission, round or list changes |
| SliceGame.AfterVoteAsWritten | internal/game/mission.go:155-170 | the vote as written: the last player's ID is recorded whoever votes |
| SliceGame.Game.Vote | internal/game/mission.go:154-186 | the rounds become AfterVote with the voter's ID; the phase completes exactly when the votes number the players |
| SliceGame.Game.VoteAsWritten | internal/game/mission.go:154-186 | whoever votes, the rounds become AfterVoteAsWritten, with the same completion rule |
| SliceGame.VoteRecordsLastPlayer | internal/game/mission.go:155-170 | for any voter whose ID differs from the last player's, the vote as written is not the intended one: the ID it records is the last player's, not the voter's |
| SliceGame.Game.EndMission | internal/game/mission.go:92-107 | accepted exactly when the mission has a majority; after a rejection the captain moves to the position after the starting captain, wrapping to 0 |
| SliceGame.RotationSteps | internal/game/mission.go:99-107 | with distinct IDs the captain moves to the next position, and from the last back to the first |
| SliceGame.RotationUnknownCaptain | internal/game/mission.go:99-107 | a captain not found in the player list rotates to position 0 |
| MapGame.RolesAlong | internal/game/game.go:92-209 | the roles of the players named by the ID list, in its order |
| MapGame.MaskRole | internal/game/game.go:259-292 | the newer per-role mask; the cases are stated by MapGame.PercivalSeesTwoMerlins, MorganaSeesSpiesOnly, SpyCannotFindMerlin, MerlinMissesMorgana and MaskIterationsDiffer |
| MapGame.FirstInvalid | internal/game/round.go:231-238 | every assignee before the returned position is valid, and the one at it is not |
| MapGame.FirstInvalidPast | internal/game/round.go:231-238 | a valid assignee moves the first invalid position on |
| MapGame.FirstInvalidAt | internal/game/round.go:231-238 | the first invalid assignee met is the first invalid position |
| MapGame.RoundsFor | internal/game/game.go:43-48 | the table row for 5 to 8 players, Go's zero rounds otherwise |
| MapGame.Registered | internal/game/round.go:231-274 | one decide registration per named assignee, capturing that player |
| MapGame.RegisteredStep | internal/game/round.go:231-238 | each registration extends the registered map by one player |
| MapGame.DecideOutcome | internal/game/round.go:245-254 | a failure is recorded exactly for a Spy or Morgana who sends failure |
| MapGame.Game.constructor | internal/game/game.go:18-53 | the Game literal: no players, an empty order, zero rounds, no captain |
| MapGame.Game.NewGame | internal/game/game.go:18-53 | ErrPercivalNotAvalon first, then ErrInvalidClients outside 5..10, and a game exactly otherwise; when the clients are keyed by their own IDs, the players are keyed the same way, playerids has no duplicates, the rounds are the table row for min(N, 8), and the roles along playerids are the layout |
| MapGame.Game.AddPlayers | internal/game/game.go:37-41 | one player per connection, keyed by its client's ID, appended to the order in map order |
| MapGame.Game.AssignRoles | internal/game/game.go:92-209 | playerids is rearranged in place and stays a permutation of itself; only roles change; with distinct IDs the roles along it are the layout |
| MapGame.Game.DrawSpecials | internal/game/game.go:142-208 | the specials drawn are all of them, or a prefix cut short by an empty pool |
| MapGame.Game.DrawSpies | internal/game/game.go:97-140 | SpyCount(N) spies are drawn and the pool made Resistance |
| MapGame.Game.FillResistance | internal/game/game.go:134-140 | every player the pool names becomes Resistance and playerids is unchanged |
| MapGame.Game.DrawMerlin | internal/game/game.go:142-156 | for Avalon, Merlin is drawn unless the pool is empty |
| MapGame.Game.DrawPercival | internal/game/game.go:158-175 | Percival is drawn when the mask has the Percival bit, unless the pool is empty |
| MapGame.Game.DrawMorgana | internal/game/game.go:177-208 | with the Morgana bit, a missing Percival then Morgana are drawn, stopping at an empty pool |
| MapGame.Game.DrawSpecial | internal/game/game.go:142-208 | one pool entry receives the special and leaves the pool |
| MapGame.Game.Draw | internal/game/game.go:109-132 | one random pool entry receives the role and is swapped to the end of the pool inside playerids |
| MapGame.DrawKeeps | internal/game/game.go:109-132 | one draw keeps the draw state |
| MapGame.ResistanceKeeps | internal/game/game.go:134-140 | making a pool entry Resistance keeps the draw state |
| MapGame.SpecialKeeps | internal/game/game.go:142-208 | a special draw puts the special in front of the spies |
| MapGame.Conclude | internal/game/game.go:92-209 | after the draws every player stays keyed and named, and with distinct IDs the roles along playerids are the layout |
| MapGame.KeyedKept | internal/game/game.go:109-117 | the draws keep every player keyed by its ID and named in playerids |
| MapGame.Finish | internal/game/game.go:92-209 | with distinct IDs, the roles along playerids are the arrangement |
| MapGame.DrawsArrange | internal/game/game.go:92-209 | the draw state spelled out equals the arrangement |
| MapGame.NewGameRoleCounts | internal/game/game.go:92-209 | a new game with distinct IDs has exactly the table's role counts |
| MapGame.Game.SetCaptain | internal/game/game.go:316-324 | the captain becomes the ID of some player |
| MapGame.Game.MaskPlayers | internal/game/game.go:248-300 | the fresh map holds only valid players, the viewer's own entry as it is and every other masked, and all players when all are valid |
| MapGame.Game.Send | internal/game/game.go:243-314 | exactly the valid players receive a view, each a possible mask outcome for that viewer; the game is not changed |
| MapGame.PercivalSeesTwoMerlins | internal/game/game.go:259-292 | Percival sees Merlin and Morgana both as Merlin, and everyone else as Resistance |
| MapGame.MorganaSeesSpiesOnly | internal/game/game.go:259-292 | Morgana sees exactly the spies as spies, and nobody as Merlin |
| MapGame.SpyCannotFindMerlin | internal/game/game.go:259-292 | a spy sees Merlin, Percival and Resistance alike |
| MapGame.MerlinMissesMorgana | internal/game/game.go:259-292 | Merlin sees the plain spies, but Morgana shows as Resistance |
| MapGame.MaskIterationsDiffer | internal/game/game.go:259-292 | the newer mask shows Merlin to Percival and hides Merlin from Morgana |
| MapGame.OwnEntryUnmasked | internal/game/game.go:259-292 | the viewer's own entry is never masked |
| MapGame.ResistanceViewerSeesNoRoles | internal/game/game.go:259-292 | a Resistance viewer sees every other listed player as Resistance |
| MapGame.AllValidAllListed | internal/game/game.go:248-300 | when every player is valid, every viewer sees every player |
| MapGame.Game.StartDecidingPhase | internal/game/round.go:227-279 | registrations are added for the assignees up to the first invalid one; an error exactly when there is an invalid one |
| MapGame.Game.Decide | internal/game/round.go:241-274 | the player's ID goes to exactly one of the failure or success lists (failure only for a Spy or Morgana who says so); the registration is removed; completion exactly when the lists reach the team size |
| MapGame.Game.EndRound | internal/game/round.go:148-225 | five rejected proposals end the game unchanged; otherwise the failure count becomes the number of failure votes (as a uint8), and the game ends exactly when three rounds are lost or three won |
| LobbyModel.TypeString | internal/lobby/model.go:37-52 | the name is empty exactly for types above Trumpmode |
| LobbyModel.Validate | internal/lobby/model.go:351-359 | ErrType exactly for a type without a name |
| LobbyModel.ValidateNamedTypes | internal/lobby/model.go:351-359 | validation accepts exactly the five named types |
| LobbyModel.ClientIndex | internal/lobby/model.go:328-339 | the first position with the ID, or -1 exactly when none has it |
| LobbyModel.Without | internal/lobby/model.go:217-220 | the splice removes one copy of the entry, or nothing for -1 |
| LobbyModel.ValidIds | internal/lobby/model.go:82-132 | the IDs of the valid clients, never more than the clients |
| LobbyModel.ValidIdsSkipInvalid | internal/lobby/model.go:82-132 | an invalid client adds no ID to the comparison |
| LobbyModel.FirstIndex | internal/lobby/model.go:286-301 | the first position of the channel, or -1 exactly when absent |
| LobbyModel.LobbyGroup | internal/lobby/cmd.go:21-80 | the owner's group holds leave, get, kick and start; a member's only leave and get |
| LobbyModel.Lobby.constructor | internal/lobby/model.go:141-204 | a lobby with its ID, type and privacy, and no clients, connections, owner or subscribers |
| LobbyModel.Lobby.GetClientIndex | internal/lobby/model.go:328-339 | the loop finds the first matching position, or -1 |
| LobbyModel.Lobby.Equal | internal/lobby/model.go:82-132 | equal exactly when ID, type, privacy and client count match and the valid client IDs are the same in the same order |
| LobbyModel.Lobby.CollectValidIds | internal/lobby/model.go:96-115 | the loop collects the valid client IDs in order |
| LobbyModel.Lobby.Join | internal/lobby/model.go:141-204 | an empty ID, then a connected ID, are refused with nothing changed; otherwise the connection is recorded, the client added if not listed, the list sorted by ID, and an empty owner becomes the least connected client ID; a set owner is kept |
| LobbyModel.Lobby.SortClients | internal/lobby/model.go:173-175 | the clients are a sorted permutation of the old list |
| GoSort.Insert | internal/lobby/model.go:173-175 | inserting into a list adds exactly that element, keeping the rest |
| GoSort.SortBy | internal/lobby/model.go:173-175 | the sorted list is a permutation of the input |
| GoSort.SortBySorted | internal/lobby/model.go:173-175 | the sorted list is in ascending order of the key |
| GoSort.InsertSorted | internal/lobby/model.go:173-175 | insertion into a sorted list keeps it sorted |
| GoSort.SortedHeadLeast | internal/lobby/model.go:173-179 | the first element of a sorted list has the least key |
| GoSort.BelowIrreflexive | internal/lobby/model.go:174 | Go's string < never holds between a string and itself |
| GoSort.BelowTransitive | internal/lobby/model.go:174 | Go's string < is transitive |
| GoSort.BelowTotal | internal/lobby/model.go:171-174 | of two different strings one is below the other |
| GoSort.BelowAsymmetric | internal/lobby/model.go:174 | a < b and b < a never both hold |
| GoSort.NotBelowTransitive | internal/lobby/model.go:174 | "not below" (>=) is transitive |
| LobbyModel.Lobby.LeastConnClientId | internal/lobby/model.go:167-179 | the least of the connected client IDs |
| LobbyModel.Lobby.ConnIds | internal/lobby/model.go:167-171 | each connection's client ID, one per connection |
| LobbyModel.Lobby.Leave | internal/lobby/model.go:207-262 | an empty ID is refused; otherwise the client leaves the list even when not connected; a connected ID is deleted and the least remaining connection's lobby commands are renewed; an unconnected one gives Client404 |
| LobbyModel.Lobby.Unlist | internal/lobby/model.go:217-220 | the first client with the ID leaves the list and the others keep their order |
| LobbyModel.Lobby.RenewFirst | internal/lobby/model.go:231-245 | the connection under the least ID gets its lobby commands renewed |
| LobbyModel.Lobby.LeastKey | internal/lobby/model.go:231-240 | the least connected ID |
| LobbyModel.Lobby.ConnKeys | internal/lobby/model.go:231-236 | the connected IDs, one each |
| LobbyModel.Lobby.AddCommands | internal/lobby/cmd.go:14-84 | the connection's table becomes LobbyCommands: unchanged for an invalid client, otherwise the lobby group dropped and given back by role when the lobby has clients |
| LobbyModel.LobbyCommands | internal/lobby/cmd.go:14-84 | addCommands on a table: an invalid client keeps it, otherwise the lobby group is dropped and given back with owner commands for Clients[0] when the lobby has clients; LobbyModel.MemberCommands, OwnerCommands and EmptyLobbyCommands state the cases |
| LobbyModel.MemberCommands | internal/lobby/cmd.go:21-33 | a member other than Clients[0] ends with exactly leave and get, other groups untouched |
| LobbyModel.OwnerCommands | internal/lobby/cmd.go:35-82 | Clients[0] additionally gets kick and start |
| LobbyModel.EmptyLobbyCommands | internal/lobby/cmd.go:15-33 | with no clients no lobby group is left; an invalid client keeps its table |
| LobbyModel.Lobby.Kick | internal/lobby/cmd.go:36-50 | an empty target does nothing; an unlisted or invalid target is an error with nothing changed; otherwise the call succeeds whatever Leave reports: the target leaves the list, only its own connection entry is deleted, and when it was connected the least remaining connection's lobby commands are renewed; no command table changes when nobody was removed |
| LobbyModel.Lobby.SubscribeInsert | internal/lobby/model.go:265-273 | exactly one new channel is appended |
| LobbyModel.Lobby.SubscribeRemove | internal/lobby/model.go:276-284 | exactly one new channel is appended |
| LobbyModel.Lobby.RemoveSubscribeInsert | internal/lobby/model.go:303-305 | the insert list loses the channel by swap and truncate |
| LobbyModel.Lobby.RemoveSubscribeRemove | internal/lobby/model.go:307-309 | the remove list loses the channel by swap and truncate |
| LobbyModel.Lobby.RemoveSubscribe | internal/lobby/model.go:286-301 | the loop moves the last entry into the first match's slot and drops the last slot |
| LobbyModel.RemoveSwapRemovesOne | internal/lobby/model.go:286-301 | removal takes out exactly one copy of a present channel and leaves an absent one's list unchanged |
| LobbyModel.RemoveSwap | internal/lobby/model.go:286-301 | removesubscribe: the first match takes the last element's place and the list shrinks by one; LobbyModel.RemoveSwapRemovesOne states the multiset effect |
| LobbyModel.SwapTruncate | internal/lobby/model.go:291-297 | swap-and-truncate removes one copy of the swapped-out entry |
| LobbyModel.SubscribeThenRemove | internal/lobby/model.go:265-301 | subscribing a new channel and removing it gives the old list back |
| LobbyConfig.Validate | internal/lobby/config.go:26-36 | ErrMaxClientZero exactly when the client bound is not positive; ErrIDLengthZero exactly when it is but the ID length is not; nil exactly when both are positive |
| LobbyConfig.DefaultConfigValid | internal/lobby/config.go:16-19 | the default configuration (4, 10) is accepted |
| LobbyService.Nines | internal/lobby/service.go:56-63 | IDLen nines: the largest IDLen-digit number, 10^IDLen - 1 |
| LobbyService.MinString | internal/lobby/service.go:56-63 | a one and IDLen-1 zeros: the smallest IDLen-digit number, 10^(IDLen-1) |
| LobbyService.Candidates | internal/lobby/service.go:95-99 | the decimal ID of min + pick, for each pick |
| LobbyService.FirstFree | internal/lobby/service.go:95-105 | the first candidate the store does not have, every earlier one taken, or -1 when all are taken |
| LobbyService.FirstFreeAt | internal/lobby/service.go:95-105 | a free candidate after taken ones is the first free one |
| LobbyService.FirstFreeNone | internal/lobby/service.go:95-105 | when every candidate is taken there is none free |
| LobbyService.Service.constructor | internal/lobby/service.go:77-83 | the service holds the store, the configuration and the bounds |
| LobbyService.Service.NewService | internal/lobby/service.go:39-84 | an invalid store, then an invalid configuration, are refused; the bounds fail to parse exactly past 18 digits; on success min = 10^(IDLen-1) and max = 10^IDLen - 1 |
| LobbyService.Service.BoundStrings | internal/lobby/service.go:50-63 | the loop builds the nines and the one-and-zeros strings |
| LobbyService.Int64Digits | internal/lobby/service.go:65-75 | the bounds fit an int64 exactly when IDLen is at most 18 |
| LobbyService.Pow10Monotone | internal/lobby/service.go:65-75 | powers of ten grow with the exponent |
| LobbyService.Pow10Add | internal/lobby/service.go:65-75 | 10^(a+b) = 10^a · 10^b |
| LobbyService.IdLength | internal/lobby/service.go:96-98 | min + r with r in [0, max - min) has exactly IDLen digits |
| LobbyService.ChosenIdPassesLengthCheck | internal/lobby/service.go:96-157 | every ID CreateLobby picks passes GetLobbyByID's length check |
| LobbyService.Service.CreateLobby | internal/lobby/service.go:87-117 | nil is refused; otherwise the first free pick becomes the ID, in [min, max) with IDLen digits; an invalid type is refused before the store; otherwise the store gains exactly that lobby |
| LobbyService.Service.PickFree | internal/lobby/service.go:95-105 | the retry loop stops at the first candidate the store lookup fails for |
| LobbyService.Service.GetLobbyByID | internal/lobby/service.go:146-157 | an ID of the wrong length is refused without asking the store; otherwise the store's lobby or its error |
| Conn.Merge | internal/conn/conn.go:116-131 | the group's commands gain the new names, new ones winning; a new group is stored as given |
| Conn.LookupAfterMerge | internal/conn/conn.go:116-131 | after a merge, a new name finds its new callback and every other lookup is unchanged |
| Conn.MergeIdempotent | internal/conn/conn.go:116-131 | adding the same commands twice is adding them once |
| Conn.MergeCommands | internal/conn/conn.go:121-126 | the copy loop gives the old commands overridden by the new |
| Conn.RemoveNames | internal/conn/conn.go:158-167 | the listed names leave the group; an absent group is left alone |
| Conn.LookupAfterRemoveNames | internal/conn/conn.go:158-167 | exactly the listed names of that group stop resolving |
| Conn.AddThenRemoveNames | internal/conn/conn.go:116-167 | removing every name a new group was added with leaves that group empty but present |
| Conn.DeleteNames | internal/conn/conn.go:161-165 | the delete loop removes exactly the listed names |
| Conn.LookupAfterRemoveGroup | internal/conn/conn.go:151-156 | removing a group empties exactly its lookups |
| Conn.Execute | internal/conn/conn.go:133-148 | a missing group, then a missing name, are errors; otherwise exactly the registered callback runs |
| Conn.Dispatch | internal/conn/conn.go:273-294 | a message runs a callback exactly when its group and name are non-empty and registered |
| Conn.DispatchIsGuardedExecute | internal/conn/conn.go:133-294 | dispatch agrees with ExecuteCommand on non-empty names and runs nothing otherwise |
| Conn.SendChannel.constructor | internal/conn/conn.go:50-54 | an open, empty send channel |
| Conn.SendChannel.SafeSend | internal/conn/conn.go:56-60 | bytes are queued only while the channel is open |
| Conn.SendChannel.Close | internal/conn/conn.go:62-69 | the channel is closed exactly once however often close runs |
| Conn.SendChannel.IsClosed | internal/conn/conn.go:71-75 | reports the closed flag |
| Conn.Connection.constructor | internal/conn/conn.go:87-96 | a connection with an empty table and an open send channel |
| Conn.Connection.AddCommand | internal/conn/conn.go:116-131 | the table becomes the merge |
| Conn.Connection.ExecuteCommand | internal/conn/conn.go:133-148 | the outcome is Execute on the current table |
| Conn.Connection.RemoveCommandsByGroup | internal/conn/conn.go:151-156 | only that group is removed |
| Conn.Connection.RemoveCommandsByNames | internal/conn/conn.go:158-167 | only the listed names of that group are removed |
| Conn.Connection.Destroy | internal/conn/conn.go:170-181 | the network connection closes; every done subscriber is notified only if the send channel was still open; the channel ends closed exactly once |
| Conn.Connection.GetDone | internal/conn/conn.go:201-211 | exactly one new subscriber is appended |
| Conn.Connection.WriteBytes | internal/conn/conn.go:196-198 | bytes are queued only while the send channel is open |
| Conn.Connection.Receive | internal/conn/conn.go:273-294 | the read loop runs exactly the dispatched callback |
| Conn.Registry.constructor | internal/conn/conn.go:79-80 | an empty registry |
| Conn.Registry.NewConn | internal/conn/conn.go:87-113 | an old connection for the client's ID gets a done subscriber and is destroyed; the registry then maps the ID to the fresh connection |
| ConnMock.MockConn.constructor | internal/conn/mock.go:35-47 | an empty table, no subscribers, nothing written |
| ConnMock.MockConn.AddCommand | internal/conn/mock.go:95-110 | the table becomes the merge |
| ConnMock.MockConn.ExecuteCommand | internal/conn/mock.go:112-127 | the outcome is Execute on the current table |
| ConnMock.MockConn.RemoveCommandsByGroup | internal/conn/mock.go:129-134 | only that group is removed |
| ConnMock.MockConn.RemoveCommandsByNames | internal/conn/mock.go:136-145 | only the listed names of that group are removed |
| ConnMock.MockConn.WriteBytes | internal/conn/mock.go:159-161 | bytes always go to the pipe, with no closed check |
| ConnMock.MockConn.GetDone | internal/conn/mock.go:163-173 | exactly one new subscriber is appended |
| ConnMock.MockConn.Destroy | internal/conn/mock.go:175-184 | every subscriber is notified on every call, and the pipe is closed again |
| ConnMock.MockConn.Receive | internal/conn/mock.go:70-88 | the same dispatch rule as the real connection |
| LobbyRepo.LobbyRepository.constructor | internal/repo/plain/lobby.go:16-20 | an empty, non-nil map |
| LobbyRepo.LobbyRepository.IsValid | internal/repo/plain/lobby.go:107-113 | valid exactly when the map is not nil |
| LobbyRepo.LobbyRepository.Create | internal/repo/plain/lobby.go:22-42 | a nil map, then a taken ID, then an invalid type, are refused with the store unchanged; otherwise only that key is added |
| LobbyRepo.LobbyRepository.GetByID | internal/repo/plain/lobby.go:44-55 | the stored lobby, or nil with ErrLobbyInvalid or ErrLobby404 |
| LobbyRepo.LobbyRepository.GetAll | internal/repo/plain/lobby.go:57-68 | every stored lobby exactly once |
| LobbyRepo.LobbyRepository.Update | internal/repo/plain/lobby.go:70-88 | checks only (nil map, missing ID, then the type); the store is never written |
| LobbyRepo.LobbyRepository.Remove | internal/repo/plain/lobby.go:90-105 | a nil map or a missing ID is an error; otherwise only that key is deleted |
| ClientRepo.ClientRepository.constructor | internal/repo/plain/client.go:15-21 | an empty, non-nil map |
| ClientRepo.ClientRepository.IsValid | internal/repo/plain/client.go:103-109 | valid exactly when the map is not nil |
| ClientRepo.ClientRepository.Create | internal/repo/plain/client.go:23-38 | a nil map or a taken ID is refused with the store unchanged; otherwise the client is stored under its ID, unvalidated |
| ClientRepo.ClientRepository.GetByID | internal/repo/plain/client.go:40-52 | the stored client, or the zero Client with ErrClientInvalid or ErrClient404 |
| ClientRepo.ClientRepository.GetAll | internal/repo/plain/client.go:54-67 | every stored client exactly once |
| ClientRepo.AfterUpdateAsWritten | internal/repo/plain/client.go:69-84 | as written, the store after Update equals the store before |
| ClientRepo.ClientRepository.UpdateAsWritten | internal/repo/plain/client.go:69-84 | as written: a nil map or a missing ID is an error, and the store never changes |
| ClientRepo.AfterUpdate | internal/repo/plain/client.go:69-84 | as intended: the present ID gets the new client and every other entry is kept |
| ClientRepo.ClientRepository.Update | internal/repo/plain/client.go:69-84 | as intended: the same errors, and a present ID gets the new client |
| ClientRepo.UpdateAsWrittenLosesValue | internal/repo/plain/client.go:77 | a present client updated to a different value keeps the old value as written and gets the new one as intended |
| ClientRepo.UpdateAsWrittenExample | internal/repo/plain/client.go:77 | a concrete client whose new lobby ID is lost by Update as written |
| ClientRepo.ClientRepository.Remove | internal/repo/plain/client.go:86-101 | a nil map or a missing ID is an error; otherwise only that key is deleted |
| Discord.DefaultAvatarIndex | internal/discord/model.go:45-46 | the default slot lies strictly between -5 and 5 |
| Discord.IsValid | internal/discord/model.go:30-32 | a user is valid when it differs from the zero User |
| Discord.GetEmail | internal/discord/model.go:25-27 | the user's email |
| Discord.AvatarExt | internal/discord/model.go:37-41 | gif when the avatar hash starts with 'a', png otherwise; Discord.UploadedAvatar states it in the URL |
| Discord.GetAvatar | internal/discord/model.go:35-50 | the URL always starts with the CDN base |
| Discord.UploadedAvatar | internal/discord/model.go:37-43 | with an avatar hash the URL is avatars/<id>/<hash>.<ext>, gif exactly when the hash starts with 'a' |
| Discord.DefaultAvatarOfNumber | internal/discord/model.go:44-47 | a decimal discriminator d selects embed/avatars/<d mod 5>.png |
| Discord.DefaultAvatarOfGarbage | internal/discord/model.go:45-46 | a discriminator that does not parse selects slot 0 |
| Discord.DefaultAvatarOfNegative | internal/discord/model.go:45-46 | a negative discriminator selects a non-positive slot, since Go's remainder truncates |
| GoStrconv.Digits | internal/lobby/service.go:98 | the decimal rendering is a digit string whose value is the number, with no leading zero |
| GoStrconv.Itoa | internal/lobby/service.go:107 | the rendering is never empty |
| GoStrconv.ScanUint | internal/lobby/service.go:65-75 | the digit scan ends parsed within 64 bits, at the range bound, or at 0 on a syntax error |
| GoStrconv.Atoi | internal/lobby/service.go:65-75 | the result always lies in the int64 range, and is 0 on a syntax error |
| GoStrconv.GoRem | internal/discord/model.go:46 | Go's remainder takes the dividend's sign and lies strictly between -b and b |
| GoStrconv.ValueHead | internal/lobby/service.go:65-75 | a digit string's value splits at its leading digit |
| GoStrconv.ValueBound | internal/lobby/service.go:65-75 | k digits stay below 10^k |
| GoStrconv.ScanUintDigits | internal/lobby/service.go:65-75 | scanning digits whose value fits 64 bits yields that value |
| GoStrconv.ScanUintOverflow | internal/lobby/service.go:65-75 | scanning digits whose value does not fit ends in a range error |
| GoStrconv.ParseUintDigits | internal/lobby/service.go:65-75 | an unsigned parse of digits gives their value, or a range error past 64 bits |
| GoStrconv.AtoiDigits | internal/lobby/service.go:65-75 | Atoi of digits gives their value when it fits an int64, a range error otherwise |
| GoStrconv.AtoiItoa | internal/discord/model.go:45-46 | Atoi reads back what Itoa writes, for every int64 |
| GoStrconv.DigitsLength | internal/lobby/service.go:96-98 | a number in [10^(k-1), 10^k) has exactly k digits |
| Logger.Calc | internal/logger/logger.go:88-99 | a string that fits is padded with spaces to exactly the width; a longer one is cut to width-4 characters plus "..." for widths of 4 and more; a non-positive width keeps it; the out-of-range slice (widths 1 to 3) is the only failure |
| Logger.CalcFits | internal/logger/logger.go:88-99 | for widths of 4 and more calc never fails and never exceeds the width |
| Logger.TrimSpaces | internal/logger/logger.go:94-96 | the string without trailing spaces is a prefix ending in a non-space |
| Logger.TrimPadded | internal/logger/logger.go:94-96 | padding with spaces does not change the trimmed string |
| Logger.CalcPadRoundTrip | internal/logger/logger.go:94-96 | padding a string that fits changes nothing once trailing spaces are trimmed again |
| Logger.Log.constructor | internal/logger/logger.go:54-75 | prefix and suffix are set through calc at their widths, and the type-name width is the widest name |
| Logger.Log.WidestName | internal/logger/logger.go:68-72 | the running maximum is the length of the longest name, or 0 for none |
| Logger.DefaultFormatWidth | internal/logger/config.go:37-59 | the widest default type name, "WARNING", has 7 characters |
| Logger.Log.SetPrefix | internal/logger/logger.go:101-103 | the prefix becomes calc of the string at the prefix width; nothing else changes |
| Logger.Log.SetSuffix | internal/logger/logger.go:109-111 | the suffix becomes calc of the string at the suffix width; nothing else changes |
| Logger.Log.GetPrefix | internal/logger/logger.go:105-107 | the stored prefix |
| Logger.Log.GetSuffix | internal/logger/logger.go:113-115 | the stored suffix |
| Logger.Log.Replicate | internal/logger/logger.go:154-158 | a fresh logger with the same state, so later changes to either do not reach the other |
| Logger.Log.Copy | internal/logger/logger.go:154-158 | the copy's state equals the original's |

## Left out

- Websocket I/O is not modelled. This covers the read and write goroutines, framing, pings, deadlines, JSON encoding and decoding, `WriteMessage`, `Broadcast`, `Lobby.Send`, `Client.Send` and the game's message writes. Payloads are taken as already decoded. Join and Leave do not return the error of the final `l.Send`. A malformed payload's JSON error in a callback is not modelled.
- Goroutines, channels, contexts and mutexes are not modelled, because they are concurrency:
  - the lobby connection watcher (internal/lobby/model.go:184-192);
  - the subscriber notifications (internal/lobby/model.go:163-165, 247-249);
  - CreateLobby's empty-lobby remover and its logger suffix (internal/lobby/service.go:119-140);
  - the phase timeouts, and runMission/runRound orchestration beyond the steps modelled;
  - the lock order.
- The `decide` callback removes its own registration through a deferred call. It does so while the read loop holds the connection's mutex, which would deadlock. The model performs the removal directly.
- In NewConn, the old connection's Destroy sends on an unbuffered done channel that nobody reads. The model records the notification and does not model the blocking.
- `rand.Seed`/`time.Now` are left out. Random picks are nondeterministic in-range choices.
- `CreateLobby` retries forever when every ID is taken. The model takes the picks as a finite sequence and reports `ErrPicksExhausted` when they run out.
- `Lobby.Leave`'s check of an empty connection map right after the deletion is unreachable and is omitted. So is deleteIndex's range guard, which the callers never trip.
- `Lobby.Leave` is modelled by client ID. `addCommands` receives the client and its connection, where the source passes a connection. `kick` calls `l.GetClient`, which the source does not define. It is modelled as the list's first client with that ID, or the zero Client.
- `Common()` on a lobby type is modelled as a comparison with the Avalon type.
- MessageStruct maps are values in the model, so the in-place aliasing of a group's map shared between tables is not captured.
- `gConfig`, the package-level service configuration, is held as fields of the service. The repository-wrapping methods GetAllLobbies, UpdateLobby and RemoveLobby are not modelled.
- Logger colours, writers and timestamps are not modelled. `Logger.Calc` returns None where the source panics on an out-of-range slice. Logger.Log.SetPrefix, Logger.Log.SetSuffix and the logger constructor therefore require a width under which calc succeeds.
- SliceGame.Game.Captain: requires a non-negative captain index, because a negative index would panic in the source.
- SliceGame.Game.Vote: takes the voter as an index into the player list, where the source captures it in a closure. The voting registration loop is not modelled separately.
- MapGame.Game.SetCaptain: states only that the captain is some player's ID, because the source picks one at random.
- MapGame.Game.AssignRoles: the layout of roles is proved only when the player IDs are distinct. The source keys players by client ID, so the IDs are always distinct there.
- LobbyModel.Lobby.SortClients: states sorted-and-permutation only, because Go's sort.Slice is not stable and may order equal IDs either way.
- Client.Conn is an opaque handle: only whether it is nil matters to the core.
- SliceGame.Game.StartMission: requires a non-negative captain index and at least one player. With no players the source's `rand.Intn(len(g.Players))` panics, and a negative captain index panics in GetCaptain.
- MapGame.Game.SetCaptain: requires at least one player, because `rand.Intn(0)` panics in the source.
- MapGame.Game.StartDecidingPhase: requires every assignee to be a key of the player map. For an absent assignee the source calls AddCommand on the zero Player's nil connection, which panics.
- Round and mission indices are required to be below 5 wherever the source indexes its fixed five-entry arrays, because a larger index panics there.
- Strings are sequences of characters, but Go's `len`, slicing and indexing count bytes. The model agrees with the source on ASCII text only. For example, "é123" is 5 bytes in Go but 4 characters here.
- Logger.Calc: pads and cuts by characters where the source pads and cuts by bytes, so a multi-byte name is padded and cut differently.
- LobbyService.Service.GetLobbyByID: compares the ID's character count with IDLen where the source compares its byte count. With IDLen 5, "é123" passes the length check in Go and reaches the store, but the model returns ErrID. IDs made by CreateLobby are ASCII digits, so the two agree on them.
- Discord.AvatarExt tests the first character where the source tests the first byte. The result is the same, because the first byte of a multi-byte character is never 'a'.
- runRound's formatting of assignee names for messages is not modelled.
- HTTP routes, OAuth2, sessions, configuration loading, the client service wrapper and main.go are outside this model.

## Findings

| source | as written | input that shows it | evidently intended | confidence | as-written member | corrected member |
|---|---|---|---|---|---|---|
| internal/game/mission.go:155-170 | the `vote` closure reads the range variable `v`. Before Go 1.22 all iterations share it, so after the loop it holds the last player, and every vote is recorded under the last player's ID | two players p0 and p1; p0 sends an accepting vote; Accept gains p1's ID | the vote is recorded under the ID of the player whose connection sent it | medium, not executed | SliceGame.Game.VoteAsWritten, SliceGame.AfterVoteAsWritten, SliceGame.VoteRecordsLastPlayer | SliceGame.Game.Vote, SliceGame.AfterVote |
| internal/repo/plain/client.go:69-84 | `c, ok := r.db[id]` at line 77 rebinds the parameter `c` to the stored client, so the write-back stores the old value and Update never changes the store | a store holding client "1" with lobby ID ""; Update("1", same client with lobby ID "1234"); the store still has lobby ID "" | the present client is replaced by the new value | high, not executed | ClientRepo.ClientRepository.UpdateAsWritten, ClientRepo.AfterUpdateAsWritten, ClientRepo.UpdateAsWrittenLosesValue, ClientRepo.UpdateAsWrittenExample | ClientRepo.ClientRepository.Update, ClientRepo.AfterUpdate |
