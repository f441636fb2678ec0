# Vantage Sports, verified

Dafny models of the parts of the Vantage Sports services in which the code keeps promises that no
single function shows, and proofs of those promises. `dafny verify dfyconfig.toml` checks everything.

- **Matchmaking** (`Ranks`, `Positions`, `Subsequences`, `Matchmaking`, `SliceAliasing`): the search for a
  group of queued players who can all be given a position and accept each other. `Positions` proves the
  backtracking sound and complete. `Matchmaking` runs the search on player objects, whose position lists it
  rewrites in place, and proves that it finds a largest group headed by the longest-waiting player, judged
  by what the players asked for before the search began. That result takes slices as values. The program's
  slices share backing arrays, and the comment above `bestMatchFor` (match.go:148-152) does not hold of
  them: `SliceAliasing` models the arrays and says exactly when it does.
- **The queue server** (`QueueProtocol`, `QueueServer`, `Answers`): the state behind the lock. `QueueProtocol` is a
  transition system whose atomic steps are the sections that hold the lock; rsvps and timeout loops are
  threads that interleave between them, and an rsvp is three steps, since it lets go of the lock before it
  looks whether the match is made. `QueueServer` is the class with its maps, and each method is proved to
  do the step. `Answers` follows what is said over whole runs, in whatever order the goroutines go on, and
  says whom a match gathers in the end. Players of a made match stay queued until they disconnect while their invitations are
  already released, so they may be invited again; nothing here says otherwise.
- **Event-stream analysis** (`History`, `Sight`, `TeamFights`, `FightRuns`, `FightFailures`,
  `FightAnalysis`, `FightFigures`, `FightMemory`, `NilPositions`, `FightOrder`, `FightsOutOfOrder`,
  `FightReasons`, `TimeManagement`, `Activities`, `AdvancedStats`, `Buddies`, `Roles`, `TeamComp`): the state machines folded over a match's events. Floats
  are reals. Maps whose iteration order Go leaves open are met in an arbitrary order (`MapOrder`), so every
  result stated holds for all orders. `TeamFights` has the steps of the team fight analysis and the class
  that takes them; a step that reads through nil, where the program fails, has no next view. `FightRuns`
  folds the steps over a match, `FightFailures`, `FightAnalysis` and `NilPositions` say when the program
  fails, and `FightOrder` when the recorded fights are in order. `FightFigures` proves that the figures of a
  fight are sums over the events since its opening, and `FightMemory` what the newest state and the damage
  sessions say of a match. `AdvancedStats` hands the fights to the timeline, and `Activities` says which
  moments of it the events of the match explain.
- **Wards** (`Wards`): the greedy pairing of wards and casts, with its swaps in an array.
- **Billing** (`LolUsers`, `Billing`): receipts, charges and balances under failures and retries. A failed
  write, commit or request may have happened all the same.
- **Goals** (`Goals`), **replay download** (`ReplayDownload`) and **dead time** (`DeathWindows`).

`Basics`, `Wrappers`, `Teams`, `Decimal` and `MapOrder` are shared.

What the proofs turned up about the code, with concrete inputs and exact conditions:

- With four viable players found early and more candidates behind them, a later append overwrites the
  fourth player, and the search may return no match although there is one
  (`SliceAliasing.LateStrangerLosesEveryMatch`). The documented maximality holds of a queue exactly when the
  largest size is not four or some viable four ends with its last player
  (`SliceAliasing.MadeUnlessFourOverwritten`).
- Two invitees with the same name and region up to letter case share a key, and their match stays pending
  for good (`QueueProtocol.SharedKeyIsReached`, `QueueProtocol.SharedKeyStaysPending`). Counting answers is
  right exactly when the keys are distinct (`QueueProtocol.KeysCounted`).
- A fight that starts after the beginning of the last frame never enters the timeline
  (time_management.go:189-226; `TimeManagement.LateFightIsLost`, `TimeManagement.LateFightsAreLost`).
- A fight begins with the damage session of its trigger (team_fights.go:499), which may have begun before
  the fight recorded before it. The fights are then handed to the timeline out of order
  (advanced_stats.go:276, 296), the earlier one ends before it begins and is not reported
  (`AdvancedStats.FirstFightIsLost`). They are out of order exactly when a fight opened whose trigger was
  first hit before the last fight began, or a fight was closed that everybody in it was last hit before
  (`AdvancedStats.FightsAreOrderedExactly`).
- Damage by a turret or a monster that finds no state to be noted in dereferences nil (team_fights.go:379).
  A state is found once some report comes a quarter of a second or more after the first one, of whichever
  player, or once all ten players have been reported (`FightFailures.FindsExactly`,
  `NilPositions.TurretHitsTooEarly`).
- An entry for a position may be nil long after that, and measuring a distance to it dereferences nil
  (team_fights.go:198). `FightFailures.FailsExactly` says when the analysis of a match fails,
  `NilPositions.OrderedFailsExactly` spells it out for events in order, and `NilPositions.OnePlayerIsEnough`
  is a match of three events. If all ten players are reported before any later report comes, only damage of
  turrets and monsters before that can make it fail (`FightAnalysis.CompleteFailsExactly`).
- The receipt is stored before the charge. When the charge is refused, a retry finds the receipt and the
  match is analysed for free (`Billing.AnalysedForNothing`). Nobody pays twice, and somebody served has paid
  exactly when the attempt that stored his receipt also got its adjustment through, that is, unless
  something outside failed in it, when his row could bear the cost at that moment
  (`Billing.DispatchHandler.Serve`, `Billing.PaidExactly`).
- A goals message that fails between its updates, or among its deletions, is handled again without deleting
  everything that an uninterrupted attempt deletes (`Goals.FailedDeletionIsForgotten`).
  `Goals.RetryIsComplete` says exactly when it does.
- A failed write of a chunk leaves its flag set, so the same state would not try again; the callers load a
  fresh state from the listing for every run, and `ReplayDownload.Download` is about that.
- The timeout loop looks whether an invitee has answered before its own "no" is recorded, and not again
  (server.go:229-239). A "yes" that is recorded in between is overwritten, so somebody who accepted in time
  is left out (`Answers.YesIsOverwritten`). What counts is always the last answer recorded
  (`Answers.GatheredSaidYes`).
- Deaths take longer as a match goes on until 53.5 minutes and are then shorter again than they were in the
  minutes before (match_detail.go:359-367; `DeathWindows.LaterDeathsAreLonger` says exactly since when).

## Model

| member | source | states |
|---|---|---|
| Ranks.Place | lolqueue-master/match.go:31-50 | a listed name, in any letter case, gets the position it has in the list, and a name that is not listed gets the first |
| Ranks.CaseDoesNotMatter | lolqueue-master/match.go:34-43 | letters are taken for the same exactly when they differ in case at most |
| Ranks.Val | lolqueue-master/match.go:31-51 | the loops over tiers and divisions, which leave off at the first listed occurrence, compute ten times the place of the tier plus the place of the division, zero for a name that is not listed |
| Ranks.RankOrder | lolqueue-master/match.go:20-51 | rank values compare tiers first and divisions only inside a tier, so the spacing between tiers is wide enough |
| Positions.ResolvePositions | lolqueue-master/match.go:217-247 | for all fixed and desired lists: a result starts with the fixed positions, takes one entry of every desired list in order and repeats nothing but "any"; nil is returned exactly when no such choice exists, so restarting the outer loop at a later list never succeeds |
| Positions.AssignmentIsFair | lolqueue-master/match.go:217-247 | everybody gets a position he asked for, and none but "any" is given out twice |
| Positions.AssignmentPeels | lolqueue-master/match.go:232-241 | every assignment is a usable first entry followed by an assignment of the remaining lists with that entry fixed: what makes the recursion complete |
| Positions.AssignmentGrows | lolqueue-master/match.go:238-241 | conversely, an assignment found with the entry fixed assigns all lists: what makes the recursion sound |
| Positions.CollapsedAssignmentServes | lolqueue-master/match.go:184-198 | positions chosen after lists were cut down to ["any"] are valid choices for the original lists |
| Positions.RelaxAssigns | lolqueue-master/match.go:184-198 | any assignment for the original lists yields one for the cut-down lists |
| Positions.CollapseKeepsSolvability | lolqueue-master/match.go:184-193 | cutting any set of lists that contain "any" down to ["any"] in place never changes whether an assignment exists |
| Matchmaking.CriteriaSatisfied | lolqueue-master/match.go:62-76 | the loop accepts a group exactly when every invitee is in the region and inside the rank limits and the group is large enough, the player himself included |
| Matchmaking.CollapseWishes | lolqueue-master/match.go:186-191 | a list that contains "any" among others becomes just ["any"]; every other list stays as it is |
| Matchmaking.DesiredPositions | lolqueue-master/match.go:184-193 | the lists handed to the search are those of the players after all of them were cut down in place |
| Matchmaking.AllSatisfied | lolqueue-master/match.go:208-212 | every player accepts the group, judged with the criteria as they stand |
| Matchmaking.MembersAcceptEachOther | lolqueue-master/match.go:62-76 | in a viable group everybody is of the region and between the ranks that everybody asks for, and the group is large enough for everybody |
| Matchmaking.DriftKeepsViability | lolqueue-master/match.go:184-215 | a group is viable before the search exactly when it is viable after any amount of search over shared players has rewritten position lists |
| Matchmaking.IsViableMatch | lolqueue-master/match.go:179-215 | a match is returned exactly when two to five players can be given positions and accept each other; the positions returned are a valid assignment for the wishes the players had before any rewriting; only position lists change |
| Matchmaking.NoLargerGroup | lolqueue-master/match.go:148-174 | no viable order-preserving extension of the chosen players by candidates, of any size, exceeds the size computed by the recursion: the cut-off beyond ten players and the preference for extended groups lose nothing |
| Matchmaking.SomeGroupReachesMax | lolqueue-master/match.go:148-174 | the size computed by the recursion is reached by a viable extension |
| Matchmaking.BestMatchFor | lolqueue-master/match.go:148-174 | with slices as values: nil exactly when no extension is viable, otherwise a viable extension of the maximum size with a valid assignment, judged by the wishes before the search rewrote them |
| Matchmaking.Make | lolqueue-master/match.go:135-146 | with slices as values: nil exactly when nobody can head a viable group; otherwise the match is a largest one headed by the longest-waiting player who can head one |
| Matchmaking.OfferIsBest | lolqueue-master/match.go:106-146 | compared with every viable selection of the queue: no offer is made only if there is none, nobody who waits longer could head a group, and with the same head no group is larger |
| Matchmaking.OfferIsSelection | lolqueue-master/match.go:106-146 | an offered group is a selection of two to five players in queue order |
| Subsequences.ExtendsByFirst | lolqueue-master/match.go:160-161 | every proper order-preserving extension continues with one candidate and then with later candidates: the recursion meets all of them |
| Subsequences.ExtendsThroughCandidate | lolqueue-master/match.go:160-161 | every group the recursion builds is an order-preserving extension |
| SliceAliasing.Append | lolqueue-master/match.go:161 | append writes into the shared backing array while there is room and copies into an array of twice the size otherwise; the old elements are kept in both cases |
| SliceAliasing.BestMatchFor | lolqueue-master/match.go:153-174 | the search run on backing arrays, where appends overwrite each other, returns exactly what the value function `Found` says, which reads the groups when the call returns |
| SliceAliasing.FoundIsViable | lolqueue-master/match.go:170-173 | whatever the search on slices returns is viable, overwritten or not: the check on return saves soundness |
| SliceAliasing.FiveAreFound | lolqueue-master/match.go:153-174 | a result of five is found exactly when a viable group of five exists |
| SliceAliasing.FourAreFound | lolqueue-master/match.go:153-174 | while no five are viable, a result of four is found exactly when a viable four ends with the last candidate: earlier fourth entries are overwritten |
| SliceAliasing.SmallIsFound | lolqueue-master/match.go:153-174 | groups of two and three are never overwritten |
| SliceAliasing.LargestUnlessFourOverwritten | lolqueue-master/match.go:148-174 | the documented maximality holds of the slices if and only if the largest size is not four or some viable four ends with the last candidate |
| SliceAliasing.LateStrangerLosesTheMatch | lolqueue-master/match.go:148-174 | for a concrete head and queue behind him four players could play and the search on slices returns no match |
| SliceAliasing.Make | lolqueue-master/match.go:135-146 | the loop over all heads on slices returns what the value function `Made` says |
| SliceAliasing.MadeUnlessFourOverwritten | lolqueue-master/match.go:135-174 | for a whole queue of different players, the first of whom that can head a group stands at some place and whose largest group has some size: a group of that size with that head is offered if and only if the size is not four or some viable four of his ends with the last player of the queue |
| SliceAliasing.LateStrangerLosesEveryMatch | lolqueue-master/match.go:135-174 | in the concrete queue nothing is offered at all, although its first player can head a group |
| QueueProtocol.AvailableIsSub | lolqueue-master/server.go:198-205 | the players offered to the matchmaker are exactly those queued without a pending invitation, in queue order |
| QueueProtocol.RemoveSummonerFrom | lolqueue-master/server.go:67-75 | removing the first entry of a summoner leaves no entry of that summoner behind, given that none queues twice, and removes nobody else |
| QueueProtocol.InviteKeepsData | lolqueue-master/server.go:207-223 | offering a match keeps the records exact when its id is free |
| QueueProtocol.AnswerKeepsData | lolqueue-master/server.go:100-105 | an answer, however late, keeps the records exact and the answers inside the keys of the invitees |
| QueueProtocol.CheckKeepsData | lolqueue-master/server.go:116-137 | retiring a fully answered match releases exactly its invitations and keeps the records exact |
| QueueProtocol.ActivateKeepsData | lolqueue-master/server.go:156-170 | activation never queues a summoner twice |
| QueueProtocol.StepKeepsInv | lolqueue-master/server.go:34-239 | every lock-held step of every thread (connect, disconnect, activate, offer, look up, answer, check, timeout loop), in any order, keeps the invariant |
| QueueProtocol.RunsKeepInv | lolqueue-master/server.go:34-239 | the invariant holds after every run in which no match stays pending while ten million newer ones are offered |
| QueueProtocol.RunsAreSafe | lolqueue-master/server.go:44-239 | over every such run from the empty queue: nobody queues twice, nobody is invited to two pending matches, the invitations are exactly the invitees of pending matches, and a fully answered match is pending only while an rsvp has yet to check it |
| QueueProtocol.LoopFindsItsMatch | lolqueue-master/server.go:229-239 | an rsvp sent by a match's own timeout loop finds that match if it is still pending |
| QueueProtocol.EveryoneAnswered | lolqueue-master/server.go:229-239 | once the timeout loop of a pending match has finished, every invitee has answered |
| QueueProtocol.MatchesResolve | lolqueue-master/server.go:116-154 | once its timeout loop and the checks of its id are through, a match whose invitees have distinct keys is no longer pending, and only other pending matches can still hold an invitation for its players |
| QueueProtocol.KeysCounted | lolqueue-master/server.go:125-128 | comparing the number of answers with the number of invitees is right exactly when their keys are distinct |
| QueueProtocol.SharedKeyNeverResolves | lolqueue-master/server.go:105-128 | two invitees with the same name and region up to letter case: no step ever makes the match stop pending or releases its invitations |
| QueueProtocol.SharedKeyStaysPending | lolqueue-master/server.go:105-128 | nor does any further run |
| QueueProtocol.SharedKeyIsReached | lolqueue-master/server.go:156-223 | any two players with one key reach such a match in three steps from the empty queue: both queue and are offered it |
| QueueProtocol.ExactUnlessIdReused | lolqueue-master/server.go:212-223 | offering a match keeps the records exact if and only if its id is not that of a pending match |
| QueueProtocol.IdsLastTenMillionOffers | lolqueue-master/server.go:212-214 | if no match stays pending while ten million newer ones are offered, the next id is free |
| QueueProtocol.NoThreadIsStuck | lolqueue-master/server.go:78-154 | in every state that satisfies the invariant, every unfinished thread can take its next step |
| QueueServer.State.Add | lolqueue-master/server.go:34-39 | the session list of the summoner grows by the session and nothing else changes |
| QueueServer.State.Remove | lolqueue-master/server.go:44-76 | the first occurrence of the session goes, and with the last session the summoner's queue entry; a session that is not registered of a summoner without sessions changes nothing |
| QueueServer.State.Activate | lolqueue-master/server.go:156-170 | the player is queued at the back unless the summoner is queued already |
| QueueServer.State.PendingMatchFor | lolqueue-master/server.go:78-90 | some pending match that invites this very player, whichever the map iteration meets first, or none if there is none |
| QueueServer.State.RecordAnswer | lolqueue-master/server.go:100-105 | the player's key now maps to the answer he gave, on the match itself, pending or not; no other key changes |
| QueueServer.State.CheckIfMatchMade | lolqueue-master/server.go:116-154 | a pending match with as many answers as invitees is retired and its invitations are released; those of the invited are gathered whose key has a yes on record, exactly these and in order, and the match is made exactly when they are viable as they stand; otherwise nothing changes |
| QueueServer.State.Retire | lolqueue-master/server.go:129-137 | the match leaves the pending map, exactly its invitations are released, and exactly those invitees are returned, in order, whose key has a yes on record |
| QueueServer.State.LookForMatch | lolqueue-master/server.go:185-227 | with slices as values: nothing changes when nobody available can head a viable group; otherwise one match is issued to a largest group of available players headed by the longest-waiting player who can head one, with the next id |
| QueueServer.State.Issue | lolqueue-master/server.go:212-223 | the id advances by one and wraps after ten million, the match becomes pending under it and everyone invited is marked |
| QueueServer.State.Respond | lolqueue-master/server.go:92-114 | an uninterrupted rsvp is a lookup, an answer and a check of the same id: the match that was found has the given answer on record under the key of the player; without a pending match nothing happens |
| QueueServer.WithoutClient | lolqueue-master/server.go:54-59 | only the first occurrence of the session is removed and the order stays |
| QueueServer.WithoutSummoner | lolqueue-master/server.go:68-75 | only the first queue entry of the summoner is removed |
| QueueServer.NotInvited | lolqueue-master/server.go:198-205 | the queue without those who have a pending invitation, in order |
| Answers.RunsReach | lolqueue-master/server.go:92-239 | what a run from the empty queue reaches can be followed event by event |
| Answers.ThreadsRemember | lolqueue-master/server.go:92-105 | over every run: an rsvp still carries the player and the answer it was sent with, and a timeout loop only ever says no |
| Answers.LastAnswerStands | lolqueue-master/server.go:100-105 | over every run, however the goroutines interleave: what a match has on record under a key is the last answer put on it under that key, by the one who responded or by the timeout loop, and nothing if there was none |
| Answers.GatheredSaidYes | lolqueue-master/server.go:116-137 | over every timely run: of the invited, exactly those are gathered whose last recorded answer is a yes |
| Answers.NobodyIsVolunteered | lolqueue-master/server.go:116-137 | over every timely run: nobody is gathered unless somebody responded with a yes under his key, so an invitee for whom only the timeout loop answered never is |
| Answers.YesIsOverwritten | lolqueue-master/server.go:229-239 | a concrete run of nine events for any two players: the timeout loop looks at a silent invitee, then he says yes and it is recorded, then the loop records a no for him |
| TimeManagement.TimeManagementState.Activity | lolstats-master/ingest/time_management.go:262-279 | an activity extends the last frame when it can and truncates or follows it otherwise; the frames stay in order and apart |
| TimeManagement.TimeManagementState.Area | lolstats-master/ingest/time_management.go:285-306 | a change of area closes the last frame and opens one that carries the activity on; the frames stay in order and apart |
| TimeManagement.TimeManagementState.AddAttack | lolstats-master/ingest/time_management.go:93-109 | an attack starts sieging, fighting baron or dragon, or farming, in that order of precedence, and an attack on an enemy champion nothing |
| TimeManagement.TimeManagementState.AddDamage | lolstats-master/ingest/time_management.go:118-129 | damage taken from a monster or a turret starts the activity, here with monsters before turrets, and damage by a champion nothing |
| TimeManagement.TimeManagementState.AddDeath | lolstats-master/ingest/time_management.go:111-116 | only the first death report before a revival starts being dead |
| TimeManagement.TimeManagementState.AddStateUpdate | lolstats-master/ingest/time_management.go:131-139 | health ends being dead, and only then the change of area is recorded |
| TimeManagement.TimeManagementState.AddEvent | lolstats-master/ingest/time_management.go:93-143 | every event of a time-ordered stream changes the timeline as one step of its fold and keeps the frames in order and apart |
| TimeManagement.AddFightsBefore | lolstats-master/ingest/time_management.go:196-213 | the inner loop appends exactly the relevant ones of the fights not taken yet that start no later than the frame, up to the first that does not, in the area of the frame kept last, each cutting off the one before it |
| TimeManagement.AddFighting | lolstats-master/ingest/time_management.go:181-226 | first pass, for all frames and fights in any order: it computes the merge defined frame by frame, every entry cut off where the next begins |
| TimeManagement.DroppedExactly | lolstats-master/ingest/time_management.go:215-222 | with both lists in order: a frame is dropped if and only if it is no death and begins during a relevant fight after which no later relevant one and no death has begun |
| TimeManagement.KeptStays | lolstats-master/ingest/time_management.go:181-226 | what is kept when a frame comes up is a first part of what is kept in the end, and a frame that is not dropped is in it, so no death is lost |
| TimeManagement.FightsAreKeptOnce | lolstats-master/ingest/time_management.go:196-213 | the fights kept are exactly the relevant ones that were taken, each once, in order and before cutting with their own begin and end |
| TimeManagement.FightsOfTheMatch | lolstats-master/ingest/time_management.go:70-226 | of the timeline of any stream in order: the fights kept are exactly the relevant ones that were taken, each once; with fights in order these are the ones that begin no later than the last recorded frame |
| TimeManagement.ReportedFightsAreRecorded | lolstats-master/ingest/time_management.go:70-226 | every reported fight is one of the fights of the player, begins with it and ends no later |
| TimeManagement.EventsKeepOrder | lolstats-master/ingest/time_management.go:70-143 | the frames recorded of a stream in order are in order and apart |
| TimeManagement.EventsAreNoFights | lolstats-master/ingest/time_management.go:93-143 | no frame that the events record is a fight |
| TimeManagement.OnlyOneFightIsReported | lolstats-master/ingest/time_management.go:181-226 | a concrete timeline and two fights, the second beginning first: the first is not reported |
| TimeManagement.LateFightsAreLost | lolstats-master/ingest/time_management.go:189-226 | with both lists in order, a fight is taken if and only if it begins no later than the last frame |
| TimeManagement.LateFightIsLost | lolstats-master/ingest/time_management.go:189-226 | a concrete timeline and fight: the fight begins after the last frame and is lost |
| TimeManagement.CutIsChronological | lolstats-master/ingest/time_management.go:202-224 | the cut list is in order and apart if and only if its entries begin one after the other and none ended before it began |
| TimeManagement.FightingKeepsOrder | lolstats-master/ingest/time_management.go:181-226 | with frames and fights in order the merged timeline is in order and apart |
| TimeManagement.EarlyFightEndsTheOneBefore | lolstats-master/ingest/time_management.go:202-203 | two fights, the second beginning first: the first ends before it begins |
| TimeManagement.RoamingAddsOnly | lolstats-master/ingest/time_management.go:235-254 | second pass: no frame is changed or lost, and only gaps of more than two seconds are filled |
| TimeManagement.RoamingKeepsOrder | lolstats-master/ingest/time_management.go:235-254 | the filled list is in order and apart |
| TimeManagement.AddRoaming | lolstats-master/ingest/time_management.go:235-254 | the loop computes the filled list |
| TimeManagement.RoamingIsIdleness | lolstats-master/ingest/time_management.go:235-257 | the frames added are exactly those inside idle stretches of more than eight seconds in the jungle, three seconds from both ends |
| TimeManagement.TimeManagementState.AddSupplemental | lolstats-master/ingest/time_management.go:181-184 | both passes together, for all fights: the gaps filled in what the merge makes of the frames; in order and apart if both lists were |
| TimeManagement.TimeManagementState.AllFrames | lolstats-master/ingest/time_management.go:82-91 | exactly the frames of at least a second are reported, in order and apart |
| TimeManagement.LongFramesAreLong | lolstats-master/ingest/time_management.go:82-91 | a frame is reported exactly when it lasts at least a second |
| TimeManagement.TotalWithinSpan | lolstats-master/ingest/time_management.go:82-91 | frames that do not overlap last no longer together than the time they span |
| TimeManagement.TimeDetail | lolstats-master/ingest/time_management.go:70-306 | for every time-ordered event stream and every list of fights: the reported frames are the long ones of what the two passes make of the fold of all events, which is one list; each is at least a second long; with fights in order they are in order, pairwise disjoint and together no longer than the time they span |
| Activities.EventActs | lolstats-master/ingest/time_management.go:93-151 | an event does to the timeline what it shows, for the time that its activity stands for (120 seconds dead, 2 farming, a tenth for a revival, 5 for all else), and then moves the player |
| Activities.EpicMonsters | lolstats-master/ingest/time_management.go:93-135 | herald and baron show one activity and dragons the other, attacked or attacking |
| Activities.ChampionsShowNothing | lolstats-master/ingest/time_management.go:93-135 | attacks and damage between champions of different teams show nothing |
| Activities.MinionsAndTurrets | lolstats-master/ingest/time_management.go:93-135 | attacks on minions, or on nothing, are farming; turrets are besieged by those who attack them or are hit by them |
| Activities.FramesAreExplained | lolstats-master/ingest/time_management.go:42-53 | of every stream of events: each moment of a recorded frame that lasts belongs to an event that shows its activity in its area, from a second before the event to the end of what it stands for |
| Activities.PausesEndFrames | lolstats-master/ingest/time_management.go:262-283 | in a stream in order: when more than a second passes between what two events of one activity stand for, with none of it in that area between them, no frame of it reaches from the one to the other |
| Activities.ContinuedInOneFrame | lolstats-master/ingest/time_management.go:262-283 | in a stream in order: when an event shows the activity of the one before it, with no arrival elsewhere between, and no more than a second after what that one stands for, one frame reaches from the one to the other |
| Activities.ShownIsRecorded | lolstats-master/ingest/time_management.go:262-306 | conversely: each moment that an event stands for is in a recorded frame of its activity and area, up to the next event that shows something or arrives elsewhere |
| Activities.ReportIsExplained | lolstats-master/ingest/time_management.go:70-306 | every reported frame other than fights and roaming is explained by events of the match in the same way |
| Buddies.BuddyFinder.AddStateUpdate | lolstats-master/ingest/buddies.go:27-55 | between 100 and 600 seconds, once ten positions are known, exactly the teammates within 2000 units gain one point; no other score ever changes |
| Buddies.BuddyFinder.BuddyFor | lolstats-master/ingest/buddies.go:57-70 | a free teammate with the highest positive score, whatever the map order, or -1 exactly when there is none |
| Roles.CountLane | lolstats-master/ingest/advanced_stats.go:326-341 | lane minions up to level six are summed per player, whatever the order of the nested maps |
| Roles.CountJungle | lolstats-master/ingest/advanced_stats.go:342-350 | jungle attacks up to level six are summed per player, whatever the order |
| Roles.FindCs | lolstats-master/ingest/advanced_stats.go:401-417 | the loop returns the last best candidate of the team outside the roles already given, or -1 exactly when there is no candidate |
| Roles.BestIsBest | lolstats-master/ingest/advanced_stats.go:397-417 | the pick is the one candidate with the most minions, or the fewest, and of equals the highest number; there is one whenever there is a candidate |
| Roles.BestAgrees | lolstats-master/ingest/advanced_stats.go:401-417 | who is picked depends on the players of that team alone |
| Roles.PicksAreDistinct | lolstats-master/ingest/advanced_stats.go:352-376 | jungler, support and mid laner of a team are three different players |
| Roles.BuddyOfSupport | lolstats-master/ingest/advanced_stats.go:379-381 | the buddy of a support is -1 exactly when the team does not resolve and otherwise a teammate without another role |
| Roles.BothAdcs | lolstats-master/ingest/advanced_stats.go:378-386 | the key -1 stays out of the roles exactly when the support of both teams has a buddy without another role, that is when both teams resolve |
| Roles.EightRoles | lolstats-master/ingest/advanced_stats.go:383-386 | when both teams resolve, exactly eight players have roles before the fifth role is given |
| Roles.CalculateRolePosition | lolstats-master/ingest/advanced_stats.go:323-395 | succeeds exactly when both teams have a support candidate whose free teammates include one with a positive buddy score; then each team has exactly one top, mid, adc, jungler and support, for every order of the maps: the jungler has at least as many early jungle minions as every teammate; the support has some in the bottom lane and no teammate but the jungler has fewer, unless none; the midlaner has at least as many in the middle lane as those who are neither; of equals it is the higher number |
| Roles.PicksFollowMinions | lolstats-master/ingest/advanced_stats.go:352-377 | roles that follow the picks are those the minion counts say |
| Roles.TeamRoles | lolstats-master/ingest/advanced_stats.go:383-394 | eight distinct picks leave exactly one player of each team, who gets the fifth role |
| TeamComp.MinVal | lolstats-master/ingest/team_comp.go:104-115 | the loop finds the weakest attribute under (value descending, name ascending), whatever the map order |
| TeamComp.Consider | lolstats-master/ingest/team_comp.go:78-89 | one more attribute keeps the kept ones the top three of all met so far |
| TeamComp.WeakestIsReplaced | lolstats-master/ingest/team_comp.go:81-87 | an attribute that beats the weakest of three takes its place in the new top three |
| TeamComp.WeakestIsKept | lolstats-master/ingest/team_comp.go:81-87 | an attribute that does not beat the weakest leaves the top three as they are |
| TeamComp.TopThreeIsUnique | lolstats-master/ingest/team_comp.go:66-90 | there is only one top three under (value descending, name ascending) |
| TeamComp.TopThreeAreLargest | lolstats-master/ingest/team_comp.go:66-110 | no attribute left out is larger than one that was chosen, and of equal ones the first names were |
| TeamComp.BeatsIsTotal | lolstats-master/ingest/team_comp.go:82-84 | the order has no ties between different attributes |
| TeamComp.BeatsIsTransitive | lolstats-master/ingest/team_comp.go:82-84 | the order is transitive |
| TeamComp.KeyAttributesAreDetermined | lolstats-master/ingest/team_comp.go:66-90 | any two computations over the same attributes agree, whatever orders the maps were met in, and keep min(3, n) attributes |
| TeamComp.TeamComp.AddParticipant | lolstats-master/ingest/team_comp.go:32-64 | every attribute of the champion is added to the sum of the player's team if he is a teammate and to the enemy's if not, and to the player's own when it is his champion; nothing else changes |
| TeamComp.TeamComp.ComputeKeyAttributes | lolstats-master/ingest/team_comp.go:66-102 | the top three attributes of each side, the player's own value in each of his side's, and his share of their sum, which lies between 0 and 100 when his values are parts of his side's |
| TeamComp.TeamComp.OwnParts | lolstats-master/ingest/team_comp.go:92-100 | the player's own values and both sums, whatever the map order |
| TeamComp.OwnPartStays | lolstats-master/ingest/team_comp.go:45-62 | adding participants one by one keeps every value of the player a part of his side's |
| TeamComp.OwnPartIsSmaller | lolstats-master/ingest/team_comp.go:92-101 | the share of a part lies between 0 and 100 |
| History.UpdateRecentHistory | lolstats-master/ingest/team_fights.go:309-334 | a reading within a quarter of a second of the newest state reuses it; otherwise a deep copy is appended and the states older than 30 seconds are dropped |
| History.ExtendedIsWindow | lolstats-master/ingest/team_fights.go:309-334 | whatever the times: neighbours stay a quarter of a second apart, nothing is older than 30 seconds, and the newest state is the old newest or the copy |
| History.OldOnesAreDropped | lolstats-master/ingest/team_fights.go:325-333 | when a copy is appended, a state stays if and only if it is not older than 30 seconds |
| History.SpacedIsIncreasing | lolstats-master/ingest/team_fights.go:310-323 | gaps of at least a quarter of a second make the list strictly increasing, and bound its length by its span |
| History.WindowIsSmall | lolstats-master/ingest/team_fights.go:309-334 | the list never holds more than 121 states |
| History.FindClosest | lolstats-master/ingest/team_fights.go:289-307 | on such a list the backward scan that stops early returns the nearest state with ten entries, of two equally near ones the later, and nothing exactly when there is no such state or the newest one is 99999 seconds away |
| History.NearestIsUnique | lolstats-master/ingest/team_fights.go:289-307 | there is only one such state |
| History.NearestInTime | lolstats-master/ingest/team_fights.go:289-307 | no usable state is closer in time, before or after |
| History.CopyKeepsGold | lolstats-master/ingest/team_fights.go:230-244 | copying a state keeps every player's gold account |
| History.UpdateKeepsGold | lolstats-master/ingest/team_fights.go:336-349 | a reading adds its rise or its drop to the account |
| History.GoldIsConserved | lolstats-master/ingest/team_fights.go:214-349 | over every sequence of copies and readings: amount plus spent is the sum of all rises from zero and spent is the sum of all drops |
| Teams.CloserInEachDirection | lolstats-master/baseview/baseview.go:37-40 | places closer than a distance differ by less in each direction, and places that differ by less in both together are closer |
| Sight.ScanFinds | lolstats-master/ingest/team_fights.go:650-659 | the scan over all players says no exactly when every living enemy is known and away; it says yes only when one is close, and fails only on a nil position |
| Sight.IsEnemyNear | lolstats-master/ingest/team_fights.go:705-710 | the loop is that scan |
| Sight.IsTurretNear | lolstats-master/ingest/team_fights.go:662-669 | a standing turret of the other team is within its sight, whatever the map order |
| Sight.OwnTurretsAreBlind | lolstats-master/ingest/team_fights.go:662-669 | no turret of his own team, and no lost one, gives a player away, and none that is farther than 1095 |
| Sight.EnemyTurretsSee | lolstats-master/ingest/team_fights.go:662-669 | a standing turret of the other team within 1095 does |
| Sight.IsSeen | lolstats-master/ingest/team_fights.go:644-680 | in one state a player is in sight outside the jungle, near an enemy, near a standing enemy turret or near an enemy ward, in this order, and his own nil position fails |
| Sight.IsInVision | lolstats-master/ingest/team_fights.go:626-683 | the loop over the states leaves off at the first state that tells |
| Sight.StoppingLosesNothing | lolstats-master/ingest/team_fights.go:635-642 | a player was out of sight exactly when no state between eight and four seconds before shows otherwise |
| Sight.SeenSomewhere | lolstats-master/ingest/team_fights.go:635-680 | whatever else is found comes from a state between eight and four seconds before |
| Sight.KnownVision | lolstats-master/ingest/team_fights.go:626-683 | where everybody is known looking never fails |
| TeamFights.FriendlyAndEnemyTeamGold | lolstats-master/ingest/team_fights.go:200-212 | the loop sums the gold of both teams |
| TeamFights.SumUp | lolstats-master/ingest/team_fights.go:538-577 | health, gold spent and levels of a group are summed, whatever the order of the participants |
| TeamFights.SumUpNeutral | lolstats-master/ingest/team_fights.go:541-547 | damage by turrets and monsters between the start of the damage and the trigger is summed over a group and the history, whatever the order |
| TeamFights.SumUpSpells | lolstats-master/ingest/team_fights.go:548-553 | the summoner spells of a group that are ready at the trigger are counted, whatever the order of players and spells |
| TeamFights.LookAt | lolstats-master/ingest/team_fights.go:554-575 | who of a group was in sight, or a failure exactly when looking at one of them meets a nil position |
| TeamFights.InitialParticipants | lolstats-master/ingest/team_fights.go:95-107 | the loop collects exactly the living players close to the trigger, or fails exactly when a living player has no position |
| TeamFights.FriendsAndEnemies | lolstats-master/ingest/team_fights.go:109-120 | the participants are split by team, whatever the order |
| TeamFights.FightEnd | lolstats-master/ingest/team_fights.go:692-719 | zero while anybody was just hit, just hit somebody or is chased, and otherwise the latest time a participant was hit; it fails only on a nil position, always so if nobody keeps the fight going, and else depending on the map order |
| TeamFights.Review | lolstats-master/ingest/team_fights.go:450-461 | the gold difference is brought up to date and the fight ends when nobody keeps it going and somebody was ever hit |
| TeamFights.AroundIsMixed | lolstats-master/ingest/team_fights.go:95-120 | the tracked player is among the participants, and those who are not friends are exactly the enemies |
| TeamFights.NewFight | lolstats-master/ingest/team_fights.go:508-579 | around a trigger close to the tracked player: a nil position, no enemy, or a fight with all its figures, spells and vision |
| TeamFights.StartTeamFight | lolstats-master/ingest/team_fights.go:495-580 | no fight, a nil position, or a fight, decided in the order of the checks at the state nearest to the trigger; its figures come from the state nearest to the beginning of the damage |
| TeamFights.OpenedIsOk | lolstats-master/ingest/team_fights.go:495-580 | a fight that opens begins with the session of its trigger, is open, and has the tracked player and an enemy in it |
| TeamFights.FightStaysOk | lolstats-master/ingest/team_fights.go:395-441 | damage and deaths keep influencers apart from participants and kills and deaths on the right side |
| TeamFights.FightsStayOk | lolstats-master/ingest/team_fights.go:685-690 | replacing the last fight, or adding one when none is open, leaves all earlier fights closed |
| TeamFights.AveragesAreDefined | lolstats-master/ingest/team_fights.go:755-776 | in every recorded fight both teams have participants, and together they are all of them, so no average divides by zero |
| TeamFights.KillsAndDeathsAreApart | lolstats-master/ingest/team_fights.go:475-490 | nobody is counted as both a kill and a death, and the tracked player is never his own kill |
| TeamFights.AfterReportOk | lolstats-master/ingest/team_fights.go:444-462 | a report keeps the history a window and every fight as fights are, and changes none that is over |
| TeamFights.AfterDamageOk | lolstats-master/ingest/team_fights.go:372-442 | so does damage, which adds one fight at most, and only when none is open |
| TeamFights.AfterDeathOk | lolstats-master/ingest/team_fights.go:464-493 | so does a death |
| TeamFights.TeamFightAnalysis.constructor | lolstats-master/ingest/team_fights.go:272-287 | the initial analysis satisfies the invariant |
| TeamFights.TeamFightAnalysis.AddStateUpdate | lolstats-master/ingest/team_fights.go:444-462 | the next view is the one after the report: history extended, report noted, open fight reviewed at the nearest state; it fails only when the review finds no state or meets a nil position |
| TeamFights.TeamFightAnalysis.AddDamage | lolstats-master/ingest/team_fights.go:372-442 | the next view is the one after the damage: sessions fed, damage of turrets and monsters noted in the nearest state, a fight opened by serious damage while none is open, the open fight changed; it fails exactly when there is no next view |
| TeamFights.TeamFightAnalysis.Strike | lolstats-master/ingest/team_fights.go:382-441 | serious damage opens a fight while none is open, the first damage is counted against its side, and the open fight gains influencers and damage |
| TeamFights.TeamFightAnalysis.AddDeath | lolstats-master/ingest/team_fights.go:464-493 | the next view is the one after the death: a fight opened while none is open, the death counted on its side if the victim is involved, and only then noted; it fails exactly when there is no next view |
| TeamFights.TeamFightAnalysis.AddNote | lolstats-master/ingest/team_fights.go:582-609 | a level-up, a summoner spell or a lost turret is noted in the newest state, if there is one |
| FightRuns.RunIsOk | lolstats-master/ingest/team_fights.go:272-493 | after every sequence of events in any order: each recorded fight has the tracked player and an enemy, influencers apart from participants and deaths on the right side; only the last can be open; the history is a window |
| FightRuns.GoldOfTheMatch | lolstats-master/ingest/team_fights.go:336-349 | after every sequence of events the newest state accounts for all gold readings of every player |
| FightRuns.TriggerOpens | lolstats-master/ingest/team_fights.go:382-391 | an event adds a fight exactly when its trigger opens one, which then begins with the damage session of the one who is hit or dies |
| FightRuns.ReadyExactly | lolstats-master/ingest/team_fights.go:289-323 | the newest state can be used exactly when some report came a quarter of a second or more after the first, of whichever player, or all ten players have been reported |
| FightRuns.KnownOnceReported | lolstats-master/ingest/team_fights.go:336-342 | a position in the newest state is nil exactly when its player has not been reported |
| FightFailures.FindsExactly | lolstats-master/ingest/team_fights.go:289-307 | during a match a state is found for any moment exactly in that case |
| FightFailures.FightsNeedSight | lolstats-master/ingest/team_fights.go:501-506 | no fight is recorded before that |
| FightFailures.FailsExactly | lolstats-master/ingest/team_fights.go:272-493 | the program fails on a match if and only if damage by a turret or a monster comes before any state can be found, or, at the nearest state, a death or a serious hit with no fight open reads through nil in one of the checks for a fight, or a report does in the review of an open fight that nobody keeps going; `NilPositions` says what this means of the events |
| FightAnalysis.CompleteFailsExactly | lolstats-master/ingest/team_fights.go:372-380 | if no report comes a quarter of a second after the first before all ten players are reported, the program fails if and only if damage by a turret or a monster comes before all ten are reported |
| FightAnalysis.OrderedReview | lolstats-master/ingest/team_fights.go:692-719 | with events in order of time, no review of a fight meets a nil position |
| FightAnalysis.CompleteReview | lolstats-master/ingest/team_fights.go:692-719 | nor does any, in any order of events, when everybody is reported first |
| FightAnalysis.Analyse | lolstats-master/ingest/team_fights.go:272-493 | over every sequence of events in any order: the analysis ends in the view that the fold of all events gives, or fails; with events in order, or everybody reported first, it fails if and only if the fold does; else it may also fail on a review that meets nil in some order of the map; in the end every fight is as fights are, only the last can be open, the history never exceeds 121 states and accounts for all gold |
| NilPositions.TriggerFailsExactly | lolstats-master/ingest/team_fights.go:189-199 | with events in order, a death or a hit as a trigger reads through nil if and only if it can open a fight, a state can be used, the tracked player is alive in the newest one, and he or the victim was never reported, or they are close and some living player was never reported or was not known when it matters who was in sight |
| NilPositions.DeathFailsExactly | lolstats-master/ingest/team_fights.go:464-506 | with events in order, a death makes the program fail if and only if no fight is open and it meets nil in this way |
| NilPositions.HitFailsExactly | lolstats-master/ingest/team_fights.go:372-391 | with events in order, a hit makes the program fail if and only if it is of a turret or a monster before a state can be used, or it makes the damage serious while no fight is open and meets nil in this way |
| NilPositions.OrderedFailsExactly | lolstats-master/ingest/team_fights.go:272-493 | over whole matches in order: the program fails if and only if damage by a turret or a monster comes before a state can be used, or some death or serious hit with no fight open meets nil in this way |
| NilPositions.TurretHitsTooEarly | lolstats-master/ingest/team_fights.go:379 | a concrete match: one report, then a turret hits, and the program fails |
| NilPositions.OnePlayerIsEnough | lolstats-master/ingest/team_fights.go:197-199 | a concrete match: two reports of one player a quarter of a second apart make the damage of a turret go through with nine positions nil, and then the death of another player reads through nil |
| FightOrder.StepKeepsOrder | lolstats-master/ingest/team_fights.go:372-493 | an event keeps the fights in order exactly when it does not open one whose trigger was first hit before the last fight began, and does not close one that everybody in it was last hit before |
| FightOrder.OrderedExactly | lolstats-master/ingest/team_fights.go:372-493 | over whole matches in which nobody is hit after the end, reports going on as they may: the recorded fights begin one after the other and end no earlier than they begin if and only if no event ever did either |
| FightOrder.EarlyEndsHaveNoTarget | lolstats-master/ingest/team_fights.go:692-719 | with events in order, a fight ends before it begins only if the player it opened around takes no part in it |
| FightOrder.TargetTakesPart | lolstats-master/ingest/team_fights.go:95-107 | that player takes part exactly when he is alive in the state of the trigger |
| FightsOutOfOrder.SecondBeginsFirst | lolstats-master/ingest/team_fights.go:464-526 | a concrete match of ten reports, two hits, a death, a report and a death: the second fight begins at 0 and the first at 11 |
| AdvancedStats.FightsAreOrderedExactly | lolstats-master/ingest/advanced_stats.go:276-296 | the fights handed to the timeline are ordered if and only if nothing ever disturbed their order |
| AdvancedStats.FightEventsAreOk | lolstats-master/ingest/advanced_stats.go:153-268 | what the stream hands to the fights concerns the ten players |
| AdvancedStats.FightsGetWhatMatters | lolstats-master/ingest/advanced_stats.go:153-268 | what the team fights get is exactly all reports, deaths, level-ups, casts and lost turrets, and of the damage to the ten players that of enemy champions, turrets and epic monsters |
| AdvancedStats.ActivitiesAreOrdered | lolstats-master/ingest/advanced_stats.go:153-268 | the events handed to the timeline of a player keep the order of the stream |
| AdvancedStats.TimelineIsOwn | lolstats-master/ingest/advanced_stats.go:153-268 | what the timeline of a player gets is exactly what he does and what happens to him |
| AdvancedStats.NobodyIsHitLater | lolstats-master/baseview/baseview.go:122-132 | in a stream in order nobody is hit after the time of the last event that is not a report, which is how long the match took |
| AdvancedStats.TimeDetail | lolstats-master/ingest/advanced_stats.go:150-297 | one stream of events for both analyses: it gets through exactly when the fold of the fights does, the frames are the report of the fold of the activities with the recorded fights, and, with the duration of the match as the program computes it, they are in order and apart as long as nothing disturbed the order of the fights |
| AdvancedStats.FirstFightIsLost | lolstats-master/ingest/advanced_stats.go:276-297 | a concrete stream for both analyses: fights from 11 to 13 and from 0 to 60 are recorded, the first ends before it begins in the timeline, and only the second is reported |
| FightFigures.FiguresAddUp | lolstats-master/ingest/team_fights.go:372-493 | over every match: as long as a fight is open, and after the event that ends it, its figures are those at the opening and what the events since then add up to. `neutralDamageTaken` grows by the damage that turrets and monsters did to participants of the team and `enemyNeutralDamageTaken` by that to enemies; `damageDealt` of a player is the sum of the hits of the tracked player on him; `enemyDamageTaken` of an enemy is the sum of all hits on him since he was involved; influencers are exactly the champions from outside who hit a participant; kills and deaths are exactly the involved who died, by team; the opening hit is off the health of the side of its victim; all else stays |
| FightFigures.OpenSinceOpening | lolstats-master/ingest/team_fights.go:685-690 | when the last fight on record is open, it has been so since its opening |
| FightFigures.ClosedFightsStay | lolstats-master/ingest/team_fights.go:685-690 | a fight that is over stays as it is for the rest of the match |
| FightFigures.SidesAtOpening | lolstats-master/ingest/team_fights.go:508-580 | at the opening health, gold spent, neutral damage, spells, levels and vision of the team are those of the participants who play with the tracked player, and the figures of the enemy those of the others |
| FightFigures.NoGainYet | lolstats-master/ingest/team_fights.go:200-212 | at the opening the gold difference is zero |
| FightFigures.GoldOfASide | lolstats-master/ingest/team_fights.go:450-453 | what a player of the team gains raises the gold difference, and what an enemy gains lowers it |
| FightFigures.NotedDamageCounts | lolstats-master/ingest/team_fights.go:372-380 | damage noted in a state counts for its victim in a fight that opens over the time of that state, and for nobody else |
| FightFigures.RoundIsNearest | lolstats-master/ingest/team_fights.go:402-405 | percentages are rounded to the nearest whole one, halves upwards |
| FightMemory.NewestSaysWhatHappened | lolstats-master/ingest/team_fights.go:310-370 | over every match: in the newest state each player lives, died, levelled up, cast his spells and stood where the events since the first report say, he lives again only on health reported later than two seconds before his death, and exactly the turrets lost since are down, however often states were copied |
| FightMemory.SessionsAddUp | lolstats-master/ingest/team_fights.go:137-155 | over every match: the damage session of a player is made of his hits since the last pause of three seconds, with their sum, their number of different moments, and the time of the first |
| FightMemory.AttacksAddUp | lolstats-master/ingest/team_fights.go:159-172 | the same for the hits that a champion makes |
| FightMemory.SeriousDamageOpens | lolstats-master/ingest/team_fights.go:382-391 | a hit opens a fight only when its victim lost more than thirty percent since the last pause, at two moments or more, and the fight begins with that session |
| FightReasons.Balance | lolstats-master/ingest/team_fights.go:76-86 | the balance of power counts participants fully and influencers half, whatever the map orders |
| FightReasons.Sizes | lolstats-master/ingest/team_fights.go:755-763 | both sides are counted, and neither is empty |
| FightReasons.Reasons | lolstats-master/ingest/team_fights.go:733-794 | every fight is put down to something, and one put down to numbers, or to nothing in particular, is put down to nothing else |
| FightReasons.ReasonsInFigures | lolstats-master/ingest/team_fights.go:733-796 | for all fights: a gain is put down to numbers if the team, influencers counting half, is stronger; otherwise to health if its average is over 20 higher, to gold if it spent over 500 more for each of the smaller side (up to 20000 a head), to turrets and monsters if they did over 30 more to the enemy, and to nothing if none of these holds; a loss is put down to the same with the sides changed |
| FightReasons.SignificantFights.ProcessFight | lolstats-master/ingest/team_fights.go:733-795 | the fight is counted once in the total and once under each of its reasons, and the totals stay accounted for |
| FightReasons.NoFightIsBoth | lolstats-master/ingest/team_fights.go:804-822 | no fight counts as both a significant kill and a significant death |
| FightReasons.SignificantKillsAndDeaths | lolstats-master/ingest/team_fights.go:797-825 | the totals are the numbers of fights that qualify, together at most the number of fights, and every one is accounted for by its reasons, with the vision noted in the fight |
| Wards.FirstMatching | lolelo-master/event/to_baseview.go:259-294 | the scan returns the first of the cheapest casts of the ward's team among those before the first one more than 30 seconds away, and fails exactly when there is none or a network id is unknown before that |
| Wards.SuitsExactly | lolelo-master/event/to_baseview.go:264-298 | a cast suits a ward exactly if its caster is of the team of the ward, it is within thirty seconds, and distance plus a hundred a second is less than 100000 |
| Wards.NearerIsCheaper | lolelo-master/event/to_baseview.go:264-298 | of two suitable casts within reach and equally far in time the nearer one is used, and of two equally far in space the one closer in time |
| Wards.Swap | lolelo-master/event/to_baseview.go:227-231 | the two casts change places and no cast is lost |
| Wards.PairingIsSound | lolelo-master/event/to_baseview.go:209-257 | every pairing uses each cast exactly once, and each ward gets a cast of its own team within 30 seconds |
| Wards.PairingIsUnique | lolelo-master/event/to_baseview.go:209-257 | the greedy pairing is determined by its inputs |
| Wards.TakeFirst | lolelo-master/event/to_baseview.go:220-232 | the first match among the casts not used so far changes places with the one in front of them, or the search fails and nothing changes |
| Wards.PlaceWards | lolelo-master/event/to_baseview.go:209-257 | in place: on success the casts used are a permutation of the input, one event per creation in order, each from a suitable cast and a hundredth of a second early; it fails exactly when the greedy pairing does not exist |
| Wards.EventsTellOfWards | lolelo-master/event/to_baseview.go:238-254 | each event has the id, the place and the team of its ward, and a player of that team, and comes no more than a hundredth of a second early |
| Decimal.ParsePrint | lolobserver-master/download_state.go:138-141 | every 64-bit number printed in decimal parses back to itself |
| Decimal.SignsAreRead | lolobserver-master/download_state.go:138-141 | a number is digits behind an optional sign: a plus changes nothing, and a minus turns it round |
| Decimal.FieldIsDetermined | loldispatcher-master/dispatch_handler.go:221 | a number printed in front of a hyphen is determined by the text |
| LolUsers.AdjustmentsAreExact | lolusers-master/server/store.go:96-103 | an adjustment that is accepted did not wrap around, and one is rejected exactly when the exact sum is negative or out of range |
| LolUsers.LolUserStore.PutDetails | lolusers-master/server/store.go:74-86 | the details path never changes the balance of an existing user; a new one starts with 400 |
| LolUsers.LolUserStore.PutPoints | lolusers-master/server/store.go:91-106 | the points path changes the balance of an existing user and nothing else, never to a negative one, also when an error is reported |
| LolUsers.LolUserStore.PutLolUser | lolusers-master/server/store.go:50-72 | no balance ever becomes negative, no other row changes, and the balance of an existing user changes only by an adjustment |
| LolUsers.LolUserStore.FetchByUserId | lolusers-master/server/store.go:33-48 | the only row of a user, none if there is none, and an error if there are several; a read that fails outside may also look as if there were none |
| LolUsers.LolUserStore.AdjustVantagePoints | lolusers-master/server/lolusers.go:233-251 | exactly the one row of the user changes by the amount, or nothing does; success means it changed; it fails only for an outside failure or when there is no single row that can bear it |
| Billing.ReceiptsClash | loldispatcher-master/dispatch_handler.go:221-222 | two purchases share a receipt key if and only if they are the same, or differ in the sign of the summoner id and by a hyphen at the end of the platform |
| Billing.ReceiptsAreExact | loldispatcher-master/dispatch_handler.go:221-222 | with summoner ids that are not negative, a key determines match, platform and summoner |
| Billing.UniqueInts | loldispatcher-master/dispatch_handler.go:242-253 | the distinct numbers, each once, in the order of their first occurrences |
| Billing.PaidExactly | loldispatcher-master/dispatch_handler.go:153-175 | a purchase whose receipt was stored has been paid if and only if the attempt that stored the receipt also got its adjustment through, and, unless something outside failed in that attempt, if and only if the one row of the user could bear the cost at that moment; no other attempt ever stores it |
| Billing.TracedAdds | loldispatcher-master/dispatch_handler.go:139-178 | attempts that note the rows as the earlier payments had left them go on doing so over consecutive deliveries |
| Billing.DispatchHandler.SaveMatchReceipt | loldispatcher-master/dispatch_handler.go:220-240 | reports whether there was a receipt; success leaves one behind; a failed write may have stored it |
| Billing.DispatchHandler.Purchase | loldispatcher-master/dispatch_handler.go:153-175 | one attempt at the rows as they are: it stores the receipt exactly if there is none, and then, unless something outside fails, takes the points exactly if the one row of the user can bear the cost; success means there is a receipt, paid for now or found |
| Billing.DispatchHandler.ChargeAll | loldispatcher-master/dispatch_handler.go:139-178 | the loop makes one attempt for every listed user who can pay, in the order of the list, each at the rows and receipts that the attempts before it left, and stops at the first failure, which something outside or a balance that cannot bear the cost accounts for; success collects the summoners and leaves nobody unpaid whose receipt was stored now |
| Billing.DispatchHandler.SendElogen | loldispatcher-master/dispatch_handler.go:139-201 | the same for a delivery, whatever fails: unless something outside failed in it, an attempt that stored a receipt took the points exactly if the row of the user could bear it then; success means that everyone who can pay was attempted and has a receipt, and that the distinct paying summoners were published once |
| Billing.DispatchHandler.Serve | loldispatcher-master/dispatch_handler.go:139-178 | over every sequence of deliveries with failures and retries: the attempts of each delivery are those of its listed users in turn, each at the rows and receipts left by all before it; the final rows and receipts are what they leave; no two that took points are for the same match, platform and summoner; after a delivery that succeeded everyone who can pay has a receipt, paid if and only if the attempt that first stored it got its adjustment through, which, unless something outside failed in it, it did if and only if the row could bear it at that moment |
| Billing.AnalysedForNothing | loldispatcher-master/dispatch_handler.go:153-201 | a concrete run: the listing is older than the balance, the receipt is stored, the adjustment is refused and the delivery fails; the retry finds the receipt, succeeds and publishes; nobody has paid anything |
| Billing.SpentAdds | loldispatcher-master/dispatch_handler.go:159-175 | what a row has paid adds up over consecutive deliveries |
| Goals.KeyRangeIsPrefix | lolstats-master/cmd/goals_updater/goals_updater.go:201-206 | a key lies between the prefix and the prefix followed by "0" exactly when it continues the prefix with a character before "0" |
| Goals.FoundGoalsAreOwn | lolstats-master/cmd/goals_updater/goals_updater.go:200-226 | without hyphens in platform and role, the goals found are exactly those of the summoner, platform, role and champion |
| Goals.HandledIsConsistent | lolstats-master/gcd/goal.go:61-63 | an update keeps every goal under its own id |
| Goals.HandledTwice | lolstats-master/cmd/goals_updater/goals_updater.go:99-175 | after a success the same message has nothing to update and changes nothing, whatever the stats say by then |
| Goals.OnlyAcceptedGoalsLearn | lolstats-master/cmd/goals_updater/goals_updater.go:95-161 | of the goals still there, exactly the accepted ones of the player, the role and the champion that are about a known statistic and have not seen this match learn of it; all others are as they were |
| Goals.CompletedGoalsStay | lolstats-master/cmd/goals_updater/goals_updater.go:199-221 | goals completed before are neither changed nor deleted |
| Goals.DeletedForAnother | lolstats-master/cmd/goals_updater/goals_updater.go:163-174 | a goal is deleted only for another one of its category that this very game completed |
| Goals.CountGrowsOrStays | lolstats-master/cmd/goals_updater/goals_updater.go:133-161 | the count of a due goal that is kept grows by one or stays; it is completed exactly by the game that makes the count its target, and nothing else changes; an unknown comparator never counts |
| Goals.OppositeGoalsShareTheGames | lolstats-master/cmd/goals_updater/goals_updater.go:293-307 | a game counts for "less than" exactly if it would not for "greater than or equal" with the same target, and for "less than or equal" exactly if not for "greater than" |
| Goals.TheTargetItself | lolstats-master/cmd/goals_updater/goals_updater.go:293-307 | at the target itself exactly the two comparators with "or equal" count |
| Goals.LowerIsBetter | lolstats-master/cmd/goals_updater/goals_updater.go:293-307 | for both "less" comparators every value below the target counts, and a lower one whenever a higher one does |
| Goals.HigherIsBetter | lolstats-master/cmd/goals_updater/goals_updater.go:293-307 | for both "greater" comparators every value above the target counts, and a higher one whenever a lower one does |
| Goals.CategoryIsCleared | lolstats-master/cmd/goals_updater/goals_updater.go:163-174 | after a success a category with a newly completed goal keeps no other open goal in the key range, and the completed one stays |
| Goals.OthersStay | lolstats-master/cmd/goals_updater/goals_updater.go:105-118 | a goal that is not updated stays as it is or is deleted, and it is deleted exactly when it is open, in the key range and in a cleared category |
| Goals.TargetsAreNotOvershot | lolstats-master/cmd/goals_updater/goals_updater.go:142-150 | an accepted goal stays below its target count until it is completed, so testing for equality suffices |
| Goals.RetryIsComplete | lolstats-master/cmd/goals_updater/goals_updater.go:133-174 | over everything a failed attempt can leave behind, among the updates or among the deletions: a successful retry ends with the rows of an uninterrupted run if and only if every goal that was to be deleted is gone already or shares its category with a goal the retry completes |
| Goals.RetryAfterDeletions | lolstats-master/cmd/goals_updater/goals_updater.go:163-174 | after all updates and any of the deletions a retry changes nothing more |
| Goals.RetryAfterUpdates | lolstats-master/cmd/goals_updater/goals_updater.go:133-161 | after some of the updates a retry does the rest and deletes exactly the goals of those categories in which one of the rest completes |
| Goals.FailedDeletionIsForgotten | lolstats-master/cmd/goals_updater/goals_updater.go:163-174 | a concrete message and two rows: the attempt that fails before its deletion leaves the second goal there for good, as the retry succeeds and changes nothing |
| Goals.GoalsUpdater.GetAllGoals | lolstats-master/cmd/goals_updater/goals_updater.go:200-226 | the open goals of the key range, each once, or an error |
| Goals.GoalsUpdater.UpdateGoals | lolstats-master/cmd/goals_updater/goals_updater.go:133-161 | all goals are updated and the completed ones and their categories are known, or some are updated and an error is reported |
| Goals.GoalsUpdater.ClearCategories | lolstats-master/cmd/goals_updater/goals_updater.go:163-174 | exactly the open goals of the categories that were not just completed are deleted, or some of them |
| Goals.GoalsUpdater.Handle | lolstats-master/cmd/goals_updater/goals_updater.go:77-176 | a message without match, summoner, platform or role fails and changes nothing; on success the rows are exactly the handled ones; on failure, which has a cause outside or a statistic without a per-game value, they are some of the updates, or all of them and some of the deletions; without stats nothing changes |
| ReplayDownload.NamesRoundTrip | lolobserver-master/download_state.go:130-148 | the name printed for a chunk or keyframe is read back as that chunk or keyframe |
| ReplayDownload.BaseOfSaved | lolobserver-master/download_state.go:111-113 | a file saved in a directory is recognised by its own name in the listing |
| ReplayDownload.SlashAtTheEnd | lolobserver-master/download_state.go:111-113 | a slash at the end of a path changes nothing, unless there is nothing else |
| ReplayDownload.Load | lolobserver-master/download_state.go:108-128 | exactly the files named in the listing are taken to be saved; it fails exactly when a chunk or keyframe name carries no number |
| ReplayDownload.FreshStateKnowsWhatIsSaved | lolobserver-master/download_state.go:108-148 | after any earlier run, failed or not, a fresh state knows of a chunk or keyframe exactly when it was saved |
| ReplayDownload.ReplaySaveState.SaveCurrentGame | lolobserver-master/download_state.go:191-198 | written unless it was found in the listing |
| ReplayDownload.ReplaySaveState.SaveChunkInfo | lolobserver-master/download_state.go:200-218 | the sanitized answer of the server is kept and written |
| ReplayDownload.SanitizedOnce | lolobserver-master/download_state.go:205-222 | the saved answer never points back to an earlier chunk and is otherwise that of the server but for the two waiting times; doing it twice changes nothing |
| ReplayDownload.ReplaySaveState.SaveChunk | lolobserver-master/download_state.go:220-233 | a known chunk is neither asked for nor written; otherwise it is asked for once and written at most once, and success means it was written |
| ReplayDownload.ReplaySaveState.SaveKeyframe | lolobserver-master/download_state.go:235-248 | the same for keyframes |
| ReplayDownload.ReplaySaveState.SaveMeta | lolobserver-master/download_state.go:250-262 | the same for the metadata |
| ReplayDownload.ReplaySaveState.SaveVersion | lolobserver-master/download_state.go:264-276 | the same for the version |
| ReplayDownload.SaveKeepsRun | lolobserver-master/download_state.go:220-276 | each save keeps: whatever is taken to be saved is, up to one file whose write failed; no file is asked for twice, or at all when it was known |
| ReplayDownload.ReplaySaveState.SaveRounds | lolobserver-master/download_state.go:67-90 | rounds go on until the end-game chunk is known, and leave every chunk and keyframe up to the last reported ids saved |
| ReplayDownload.ReplaySaveState.Save | lolobserver-master/download_state.go:56-97 | success means that current game, chunk info, meta, version, end-game chunk and every chunk and keyframe up to the last reported ids are saved; a failure has a cause outside and leaves behind at most one file taken to be saved that is not |
| ReplayDownload.Download | lolobserver-master/cmd/observer/observer.go:144-173 | a resumed download asks for each file at most once and never for one that is listed as saved, and success means that nothing is missing |
| DeathWindows.DeathEnd | lolstats-master/generate/match_detail.go:348-369 | a death lasts at least as long as the level demands, at any time of the match |
| DeathWindows.DeathLasts | lolstats-master/generate/match_detail.go:348-369 | exactly how much longer: not at all in the first 15 minutes, then 0.75 percent of the base for every further minute, 1.15 percent after 30 minutes, 4.05 percent after 45, and a flat half after 53.5 |
| DeathWindows.LaterDeathsAreLonger | lolstats-master/generate/match_detail.go:348-369 | a later death is no shorter than an earlier one, except exactly when the earlier one is past 0.215 / 0.0405 minutes after the 45th and no later than 53.5 minutes, and the later one is after that |
| DeathWindows.DeathsOf | lolstats-master/generate/match_detail.go:303-316 | the deaths of the player in the order of the frames, with the level of the frame |
| DeathWindows.DeathsAreKills | lolstats-master/generate/match_detail.go:300-316 | the deaths are exactly the kills of the player in the timeline, in seconds, with his level at the end of that minute |
| DeathWindows.DeadTimeAdds | lolstats-master/generate/match_detail.go:326-336 | dead time adds up over adjacent stretches of time |
| DeathWindows.DeadTimeFits | lolstats-master/generate/match_detail.go:326-336 | with disjoint deaths nobody is dead for longer than the window lasts |
| DeathWindows.BreakLosesNothing | lolstats-master/generate/match_detail.go:328-331 | with deaths in order, leaving off at the first death behind the window loses nothing |
| DeathWindows.WindowDeadTime | lolstats-master/generate/match_detail.go:327-336 | with deaths in order, the loop computes the exact dead time of the window |
| DeathWindows.ExactIsPercentage | lolstats-master/generate/match_detail.go:337-340 | with disjoint deaths the value of a window lies between 0 and 100 |
| DeathWindows.DeadAllAlong | lolstats-master/generate/match_detail.go:318-345 | someone dead all along has been dead for 100 percent of the last five minutes, and before the fifth minute for the share of them that has passed |
| DeathWindows.AddDeathTimePercentage | lolstats-master/generate/match_detail.go:301-346 | one point a minute, each exactly 100/300 of the dead time of its window; the average is their mean, undefined for less than a minute, and with disjoint deaths all lie between 0 and 100 |

## Left out

- Websockets, gRPC, pubsub, datastore, files and BigQuery as such: their results are parameters or
  nondeterministic outcomes. Authorization and validation of requests are a nondeterministic refusal,
  except where a check decides something stated here.
- Clocks and sleeps: a step that waits is one that may happen later. Polling for chunk information is a
  finite list of answers, and running out of answers is an outcome of its own.
- Floating point: rounding, infinities and NaN; a division by zero is an undefined result instead.
- Notifications to sessions, `InvitationPending`, the time a match was started, and the delayed disconnect
  of the players of a made match (an arbitrary later step of the protocol).
- Letter case outside ASCII in names and keys.
- SliceAliasing.BestMatchFor: takes viability of a group as a fixed predicate, since the rewriting of
  position lists does not change it (`Matchmaking.DriftKeepsViability`).
- QueueServer.State.Respond: the uninterrupted case; the interleaved one is `QueueProtocol`. A timeout loop
  may answer for a player in a newer match that invited him meanwhile, which the protocol allows.
- FightAnalysis.Analyse: events concern the ten players. Which places are jungle, where the turrets stand and
  whom the wards see are parameters, the last one of each event. Where a result speaks of a match, event
  times lie between 0 and 99999 seconds, the distance at which the search gives up.
- TeamFights.TeamFightAnalysis.AddStateUpdate: when one participant keeps a fight going and another one cannot
  be read, the map order decides whether the program fails, and both are allowed.
- FightReasons.SignificantFights.ProcessFight: health sums are whole numbers, as the program rounds every
  summand.
- AdvancedStats.TimeDetail: the stream holds what the team fights and the timeline get; that the program feeds
  both event by event makes no difference, as they share nothing.
- TeamComp.TeamComp.ComputeKeyAttributes: attributes have names, as all in the table of champions do.
- Wards.PlaceWards: the distance of two places is a parameter, a network id is looked up in a map, and the
  ward type derived from the item is not modelled. Nothing is claimed about the cost of the pairing.
- TimeManagement.TimeDetail: the name of the area at a position is a parameter of the event.
- LolUsers.LolUserStore.AdjustVantagePoints: the lookup of the row and the transaction are one step, and a
  transaction that is retried has one effect at most.
- Billing.DispatchHandler.SendElogen: one delivery at a time, as the subscription is configured; the message
  carries the summoners only.
- Goals.GoalsUpdater.Handle: the statistics of a match are a function from names to per-game values;
  counters do not wrap around; one message at a time.
- ReplayDownload.ReplaySaveState.Save: contents of files; only their names are kept.
- DeathWindows.AddDeathTimePercentage: deaths are pairs where the program keeps two entries of one list;
  levels are natural numbers.
- Which matches are worth downloading (`ShouldDownload`), the remaining analyses of a match (wards in
  vision, map coverage, minions, traps), averaging, SQL text and request validation, the image recognition
  and the client plug-ins: they would add easy members only, or rest on foreign libraries.
- `combo.Trim` (lolstats-master/ingest/combos.go:68-75) removes list elements while it walks backwards, and
  `AreaID` (lolstats-master/baseview/map_util.go:65-93) reflects positions by a map that is not its own
  inverse, so their stated intent does not hold; neither is modelled.
- Defaults for missing criteria (lolqueue-master/client.go:139-144) are not modelled.
