# Model of the world server's schedulers, ledgers and file formats

This project models the parts of the game server, and of its map extractor, that keep state over time or turn one
representation into another, and proves what each of them is for. One module stands for one component:

| module | component |
|---|---|
| `GameEvents` | the game event scheduler: when events are on, how long the server may sleep, spawns and quests of events |
| `WarEffort` | the stage machine of the opening of Ahn'Qiraj, driving the scheduler's events |
| `Invasion` | the elemental invasion with its four places |
| `Honor` | the weekly honor maintenance and the ranks |
| `Loot` | rolling loot from templates that refer to each other, the lists of each looter, the common counter |
| `DumpText` | characters as text: rows printed, fields found again and replaced, escaping |
| `DumpNulls` | which search finds which field where nulls are among them |
| `PlayerDump` | loading such a text into another database: ids of items, mails, texts and pets renamed, line by line |
| `Cameras` | cameras of players in the lists of the viewpoints they look from |
| `Conditions` | the condition table: evaluation, requirements, loading |
| `MapFile` | packing a grid of terrain into a file, and the server reading it |
| `PosSelector` | the search for free angles around an object |
| `Guids` | object guids: composition, packed form, generation of counters |
| `InstanceLimit`, `GuardPosts` | instances an account may enter in an hour; guards called at a post |

Objects that the source updates in place are classes here, loops are loops, and each such method is proved against a
function of the state before; the properties are then proved of those functions over all inputs, runs and orders.
Clock readings, dice and answers of other systems are parameters or left open, so every outcome is covered. Floating
point numbers are real numbers, `uint8` and `uint32` are bounded, and wrap-around is written out where it can happen.

## Where the code and its promise differ

The model does what the code does. In these places that is not quite what is promised, and the condition under which
it is has been proved.

- An event that has no pause between its windows, whose leap days lie more than a period ahead, or whose rest does not
  fit 32 bits, wakes the server without a change (`NextCheckTight`); no event ever sleeps past one (`NextCheckSafe`).
- An event started anew after its end gets an end that lies its minutes, taken as seconds, behind its start: it runs for
  its whole window exactly when its old end leaves room for it (`RestartedRunsOut`). An event stopped with new times is
  on by them exactly when it has leap days, or no pause, and its end is still to come (`StoppedIsOff`).
- A rank's bracket holds the size of the points exactly for 0 to 65000 and for points above -15000 up to -2000
  (`RankBracket`).
- Earning reads the point before the first one of the curve exactly for negative contribution points
  (`StopIndexPositive`).
- The loot counter is a byte: it is the number of possible takes modulo 256, and right exactly below 256 (`CounterExact`).
- The search for a field does not end exactly when the first quote behind the start of the first field is escaped
  (`FindNthField`). What it finds has no quote and does not end with a backslash, so printing and parsing agree on the
  first fields of a row exactly when all of these are texts without either (`FieldsAreFoundExactly`): a text with an
  apostrophe does not survive, and neither does what the load looks for behind one, or behind a null. What stands behind
  the last column the load touches does not matter, so the nulls at the end of each living character's row do not.
- Behind a null the n-th search need not find the n-th field. Which field it finds depends on the lengths of the texts
  that follow nulls (`NullsDecide`): the text next to a single null is cut, and the one behind that is found under its own
  number exactly when the cut one has three characters or more (`BehindANull`).
- A second line of a pet's own bears that pet's number exactly when the last such line was about it, too, and the number
  kept for writing is still its own (`PetNumberExactly`, `SecondLineOfAPet`); with one line for each pet every line bears
  the right one (`DumpRenames`).
- Whether a template has a quest drop is searched within its own store, while its references are rolled from the store of
  references. The two agree when these hold the same below the template (`SameBelowAgrees`), and in general exactly when
  its own entries have a quest item or its references lead to one in both stores or in neither (`QuestSearchExactly`).
- Loading accepts conditions of kinds 47 and 50 that refer to themselves or to a later entry. What is loaded always has
  values if nothing referred to is missing and no references run in a circle (`SoundExactly`, `LoadConditions`). An entry that
  asks itself has one exactly when its object is not there (`SelfReference`). A target is missing exactly when it stood
  behind and was dropped (`MissingTargetIsKept`), and is looked up in vain exactly when there is something to ask it
  (`MissingTargetFaults`).
- With a clock set back, a War Effort stage that waits for the clock ends at once, unless the clock is off by almost its
  whole range (`ClockSetBack`).
- The end of an elemental invasion leaves nothing on exactly when every boss is down or not due and its place quiet
  (`EndLeavesNothing`). That is so in every run that begins in order (`EndsOnlyWhenDown`), but not on a new server:
  the first invasion is over at its second update and leaves the rifts behind (`FirstInvasionIsCutShort`).
- The rectangle of the liquids is inside the grid exactly when some square shows liquid (`RectangleIsInside`); without
  that, and with integers not allowed, levels would be read from outside of it.
- An entry above 24 bits, or a counter above the maximum of its kind, does not survive composition (`EntryGuidRoundTrip`).
- The first candidates of the angle search are the small steps from the original direction up to half a turn, whatever
  positions are in use (`StepsFromTheStart`); only those after them are checked, and the place behind the first used
  position of a side is never one (`CandidatesExactly`).
- Behind the used positions the sides do not take turns: signed angles are compared, so the minus side offers all its steps
  before the plus side goes on (`NearerSideFirst`).
- Who logs in inside a dungeon enters it unchecked, as game masters do. The limit of an hour then holds exactly if there
  was room (`UncheckedEntry`); every such entry beyond it allows one instance more from then on (`AddInstanceEnterTime`).
- The recharge timer of the guard posts has no initial value; the limit on guards holds for every one it may have
  (`SummonsAreLimited`).

## Model

| member | source | states |
|---|---|---|
| `GameEvents.OnExactly` | src/game/GameEventMgr.cpp:40-45 | a valid event is on between its start and its end iff its leap days are not over, or the time is in one of its windows, one period apart from each other |
| `GameEvents.NextCheckSafe` | src/game/GameEventMgr.cpp:40-71 | for every event as loading leaves it, sleeping as long as NextCheck says never steps over a change of whether it is on |
| `GameEvents.NextCheckTight` | src/game/GameEventMgr.cpp:47-71 | the sleep ends at the start, at the end, or at a second where the event flips - the last exactly if there is a pause, less than a period of leap days ahead, and a rest of 32 bits |
| `GameEvents.PhaseSafe` | src/game/GameEventMgr.cpp:59-65 | the phase of an event, with the truncating remainder, stays on its side of the window's edge for as long as the delay says |
| `GameEvents.PhaseFlips` | src/game/GameEventMgr.cpp:59-65 | at the end of the delay the phase is at the edge of the window or at zero |
| `GameEvents.Rest` | src/game/GameEventMgr.cpp:60-65 | what is left of a window or pause is never nothing |
| `GameEvents.RestFlips` | src/game/GameEventMgr.cpp:59-65 | after the rest the event is on iff it was off, exactly if there is a pause and less than a period of leap days ahead |
| `GameEvents.RestartedIsOn` | src/game/GameEventMgr.cpp:92-97 | after a start with new times the event is on for its window, up to its end - a past end being put its minutes as seconds behind the start |
| `GameEvents.RestartedRunsOut` | src/game/GameEventMgr.cpp:92-97 | so it runs for its whole window iff the old end leaves room; after a past end never, unless minutes wrap |
| `GameEvents.StoppedIsOff` | src/game/GameEventMgr.cpp:108-113 | after a stop with new times the check still calls the event on iff it has leap days or no pause and its end is to come |
| `GameEvents.VisitAllSettles` | src/game/GameEventMgr.cpp:738-766 | after the loop over all events, each one that is enabled and not hardcoded is active iff the check says so |
| `GameEvents.VisitAllSpares` | src/game/GameEventMgr.cpp:738-766 | a hardcoded or disabled event is active after that loop iff it was before |
| `GameEvents.ExecutedInOrder` | src/game/GameEventMgr.cpp:721-737 | what a hardcoded event asks of the scheduler is carried out in order, to the last command |
| `GameEvents.StepsInOrder` | src/game/GameEventMgr.cpp:721-737 | the hardcoded events take their turns in order, each one with the state the one before has left |
| `GameEvents.UpdateTracks` | src/game/GameEventMgr.cpp:721-776 | and stays so at every second of the sleep the update asks for |
| `GameEvents.DelayIsLeast` | src/game/GameEventMgr.cpp:721-776 | the sleep of an update is the least of a day, the delays of the hardcoded events, and NextCheck of the scheduled ones: none is shorter, and one is attained |
| `GameEvents.RunTracks` | src/game/GameEventMgr.cpp:721-776 | in a run of any length in which updates come when asked for, activity agrees with the check at every second but the last one that + 1 adds |
| `GameEvents.ApplyInStep` | src/game/GameEventMgr.cpp:778-818 | starting or stopping an event brings its spawns and quests in step with it and keeps those of all others |
| `GameEvents.StartStopInStep` | src/game/GameEventMgr.cpp:73-114 | the same for the operations with their checks and overwritten times |
| `GameEvents.StartStopExactly` | src/game/GameEventMgr.cpp:73-114 | exactly an event that exists and has a length is started or stopped; with new times a started one begins now, a stopped one its length earlier, its end is put behind its start, and no other event changes |
| `GameEvents.EnableExactly` | src/game/GameEventMgr.cpp:116-153 | only the flag of the event changes, and only when it was the other way; an active event that is no world event is stopped as well, with new times, whichever way the flag goes |
| `GameEvents.InitialSpawnInStep` | src/game/GameEventMgr.cpp:755-765 | the first look at an inactive event spawns what belongs to its absence |
| `GameEvents.VisitAllInStep` | src/game/GameEventMgr.cpp:738-766 | the loop over all events keeps spawns and quests in step |
| `GameEvents.FirstVisitInStep` | src/game/GameEventMgr.cpp:738-766 | after the first loop the negative lists of all events looked at are in step |
| `GameEvents.RunInStep` | src/game/GameEventMgr.cpp:685-776 | over a whole run a guid listed under one event is spawned iff the event is active (or inactive, for negative ids), and quests follow |
| `GameEvents.FirstIdInverts` | src/game/GameEventMgr.cpp:1077-1096 | the signed id found for a guid listed once is the one whose list index it is in |
| `GameEvents.FirstIdSound` | src/game/GameEventMgr.cpp:1077-1096 | the id found is one that lists the guid, and is 0 only when none does |
| `GameEvents.GetGameEventId` | src/game/GameEventMgr.cpp:1077-1096 | the search returns the first listing id |
| `GameEvents.WalkList` | src/game/GameEventMgr.cpp:830-850 | one list is put into the grid or taken out, whatever it held before |
| `GameEvents.GameEventMgr.constructor` | src/game/GameEventMgr.cpp:1109-1113 | a manager starts from what was loaded, not initialised |
| `GameEvents.GameEventMgr.GameEventSpawn` | src/game/GameEventMgr.cpp:820-895 | spawns creatures and objects of a signed id; ids outside the lists change nothing |
| `GameEvents.GameEventMgr.GameEventUnspawn` | src/game/GameEventMgr.cpp:897-972 | unspawns them |
| `GameEvents.GameEventMgr.UpdateEventQuests` | src/game/GameEventMgr.cpp:1036-1049 | the quests of the event are switched, no others |
| `GameEvents.GameEventMgr.ApplyNewEvent` | src/game/GameEventMgr.cpp:796-818 | active set, both spawn lists and quests after a start |
| `GameEvents.GameEventMgr.UnApplyEvent` | src/game/GameEventMgr.cpp:778-794 | and after a stop |
| `GameEvents.GameEventMgr.StartEvent` | src/game/GameEventMgr.cpp:73-98 | a start, with new times when overwriting; unknown ids are refused |
| `GameEvents.GameEventMgr.StopEvent` | src/game/GameEventMgr.cpp:100-114 | a stop, with new times when overwriting |
| `GameEvents.GameEventMgr.EnableEvent` | src/game/GameEventMgr.cpp:116-153 | changes the flag and stops an active event that is disabled, hardcoded ones by their own code |
| `GameEvents.GameEventMgr.UpdateAll` | src/game/GameEventMgr.cpp:721-776 | hardcoded events first, then all others against one clock reading; the delay is the least one plus a second |
| `GameEvents.GameEventMgr.Initialize` | src/game/GameEventMgr.cpp:685-709 | the first update from an empty active set |
| `WarEffort.RowsAreManaged` | src/game/HardcodedEvents.cpp:1401-1425 | the stages' rows hold no event twice and only managed ones, so the reconciling lists are proper sets |
| `WarEffort.RowsByEvent` | src/game/HardcodedEvents.cpp:1401-1425 | each event is on in exactly the stages from its first to its last |
| `WarEffort.StepMoves` | src/game/HardcodedEvents.cpp:1185-1311 | a call never goes back, moves at most one stage, and not before the stage has lasted its time |
| `WarEffort.RunMoves` | src/game/HardcodedEvents.cpp:1185-1311 | over any run the stage only grows, by at most one a call, and takes at least the times of the stages passed |
| `WarEffort.ReadyToGong` | src/game/HardcodedEvents.cpp:1214-1234 | from READY to GONG_WAIT it takes more than five days and ten minutes |
| `WarEffort.BattleToFinal` | src/game/HardcodedEvents.cpp:1269-1288 | the battle lasts longer than both attack times before its last phase |
| `WarEffort.ClockSetBack` | src/game/HardcodedEvents.cpp:1206-1301 | a stage that waits for the clock moves iff its time is over, or, with the clock set back, iff it is not off by almost the whole range: READY, the five moves, both attacks and the last battle |
| `WarEffort.TimesExactly` | src/game/HardcodedEvents.cpp:1206-1301 | the times waited for, in seconds |
| `WarEffort.WaitsForOthers` | src/game/HardcodedEvents.cpp:1206-1308 | the goods end the first stage, a saved or new ring the one before the gong; the one after it ends at once with the time of the gong set, the last never; a time of transition is saved iff the stage moves |
| `WarEffort.RunWaits` | src/game/HardcodedEvents.cpp:1206-1308 | over any run the first stage is left iff the goods come in, and the one before the gong iff somebody rings |
| `WarEffort.ShownAtOnce` | src/game/HardcodedEvents.cpp:1247-1301 | the row shown is that of the stage before the call, but for the open gates and for the end |
| `WarEffort.FlaggedExactly` | src/game/HardcodedEvents.cpp:1528-1547 | the battle at each hive is among those to be started iff its colossus is flagged |
| `WarEffort.Reconcile` | src/game/HardcodedEvents.cpp:1448-1461 | erasing from both lists while iterating leaves exactly the two set differences |
| `WarEffort.DisableAndStopEvent` | src/game/HardcodedEvents.cpp:1518-1525 | one event is inactive and disabled, its times and all other events are as they were |
| `WarEffort.EnableAndStartEvent` | src/game/HardcodedEvents.cpp:1507-1516 | one event is active, and enabled unless it was active before; all others are as they were |
| `WarEffort.DisableAll` | src/game/HardcodedEvents.cpp:1463-1465 | exactly the listed events are disabled and inactive, no other is touched |
| `WarEffort.EnableAll` | src/game/HardcodedEvents.cpp:1467-1478 | exactly the listed events are enabled and active |
| `WarEffort.UpdateStageEvents` | src/game/HardcodedEvents.cpp:1401-1479 | the active managed events are exactly the row of the stage, and only those that differed were touched |
| `WarEffort.ShowStage` | src/game/HardcodedEvents.cpp:1401-1479 | the same, seen from all other events: they are left alone |
| `WarEffort.WarEffortEvent.UpdateVariables` | src/game/HardcodedEvents.cpp:1177-1183 | the variables are those saved |
| `WarEffort.WarEffortEvent.UpdateStageTransitionTime` | src/game/HardcodedEvents.cpp:1364-1368 | the time of the transition is kept and saved |
| `WarEffort.WarEffortEvent.CompleteWarEffort` | src/game/HardcodedEvents.cpp:1383-1399 | exactly the four events are inactive and disabled, all else is as it was, the last stage is saved |
| `WarEffort.WarEffortEvent.UpdateHiveColossusEvents` | src/game/HardcodedEvents.cpp:1528-1547 | exactly the battles at the hives whose colossus is flagged are active, too, with new times if they were not before; no other event changes |
| `WarEffort.WarEffortEvent.OpenGates` | src/game/HardcodedEvents.cpp:1247-1268 | the gong opens the gates: the battle's stage and events, at once |
| `WarEffort.WarEffortEvent.UpdateFinalBattle` | src/game/HardcodedEvents.cpp:1289-1301 | ten hours after the gong the last stage and its events, at once |
| `WarEffort.WarEffortEvent.UpdateStage` | src/game/HardcodedEvents.cpp:1206-1308 | every stage moves as the step function says and shows the right row |
| `WarEffort.WarEffortEvent.Update` | src/game/HardcodedEvents.cpp:1185-1311 | a whole call: one step of the saved variables; the managed events are the row shown; of all others the main event and the flagged battles are on, or, once complete, they and the gate are off and disabled |
| `Invasion.ElementalInvasion.StartLocalInvasion` | src/game/HardcodedEvents.cpp:103-107 | starts the rifts of a place, no others |
| `Invasion.ElementalInvasion.StartLocalBoss` | src/game/HardcodedEvents.cpp:109-118 | a boss comes only in his stage |
| `Invasion.ElementalInvasion.StopLocalInvasion` | src/game/HardcodedEvents.cpp:120-137 | rifts go when the boss is down, the boss when his delay has run out |
| `Invasion.ElementalInvasion.ResetThings` | src/game/HardcodedEvents.cpp:139-155 | every place is set back |
| `Invasion.ElementalInvasion.Update` | src/game/HardcodedEvents.cpp:19-76 | an update between invasions starts one in time, one during it deals with every place and ends it when nothing is left |
| `Invasion.BeginsExactly` | src/game/HardcodedEvents.cpp:31-51 | an invasion begins with the first update after its time: the rift is on wherever the boss is not down, and the boss where he has come or can still be looted; nothing else changes |
| `Invasion.GoesOnExactly` | src/game/HardcodedEvents.cpp:52-155 | what an update during an invasion does at each place, and that it is the last iff no place had any delay left |
| `Invasion.EndLeavesNothing` | src/game/HardcodedEvents.cpp:52-74 | the end of an invasion leaves nothing on iff every place has its boss down, or nothing on and no boss due |
| `Invasion.RunStaysSane` | src/game/HardcodedEvents.cpp:19-155 | over any sequence of updates, growing rifts, deaths of bosses and restarts, stages, delays and running events of all places agree, and between invasions nothing is on |
| `Invasion.EndsOnlyWhenDown` | src/game/HardcodedEvents.cpp:52-74 | in any such run an update ends the invasion only with all bosses down and all delays gone; then nothing is on, all is set back, and the next one is two to four days off |
| `Invasion.PauseLasts` | src/game/HardcodedEvents.cpp:31-51 | until an update comes after the time set, nothing happens, restarts or not |
| `Invasion.InvasionsAreApart` | src/game/HardcodedEvents.cpp:19-76 | between two invasions an update comes more than two days after the first has ended |
| `Invasion.DelaysRunOut` | src/game/HardcodedEvents.cpp:120-137 | with all bosses down every delay falls by one with each update that finds the invasion on, and dead bosses lie until theirs has run out, whatever else happens |
| `Invasion.EndsInTime` | src/game/HardcodedEvents.cpp:19-76 | from then on the invasion is over iff more such updates have come than the longest delay, whatever the clock, the dice, the players and restarts do |
| `Invasion.FirstInvasionIsCutShort` | src/game/HardcodedEvents.cpp:19-76 | with variables never saved the first invasion is over at its second update and something is left on |
| `Honor.GetStandingCPByPosition` | src/game/HonorMgr.cpp:32-43 | the points of the one at a position, none outside the list |
| `Honor.GenerateBRK` | src/game/HonorMgr.cpp:436-477 | the last position of each share of the list, rounded |
| `Honor.GenerateFX` | src/game/HonorMgr.cpp:491-526 | the breakpoints: the mean around each group's end; the best score at the first empty one (unless that is the lowest), or last when none is empty |
| `Honor.GenerateFY` | src/game/HonorMgr.cpp:479-489 | the rank points of the curve's points |
| `Honor.GenerateScores` | src/game/HonorMgr.cpp:432-529 | the three arrays together, for any non-empty list |
| `Honor.GroupEndsFall` | src/game/HonorMgr.cpp:436-477 | higher groups end at higher places, in both patches |
| `Honor.GroupEndsExactly` | src/game/HonorMgr.cpp:436-477 | each group ends at the position nearest to its share of the list; the shares, as positions among a thousand |
| `Honor.BreakpointIsBetween` | src/game/HonorMgr.cpp:491-526 | where players with points stand on both sides of all breakpoints, each is half way between its two, and the last is the best score |
| `Honor.ScoresExactly` | src/game/HonorMgr.cpp:479-526 | the points of all 15 breakpoints, and that the lowest is at 0 when nobody with points stands there |
| `Honor.BreakpointsRise` | src/game/HonorMgr.cpp:432-529 | for a sorted list the breakpoints do not fall up to the first empty one |
| `Honor.ScoresAreUsable` | src/game/HonorMgr.cpp:432-529 | generated scores meet what the earning needs of its arrays |
| `Honor.StopIndexPositive` | src/game/HonorMgr.cpp:531-544 | the search stops at the first point, where the one before would be read, iff the points are negative |
| `Honor.CalculateRpEarning` | src/game/HonorMgr.cpp:531-544 | the loop finds its segment and interpolates without leaving the arrays or dividing by zero |
| `Honor.EarningBracket` | src/game/HonorMgr.cpp:531-544 | what is earned lies between the rank points of the neighbouring curve points, in 0 to 13000 |
| `Honor.EarningIsLinear` | src/game/HonorMgr.cpp:531-544 | between the breakpoint passed last and the next, what is earned lies on the straight line through their rank points |
| `Honor.EarningAtBreakpoint` | src/game/HonorMgr.cpp:531-544 | at a breakpoint below the next exactly its rank points are earned, and at the last |
| `Honor.EarningPastTheEnd` | src/game/HonorMgr.cpp:531-544 | past an empty breakpoint where the search stops its rank points are |
| `Honor.EarningMonotone` | src/game/HonorMgr.cpp:531-544 | more contribution points never earn fewer rank points, across segments and on falling curves too |
| `Honor.BestEarnsMost` | src/game/HonorMgr.cpp:432-544 | with no empty breakpoint the best score earns all 13000 |
| `Honor.CapGrows` | src/game/HonorMgr.cpp:560-575 | the cap of a level does not fall with the level and ends at 65000 |
| `Honor.CapsExactly` | src/game/HonorMgr.cpp:560-575 | the cap below level 30, at 30 and 60, and what each level of each band adds |
| `Honor.WeekExactly` | src/game/HonorMgr.cpp:546-558 | the change of a week: with n the whole number nearest to a fifth of the points, all that is earned beyond n, or half of what is missing, at most 2500 |
| `Honor.CappedExactly` | src/game/HonorMgr.cpp:135-167 | after a week played the points are at the cap of the level, or where the week leaves them when that is not above it |
| `Honor.WeekInRange` | src/game/HonorMgr.cpp:546-558 | a week keeps points in 0 to 65000, takes at most 2500 and gives at most what was earned |
| `Honor.WeeksInRange` | src/game/HonorMgr.cpp:135-181 | so does any number of weeks, played or idle, and a week played ends under the cap |
| `Honor.IdleWeek` | src/game/HonorMgr.cpp:169-181 | an idle week takes half a point or more from 2.5 points on, and nothing below |
| `Honor.IdleFades` | src/game/HonorMgr.cpp:169-181 | after twice as many idle weeks as points fewer than 2.5 are left |
| `Honor.RankExactly` | src/game/HonorMgr.cpp:953-985 | which positive points carry which rank, both ways |
| `Honor.NegativeRankExactly` | src/game/HonorMgr.cpp:953-985 | the same for negative points, with rank 0 exactly at -15000 |
| `Honor.BracketExactly` | src/game/HonorMgr.cpp:932-985 | the bracket and the sign shown with each rank |
| `Honor.RankMonotone` | src/game/HonorMgr.cpp:953-985 | more points never carry a lower rank |
| `Honor.RankBracket` | src/game/HonorMgr.cpp:932-985 | the bracket shown with a rank holds the size of the points in exactly these cases |
| `Honor.SortSorts` | src/game/HonorMgr.cpp:127-129 | the lists come out in falling order, with the same entries |
| `Honor.SelectMirrors` | src/game/HonorMgr.cpp:102-125 | each list holds exactly the players of its side, once, with their points |
| `Honor.SortMirrors` | src/game/HonorMgr.cpp:127-129 | sorting keeps that |
| `Honor.DistributeFrame` | src/game/HonorMgr.cpp:145-166 | who is not listed is not touched |
| `Honor.DistributeAt` | src/game/HonorMgr.cpp:145-166 | every listed player is scored once, with the place as standing |
| `Honor.FairWeek` | src/game/HonorMgr.cpp:135-167 | who stands higher has not earned less, and all land in range and under the cap of their level |
| `Honor.PassesCompose` | src/game/HonorMgr.cpp:257-290 | the passes over three lists without common players give each player the week of the own side, by its list and curve |
| `Honor.WeekDoneInRange` | src/game/HonorMgr.cpp:257-290 | a whole maintenance leaves everyone in range, under the cap if active, with no more if inactive |
| `Honor.WeekIsFair` | src/game/HonorMgr.cpp:257-290 | of two players on one side, who has contributed no less has earned no less |
| `Honor.HonorMaintenancer.LoadStandingLists` | src/game/HonorMgr.cpp:102-133 | three lists from the weekly scores, in whatever order the hash map yields them |
| `Honor.HonorMaintenancer.DistributeRankPoints` | src/game/HonorMgr.cpp:135-167 | one side's scores after distribution; an empty list changes nothing |
| `Honor.HonorMaintenancer.InactiveDecayRankPoints` | src/game/HonorMgr.cpp:169-181 | exactly the inactive players decay |
| `Honor.HonorMaintenancer.DoMaintenance` | src/game/HonorMgr.cpp:257-290 | every player is dealt with exactly once: by the curve and the place of the own side, or by decay |
| `Loot.BumpWraps` | src/game/LootMgr.cpp:468-481 | counting up a byte is counting modulo 256 |
| `Loot.IndexesExactly` | src/game/LootMgr.cpp:563-657 | a player's free-for-all and conditional lists hold exactly the allowed items of their kind |
| `Loot.QuestIndexesExactly` | src/game/LootMgr.cpp:589-625 | the quest list holds the first allowed ones; one is left out only when there is no room |
| `Loot.FFAWalkExact` | src/game/LootMgr.cpp:563-587 | going through the items lists those and counts each once |
| `Loot.ConditionalWalkExact` | src/game/LootMgr.cpp:627-657 | lists the conditional ones and counts only those not counted for someone before |
| `Loot.QuestWalkAdded` | src/game/LootMgr.cpp:589-625 | the quest walk counts free-for-all ones for each player and shared ones once |
| `Loot.QuestWalkItems` | src/game/LootMgr.cpp:589-625 | and blocks exactly what it lists |
| `Loot.Roll` | src/game/LootMgr.cpp:1068-1105 | one throw decides among the chanced entries of a group, the first it reaches; another the choice among the equal ones that suit, if none was reached; nothing iff there is none of either |
| `Loot.Loot.FillFFALoot` | src/game/LootMgr.cpp:563-587 | list and counter after the free-for-all items of a player |
| `Loot.Loot.FillQuestLoot` | src/game/LootMgr.cpp:589-625 | list, blocked items and counter after the quest items of a player |
| `Loot.Loot.ListQuestItems` | src/game/LootMgr.cpp:594-616 | the loop of it, which stops when no slot is left |
| `Loot.Loot.FillNonQuestNonFFAConditionalLoot` | src/game/LootMgr.cpp:627-657 | list, counted items and counter after the conditional items of a player |
| `Loot.Loot.FillNotNormalLootFor` | src/game/LootMgr.cpp:543-561 | the three, each once for a player |
| `Loot.Loot.AddItem` | src/game/LootMgr.cpp:457-481 | at most 16 items and 32 quest items; plain ones are counted at once |
| `Loot.Loot.ProcessGroup` | src/game/LootMgr.cpp:1132-1137 | a group adds exactly what it drops |
| `Loot.Loot.Process` | src/game/LootMgr.cpp:1218-1252 | over acyclic references, looked up in the store of references, rolling ends and adds exactly what drops with these throws, in order |
| `Loot.Loot.ProcessEntry` | src/game/LootMgr.cpp:266-283 | one entry, plain or a reference, maybe to nothing: it takes a throw unless it is certain |
| `Loot.Loot.ProcessReference` | src/game/LootMgr.cpp:1235-1244 | a reference rolled as often as its maximum says |
| `Loot.DropsAreOffered` | src/game/LootMgr.cpp:1218-1252 | whatever is thrown, nothing drops that cannot be reached through the templates |
| `Loot.DropsBetween` | src/game/LootMgr.cpp:1068-1252 | whatever is thrown, each entry drops at least as often as it is certain to and at most as often as it is offered, both counted over the templates: once where it stands, times the maximum of each reference |
| `Loot.LuckyOnesDrop` | src/game/LootMgr.cpp:266-283 | of plain entries exactly those drop, in order, that are certain or whose chance is above the throw made for them |
| `Loot.AlwaysIsDropped` | src/game/LootMgr.cpp:1068-1105 | a group whose first suitable entry is certain, or whose only choice is one entry, drops it whatever is thrown |
| `Loot.GroupDropsExactly` | src/game/LootMgr.cpp:1055-1105 | a group drops the first chanced entry that suits the team and is certain or has the throw in its share, the shares of the suited ones lying behind each other; if there is none, one of the equal ones, of those that suit the team where some have conditions and it is not a loot of both sides |
| `Loot.FreshHolds` | src/game/LootMgr.cpp:457-481 | a fresh loot holds the first sixteen ordinary items added and the first thirty-two for quests, in order |
| `Loot.CertainIsThere` | src/game/LootMgr.cpp:457-1252 | so what is certain to drop is in the loot if there is room for all that drops of its sort |
| `Loot.GroupHasQuestDrop` | src/game/LootMgr.cpp:1108-1117 | true iff some entry of the group needs a quest |
| `Loot.HasQuestDrop` | src/game/LootMgr.cpp:1255-1284 | true iff an entry that needs a quest can be reached from the template, through references into the store it is given |
| `Loot.QuestSearchExactly` | src/game/LootMgr.cpp:1218-1284 | the search in the template's own store agrees with what rolling can add iff the template has a quest item itself, or its references lead to some in both stores or in neither |
| `Loot.SameBelowAgrees` | src/game/LootMgr.cpp:1218-1284 | so they do if both stores hold the same under every id that can be reached: then they reach the same items |
| `Loot.ReferencesAreMissed` | src/game/LootMgr.cpp:1255-1284 | where the references are not in the template's own store the search finds its own quest items only, and is wrong iff just its references lead to some |
| `Loot.QuestDropIsMissed` | src/game/LootMgr.cpp:199-207 | an input: a creature whose loot is a reference to a quest item |
| `Loot.AddEntryAdds` | src/game/LootMgr.cpp:1205-1215 | a loaded entry is put where rolling finds it, behind the others of its group with or without a chance, and nothing else changes but that empty groups are there up to its own |
| `Loot.AddAllKeeps` | src/game/LootMgr.cpp:457-481 | adding keeps the limits, counts plain items exactly, and gives quest items only from entries that need a quest |
| `Loot.FillForAllKeeps` | src/game/LootMgr.cpp:505-527 | for any players in any order, each possible take is counted exactly once: plain items, free-for-all entries of each player, listed quest and conditional items |
| `Loot.OrderIrrelevant` | src/game/LootMgr.cpp:505-527 | two orders of the same players give the same lists and the same counter |
| `Loot.FillLoot` | src/game/LootMgr.cpp:484-530 | from a fresh loot to one that holds what drops, up to its room, and is filled and counted exactly, with quest items only if one can be reached through the store of references; without a template nothing happens |
| `Loot.CounterExact` | src/game/LootMgr.cpp:457-655 | the counter is the number of takes modulo 256, and the number itself iff that is below 256 |
| `Loot.LootItemInSlot` | src/game/LootMgr.cpp:737-798 | an item is found iff the slot is one of the player's and has not been taken; which one, and whose entry |
| `Loot.FindEntry` | src/game/LootMgr.cpp:760-790 | the first entry of the player's list for the slot |
| `Loot.NothingIsTaken` | src/game/LootMgr.cpp:737-798 | in a loot as filled every slot of every player leads to something |
| `Loot.TakenExactly` | src/game/LootMgr.cpp:737-790 | what everybody gets is taken iff the first entry of the player for the slot says so, and the item if there is none; what has a condition iff either says so; anything else iff the item does |
| `Loot.QuestSlotTakenExactly` | src/game/LootMgr.cpp:737-804 | behind the items there are as many slots as the player has quest entries, each taken iff the entry or its item is |
| `Loot.SlotsInjective` | src/game/LootMgr.cpp:737-804 | a player has at most 16 slots, each leads to an item there is and no two to the same |
| `DumpText.FindNthField` | src/game/PlayerDump.cpp:94-120 | on any line the search ends iff the first quote behind the start of the first field is not escaped; then it finds what the specification says, going on four characters behind each escaped quote of a later field |
| `DumpText.NextField` | src/game/PlayerDump.cpp:110-118 | the search for one more field |
| `DumpText.FoundFrom` | src/game/PlayerDump.cpp:94-120 | as long as each field is found from its beginning, the n-th search from any field on finds the place where the n-th field further on was printed, and past the last there is none |
| `DumpText.FirstFieldExactly` | src/game/PlayerDump.cpp:94-97 | the first field is searched behind the first place where values begin, and from position 8 in a line that has none |
| `DumpText.PlaceIsHit` | src/game/PlayerDump.cpp:132-155 | at the place of a field, whatever the other fields are, its text is read, and replacing it or putting something in front of it prints the changed row |
| `DumpText.PrintThenFind` | src/game/PlayerDump.cpp:94-155 | printing and parsing agree on each column up to which the row is clean, any fields and nulls behind it: the search ends, table name, field, replacing and inserting, and failure beyond the row |
| `DumpText.FoundIsClean` | src/game/PlayerDump.cpp:94-155 | whatever the line, what is found has no quote and does not end with a backslash |
| `DumpText.FieldsAreFoundExactly` | src/game/PlayerDump.cpp:94-155 | printing and parsing agree on the first n fields of a row iff each of them is such a text, and no null |
| `DumpText.EscapedIsClean` | src/game/PlayerDump.cpp:223-229 | an escaped text is such iff the text itself was |
| `DumpText.EscapedReadsBack` | src/game/PlayerDump.cpp:223-229 | an escaped text comes back as it was when the database reads it, and holds no end of line, so a printed row stays one line of the dump |
| `DumpText.CreateDumpString` | src/game/PlayerDump.cpp:209-234 | the line printed for a row of a query is that of its escaped fields, nulls included |
| `DumpText.EscapedRowIsClean` | src/game/PlayerDump.cpp:215-229 | escaping leaves a row with nulls clean exactly as far as it was |
| `DumpNulls.NullsDecide` | src/game/PlayerDump.cpp:94-120 | in any row of clean texts and nulls that begins with a text, the n-th search finds the k-th field where it was printed iff counting leads there: a null takes no search, the text behind nulls two, or one if it is shorter than three characters and the next search goes past it |
| `DumpNulls.ReachedIsChanged` | src/game/PlayerDump.cpp:132-166 | and where counting leads to a field, it is read and replaced under that number |
| `DumpNulls.BehindANull` | src/game/PlayerDump.cpp:94-120 | all fields before the first null are found under their numbers, the text next to it never is, and the one behind that is iff the text between has three characters or more |
| `DumpText.AtoiToString` | src/game/PlayerDump.cpp:172-194 | a number printed is the number read, and a clean field |
| `PlayerDump.RegisterNewGuid` | src/game/PlayerDump.cpp:172-181 | a registered id has a new one |
| `PlayerDump.RegisterRenames` | src/game/PlayerDump.cpp:172-181 | registering keeps the map one to one and onto the ids from the next free one on, and every id given before |
| `PlayerDump.ActAgrees` | src/game/PlayerDump.cpp:132-194 | where the first columns can be found and replaced in the text, editing one of them in the text is editing the row it prints: a renaming or a new value, done or failed |
| `PlayerDump.LinesAreFaithful` | src/game/PlayerDump.cpp:132-234 | printed lines are such texts, as far as the row is clean |
| `PlayerDump.ActAllAgrees` | src/game/PlayerDump.cpp:560-710 | the same for all edits of a line |
| `PlayerDump.ActAllDone` | src/game/PlayerDump.cpp:560-710 | all edits of a line take effect and no other field changes |
| `PlayerDump.LoadAgrees` | src/game/PlayerDump.cpp:535-710 | loading a line of any table, pets too, is loading its row, if this is clean up to the last column the load may touch, whatever stands behind; unknown tables and pets not seen before break the dump |
| `PlayerDump.LoadDump` | src/game/PlayerDump.cpp:506-725 | the loop over the lines, with blank lines, notes and guards, stopping at one that is broken or on which a search does not end; then the generators are set |
| `PlayerDump.DumpAgrees` | src/game/PlayerDump.cpp:506-718 | loading the text of a whole dump of such lines - notes, blank lines, guards and rows with nulls behind - is loading its rows |
| `PlayerDump.WrittenIsGood` | src/game/PlayerDump.cpp:383-425 | a dump as written, with its notes and guard, is one to which this applies, with exactly its rows |
| `PlayerDump.DumpRenames` | src/game/PlayerDump.cpp:506-725 | over a whole dump each kind of id is renamed by one map, one to one onto the next free ids, in every line and table; every line names the new character; all other columns are as they were; what pets have follows their new numbers, which their own lines bear if no two are about one pet; the line of a character follows as said below, and guards and rows are carried out in order |
| `PlayerDump.PetLinesFollow` | src/game/PlayerDump.cpp:638-660 | with one line for each pet, each of these bears the new number of its pet, and only pets that have had theirs have one |
| `PlayerDump.CharacterLinesFollow` | src/game/PlayerDump.cpp:567-602 | the line of a character bears the new account; with a name given it bears that; without one it keeps its own, and is marked to be renamed iff that is in use; a further such line gets the name of the first |
| `PlayerDump.KeptLinesFollow` | src/game/PlayerDump.cpp:506-560 | what is carried out are the lines that are no notes and not blank, in order: guards as they are, rows changed |
| `PlayerDump.LoadsExactly` | src/game/PlayerDump.cpp:535-718 | a dump loads iff each row is of one of the tables, has the columns its table needs (of a character also the one for the name, or for the mark, that is put in), and what a pet has comes behind the line of the pet |
| `PlayerDump.PetsSeenExactly` | src/game/PlayerDump.cpp:638-676 | after any lines exactly the pets that have had their own line have a number |
| `PlayerDump.PetNumbersFollow` | src/game/PlayerDump.cpp:493-660 | where each line about a pet itself says which, a pet gets with its first line the number the server gives when asked as often as such lines have gone over to another pet: none is skipped, none given twice |
| `PlayerDump.TablesExactly` | src/game/PlayerDump.cpp:43-68 | which tables belong to a dump, and what each holds |
| `PlayerDump.WrittenDumpLoads` | src/game/PlayerDump.cpp:209-725 | what the server has written from the rows of its queries, escaped, with nulls behind the columns in use, it loads again as text, all as said of a whole dump, iff the rows fit, and refuses as broken otherwise |
| `PlayerDump.PetIsNumbered` | src/game/PlayerDump.cpp:638-660 | a pet that is new gets a number nobody has, the one written into its line |
| `PlayerDump.PetNumberExactly` | src/game/PlayerDump.cpp:638-660 | the number written into a pet's own line is its own iff the pet is new, or the last such line was about it and the number kept in the buffer is still its own |
| `PlayerDump.SecondLineOfAPet` | src/game/PlayerDump.cpp:638-676 | an input: lines of pets 5 and 6, of a spell of pet 5, and again of pet 6, the last of which gets the number of pet 5 |
| `PlayerDump.PetsStayNumbered` | src/game/PlayerDump.cpp:638-676 | lines about pets keep the numbers one to one and those given before |
| `PlayerDump.PetsAreDistinct` | src/game/PlayerDump.cpp:638-676 | over a whole dump different pets get different numbers |
| `PlayerDump.ReferencesPreserved` | src/game/PlayerDump.cpp:506-725 | of two references anywhere in the dump the new ids are equal iff the old ones were, and lie below where the generator ends up |
| `Cameras.WorldObject.Attach` | src/game/Camera.h:92 | a camera joins a viewpoint's list at the end |
| `Cameras.WorldObject.Detach` | src/game/Camera.h:93 | a camera is removed from it wherever it is |
| `Cameras.Camera.constructor` | src/game/Camera.cpp:29-32 | a camera starts at its owner and in the owner's list |
| `Cameras.RemoveCounts` | src/game/Camera.h:93 | removal takes out all occurrences of one camera and none of the others |
| `Cameras.ListsOnce` | src/game/Camera.h:83-105 | in a consistent world a list holds each camera once, and only those looking from there |
| `Cameras.SourcesDecide` | src/game/Camera.h:83-105 | which list a camera is in is decided by its source, both ways |
| `Cameras.NewCamera` | src/game/Camera.cpp:29-32 | a new camera keeps the world consistent |
| `Cameras.SetView` | src/game/Camera.cpp:58-94 | a camera changes lists iff it may look from the object and is not there yet; the world stays consistent: every camera once in the list of its source, and elsewhere than at its owner only on the owner's map |
| `Cameras.Leave` | src/game/Camera.cpp:77-80 | a camera that leaves its list is in none, and all else is as it was |
| `Cameras.Enter` | src/game/Camera.cpp:82-92 | entering the list of its source completes the move |
| `Cameras.Handle` | src/game/Camera.cpp:96-131 | what each event does to one camera: back at its owner, or still there with its grid |
| `Cameras.FollowingAt` | src/game/Camera.h:99-103 | the place the iterator has been moved on to, behind a camera that is in the list once |
| `Cameras.Standing` | src/game/Camera.h:99-103 | what the list is around that place before and after the camera leaves |
| `Cameras.CallOne` | src/game/Camera.h:99-103 | one turn of the loop, in which the camera may leave the list gone through |
| `Cameras.CallAll` | src/game/Camera.h:95-105 | the loop ends and calls every camera of the list once |
| `Cameras.CameraCall` | src/game/Camera.h:95-105 | each camera that was in the list is left as the event says, every other one as it was |
| `Cameras.EventAddedToWorld` | src/game/Camera.h:115-119 | all viewers are linked to the new grid |
| `Cameras.EventRemovedFromWorld` | src/game/Camera.h:121-125 | only the object's own camera stays; every other one is back at its owner, and no object has come, gone or changed its map |
| `Cameras.EventGridChanged` | src/game/Camera.h:127-131 | all viewers move to the new grid |
| `Cameras.EventVisibilityChanged` | src/game/Camera.h:133-136 | exactly the cameras of those who no longer see the object, but for its own, are back at their owners; no object has moved |
| `Cameras.AddToWorld` | src/game/Maps/Map.cpp:370-388 | an object comes into the world with none but its own camera, which enters its grid |
| `Cameras.RemoveFromWorld` | src/game/Objects/Player.cpp:2364-2400 | an object leaves the world after its camera has come back: nobody looks from it but its own player |
| `Cameras.DeleteCamera` | src/game/Camera.cpp:34-41 | a camera back at its owner leaves no list with it in it |
| `Conditions.RequirementsAreExact` | src/game/Conditions.cpp:47-110 | for every kind and every mix of missing arguments, the required arguments are exactly those the evaluation uses |
| `Conditions.MoreFuel` | src/game/Conditions.cpp:113-135 | an outcome once reached does not depend on the bound on nesting |
| `Conditions.FuelIsEnough` | src/game/Conditions.cpp:113-135 | whatever larger bound is used |
| `Conditions.EveryEntryAnswers` | src/game/Conditions.cpp:113-589 | in a table whose references can be ranked every entry has a value after at most its rank of nestings: no missing entry, pointer or wrong cast on the way, however targets are swapped |
| `Conditions.SoundExactly` | src/game/Conditions.cpp:113-589 | a table can be ranked iff nothing it refers to is missing and its references run in no circle |
| `Conditions.BackwardIsSound` | src/game/Conditions.cpp:668-741 | above all when all references lead backwards |
| `Conditions.CombinationMeans` | src/game/Conditions.cpp:137-589 | the value of a combining entry is whether some asked entry settles it, turned round as the flag says |
| `Conditions.BadArgumentsAreFalse` | src/game/Conditions.cpp:118-126 | with bad arguments, after a swap if the flag says so, an entry is false, whatever its other flag says |
| `Conditions.OrdinaryMeans` | src/game/Conditions.cpp:118-135 | an entry that asks no other is what the world says of its arguments, swapped if the flag says so, turned round as the other flag says; the empty one is always met |
| `Conditions.SwapMeans` | src/game/Conditions.cpp:118-119 | an entry with the flag to swap, unless it is asked again on the way, answers as one without it does when target and source have changed places |
| `Conditions.TruthAt` | src/game/Conditions.cpp:113-135 | the value does not depend on the ranking or the bound on nesting |
| `Conditions.ConnectivesMean` | src/game/Conditions.cpp:118-160 | NOT, OR and AND mean what they say about the entries they refer to, asked with the arguments swapped if the flag says so |
| `Conditions.RedirectionsMean` | src/game/Conditions.cpp:502-587 | an entry about event targets is about all that still exist, one about a game object holds only when it is there; the map is the one given, or that of the source, or of the target |
| `Conditions.LoadConditions` | src/game/ObjectMgr.cpp:10872-10889 | the table that loading leaves is sound iff no redirection misses its target and no references run in a circle; always if they led backwards |
| `Conditions.LoadedResolves` | src/game/ObjectMgr.cpp:10872-10889 | what is kept refers to entries before that are kept, but for redirections forward |
| `Conditions.ValidIsResolved` | src/game/Conditions.cpp:668-1224 | the validation of one entry against the table as it is by then |
| `Conditions.LoadedExactly` | src/game/Conditions.cpp:668-1224 | which entries are in the loaded table, both ways, and what each has become: connectives with all they refer to before them and kept, redirections with a target that is kept or still to come, others with fitting values |
| `Conditions.DisabledIsUnmet` | src/game/Conditions.h:311 | a condition on content of a later patch counts as not met, with its flag as before |
| `Conditions.CircleNeverAnswers` | src/game/Conditions.cpp:1101-1135 | entries that ask each other about objects that are there never have a value |
| `Conditions.SelfReference` | src/game/Conditions.cpp:1120-1135 | an entry about a game object may refer to itself; it has a value iff the object is not there |
| `Conditions.MissingTargetIsKept` | src/game/Conditions.cpp:1101-1135 | loading keeps a redirection without its target iff the target stood behind it and was dropped |
| `Conditions.MissingTargetFaults` | src/game/Conditions.cpp:502-587 | such a redirection looks it up in vain iff there is something to ask it; otherwise it has a value |
| `MapFile.Widen` | contrib/extractor/System.cpp:441-449 | the range takes in a grid and reaches no further |
| `MapFile.HeightRange` | contrib/extractor/System.cpp:439-458 | the running minimum and maximum over both grids |
| `MapFile.LimitHeights` | contrib/extractor/System.cpp:460-475 | no height stays below the limit, the others are kept, and the range is still that of the heights |
| `MapFile.QuantiseIsAccurate` | contrib/extractor/System.cpp:513-533 | a stored integer fits its bits, and read back it is off by half a step at most |
| `MapFile.QuantiseEnds` | contrib/extractor/System.cpp:513-533 | the ends of the range are stored exactly |
| `MapFile.QuantiseKeepsOrder` | contrib/extractor/System.cpp:513-533 | higher places are not stored lower |
| `MapFile.PackingIsFine` | contrib/extractor/System.cpp:498-511 | half a step is at most 2/510 for bytes and 2048/131070 for words |
| `MapFile.KindExactly` | contrib/extractor/System.cpp:486-511 | how many bytes a height takes, by the range and whether integers are allowed, and that the integers of a kind use all values of their bytes |
| `MapFile.PackHeights` | contrib/extractor/System.cpp:513-533 | a whole grid as integers of 8 or 16 bits |
| `MapFile.VisitSquare` | contrib/extractor/System.cpp:707-718 | a shown square is taken into the box and its height into the range, elsewhere the liquid is lowered |
| `MapFile.LiquidBox` | contrib/extractor/System.cpp:699-720 | the box holds every shown square and its height, and reaches no further: each side touches a shown square, and each end of the range is the height of one, but for what it starts from |
| `MapFile.RectangleIsInside` | contrib/extractor/System.cpp:727-752 | the rectangle, cut to bytes, is inside the grid iff some square shows liquid |
| `MapFile.FlatExactly` | contrib/extractor/System.cpp:733-738 | liquid heights are left out where there is one only, or, with integers allowed, where the range is below 0.001 |
| `MapFile.StoreArea` | contrib/extractor/System.cpp:785-788 | the area section as written |
| `MapFile.StoreHeights` | contrib/extractor/System.cpp:790-809 | the height section as written |
| `MapFile.StoreLiquid` | contrib/extractor/System.cpp:811-825 | the liquid section as written |
| `MapFile.Store` | contrib/extractor/System.cpp:777-830 | the writes one after the other are the file |
| `MapFile.SectionSizes` | contrib/extractor/System.cpp:348-763 | every section is as long as the header says, for every mix of sections |
| `MapFile.SectionsAreWhereDeclared` | contrib/extractor/System.cpp:755-830 | every section stands at its offset, they follow one another, and the file ends with the last |
| `MapFile.ReadAt` | src/game/Maps/GridMap.cpp:73-100 | values are read back where they were written, whatever stands around them |
| `MapFile.ShiftedReadFails` | src/game/Maps/GridMap.cpp:73-100 | from the middle of a value nothing is read |
| `MapFile.LoadReadsWhatWasStored` | src/game/Maps/GridMap.cpp:73-233 | the server's loader, following the offsets and flags of the file, reads what was stored |
| `MapFile.NeedsFull` | contrib/extractor/System.cpp:331-346 | every cell needs its own area iff one differs from the first |
| `MapFile.NeedsTypes` | contrib/extractor/System.cpp:669-686 | every cell needs its own liquid iff one differs from the first in type or flags |
| `MapFile.NoLiquidExactly` | contrib/extractor/System.cpp:669-692 | no liquid is stored iff no cell has flags and all have the same entry |
| `MapFile.RowsOf` | contrib/extractor/System.cpp:820-824 | a rectangle is written row by row |
| `MapFile.HeightValues` | contrib/extractor/System.cpp:493-536 | the server knows every height of a grid up to the tolerance of how it is stored |
| `MapFile.ToleranceIsSmall` | contrib/extractor/System.cpp:486-511 | which is never more than 2048/131070, and nothing when integers are not allowed |
| `MapFile.ConvertAreas` | contrib/extractor/System.cpp:331-363 | the area of every cell can be told from what is stored |
| `MapFile.ConvertHeights` | contrib/extractor/System.cpp:436-536 | range, limit, kind and values of the heights together |
| `MapFile.LiquidLevels` | contrib/extractor/System.cpp:820-824 | the levels written are those of the rectangle's corners |
| `MapFile.LevelsFromRectangle` | src/game/Maps/GridMap.cpp:470-488 | from them the server finds the level at every square that shows liquid |
| `MapFile.LevelledLiquid` | contrib/extractor/System.cpp:731-738 | so it does from a single level where the liquid is flat, to within 0.001 |
| `MapFile.TypedLiquid` | contrib/extractor/System.cpp:740-749 | the type of every cell can be told from what is stored |
| `MapFile.ConvertLiquid` | contrib/extractor/System.cpp:669-753 | liquid is stored iff there is any, and then type and level are known wherever it shows |
| `MapFile.ConvertADT` | contrib/extractor/System.cpp:331-830 | from the grid through the file to the server: area, liquid and height are answered as in the grid, up to the tolerances |
| `PosSelector.SmallStepDescends` | src/game/ObjectPosSelector.h:106-136 | a small step leaves fewer steps up to half a turn, or sticks |
| `PosSelector.AdvanceDescends` | src/game/ObjectPosSelector.cpp:121-161 | going on along one side brings the enumeration nearer to its end |
| `PosSelector.AttemptDescends` | src/game/ObjectPosSelector.cpp:121-161 | so does every attempt, in the order of positions left, sides stuck and small steps left |
| `PosSelector.NextAngleFrom` | src/game/ObjectPosSelector.cpp:94-106 | the search ends for any used positions and any positive step, and fails only when both sides are used up |
| `PosSelector.NextUsedFrom` | src/game/ObjectPosSelector.cpp:108-119 | the search for used positions succeeds iff one is left, and then passes exactly one |
| `PosSelector.ZeroStepStandsStill` | src/game/ObjectPosSelector.cpp:28-32 | with a step of zero, against which the constructor guards, the next candidate would be the same for ever, whatever the used positions |
| `PosSelector.StepsFromTheStart` | src/game/ObjectPosSelector.h:106-136 | every small step from the original direction within half a turn and the limit its side has kept is a candidate, whatever positions are in use |
| `PosSelector.CandidatesAreJustified` | src/game/ObjectPosSelector.cpp:94-161 | every candidate of an enumeration is such a step, or the place behind a used position of its side, or a small step from there, clear of the next position |
| `PosSelector.CandidatesExactly` | src/game/ObjectPosSelector.cpp:72-161 | an angle is a candidate iff it is one of those: every used position of a side but its first gets its turn, and so does every step behind it up to half a turn or the next position, for any lists |
| `PosSelector.NearerSideFirst` | src/game/ObjectPosSelector.cpp:121-161 | the side whose next used position is nearer goes on; when none is left on either side the minus side does, but for the first step |
| `PosSelector.ClearMeans` | src/game/ObjectPosSelector.h:61-70 | an angle is clear of a used position iff, with what that takes, it is not farther round on its side than the position, which on the other side is a whole turn less its angle away |
| `PosSelector.BetweenIsFree` | src/game/ObjectPosSelector.h:61-136 | where no used position of a side reaches beyond its neighbours, the latter are clear of all of that side |
| `PosSelector.SameRoomIsInStep` | src/game/ObjectPosSelector.h:61-70 | so it is when all take the same room |
| `PosSelector.InsertAdds` | src/game/ObjectPosSelector.cpp:64-70 | a used position is added, none is lost |
| `PosSelector.InsertSorts` | src/game/ObjectPosSelector.cpp:64-70 | and the side stays in order of angles |
| `PosSelector.ObjectPosSelector.AddUsedPos` | src/game/ObjectPosSelector.cpp:64-70 | a position is added to the side of its sign, none is lost, and the other side is as it was |
| `PosSelector.ObjectPosSelector.InitializeAngle` | src/game/ObjectPosSelector.cpp:72-82 | both sides are set to their first positions |
| `PosSelector.ObjectPosSelector.FirstAngle` | src/game/ObjectPosSelector.cpp:84-92 | a candidate across from the first position when only one side has any, else none |
| `PosSelector.ObjectPosSelector.NextAngleFor` | src/game/ObjectPosSelector.h:80-104 | the candidate behind a used position, and the side's state after it |
| `PosSelector.ObjectPosSelector.NextSmallStepAngle` | src/game/ObjectPosSelector.h:106-136 | the next small step, and the side's state after it |
| `PosSelector.ObjectPosSelector.NextPosibleAngle` | src/game/ObjectPosSelector.cpp:121-161 | one attempt on the side that is less far round |
| `PosSelector.ObjectPosSelector.NextAngle` | src/game/ObjectPosSelector.cpp:94-106 | the loop of attempts, which ends |
| `PosSelector.ObjectPosSelector.NextUsedAngle` | src/game/ObjectPosSelector.cpp:108-119 | the loop over used positions, which ends |
| `PosSelector.ObjectPosSelector.FindInSight` | src/game/Objects/Object.cpp:2441-2457 | candidates are tried in order until one is in sight; none is found only when all have been tried |
| `Guids.EntryGuidRoundTrip` | src/game/ObjectGuid.h:129-169 | kind, entry and counter are read back iff there is a counter, and it and the entry fit their 24 bits; without a counter the guid is 0 |
| `Guids.PlainGuidRoundTrip` | src/game/ObjectGuid.h:130-169 | for kinds without entry they are whenever there is a counter |
| `Guids.GuidsAreDistinct` | src/game/ObjectGuid.h:129-169 | different parts make different guids |
| `Guids.RoomExactly` | src/game/ObjectGuid.h:164-235 | exactly items, players, dynamic objects, corpses and transports of MO kind have counters of 32 bits, all others of 24 |
| `Guids.ClampPlayerGuid` | src/game/ObjectGuid.cpp:143-151 | the guid of a player is cut to its counter, which keeps its kind; all others stay |
| `Guids.AppendPackGUID` | src/shared/ByteBuffer.h:422-440 | a guid is appended as a mark byte and its bytes that are not zero |
| `Guids.ReadPackGUID` | src/shared/ByteBuffer.h:346-363 | the reading loop, failing past the end of the buffer |
| `Guids.UnpackBytes` | src/shared/ByteBuffer.h:346-440 | marks and bytes of any width give back the number |
| `Guids.PackedGuidRoundTrip` | src/shared/ByteBuffer.h:346-440 | what was appended is read back, and what comes behind it is left |
| `Guids.ObjectGuidGenerator.Generate` | src/game/ObjectGuid.cpp:80-95 | no counter in use is handed out until the shutdown, which is requested exactly when they run out |
| `Guids.ObjectGuidGenerator.GenerateRange` | src/game/ObjectGuid.cpp:97-109 | a hundred counters not in use, with the same guard |
| `Guids.ObjectGuidGenerator.FreeGuid` | src/game/ObjectGuid.h:296 | a counter in use may be handed out again |
| `Guids.ObjectGuidGenerator.Set` | src/game/ObjectGuid.h:290 | a new next counter above all in use, at start-up or later; those found or just written are in use from then on |
| `Guids.ObjectGuidGenerator.SetAfterDump` | src/game/PlayerDump.cpp:722-725 | after a dump has given away the next n counters, exactly they are in use, too |
| `InstanceLimit.RefusalIsExact` | src/game/AccountMgr.cpp:423-442 | who finds only times of the last hour finds all instances entered within it; while the memory keeps to the limit, refusing then refuses exactly whoever has entered as many others |
| `InstanceLimit.EntryKeepsLimit` | src/game/AccountMgr.cpp:444-455 | an entry keeps every hour and the memory within the limit iff the instance is remembered or there is room |
| `InstanceLimit.UncheckedEntry` | src/game/AccountMgr.cpp:444-455 | an entry without a check keeps every hour within the limit iff the last hour has room for the instance |
| `InstanceLimit.OthersStaySound` | src/game/AccountMgr.cpp:423-455 | other accounts are not affected |
| `InstanceLimit.AccountMgr.CheckInstanceCount` | src/game/AccountMgr.cpp:423-442 | an account is refused only if it has entered its limit of other instances within the last hour, and, unless it was let into extra ones, always then; who is let in has room |
| `InstanceLimit.AccountMgr.FindOld` | src/game/AccountMgr.cpp:431-441 | an entry older than an hour, or none is |
| `InstanceLimit.AccountMgr.Decide` | src/game/AccountMgr.cpp:423-442 | the decision, and the memory with one old entry forgotten when that makes room |
| `InstanceLimit.AccountMgr.AddInstanceEnterTime` | src/game/AccountMgr.cpp:444-455 | any entry, checked or not, is remembered, and no hour of the whole history has seen more than the limit and the extra ones; an extra one comes iff the instance did not fit |
| `InstanceLimit.AccountMgr.EnterDungeon` | src/game/Maps/MapManager.cpp:205-212 | checked for the saved instance, or for none and then entering the one made, nobody gets an extra instance |
| `GuardPosts.GuardMgr.Update` | src/game/GuardMgr.cpp:229-253 | cooldowns run down and all posts are recharged together when the timer runs out |
| `GuardPosts.GuardMgr.SummonGuard` | src/game/GuardMgr.cpp:402-437 | a guard comes iff the post has rested and has a charge, or there is no post |
| `GuardPosts.SummonsUseCharges` | src/game/GuardMgr.cpp:419-423 | over any run guards sent and charges left do not exceed charges had and recharged |
| `GuardPosts.RechargesTakeTime` | src/game/GuardMgr.cpp:229-253 | after the first one each recharge takes a minute |
| `GuardPosts.SummonsAreLimited` | src/game/GuardMgr.cpp:229-253 | in any time T a post sends at most 11 + T/60000 guards |
| `GuardPosts.ChargesStayInRange` | src/game/GuardMgr.cpp:229-253 | charges never exceed ten |
| `GuardPosts.RestTakesTime` | src/game/GuardMgr.cpp:419-423 | a post sends somebody only when its cooldown has gone by |
| `GuardPosts.SummonsAreApart` | src/game/GuardMgr.cpp:417-423 | two guards of a post are at least ten seconds apart |
| `GuardPosts.QuietPostRecovers` | src/game/GuardMgr.cpp:229-253 | after any time in which nobody calls, a post sends a guard iff its cooldown has gone by and it had a charge or the timer has run out |
| `GuardPosts.QuietPostRests` | src/game/GuardMgr.cpp:229-253 | what cooldown is left by then, and whether there is a charge |

## Left out

- Floating point rounding: numbers are real, and the free angle of a used position, an arc cosine, is any positive function of it.
- Databases, packets, logs, world texts and file access; a clock is read once in each update, where the code may read it again.
- Game events: mails and creature equipment; ids are taken to fit their 16 bits.
- GameEvents.GameEventMgr.GameEventSpawn: pool-managed spawns of an event are not part of this model.
- GameEvents.GameEventMgr.GameEventUnspawn: neither is taking pools out.
- GameEvents.GameEventMgr.StartEvent: what a hardcoded event does in Enable is not part of this model.
- GameEvents.GameEventMgr.EnableEvent: neither is what it does in Enable and Disable.
- Other hardcoded events; for the invasion switching it off and the deletion of respawn times. No code of the repository marks a boss as dead; here a boss that is on may die between any two updates.
- War Effort: counting the collected goods and completing them in time (whether they are in is an input); nobody else is taken to write the saved stage.
- WarEffort.WarEffortEvent.UpdateHiveColossusEvents: which colossus is down comes from saved variables and is an input.
- Honor: city ranks, the report, kills and contributions of a single player, loading and saving; the standard sort is an insertion sort here.
- Loot: item counts, random properties, thresholds and money; what is thrown is any sequence of numbers, so how likely a roll is is not part of this model.
- Loot: what a player is allowed to take is any function of player and item, the same through one fill.
- DumpText.EscapedIsClean: mysql_real_escape_string is not part of the repository; it is taken as its documentation says.
- DumpText.AtoiToString: only digits; signs, blanks and overflow of the C function are not part of this model.
- PlayerDump.DumpRenames: new ids are not cut to 32 bits, and lines are not cut to the reader's 32000 characters.
- PlayerDump.LoadAgrees: a null, or a text with a quote, before the last column that is touched is not covered; `DumpNulls` says which fields are found then.
- Dump writing: the WHERE lists and the queries of the tables, which follow each other through ids.
- Cameras: the bookkeeping of active objects and what is sent to the client.
- Conditions.LoadConditions: the checks of values against other tables and the outcome of leaf conditions are any functions of the entry and its arguments; CanBeUsedWithoutPlayer is not part of this model.
- MapFile.ConvertADT: heights come as the two merged grids and liquids as the cells' data; merging the cells' chunks is not part of this model, and neither is interpolation between corners.
- MapFile.ReadAt: a value is written as its bytes in order, without saying which bits each byte has.
- MapFile.Widen: outside -20000 to 20000 the range may be wider than the heights, as in the code.
- PosSelector.BetweenIsFree: positions of the other side do not count, except that at the back of the object a candidate is clear of the last of them; where positions reach beyond their neighbours only the two next ones are cleared, as in the code.
- Guids.ObjectGuidGenerator.Generate: counters are plain numbers, not yet parts of a guid; freeing a counter twice, or one not in use, is excluded.
- InstanceLimit.AccountMgr.CheckInstanceCount: the limit does not change while the server runs.
- GuardPosts.GuardMgr.SummonGuard: where the guard stands, what is said, and a guard that cannot be created.
