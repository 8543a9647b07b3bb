# A model of the IEC 104 north plugin

The plugin is a controlled station of IEC 60870-5-104. Masters connect to it from the outside; on the
other side a "south" plugin delivers readings and carries out commands. This project models the server
object of `src/iec104.cpp` with its helper classes, and proves what holds of it over every run.

The model has two layers.

* **Specification.** Each part is a state machine on values: a state, an event, a step function, and runs
  as sequences of events. `ServerSpec` puts the parts side by side. One step is one handler call, one data
  point of a reading, or one cycle of the monitoring thread, in any interleaving, as the locks of the
  server make them atomic.
* **Objects.** Where the code changes objects in place, so does the model: classes with fields, loops over
  vectors that erase while iterating, maps that grow when they are looked up. Every method is proved to do
  exactly one step of the specification (`Abs() == Step(old(Abs()), event)`).

Theorems are about runs of the specification, and each operation has one that is stated without the functions
its step is made of: over the attributes, numbers, texts and slots that go in and what comes out (`Terms` and the
lemmas that end in `InWords`, `ByNumber`, `Reaches`, `Follows` and `Says`). `Server.RunServer` starts the objects from a configuration,
calls them with any inputs, and is proved to be such a run from such a first state.

| module | what it holds |
|---|---|
| `Machine`, `Protocol` | fixed-width integers; type identifications, causes, the type switches |
| `PendingSpec`, `OutstandingCommands` | the table of outstanding commands: steps; command object and vector |
| `PendingRuns`, `PendingQueues` | conservation, deadlines, frames per command; refinement to one queue per key |
| `Points`, `ProcessImage`, `ExchangeTable`, `ExchangeImport` | the union of a point; table and reading history; the table object; its import |
| `GiGroups`, `ImportTheorems` | the text of the interrogation groups, the bit mask, the group test; what entries make of the table and of answers |
| `Terms` | the words of the theorems: type numbers, the time window, the attributes of a data object |
| `Packing`, `Interrogation`, `InterrogationTheorems` | the greedy packer and its optimality; the handlers; what an answer contains |
| `SlotSpec`, `SlotTracking`, `SlotCap`, `SlotAudits`, `EventTheorems`, `RedundancyGroups` | connection slots and audits: steps; runs; the cap on connections; the global audit; what one event and the start do; objects |
| `SouthStatus`, `MonitorLoop`, `CommandGate`, `SouthReadings` | south status; start and stop; the cascade of checks; the attributes of a data object |
| `ServerSpec`, `Server` | the whole server: steps; the object and its start |
| `ServerTheorems`, `GateTheorems`, `FeedbackTheorems`, `CommandStories`, `ReadingTheorems`, `ReportTheorems`, `InsertedRows`, `LiveConnections` | theorems about the whole server: of the parts; of the command gate; of feedback; of all that a command is told; of what readings leave and send; of what masters are told about the process; of rows that lookups insert; of commands and connections |

The protocol library is modelled by what it promises. Sent frames, audits, server actions and calls of the
south operation are logs. Times, the result of an operation, the result of the status request and whether
the library reports the server as running are inputs of a step.

## What turned out false, and exactly when

* **Nothing is lost by the packer** only if every object fits an empty message (`Packing.LosslessIff`).
  That holds of all objects without time tag exactly from `9 + caSize + ioaSize` octets on
  (`Packing.EveryObjectFitsIff`), and so always from 14 (`InterrogationTheorems.NothingIsLostFromFourteen`);
  the configuration accepts sizes from 11, and with 13 a short float is lost and an empty message sent
  (`Packing.ThirteenOctetsLoseAShortFloat`, `Packing.EmptyMessageIff`).
* **A spontaneous message carries its object** over all runs from a given table exactly if every point that a
  reading can address fits a message with its time (`ReportTheorems.NoEmptyMessageIff`); a time tag needs
  seven octets, so for all tables `16 + caSize + ioaSize` are needed (`ReportTheorems.NoEmptyMessageAtAllIff`).
* **A command is accepted only within its time window** holds for distances below 2^32 ms exactly for
  timeouts whose milliseconds are an `int` (`CommandGate.WindowIsIdealIff`); with a limit that wraps below
  zero no timed command is accepted (`CommandGate.WrappedWindow`). For greater distances it holds exactly
  unless the distance modulo 2^32 is within the limit (`CommandGate.TimestampWindowIsIdealIff`). A command
  2^32 ms old is accepted (`CommandGate.FiftyDaysOldIsAccepted`).
* **A deadline is arrival plus timeout** for timeouts up to 2147483 s (`PendingRuns.DeadlineIsExactIff`).
* **Every open connection of a configured address is tracked** all along exactly while no address has more
  open connections than slots (`SlotTracking.SlotsTrackPeersIff`). The library's cap on all connections
  ensures that exactly if all slots are of one address in one group (`SlotCap.CapSufficesIff`). With two
  slots for two addresses the second connection of one address is missed (`SlotCap.SecondConnectionIsMissed`),
  and a confirmation is sent to it after it closed (`LiveConnections.ConfirmationGoesToTheDead`). The commands
  of a connection that ends stay in the table exactly if no slot is located for it
  (`LiveConnections.CleanupIff`, and for whole runs `LiveConnections.LiveThroughoutIff`).
* **Lookups that insert are invisible** for configured addresses. For others one reading is enough to turn the
  refusal of an interrogation into a confirmation (`InsertedRows.ReadingMakesAddressKnown`) and to change the
  cause by which a command is refused (`InsertedRows.ReadingChangesTheCause`). Exactly which requests notice:
  `InsertedRows.AnsweredAsWithoutInsertingIff`, `GateTheorems.VerdictAsOnPristineIff`.

One property needs a condition that holds of every peer. "Connected" is the last global audit only while a slot
is occupied, along a run, exactly if no peer without port is activated, finds a slot, and finds no port in any
slot (`SlotAudits.AuditsAreSoundIff`); the address texts of peers, with something after their colon, never do
that (`SlotAudits.AuditOfTextsIsSound`).

## Model

| member | source | states |
|---|---|---|
| PendingRuns.ConservationOfCommands | src/iec104.cpp:853-983 | over every run each command that arrived is either in the vector or was removed, exactly once, nothing else is, and the vector is the arrival log with gaps |
| PendingRuns.RemovalsAreJustified | src/iec104.cpp:560-576 | every removal is of a pending command, for the cause logged: select confirmed, terminated, deadline passed, connection lost or shutdown; logs only grow |
| PendingRuns.DeadlineIsExactIff | src/iec104_outstanding_command.cpp:35-36 | the 32-bit product gives arrival + 1000*T if and only if T <= 2147483 |
| PendingRuns.DeadlineDiscipline | src/iec104_outstanding_command.cpp:35-84 | in every reachable state deadlines are 0 or arrival + 1000*T, a completed command has deadline 0, and non-zero deadlines are sorted along the vector |
| PendingRuns.DeadlinesNeverIncrease | src/iec104_outstanding_command.cpp:53-84 | a step leaves the deadline of a command that stays, or sets it to 0 |
| PendingRuns.SweepKeepsTheUnexpired | src/iec104.cpp:553-578 | a sweep at t > 0 keeps exactly the commands with deadline >= t, in order, and so none that is completed |
| PendingRuns.FrameLanguage | src/iec104.cpp:914-983 | over every run a select gets at most one frame, a direct command a word of CON* TERM?, and each frame goes to the connection and addresses of its command |
| PendingRuns.NothingFollowsTheLastFrame | src/iec104.cpp:914-983 | no frame follows a termination, nor a negative confirmation once a sweep at t > 0 has run, whatever the rest of the run |
| PendingRuns.EveryWordOccurs | src/iec104.cpp:927-939 | the language is exact: any sequence of positive and negative confirmations, with or without a termination of either sign, occurs, since feedback does not look at the state |
| PendingRuns.FieldsFollowFrames | src/iec104_outstanding_command.cpp:53-84 | in every reachable state the phase and the deadline of a pending command are determined by the frames sent for it |
| PendingQueues.VectorRefinesQueues | src/iec104.cpp:914-983 | over every run the vector with its oldest-match searches equals one FIFO queue per (type, CA, IOA), with the same frames in the same order |
| PendingQueues.FeedbackTakesTheHead | src/iec104.cpp:914-983 | feedback pops the head of its key's queue, or only marks it for a direct ACT-CON; other keys are untouched; the frame goes to the head's connection |
| OutstandingCommands.OutstandingCommand.constructor | src/iec104_outstanding_command.cpp:7-40 | a new command waits for ACT-CON, with the wrapped deadline |
| OutstandingCommands.OutstandingCommand.SendActCon | src/iec104_outstanding_command.cpp:53-69 | state and deadline after an ACT-CON, and the frame sent |
| OutstandingCommands.OutstandingCommand.SendActTerm | src/iec104_outstanding_command.cpp:71-84 | state and deadline after an ACT-TERM, and the frame sent |
| OutstandingCommands.CommandTable.AddToOutstandingCommands | src/iec104.cpp:853-863 | one arrival step of the table |
| OutstandingCommands.CommandTable.HandleActCon | src/iec104.cpp:914-948 | the search and the erasure from the vector are one confirmation step |
| OutstandingCommands.CommandTable.HandleActTerm | src/iec104.cpp:950-983 | the search and the erasure from the vector are one termination step |
| OutstandingCommands.CommandTable.RemoveTimedOut | src/iec104.cpp:553-578 | the loop that erases while iterating is one sweep step: exactly the timed out commands go, in one pass |
| OutstandingCommands.CommandTable.RemoveOutstandingCommands | src/iec104.cpp:865-893 | the loop that erases while iterating removes exactly the commands of the connection |
| OutstandingCommands.CommandTable.RemoveAllOutstandingCommands | src/iec104.cpp:895-912 | the loop empties the vector and accounts for every command |
| Protocol.IsMessageTypeMatching | src/iec104_datapoint.cpp:257-318 | the switch agrees with the table of data types: a reading matches if and only if its type is one without 24-bit time tag and of the point's data type |
| Protocol.IsMatchingCommand | src/iec104_datapoint.cpp:320-364 | the cascade agrees with the table of data types: a command matches if and only if the point is a command of its data type |
| Points.SwitchesAgree | src/iec104.cpp:600-815 | update switch and both encoders use the same union member: after an accepted reading both report what was written, with its quality |
| Points.DataPoint.constructor | src/iec104_datapoint.cpp:366-416 | the initial content per data type: 0, invalid and non-topical |
| Points.DataPoint.Update | src/iec104.cpp:600-712 | the in-place assignments equal the update function of the specification |
| ProcessImage.ImageIsHistory | src/iec104.cpp:1598-1649 | after any readings a cell holds its configured point, with the last accepted value reduced to its field width and the last accepted quality |
| ProcessImage.UnionDiscipline | src/iec104.cpp:600-803 | no reading makes an encoder read another member, the default of the spontaneous encoder is never reached, and one message per accepted spontaneous reading carries what was stored |
| ProcessImage.StepKeepsSamePoints | src/iec104.cpp:49-60 | the inserting step and one that does not insert keep the same points in the same cells |
| ProcessImage.TouchKeepsPoints | src/iec104.cpp:49-60 | a lookup adds at most one empty row and one null cell, and changes no point |
| ExchangeTable.PointTable.GetDataPoint | src/iec104.cpp:49-60 | both lookups insert; a null or unfitting point is not returned |
| ExchangeTable.PointTable.UpdateCell | src/iec104.cpp:600-712 | updating the object of one cell changes that cell of the table and no other |
| ExchangeTable.PointTable.EnqueueSpontaneous | src/iec104.cpp:714-815 | the switch sends nothing for a type that no reading carries; for a type that fits the point one message shows what its union holds, with the time if the type has a tag |
| ExchangeTable.PointTable.HandleReading | src/iec104.cpp:1606-1659 | one step of the process image and its messages |
| ExchangeImport.ImportedTable | src/iec104_config.cpp:624-786 | each cell holds the last point defined for its addresses and nothing else, there is no null cell and no empty row, and every content is initial |
| ImportTheorems.CellInWords | src/iec104_config.cpp:586-789 | a cell exists if and only if some entry that the import reaches defines a point there, and holds the point of the last one: reached means that no entry before ended the import, or left the data point |
| ImportTheorems.EntryInWords | src/iec104_config.cpp:643-785 | when an entry ends the import, leaves its data point, or defines a point, and which: addresses, kind, whether it is a command, initial content, and for which groups it is asked |
| ExchangeImport.ImportEntry | src/iec104_config.cpp:643-785 | one entry: what is stored, and whether the import goes on, leaves the data point, or ends |
| ExchangeImport.ImportEntries | src/iec104_config.cpp:643-785 | the loop over the entries stores their points in order up to the first that stops it |
| ExchangeImport.ImportExchangeConfig | src/iec104_config.cpp:586-789 | the loops build the specified table |
| GiGroups.ImportGroups | src/iec104_config.cpp:668-731 | the token loop over the stream computes the specified mask or aborts |
| GiGroups.GetLine | src/iec104_config.cpp:680-684 | reading to the next comma yields the first token of the rest, and whether more tokens follow |
| GiGroups.TokensOfList | src/iec104_config.cpp:680-684 | every list of comma-free tokens is read back token by token |
| GiGroups.MaskRoundTrip | src/iec104_config.cpp:668-731 | for lists of "station" and 1..16 the mask is below 2^17 and selects for QOI 20 if and only if "station" is listed, for 20 + g if and only if g is |
| GiGroups.FirstBadTokenDecides | src/iec104_config.cpp:688-719 | the first token that is no group decides: a bad one leaves the station mask, an aborting one ends the import |
| GiGroups.MaskOfAnyList | src/iec104_config.cpp:688-719 | the same read off the text; a token aborts if and only if it is empty or a number beyond int |
| GiGroups.EveryMaskIsSmall | src/iec104_config.cpp:668-731 | whatever the text, the mask of a finished import is below 2^17 |
| ImportTheorems.GroupsInWords | src/iec104_config.cpp:664-733 | for every setting: without one, or if its first token that names no group is bad, the point is asked for by the station alone; an empty text asks for nothing; a list asks for what it names; an empty token or a number beyond int ends the import |
| ImportTheorems.EntryIsAnsweredIff | src/iec104_config.cpp:668-773 | from configuration text to answer: whatever an entry says, its point is answered for if and only if it has a monitoring type, a readable address and its groups ask for the qualifier |
| Packing.LosslessIff | src/iec104.cpp:1800-1938 | the messages carry all objects in order if and only if each fits an empty message |
| Packing.PackedAreTheFitting | src/iec104.cpp:1904-1916 | whatever the sizes, what is sent is exactly the objects that fit on their own, in order |
| Packing.PackingIsOptimal | src/iec104.cpp:1904-1938 | no order-preserving packing into single-type messages within size and 127 elements has fewer messages than the greedy loop |
| Packing.CountIsRunSum | src/iec104.cpp:1904-1938 | the number of messages is the sum over maximal runs of one type of run length over capacity, rounded up |
| Packing.CeilDivIsLeast | src/iec104.cpp:1904-1938 | the rounded quotient of the closed form is the least number of messages that hold a run |
| Packing.EveryObjectFitsIff | src/iec104_config.cpp:369-379 | every object without time tag fits if and only if 9 + caSize + ioaSize octets are allowed, every object at all if and only if 16 + caSize + ioaSize are |
| Packing.SizesByNumber | src/iec104.cpp:1800-1938 | the octets an object needs, by the number of its type |
| Packing.FourteenOctetsSuffice | src/iec104.cpp:268-276 | with CA <= 2 and IOA <= 3 octets every object without time tag fits for ASDU size 0 or at least 14 |
| Packing.ThirteenOctetsLoseAShortFloat | src/iec104_config.cpp:373 | an accepted size at which a short float is lost and an empty message sent |
| Packing.EmptyMessageIff | src/iec104.cpp:1905-1913 | an empty message is sent if and only if an object that fits nowhere comes first or after another such |
| Interrogation.SendInterrogationResponse | src/iec104.cpp:1778-1942 | the loop with its accumulator sends ACT-CON, the packed messages of the row, ACT-TERM |
| Interrogation.InterrogationHandler | src/iec104.cpp:1953-1997 | the loops do what the answer function says: range check, all rows in ascending order for 255 or 65535 by address size, unknown and known address |
| Interrogation.BroadcastByNumber | src/iec104.cpp:1766-1776 | the address of all rows is 255 for one octet and 65535 for two, and no other |
| InterrogationTheorems.InterrogationIsLosslessAndOptimal | src/iec104.cpp:1785-1941 | an answer is ACT-CON, sendable messages of cause 20 whose objects are exactly the asked non-null monitoring points in ascending order, ACT-TERM, with the fewest messages possible |
| InterrogationTheorems.InterrogationIsLosslessIff | src/iec104.cpp:1785-1941 | the data messages of an answer carry all asked objects if and only if each fits an empty message |
| InterrogationTheorems.AnswerLength | src/iec104.cpp:1785-1941 | the number of frames of an answer in closed form |
| InterrogationTheorems.NothingIsLostFromFourteen | src/iec104_config.cpp:369-379 | for ASDU size 0 or at least 14 the fit condition holds of the asked objects of every row |
| InterrogationTheorems.InterrogationReportsHistory | src/iec104.cpp:1800-1902 | after any readings the asked objects are those of the configured points, with content computed from the readings |
| InterrogationTheorems.AnswerOnGrownTable | src/iec104.cpp:1963-1994 | for exactly which requests a table grown by lookups is answered as the pristine one, by address (255 or 65535 for all rows) and qualifier |
| SlotTracking.SlotsStayUnique | src/iec104.cpp:2166-2195 | for any events no two slots of an address hold the same port, and slots of an address outside its first group stay empty |
| SlotTracking.TrackedAreOpen | src/iec104.cpp:2166-2195 | tracked peers are always open peers, with or without enough slots |
| SlotTracking.SlotsTrackPeersIff | src/iec104.cpp:2166-2195 | the slots track exactly the open peers of configured addresses all along a run if and only if at no time an address has more open connections than slots |
| SlotTracking.SlotsTrackPeers | src/iec104.cpp:2166-2195 | the sufficient half: within that bound tracked peers are exactly the open peers of configured addresses |
| SlotTracking.CountPeers | src/iec104_redgroup.cpp:17-29 | the counting argument: as many tracked peers as occupied slots, equal to all slots of the address if and only if none is free |
| SlotTracking.OpenedIsTrackedIff | src/iec104.cpp:2173-2184 | a new connection is tracked if and only if its address is configured and has a free slot |
| SlotCap.CapSufficesIff | src/iec104.cpp:321-344 | the cap on open connections keeps every address within its slots in all orderly runs if and only if all slots are of one address in one group |
| SlotCap.SecondConnectionIsMissed | src/iec104.cpp:2178-2182 | with two slots for two addresses, and within the cap, the second connection of one address is not tracked and none of its events finds a slot |
| SlotAudits.GlobalAuditIsSound | src/iec104.cpp:2186-2213 | over every run of peers that have a port or no configured address consecutive audits differ, and "connected" is the last one only while some slot holds a port |
| SlotAudits.AuditsAreKeptIff | src/iec104.cpp:2186-2213 | a step keeps that if and only if it does not activate, on a located slot, a peer without port while no slot holds one |
| SlotAudits.AuditsAreSoundIff | src/iec104.cpp:2186-2213 | it holds after every prefix of a run if and only if no step of the run is of that kind |
| SlotAudits.SplitOfJoined | src/iec104.cpp:2154-2162 | splitting an address text at its first colon undoes the joining of address and port |
| SlotAudits.PortOfText | src/iec104.cpp:2154-2162 | the port is missing if and only if there is no colon, and then also the address, or nothing after the first one |
| SlotAudits.AuditOfTextsIsSound | src/iec104.cpp:2149-2213 | the global audit is sound for every run of address texts that have no colon or something after the first one |
| SlotAudits.StartIsSound | src/iec104.cpp:314-354 | after every configuration the start leaves free slots with addresses and sound audits, the last global one "disconnected" |
| EventTheorems.StartInWords | src/iec104.cpp:314-354 | whatever the numbers of slots, the start sends one audit for each path A and B of each group in order, "disconnected" if the path has a slot and "unused" if not, then global "disconnected"; the first slot of a group is A, the others are B |
| EventTheorems.GroupsOfParts | src/iec104_config.cpp:101-143 | the import makes one group of each named entry and none of others, in order |
| EventTheorems.SlotsOfParts | src/iec104_config.cpp:74-99 | and in it one free slot of each connection with a valid address, in order |
| EventTheorems.CapOfParts | src/iec104.cpp:321-344 | the cap on open connections is the number of all slots |
| EventTheorems.LocateInWords | src/iec104.cpp:2166-2184 | the slot of an event: in the first group with the address, the first one with its port, or else the first free one |
| EventTheorems.EventInWords | src/iec104.cpp:2186-2213 | an event writes port and activity of that slot and of no other; the path audit is passive, disconnected, active, passive for opened, closed, activated, deactivated, with group and letter of the slot; the global one is connected when activated, disconnected when the last occupied slot closes |
| EventTheorems.WithoutSlotNothingHappens | src/iec104.cpp:2168-2182 | an event without slot changes nothing |
| EventTheorems.CommandsOfConnection | src/iec104.cpp:2190-2213 | a close or deactivation that finds a slot removes exactly the commands of its connection; no other event touches the table, and none sends anything to a master |
| EventTheorems.ShutdownEmptiesTheTable | src/iec104.cpp:895-912 | after the shutdown nothing is pending, and nothing was sent for it |
| RedundancyGroups.RedGroup.AddConnection | src/iec104_redgroup.cpp:12-15 | a slot is appended |
| RedundancyGroups.RedGroup.GetRedGroupCon | src/iec104_redgroup.cpp:17-29 | the first slot with this address and port |
| RedundancyGroups.ConnectionTracker.GetRedundancyGroup | src/iec104_config.cpp:924-939 | the first group with a slot for the address |
| RedundancyGroups.ConnectionTracker.IsAnyEstablished | src/iec104.cpp:367-379 | true if and only if some slot holds a port |
| RedundancyGroups.ConnectionTracker.FindConnection | src/iec104.cpp:2166-2184 | own slot, else the first free one, which takes the port, else none and nothing changes |
| RedundancyGroups.ConnectionTracker.SendGlobalStatusAudit | src/iec104.cpp:2271-2287 | an audit equal to the last one is not repeated |
| RedundancyGroups.ConnectionTracker.SendConnectionStatusAudit | src/iec104.cpp:2251-2269 | an audit equal to the last one is not repeated |
| RedundancyGroups.ConnectionTracker.HandleEvent | src/iec104.cpp:2140-2214 | one slot step for the peer of the address text, and whether the connection's commands are to be removed |
| RedundancyGroups.ImportGroup | src/iec104_config.cpp:74-99 | one free slot per valid client address, in order |
| RedundancyGroups.ImportGroups | src/iec104_config.cpp:101-143 | one group per named entry, in order, and no slot object is in two places |
| RedundancyGroups.ConnectionTracker.SendInitialAudits | src/iec104.cpp:314-354 | the nested loops give every slot its letter, count the slots for the cap on connections, and send the specified path audits, then the first global one |
| SouthStatus.SouthConnectedIff | src/iec104.cpp:817-827 | south counts as connected if and only if the last status that an event brought for some configured asset is the text "started", also with assets listed twice |
| SouthStatus.GiInWords | src/iec104.cpp:1310-1337 | the last interrogation status of an event decides, by its text |
| SouthStatus.SouthPluginMonitor.Update | src/iec104.cpp:1284-1337 | the attribute loop: the last attribute of a kind counts, unknown texts fall back |
| SouthStatus.SouthMonitors.HandleSouthEvent | src/iec104.cpp:1494-1508 | the first monitor of the asset is updated and no other |
| SouthStatus.SouthMonitors.CheckIfSouthConnected | src/iec104.cpp:817-827 | true if and only if some monitor is started |
| SouthStatus.ImportMonitors | src/iec104_config.cpp:551-577 | one monitor per listed asset, all different, none started |
| MonitorLoop.ActionsAreSessions | src/iec104.cpp:513-586 | every trace is a prefix of (start, optional init_socket_finished, stop)*, and the loop exits stopped after whole sessions |
| MonitorLoop.ActionsInWords | src/iec104.cpp:526-551 | over every list of inputs, what each cycle adds: the start if the server was stopped and south is connected; if it ran, the notice if the library runs and no cycle since the start saw that, and the stop if south is not connected |
| MonitorLoop.SessionIsNotifiedIff | src/iec104.cpp:535-551 | a session is notified, once, if and only if some cycle after its start, up to and including its stop, read the library as running |
| MonitorLoop.AlwaysModeStartsOnce | src/iec104.cpp:519-525 | when every connection is accepted the server is started once and stopped once |
| MonitorLoop.RequestsUntilSuccess | src/iec104.cpp:515-517 | the south status is requested in every cycle up to the first success and never again |
| MonitorLoop.MonitoringThread.RunCycle | src/iec104.cpp:513-551 | the branches of an iteration are one cycle of the specification, whose actions `MonitorLoop.ActionsInWords` gives |
| MonitorLoop.MonitoringThread.RunThread | src/iec104.cpp:513-586 | the loop and the final stop are the run and the exit of the specification |
| CommandGate.TimestampWindow | src/iec104.cpp:829-851 | accepted if and only if the distance of the tag from the clock, on either side, is at most 1000*T modulo 2^32 |
| CommandGate.TimestampWindowIsIdealIff | src/iec104.cpp:829-851 | when that is the intended window -1000*T <= now - t <= 1000*T: for all distances below 2^32 ms, and exactly when beyond |
| CommandGate.WrappedWindow | src/iec104.cpp:845 | for every timeout a configuration may have: accepted if and only if the distance modulo 2^32 is at most the wrapped limit, and never if that is negative |
| CommandGate.WindowIsIdealIff | src/iec104.cpp:845 | the window is -1000*T <= now - t <= 1000*T for all distances below 2^32 ms if and only if 1000*T is an int |
| CommandGate.FiftyDaysOldIsAccepted | src/iec104.cpp:836-845 | a command 2^32 ms old is accepted |
| CommandGate.ForwardedIff | src/iec104.cpp:1346-1469 | a command passes if and only if south is connected, the cause is 6, it has an object, there is no filter or its originator is listed, a command point that its type number fits is addressed, its kind is allowed (0 without tag, 1 with, 2 both), and a tag is recent unless that check is off |
| CommandGate.RejectedIff | src/iec104.cpp:1351-1466 | for each of the causes 45, 46, 47, 44 and 7, exactly when a rejection gives it, in the same words |
| SouthReadings.Collect | src/iec104.cpp:1519-1596 | the loop over the attributes collects what `Terms.CollectedIs` describes |
| Terms.CollectedIs | src/iec104.cpp:1519-1596 | for all lists of attributes: each quality field, the sign and each time flag holds if and only if some attribute of that flag is not 0; addresses, cause, type and value are those of the last attribute of their name, or the default; there is a time if and only if there is a time attribute, and it is the last one |
| Terms.TypesByNumber | src/iec104_datapoint.cpp:93-364 | the type switches by their numbers: commands, timed commands, select bits, monitoring types, data types, and which commands and readings fit which point |
| ServerTheorems.PendingTheorems | src/iec104.cpp:853-983 | conservation, frame language, fields, queues, deadlines and their order hold of the table in every run of the whole server |
| ServerTheorems.CycleKeepsTheUnexpired | src/iec104.cpp:553-578 | in every run a monitor cycle at t > 0 leaves exactly the commands with deadline >= t, in order, none completed |
| ServerTheorems.NothingFollowsInServer | src/iec104.cpp:914-983 | in every run no frame follows a termination, nor a negative confirmation once a cycle at t > 0 has run |
| ServerTheorems.ServerRemovalsAreJustified | src/iec104.cpp:553-983 | every removal by a step of the server is of a pending command, for the feedback, deadline, end of its connection or shutdown that it names |
| ServerTheorems.ServerAuditIsSound | src/iec104.cpp:2186-2213 | the global audit is sound in every run of the whole server, for the peers that address texts give |
| ServerTheorems.SouthDrivesTheServer | src/iec104.cpp:513-551 | a cycle leaves the server running if and only if the last status received for some monitored asset is the text "started"; what it does is what `MonitorLoop.ActionsInWords` says of its inputs, the notice included; actions over the run are sessions |
| ServerTheorems.ProcessImageEqualsHistory | src/iec104.cpp:1598-1649 | whatever else happens, cells of configured points hold what the readings say, and there are no other points |
| ReadingTheorems.ContentFollows | src/iec104.cpp:1519-1659 | over every run the content of each configured point has the quality that the attributes of the last data object taken for it raise (invalid and non-topical before), and the value of the last one that carried a value of its kind, as its field stores it (zero before) |
| ReadingTheorems.InterrogationSays | src/iec104.cpp:1800-1902 | every object of an answer, in every reachable state, has that content |
| ReadingTheorems.DataObjectIsSentOn | src/iec104.cpp:1606-1659 | in every reachable state a data object is sent on, once, if and only if a point takes it and its cause is 1, 2, 3, 11 or 12; with its cause, type and addresses, the content the point then holds, and its own time or that of handling |
| ServerTheorems.InterrogationReportsTheReadings | src/iec104.cpp:1818-1902 | an interrogation in any reachable state reports the configured asked points with what the readings say |
| ServerTheorems.MessagesAreMeaningful | src/iec104.cpp:714-815 | over every run no spontaneous message carries a member that was not written |
| ReportTheorems.InterrogationStepReports | src/iec104.cpp:1953-1997 | in every reachable state, if the asked configured points fit a message, the interrogation step appends full answers, for one row or for all rows in order: ACT-CON, the fewest sendable messages with exactly the asked configured points and what the readings say, ACT-TERM; with a bad qualifier or no row one negative ACT-CON |
| ReportTheorems.ResponseReportsIff | src/iec104.cpp:1778-1942 | one answer is such a full one if and only if the asked configured points of the row fit a message |
| ReportTheorems.RoomForAll | src/iec104.cpp:268-276 | they do in every row for 9 + caSize + ioaSize octets |
| ReportTheorems.MessagesAreOfPoints | src/iec104.cpp:1606-1644 | every spontaneous message of a run is about a configured point, under a type of a reading for it |
| ReportTheorems.NoEmptyMessageIff | src/iec104.cpp:805-808 | no run from a table sends an empty spontaneous message if and only if every point that a reading can address fits with its time |
| ReportTheorems.NoEmptyMessageAtAllIff | src/iec104.cpp:805-808 | every data type fits with its time if and only if 16 + caSize + ioaSize octets are allowed |
| ServerTheorems.ForwardedAsOnPristine | src/iec104.cpp:1378-1413 | in every reachable state a command is forwarded if and only if it would be on the pristine table |
| GateTheorems.VerdictAsOnPristineIff | src/iec104.cpp:1378-1413 | over every run the verdict, cause included, is the one on the pristine table unless the command reaches the table, no cell is configured for its common address, and a reading for that address was taken |
| GateTheorems.CellsOfRow | src/iec104.cpp:49-60 | over every run a row has the cells it was configured with and those that readings looked at; commands add none |
| GateTheorems.RejectionOnGrownRow | src/iec104.cpp:1378-1406 | when null cells of a row change the cause of a rejection |
| ServerTheorems.AnsweredAsWithoutInserting | src/iec104.cpp:1983-1994 | in every reachable state, for exactly which requests an interrogation is answered as if lookups did not insert |
| InsertedRows.RowsOfRun | src/iec104.cpp:49-60 | over every run the rows of the table are the configured ones and those of complete readings and of supported commands that got as far as the table |
| InsertedRows.AnsweredAsWithoutInsertingIff | src/iec104.cpp:1983-1994 | the same condition read off the events of the run |
| InsertedRows.ReadingMakesAddressKnown | src/iec104.cpp:1984-1992 | after any start, for any address not configured: an interrogation is refused, and confirmed after one reading for that address |
| InsertedRows.ReadingChangesTheCause | src/iec104.cpp:1379-1406 | after any start with a monitored asset: such a reading turns the refusal "unknown common address" of a command into "unknown object address" |
| GateTheorems.CommandIsAnsweredOnce | src/iec104.cpp:2089-2114 | a supported command that passes and whose operation succeeds gets no immediate frame; any other gets exactly one, negative, to its connection, of its type and common address, with cause 45, 46, 47, 44 or 7 as state and event say; the operation is called if and only if the command passes, and then it is pending, as a select if its type is 45, 46, 47, 58, 59 or 60 and the bit is set |
| GateTheorems.OtherTypesAreIgnored | src/iec104.cpp:2089-2114 | a command of any other type changes nothing |
| GateTheorems.GateOverRuns | src/iec104.cpp:2089-2114 | in every reachable state the operations called are, entry by entry, the commands that arrived in the table; every immediate answer is negative; and there are as many as supported commands received less successful forwards |
| FeedbackTheorems.TerminationReaches | src/iec104.cpp:950-983 | in every state a data object of cause 10, taken while the server runs, removes the oldest command of its type and addresses, and sends its connection one ACT-TERM of the same sign; with no such command nothing changes |
| FeedbackTheorems.ConfirmationReaches | src/iec104.cpp:914-948 | the same for cause 7: one ACT-CON, and the command goes if it is a select, waits for its termination, or is completed if the sign is negative; no other command changes |
| FeedbackTheorems.NothingWhileStopped | src/iec104.cpp:1510-1517 | while the server does not run no data object changes anything |
| CommandStories.EveryCommandIsTold | src/iec104.cpp:1056-1058 | over every run each supported command gets one such negative answer and no frame if it does not pass, CON* TERM? (one frame for a select) if it does, behind one such negative answer if the operation failed |
| CommandStories.FailedCommandIsConfirmed | src/iec104.cpp:1449-1454 | a command whose operation failed is answered with cause 7, and a confirmation from south still goes to the same connection |
| LiveConnections.PendingBelongsToLive | src/iec104.cpp:2140-2214 | under the stated environment every pending command in every reachable state belongs to an open, activated connection |
| LiveConnections.PendingBelongsToLiveUnderCap | src/iec104.cpp:321-344 | with all slots of one address in one group nothing is asked of the number of connections but the library's cap |
| LiveConnections.FramesGoToLive | src/iec104.cpp:914-983 | so every ACT-CON and ACT-TERM goes to an open, activated connection |
| LiveConnections.CleanupIff | src/iec104.cpp:2168-2213 | a close or deactivation clears the connection's commands if and only if a slot is located or there are none |
| LiveConnections.LiveThroughoutIff | src/iec104.cpp:2168-2213 | pending commands belong to live connections after every prefix of a run if and only if every end of a connection or activation locates a slot or finds no command of it |
| LiveConnections.DeadConnectionIsAnswered | src/iec104.cpp:2168-2182 | from any state where no slot is located for a connection: activated, with a forwarded command, closed, it is still sent the confirmation |
| LiveConnections.ConfirmationGoesToTheDead | src/iec104.cpp:2168-2182 | a run from a start state, within the cap and with all events allowed, in which a confirmation goes to a connection that is no longer open |
| Server.Iec104Server.Judge | src/iec104.cpp:1346-1447 | the nested checks over the row that the lookup yields give the verdict of the specification, and insert at most that row |
| Server.Iec104Server.ForwardCommand | src/iec104.cpp:997-1282 | the command is pending before the operation is called, and the result says whether it was forwarded |
| Server.Iec104Server.AsduHandler | src/iec104.cpp:2089-2114 | one command step of the whole server, whose answer, cause and table `GateTheorems.CommandIsAnsweredOnce` gives |
| Server.Iec104Server.ConnectionEventHandler | src/iec104.cpp:2140-2214 | one connection step of the whole server for the peer of the address text, with the removal of its commands |
| Server.Iec104Server.InterrogationHandler | src/iec104.cpp:1953-1997 | one interrogation step of the whole server |
| Server.Iec104Server.MonitorCycle | src/iec104.cpp:513-581 | one cycle of the whole server, with its sweep |
| Server.Iec104Server.HandleDatapoint | src/iec104.cpp:1488-1665 | one data point is one step of the whole server |
| Server.Iec104Server.HandleFeedback | src/iec104.cpp:1598-1605 | ACT-CON and ACT-TERM of the south side reach the table as `FeedbackTheorems` says, and nothing else |
| Server.Iec104Server.Send | src/iec104.cpp:1477-1672 | the loops over readings and data points are the run of their steps, and the number of readings is returned |
| Server.Iec104Server.Shutdown | src/iec104.cpp:40-46 | the table is emptied and every command accounted for |
| Server.FirstStateIsInitial | src/iec104.cpp:218-228 | the state a configuration starts from is one that runs start from, whatever the configuration |
| Server.FirstStateInWords | src/iec104.cpp:218-392 | what a configuration makes of the first state: each cell of the table is that of its last definition, the slots are those of the groups with one audit for each path, there is one monitor for each asset in order, and nothing else has happened |
| Server.StartServer | src/iec104.cpp:218-392 | imports, parts and first audits leave a valid server of new objects in that state, with the cap at the number of slots |
| Server.Iec104Server.Handle | src/iec104.cpp:278-291 | every call into the server is one step of the specification and keeps to the server's own objects |
| Server.Iec104Server.HandleAll | src/iec104.cpp:278-291 | any sequence of calls is a run |
| Server.RunServer | src/iec104.cpp:218-392 | from any configuration through any inputs the objects do a run of the specification, from a state that the theorems start from |

## Left out

- The protocol library: sockets, APCI parameters, queues, TLS, what it answers to types the server does not
  support, and the flags and cause it puts into ACT-CON and ACT-TERM frames. Adding an object to a message
  is modelled by its rule: same type, at most 127, within size.
- ExchangeTable.PointTable.EnqueueSpontaneous: logs the object offered to the library; what of it a message
  carries is derived from the log (`ReportTheorems.Carried`). The queue between server and masters is left out.
- Points.DataPoint.Update: the text of a step position is taken as already split at its comma into number
  and flag; a number that `stoi` refuses ends `send` with an exception and is not modelled.
- Server.Iec104Server.ForwardCommand: the nine parameter strings of the operation are left out; the call is
  a log entry with a result. Insertion, operation and a negative reply are one step, so feedback that
  arrives while the operation is still running comes after it.
- GiGroups.ImportGroups: characters are those of ASCII, as `isdigit` takes them in the "C" locale.
- ExchangeImport.ImportExchangeConfig: JSON parsing, labels and the text of addresses; entries are taken as
  read or unreadable. The number of a type name is taken as given, 0 for an unknown name.
- RedundancyGroups.ConnectionTracker.HandleEvent: leaves the removal of commands to its caller
  (`Server.Iec104Server.ConnectionEventHandler`), after the audits instead of between them; neither reads what
  the other writes.
- InterrogationTheorems.InterrogationIsLosslessAndOptimal: makes no claim that the cause of a group answer
  conforms to the standard; the code always uses the one of a station interrogation.
- Threads and locks: each handler call, data point and monitor cycle is one atomic step.
- Floating-point values are opaque, and the 56-bit time is taken in milliseconds.
- Overflow of a signed 32-bit product is undefined in C++; it is read as wrap-around.
- Server.StartServer: entries of the configuration arrive as read; whether a client address is valid is the
  library's answer, and a valid one is taken to be not empty and without colon. That the library keeps to
  the cap it is given is an assumption on events (`SlotCap.Capped`).
- Clock synchronisation, logging, audit texts, certificates, range checks of the transport and application
  parameters: independent checks and plumbing.
