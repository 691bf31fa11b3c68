# A verified model of the logid daemon

logid is a Linux daemon for Logitech HID++ devices. This project models the parts of it that
hold state, arithmetic or a protocol, and proves what they keep. The files are plain Dafny 4.11;
`dafny verify dfyconfig.toml` checks all of them.

## What is modelled

**Configuration codec** (`Settings`, `Schema`, `LogidSchema`, `Codec`, `Decoding`, `Saving`, `RoundTrip`,
`ConfigFile`, `SettingStore`, `Configuration`, `Text`). A libconfig setting is a tree; the C++ configuration
types are data (`Schema`), and `LogidSchema` holds the concrete ones. `Codec` gives get, set,
set-by-name and append as functions over that family of types; `SettingStore` is the same code on
a heap of `Setting` objects that are changed in place, each method tied to its function.
`Decoding` says what any tree loads as, type by type, and `Saving` what a save leaves behind when
it fails.
`RoundTrip` proves that loading inverts saving for every type whose variants can be told apart,
and `LogidSchema` proves that the daemon's types are such types. `ConfigFile` applies this to a
whole `Config` written over the tree of an existing file, and says exactly when it comes back.

**Request/response multiplexing** (`Reports`, `Multiplex`, `Exchange`, `EventHandlers`). Each
critical section is a method of a class; beside it a step machine interleaves any number of
callers, incoming reports, timeouts, handler runs and removals, and invariants are proved over
every run of that machine.

**Gestures** (`Gestures`, `GestureAction`, `GestureLaws`, `HiresScroll`, `AxisGesture`). Cursor
movement split between directions, accumulated, quantised and arbitrated on release; wheel
movement in bursts; movement turned into axis movement. `int16_t` casts are written out
(`AsInt16`); accumulators are unbounded integers; doubles are reals.

**DPI and nicknames** (`Dpi`, `Nicknames`). The decoder of a sensor's DPI list, the choice of the
closest supported value, and the smallest-free-number allocator.

**Pairing and buttons** (`Discovery`, `Pairing`, `Buttons`). Reassembly of a device's
announcement, the pairing session, and the edge detector for diverted buttons.

`Options`, `Sequences`, `Arithmetic`, `OrderedSets` and `BytePairs` are shared helpers.

## Where the code differs from what is written about it

- A move of an axis gesture drops the fraction it cuts off. `tests/phase4/gesture_math_test.cpp:129-215`
  says that it is carried to the next move; the code assigns the remainder and never reads it
  (`AxisGesture.WithinOneIff`, `AxisGesture.OnesLoseFraction`).
- An interval gesture fires once per move that crosses a boundary, however many it crosses; the
  same file counts one firing per boundary (`tests/phase4/gesture_math_test.cpp:100-111`). The two
  agree on all forward runs of moves of at most b exactly when b is at most the interval or no move
  can be longer than it (`Gestures.OnePerIntervalIff`).
- It also fires again for a boundary that was lost and crossed a second time: one interval out, a
  step back and the step forward again fires twice (`Gestures.WobbleFiresTwice`), although
  `README.md:18` promises gestures that fire exactly once or repeat predictably. Moves of at most an
  interval fire once for each interval that the path gets out exactly when the path has no valley
  (`Gestures.FurthestFiresIff`).
- A button passes movement on while its action says that it is pressed. The ChangeHost and
  ChangeProfile actions never say so (`src/logid/actions/ChangeHostAction.cpp:103-105`,
  `src/logid/actions/ChangeProfile.cpp:40-41`), so a button held with one of them is given no
  movement (`Buttons.MovesReachActionIff`).
- Setting a hi-res factor applies the configured axis multiplier a second time
  (`AxisGesture.MultiplierAppliedTwice`, `AxisGesture.IntendedScaleIff`).
- The up and down gestures are addressed the other way round where y crosses zero than where it
  does not, so only the difference of the two is the displacement (`GestureLaws.VerticalLaw`).
- Saving `ignore` always fails unless it is empty, an unset option leaves its old entry in the
  file, and a `devices` entry that is an array is kept although a list is needed
  (`ConfigFile.SaveThenLoad` and the three lemmas after it).
- HID++ 2.0 errors reach their caller only for feature indices with low nibble 15
  (`Multiplex.ErrorDelivery`).
- The reply that a HID++ 2.0 call returns is matched by feature only, so it can be a late one to
  another function (`Multiplex.AnswerFunctionIff`).
- A timed-out request leaves its address behind, and a late reply can then be taken for the
  answer to the next request. A request whose write throws leaves its sub ID and address behind,
  and a report with them is then stored and returned by the next request
  (`Exchange.AnswersMatchIff`, `Exchange.FailedWriteMisleads`).
- A request whose write throws also leaves its response slot taken for good, and blocks every
  later request on that slot (`Multiplex.LeakIsForEver`, `Multiplex.CanGetTurnIff`).
- A sensor range whose upper end is not on the grid can be answered with a value outside it
  (`Dpi.InRangeIff`).
- A completed announcement need not be whole: a lost block leaves spaces, and a block that arrives
  before the first one completes an empty name; both are queued for pairing
  (`Discovery.NameIsWholeIff`, `Pairing.QueuedNameIff`).

## Model

| member | source | states |
|---|---|---|
| Text.LessCaseless | src/logid/config/map.h:35-45 | The two-iterator loop decides the lexicographic order of the lower-cased strings, with char signed or not |
| Text.CaselessIsStrictWeakOrder | src/logid/config/map.h:35-45 | It is irreflexive and transitive, and two keys are incomparable exactly when they are equal ignoring case |
| Text.LexLessIff | src/logid/config/map.h:35-45 | One byte string is smaller exactly when, where the two first differ, it has ended or has the smaller byte, as a signed or an unsigned number |
| Text.LowerCharIs | src/logid/config/map.h:38-42 | The letters A to Z, and no others, are lowered to a to z |
| Settings.LookupAfterAdd | src/logid/config/types.h:57-63 | Adding a member makes it the one found under its name and leaves every other lookup alone |
| Settings.LookupAfterRemove | src/logid/config/types.h:59-62 | Removing a member makes it unknown and leaves every other lookup alone |
| RoundTrip.PrepareEffect | src/logid/config/types.h:92-102 | Preparing a member never fails on a group, keeps an old member of the right type, replaces any other, and touches nothing else |
| RoundTrip.PutNamedEffect | src/logid/config/types.h:374-384 | A save by name changes that one member, to a value that depends only on the old member, and succeeds exactly when that value can be made |
| RoundTrip.PutPrimNamedEffect | src/logid/config/types.h:92-106 | A primitive saved by name always succeeds and is then what the name holds |
| RoundTrip.PutFieldsEffect | src/logid/config/group.h:75-80 | Saving a group over any group succeeds exactly when each filled field can be saved over its own old member; members that are no field stay as they were, empty optionals keep the old entry |
| RoundTrip.RejectsSavedForms | src/logid/config/types.h:202-217 | What an earlier variant alternative rejects by setting type, signature or missing member, it rejects in every saved form of the later one |
| RoundTrip.GetHolds | src/logid/config/types.h:202-222 | Anything that looks like a saved form of a value loads as that value, for every sound type at any nesting depth |
| RoundTrip.PutHolds | src/logid/config/types.h:363-372 | Saving into a new setting succeeds and leaves a saved form of the value |
| RoundTrip.KeyedHolds | src/logid/config/types.h:367-371 | Adding a map's key to the group of its value disturbs no member of the value |
| RoundTrip.LoadInvertsSave | src/logid/config/types.h:37-416 | Save then load is the identity, for every sound type and every value of it |
| Saving.SavedFits | src/logid/config/types.h:104-106 | Whatever is saved over whatever tree, every number left in it fits in a libconfig int |
| Saving.ListSaves | src/logid/config/types.h:269-275 | Saving a list empties the old one and then appends what each element leaves, up to and with the first that cannot be saved; it succeeds exactly when there is none |
| Saving.MapSaves | src/logid/config/types.h:363-372 | The same for a map, entry by entry |
| Saving.EntrySaved | src/logid/config/types.h:367-371 | An entry whose value can be saved is a group with the members of the value and then the key |
| Saving.SetSavesIff | src/logid/config/types.h:313-320 | A set of scalars can be saved over any setting if and only if it is empty |
| Saving.SetSaves | src/logid/config/types.h:313-320 | A set is saved like a list, each element into a new group |
| Saving.NoGroupNoSave | src/logid/config/group.h:75-80 | A group with anything to save cannot be saved over a setting that is no group, and leaves it as it was |
| Saving.ArrayTakesNoGroups | src/logid/config/types.h:379-383 | An array that is kept for a set or a map is emptied and then takes no group |
| Saving.ArrayTakesScalars | src/logid/config/types.h:108-112 | An element is appended to an array exactly when it is a scalar of the type of those there, and is then its last; otherwise the array stays as it was |
| Decoding.PrimLoadsIff | src/logid/config/types.h:73-90 | A scalar loads exactly from a setting of its own type, with the value in it, an unsigned one modulo its size |
| Decoding.VariantLoadsIff | src/logid/config/types.h:202-222 | A variant loads as its first alternative that loads, and not at all when none does |
| Decoding.GroupLoadsIff | src/logid/config/group.h:58-73 | A group loads exactly when its signature is there up to case, each mandatory member is there and loads; an optional one that is missing or does not load is unset |
| Decoding.ListLoads | src/logid/config/types.h:254-263 | A list loads the elements that do, in their order, and leaves out the others |
| Decoding.SetLoads | src/logid/config/types.h:299-308 | A set of numbers loads exactly those that some element loads as, in ascending order |
| Decoding.EmplacedIs | src/logid/config/types.h:345-356 | An entry gets into a map exactly when no equivalent key is there, and those that are there stay |
| Decoding.MapLoads | src/logid/config/types.h:345-356 | A listing in any order loads as a map, ascending, that holds exactly the first child of each key |
| Decoding.KeyIsLoaded | src/logid/config/types.h:345-356 | The key of every child that loads is in the map |
| LogidSchema.BasicActionSound | src/logid/config/schema.h:134-143 | The eight basic actions are told apart by their lower-cased type |
| LogidSchema.GestureSound | src/logid/config/schema.h:210-217 | The six gestures are told apart by their lower-cased mode, also inside a gestures map |
| LogidSchema.ActionSound | src/logid/config/schema.h:231-241 | The nine actions, one of them holding a map of gestures, are told apart |
| LogidSchema.ProfileSound | src/logid/config/schema.h:309-325 | A profile with everything nested in it decodes unambiguously as a map value |
| LogidSchema.DevicesSound | src/logid/config/schema.h:338-350 | The devices map decodes unambiguously: a device is told from a bare profile by its mandatory member |
| ConfigFile.LoadsTyped | src/logid/config/types.h:220-407 | Whatever the tree, what loads is a value of the type: numbers in range, maps and sets strictly ordered |
| ConfigFile.EmplaceKeepsOrder | src/logid/config/types.h:345-356 | Emplacing an entry keeps the keys strictly ascending under the comparator and brings in nothing else |
| ConfigFile.MapOver | src/logid/config/types.h:374-384 | A map can be saved over any old member but an array, over that one only when empty, and then loads back; nothing of the old member survives |
| ConfigFile.MapSavedByName | src/logid/config/types.h:374-384 | The same for a named member, with every other member untouched |
| ConfigFile.OptionalGroupComesBack | src/logid/config/types.h:393-416 | A group of optionals saved over any group comes back exactly when each field comes back by itself |
| ConfigFile.SaveThenLoad | src/logid/Configuration.cpp:118-127 | A whole configuration saved over the tree of any file is the one that loads afterwards, if and only if devices is no array (or empty), ignore is empty and no unset option has a readable entry |
| ConfigFile.SaveThenLoadFields | src/logid/config/schema.h:338-350 | The same for any group of four such options whose first is a soundly typed map |
| ConfigFile.IgnoreIsLost | src/logid/config/types.h:313-320 | A configuration with one ignored device cannot be saved, even to a new file |
| ConfigFile.UnsetOptionComesBack | src/logid/config/types.h:410-415 | An unset option with an old entry in the file is set again after save and load |
| ConfigFile.ArrayBlocksDevices | src/logid/config/types.h:379-383 | No non-empty devices map can be saved over an array |
| ConfigFile.LoadSaveLoad | src/logid/Configuration.cpp:33-55 | Every file comes back from load, save in place and load, if and only if it ignores no devices |
| SettingStore.Setting.Ready | src/logid/config/types.h:377-382 | The in-place add, remove and add of a member leaves the tree that the function gives |
| SettingStore.Setting.Save | src/logid/config/types.h:67-69 | Saving in place into a heap of settings leaves exactly the functional tree, or its state when an exception ends the save |
| SettingStore.Setting.SaveFields | src/logid/config/group.h:75-80 | The same for the members of a group |
| SettingStore.Setting.SaveList | src/logid/config/types.h:269-275 | The same for the loop that empties a list and appends each element |
| SettingStore.Setting.SaveSet | src/logid/config/types.h:313-320 | The same for the loop over a set |
| SettingStore.Setting.SaveMap | src/logid/config/types.h:363-372 | The same for the loop over a map, value first and key after |
| SettingStore.Setting.Load | src/logid/config/types.h:48-52 | Reading a heap of settings gives what loading its tree gives, and changes nothing |
| SettingStore.Setting.LoadList | src/logid/config/types.h:254-263 | The loop over a list skips what does not decode and keeps the order |
| SettingStore.Setting.LoadMap | src/logid/config/types.h:345-356 | The loop over a map fills it as the function does, first of equal keys wins |
| SettingStore.GroupObject.LoadMembers | src/logid/config/group.h:58-73 | Members are all assigned from the setting, or all rolled back to what they were |
| Configuration.Configuration.constructor | src/logid/Configuration.cpp:33-55 | The object holds what its file decodes to, with an empty devices map for a missing one |
| Configuration.Configuration.Save | src/logid/Configuration.cpp:118-127 | The in-place save succeeds and leaves a file that loads as the configuration exactly under the condition of ConfigFile.SaveThenLoad |
| Reports.HeaderFields | src/logid/backend/hidpp/Report.cpp:118-175 | Header fields survive packing and unpacking, and setting the software ID touches nothing else |
| Reports.RawIsPadded | src/logid/backend/hidpp/Report.cpp:159-175 | Raw bytes are cut off or filled up with zeros to the length of their type, and rejected exactly when the type is neither short nor long |
| Reports.Error10Iff | src/logid/backend/hidpp/Report.cpp:269-282 | A report is an error of HID++ 1.0 exactly when it is short with the error ID, and its bytes are the fields in their order |
| Reports.Error20Iff | src/logid/backend/hidpp/Report.cpp:284-298 | The same for the long errors of HID++ 2.0 |
| Multiplex.ResponseTable.TryClaim | src/logid/backend/hidpp20/Device.cpp:86-96 | A slot is claimed exactly when it is free, no other slot changes, and a write that throws leaves the claim behind |
| Multiplex.ResponseTable.Collect | src/logid/backend/hidpp20/Device.cpp:104-111 | The caller takes what its slot holds, nothing on a timeout, and the slot is free again |
| Multiplex.ResponseTable.Respond | src/logid/backend/hidpp20/Device.cpp:127-158 | A report is consumed exactly when its slot waits for its key, and changes that slot only |
| Multiplex.Safety | src/logid/backend/hidpp20/Device.cpp:86-163 | In every interleaving, failed writes included, each taken slot has one waiting owner with its key or was left by a failed write, and each response stored for an owner matches its key and arrived after the claim |
| Multiplex.TakenWithoutOwner | src/logid/backend/hidpp20/Device.cpp:92-96 | A slot is taken with nobody waiting for it exactly when a write has failed there |
| Multiplex.LeakIsForEver | src/logid/backend/hidpp10/Device.cpp:69-74 | Such a slot stays taken in every continuation, and every caller blocked on it stays blocked |
| Multiplex.CanGetTurnIff | src/logid/backend/hidpp20/Device.cpp:90-92 | Some continuation gives a blocked caller its turn if and only if no write has failed on its slot |
| Multiplex.NoSharedSlot | src/logid/backend/hidpp10/Device.cpp:65-72 | Two waiting callers never use one slot |
| Multiplex.AnswersAreForTheCaller | src/logid/backend/hidpp20/Device.cpp:98-118 | A returned reply or error has the feature or sub ID that the caller sent, and was made from a report that arrived after the request went out |
| Multiplex.PlainIsStoredWhere | src/logid/backend/hidpp20/Device.cpp:138-157 | In every run a report that is no error is stored in exactly the slot that waits for its feature or sub ID, in HID++ 2.0 only with the driver's software ID, and changes nothing else |
| Multiplex.PlainIsAnswered | src/logid/backend/hidpp20/Device.cpp:98-118 | In every run such a report for a waiting call is what the call then returns, and the call can no longer time out |
| Multiplex.Error10IsAnswered | src/logid/backend/hidpp10/Device.cpp:98-120 | In every run an error that names the sub ID of a waiting call is returned to it, decoded |
| Multiplex.Error20IsAnswered | src/logid/backend/hidpp20/Device.cpp:127-148 | The same in HID++ 2.0 for feature indices with low nibble 15 |
| Multiplex.CanClaimIff | src/logid/backend/hidpp20/Device.cpp:86-96 | A blocked call can go out exactly when no waiting call, and none whose write failed, shares the low four bits of the feature index, or in HID++ 1.0 the low two of the sub ID |
| Multiplex.StartsFree | src/logid/backend/hidpp20/Device.h:60-68 | At first all slots are free, 4 in HID++ 1.0 and 16 in HID++ 2.0 |
| Multiplex.CallStarts | src/logid/backend/hidpp20/Device.cpp:86-96 | In every run a new call is blocked; one that can go out either waits or its write fails, and both take its slot and no other |
| Multiplex.CallEnds | src/logid/backend/hidpp20/Device.cpp:98-118 | In every run a waiting call returns the response stored for it, or times out exactly while there is none, and both free its slot and no other |
| Multiplex.AnswerFunctionIff | src/logid/backend/hidpp20/Device.cpp:86-163 | From a device that only replies to what it was sent, a waiting call is given no answer to another function than the one it called, in any continuation, if and only if every request gone out for its feature called that function and no response with another one is stored |
| Multiplex.ForeignReportsPass | src/logid/backend/hidpp20/Device.cpp:132-144 | Reports and errors with another software ID are consumed by no one |
| Multiplex.ErrorDelivery | src/logid/backend/hidpp20/Device.cpp:127-148 | An error reaches its waiting caller always in HID++ 1.0, and in HID++ 2.0 exactly when the low nibble of the feature index is 15 |
| Exchange.Exchange.Finish | src/logid/backend/hidpp/Device.cpp:216-224 | After an answer nothing is left over; after a timeout the address is |
| Exchange.Exchange.HandleEvent | src/logid/backend/hidpp/Device.cpp:196-201 | An incoming report is taken as the response or handed to the handlers, never both and never neither |
| Exchange.Exchange.ResponseReport | src/logid/backend/hidpp/Device.cpp:240-268 | A report is taken exactly when the sub ID and address it answers are those sent |
| Exchange.ReachableInv | src/logid/backend/hidpp/Device.cpp:203-238 | In every interleaving, failed writes included, a response is pending between requests only while a sub ID is left set, and during a call the fields are those of its request |
| Exchange.CleanWhileWritesSucceed | src/logid/backend/hidpp/Device.cpp:203-238 | While no write fails nothing is left over between requests, and a pending response has the sub ID of the request in flight |
| Exchange.CleanAfterCompletion | src/logid/backend/hidpp/Device.cpp:216-224 | Every answer and every timeout cleans up, also after a failed write |
| Exchange.CleanIff | src/logid/backend/hidpp/Device.cpp:203-238 | Between requests something is left over if and only if the last call to end ended with a write that threw, whatever reports came since |
| Exchange.AnswersMatchIff | src/logid/backend/hidpp/Device.cpp:203-238 | In every interleaving the answer has the sub ID and address sent, if and only if before the call no response with another key was pending and no other address was left behind |
| Exchange.LateReplyIsTaken | src/logid/backend/hidpp/Device.cpp:206-214 | The interleaving in which a late reply is taken for the answer |
| Exchange.TimeoutLeavesAddress | src/logid/backend/hidpp/Device.cpp:216-219 | A timeout reaches the state in which that can happen |
| Exchange.AnswerHasSubId | src/logid/backend/hidpp/Device.cpp:240-268 | In every interleaving the answer has the sub ID sent, if and only if no response with another one was pending before the call |
| Exchange.KeptIff | src/logid/backend/hidpp/Device.cpp:240-268 | A report is kept as the response exactly when the sub ID and address it answers, read from behind the error ID in an error, are those held; an error of HID++ 1.0 is kept decoded, any other report as it is |
| Exchange.AnswerIsReturned | src/logid/backend/hidpp/Device.cpp:211-238 | A waiting request that hears a report for it returns that, and leaves nothing behind |
| Exchange.PendingIsTaken | src/logid/backend/hidpp/Device.cpp:211-221 | A response pending before a call can be its answer, whatever was asked |
| Exchange.FailedWriteMisleads | src/logid/backend/hidpp/Device.cpp:206-209 | The run in which a failed write and one report make the next request, whatever it is, return the answer to the failed one |
| EventHandlers.HandlerList.Add | src/logid/backend/EventHandlerList.h:57-61 | A new handler goes to the front, enabled, with an iterator of its own |
| EventHandlers.HandlerList.Remove | src/logid/backend/EventHandlerList.h:63-71 | With the exclusive lock the node is erased, without it only its flag is cleared |
| EventHandlers.HandlerList.Cleanup | src/logid/backend/EventHandlerList.h:43-55 | The two loops, one collecting and one erasing, leave exactly the enabled nodes in their order |
| EventHandlers.CleanupSplits | src/logid/backend/EventHandlerList.h:43-55 | What is kept are the enabled nodes and what is erased the others, each node once |
| EventHandlers.CleanupKeepsOrder | src/logid/backend/EventHandlerList.h:43-55 | Both in the order of the list |
| EventHandlers.Reachable | src/logid/backend/EventHandlerList.h:43-86 | In every interleaving of adds, removes, cleanups and runs, each taking the mutex, the list and the flags step by step, the mutex is held by those who act under it and never both ways, each walk's iterator is at a node of the list, and all handlers it started with are still there in order |
| EventHandlers.ErasedOnlyWhenIdle | src/logid/backend/EventHandlerList.h:43-71 | In every interleaving a node leaves the list only by the thread that has the mutex to itself, and no run is active then |
| EventHandlers.CanLockIff | src/logid/backend/EventHandlerList.h:43-86 | In every interleaving a cleanup can begin exactly when no thread holds the mutex in any way, and a run exactly when none holds it exclusively |
| EventHandlers.CleanupIsComplete | src/logid/backend/EventHandlerList.h:43-55 | In every interleaving a cleanup erases disabled handlers only, and when it ends none that was disabled at its start is left, whatever was added or disabled meanwhile |
| EventHandlers.RunVisitsItsStart | src/logid/backend/EventHandlerList.h:73-86 | A run visits exactly the handlers present at its start, once each, newest first |
| EventHandlers.RemovedIsNotCalled | src/logid/backend/EventHandlerList.h:63-86 | A handler whose removal has returned is called by no later visit |
| EventHandlers.StartsEmpty | src/logid/backend/EventHandlerList.h:33-41 | At first there is no handler and the mutex is free |
| EventHandlers.CanRemoveIff | src/logid/backend/EventHandlerList.h:57-71 | In every interleaving a handler for which remove has not been called is in the list and enabled, so an iterator stays valid until then: a remove can begin if and only if its handler was added and remove has not been called for it, and, to erase at once, the mutex is free |
| EventHandlers.AddAndDisable | src/logid/backend/EventHandlerList.h:57-71 | In every interleaving a new handler goes to the front, enabled, and a remove without the mutex disables its handler and nothing else |
| EventHandlers.RemoveCompletes | src/logid/backend/EventHandlerList.h:63-71 | From every reachable state in which the mutex is free a remove takes exactly its handler out of the list and frees the mutex |
| EventHandlers.CleanupCompletes | src/logid/backend/EventHandlerList.h:43-55 | From every such state the steps of a cleanup left to itself leave the enabled handlers in their order, and change nothing else |
| EventHandlers.RunCallsEnabled | src/logid/backend/EventHandlerList.h:73-86 | From every reachable state the steps of a run left to itself call exactly the enabled handlers, newest first |
| EventHandlers.OwnerCanGoOn | src/logid/backend/EventHandlerList.h:43-71 | In every interleaving the thread that has the mutex to itself can take exactly one step |
| EventHandlers.RunCanGoOn | src/logid/backend/EventHandlerList.h:73-86 | In every interleaving an active run can visit its next handler, which it calls exactly when it is enabled, or has none left and can end |
| Gestures.IntervalGesture.Move | src/logid/actions/gesture/IntervalGesture.cpp:64-87 | The quotient counter moves as the function Moved, over which the laws below are proved |
| Gestures.ReleaseGesture.Release | src/logid/actions/gesture/ReleaseGesture.cpp:51-71 | It fires exactly when it is primary and has met its threshold |
| Gestures.ThresholdGesture.Move | src/logid/actions/gesture/ThresholdGesture.cpp:58-68 | It fires when the threshold is first met since the press |
| Gestures.AxisIsSum | src/logid/actions/gesture/ReleaseGesture.cpp:60-62 | The accumulated axis is the start plus all movement received |
| Gestures.IntervalAccounting | src/logid/actions/gesture/IntervalGesture.cpp:64-87 | For any moves, forward or back: firings and boundaries skipped inside one move are together the boundaries held and those lost |
| Gestures.IntervalFires | src/logid/actions/gesture/IntervalGesture.cpp:51-87 | From the threshold, for any moves: firings are the intervals held plus those lost less those skipped; forward moves hold floor(total / interval) and lose none, and moves of at most an interval skip none |
| Gestures.OnePerIntervalIff | src/logid/actions/gesture/IntervalGesture.cpp:64-87 | Every run of forward int16 moves of at most b fires once per interval of movement, if and only if b is at most the interval or the interval is at least 32767 |
| Gestures.LongMoveSkips | src/logid/actions/gesture/IntervalGesture.cpp:79-86 | The run [interval - 1, interval + 1], which fits in int16 for an interval below 32767, covers two intervals and fires once |
| Gestures.FurthestFiresIff | src/logid/actions/gesture/IntervalGesture.cpp:51-87 | Any moves of at most an interval, forward or back, fire at least floor(furthest / interval) times past the threshold, and exactly that often if and only if the path has no valley: no level, kept while below the threshold, that is lower than one before it and one after it |
| Gestures.WobbleFiresTwice | src/logid/actions/gesture/IntervalGesture.cpp:79-86 | To the threshold, one interval on, 1 back and 1 forward ends one interval out and fires twice, for every interval above 1 |
| Gestures.ThresholdFiresOnce | src/logid/actions/gesture/ThresholdGesture.cpp:48-68 | Over any run of moves it fires once if the threshold is ever reached, back and forth or not, and otherwise never |
| Gestures.ReleaseArms | src/logid/actions/gesture/ThresholdGesture.cpp:53-56 | A release arms a threshold gesture again |
| GestureAction.ToDirection | src/logid/actions/GestureAction.cpp:65-74 | The direction is one of largest displacement; a tie goes to right before down, down before left, left before up, and up before right |
| GestureAction.GestureAction.Press | src/logid/actions/GestureAction.cpp:109-116 | Every gesture starts at zero and the origin is reset |
| GestureAction.GestureAction.MoveX | src/logid/actions/GestureAction.cpp:155-185 | Each horizontal gesture receives its share of the move, and no other gesture anything |
| GestureAction.GestureAction.MoveY | src/logid/actions/GestureAction.cpp:187-215 | The same for the vertical gestures |
| GestureAction.GestureAction.Release | src/logid/actions/GestureAction.cpp:118-150 | Each gesture gets the one release call its place calls for, in the stated order |
| GestureLaws.RunIsReceived | src/logid/actions/GestureAction.cpp:152-219 | After any run of moves each gesture is its pressed self moved by what its direction received |
| GestureLaws.MovedWhen | src/logid/actions/GestureAction.cpp:152-219 | A horizontal gesture is moved exactly when the cursor moves sideways and is on its side before or after, a vertical one exactly when it moves up or down and ends on that side, reaches the origin from the other, or leaves that side for the other |
| GestureLaws.HorizontalTotals | src/logid/actions/GestureAction.cpp:157-185 | Over any run of int16 moves right has received max(x, 0), and left max(-x, 0) less 65536 for each move of -32768 made from x <= 0 |
| GestureLaws.VerticalTotals | src/logid/actions/GestureAction.cpp:187-215 | Down and up have received their displacement plus the residue of the zero crossings |
| GestureLaws.VerticalLaw | src/logid/actions/GestureAction.cpp:187-215 | Down less up is y (plus 65536 per wrapped move), and each has its displacement if and only if the residue is zero |
| GestureLaws.VerticalAlwaysIff | src/logid/actions/GestureAction.cpp:187-215 | Down has its displacement after every move of a run if and only if each crossing of zero goes from some y to -y; so has up, when no move wraps |
| GestureLaws.NoCrossingNoResidue | src/logid/actions/GestureAction.cpp:188-205 | A path that never crosses y == 0 leaves no residue |
| GestureLaws.VerticalLawFails | src/logid/actions/GestureAction.cpp:188-205 | Down 60 and back to the start gives 60 to both gestures |
| GestureLaws.WinnerIsFirst | src/logid/actions/GestureAction.cpp:124-144 | The winner is the direction gone in if it met its threshold, else the first other direction, in enumerator order, that did |
| GestureLaws.EachReleasedOnce | src/logid/actions/GestureAction.cpp:118-150 | No gesture is released twice, and the calls made are exactly those due |
| GestureLaws.OnePrimary | src/logid/actions/GestureAction.cpp:118-150 | At most one direction is released as primary while meeting its threshold, and none is primary exactly when no direction met its own |
| GestureLaws.FiresExactlyOnce | src/logid/actions/GestureAction.cpp:109-219 | A press, any moves and a release of OnRelease gestures fire exactly one action if a gesture for no direction exists or some direction met its threshold, else none |
| GestureLaws.EachFires | src/logid/actions/GestureAction.cpp:109-219 | For any mixture of gestures, over a press, any moves and the release: a threshold gesture fires once if its threshold was reached, an interval gesture once per boundary held or lost less those skipped, and a release gesture once exactly if it is the one that takes the release |
| GestureLaws.EachIntervalIff | src/logid/actions/GestureAction.cpp:109-219 | An interval gesture of a button that is given no more than an interval at a time fires once for each interval that its path gets past the threshold, if and only if that path has no valley |
| GestureLaws.RightMeets | src/logid/actions/GestureAction.cpp:157-185 | Whatever the path, the right gesture has met its threshold exactly when the cursor ended that far right |
| GestureLaws.LeftMeets | src/logid/actions/GestureAction.cpp:157-185 | The same for the left gesture, less 65536 for each wrapped move |
| GestureLaws.ReturnFiresUp | src/logid/actions/GestureAction.cpp:118-205 | On y the path matters: a cursor back at its start fires the up gesture |
| HiresScroll.HiresScroll.HandleScroll | src/logid/features/HiresScroll.cpp:155-194 | A wheel report moves one gesture, restarts the other on a change of direction, and both after a pause of a second |
| HiresScroll.OppositeIsFresh | src/logid/features/HiresScroll.cpp:145-194 | Over any run of reports the gesture opposite to the last direction has not moved since its last press |
| HiresScroll.StartsFresh | src/logid/features/HiresScroll.cpp:29-48 | Both gestures start freshly pressed, so that the first reports in one direction are a burst |
| HiresScroll.BurstMovesUp | src/logid/features/HiresScroll.cpp:155-194 | In a burst the up gesture is its pressed self moved by exactly the upward reports |
| HiresScroll.BurstFires | src/logid/features/HiresScroll.cpp:155-194 | In a burst an interval gesture fires at most floor(travel / interval) times, and exactly that often when no report exceeds the interval |
| HiresScroll.BurstFiresIff | src/logid/features/HiresScroll.cpp:171-180 | Every burst of int16 reports of at most b fires once per interval of travel, if and only if b is at most the interval or the interval is at least 32767 |
| HiresScroll.BurstAfterAnyRun | src/logid/features/HiresScroll.cpp:145-194 | The same whatever reports came before the burst |
| HiresScroll.MirrorRun | src/logid/features/HiresScroll.cpp:171-191 | Reports that can be negated treat the two directions as mirror images |
| HiresScroll.DownBurstFires | src/logid/features/HiresScroll.cpp:155-194 | In a downward burst of any reports an interval gesture fires once per boundary held or lost less those skipped; without the report -32768 that is at most floor(travel / interval), and exactly that for reports of at most an interval |
| HiresScroll.DownBurstTotal | src/logid/features/HiresScroll.cpp:181-191 | A downward burst of any reports moves the down gesture by its travel less 65536 for each report of -32768 |
| HiresScroll.LowestReport | src/logid/features/HiresScroll.cpp:188-189 | The report of -32768 moves the down gesture backwards |
| AxisGesture.AxisGesture.Move | src/logid/actions/gesture/AxisGesture.cpp:75-127 | A move sends its scaled, rounded part past the threshold, and detents to the low-res axis |
| AxisGesture.AxisGesture.SetHiresMultiplier | src/logid/actions/gesture/AxisGesture.cpp:138-144 | The scale becomes the configured multiplier, twice, times the hi-res factor |
| AxisGesture.LowResConservation | src/logid/actions/gesture/AxisGesture.cpp:109-121 | After any run of moves the hi-res movement sent with the low-res axis is 120 per detent plus the remainder, and the remainder is below 120 in size |
| AxisGesture.DetentsSent | src/logid/actions/gesture/AxisGesture.cpp:109-121 | A move with a low-res axis sends detents exactly when the size carried is 60 or more: as many whole ones of 120 as it holds, at least one, in its direction, and carries on the rest; no other move touches either |
| AxisGesture.PressTravels | src/logid/actions/gesture/AxisGesture.cpp:59-68 | A press starts at the threshold, or at 0, and carries nothing over: forward moves travel past the threshold by their total, or by what of it lies beyond |
| AxisGesture.Accounting | src/logid/actions/gesture/AxisGesture.cpp:86-104 | For any moves, forward or back, the movement sent is the scaled travel past the threshold less the fractions cut off; a move that falls back to the threshold or below sends nothing |
| AxisGesture.SentWithinMoves | src/logid/actions/gesture/AxisGesture.cpp:59-127 | After n emitting moves the movement sent lies in (m S - n, m S], and is m S for a whole scale |
| AxisGesture.WithinOneIff | src/logid/actions/gesture/AxisGesture.cpp:98-104 | Every run of int16 moves stays within one of the scaled travel, if and only if the scale is a whole number |
| AxisGesture.OnesLoseFraction | src/logid/actions/gesture/AxisGesture.cpp:98-104 | Each move of 1 past the threshold loses the fraction of the scale, whatever the scale |
| AxisGesture.HalvesAreLost | src/logid/actions/gesture/AxisGesture.cpp:98-104 | At a scale of 0.5 any number of moves of 1 sends nothing |
| AxisGesture.MultiplierAppliedTwice | src/logid/actions/gesture/AxisGesture.cpp:90-96 | After the hi-res factor h is set, a real multiplier k sends k k h per unit, forward even when k is negative, to within one for each move that sends, and exactly for a whole scale |
| AxisGesture.IntendedScaleIff | src/logid/actions/gesture/AxisGesture.cpp:138-144 | For any real multiplier k and factor h the scale is the intended one, if and only if k is 0 or 1 or h is 0 |
| AxisGesture.IntendedMovementIff | src/logid/actions/gesture/AxisGesture.cpp:86-107 | For whole k and h every run of int16 moves sends k h per unit under that condition and only then |
| Dpi.DecodeList | src/logid/backend/hidpp20/features/AdjustableDPI.cpp:32-53 | The loop gives the list made of the words before the first zero one, or reads past the end of the response |
| Dpi.ValuesAre | src/logid/backend/hidpp20/features/AdjustableDPI.cpp:44-49 | The words below 0xe000 are the values, all of them and in their order |
| Dpi.StepIs | src/logid/backend/hidpp20/features/AdjustableDPI.cpp:44-49 | The list is a range exactly when some word is 0xe000 or more, and the last such word less 0xe000 is its step |
| Dpi.ReadableIff | src/logid/backend/hidpp20/features/AdjustableDPI.cpp:39-43 | Decoding stays inside the response exactly when its length is odd or it holds a zero word |
| Dpi.DecodeInvertsEncode | src/logid/backend/hidpp20/features/AdjustableDPI.cpp:39-50 | An encoded list decodes to its words, whatever fills the report |
| Dpi.ListExample | src/logid/backend/hidpp20/features/AdjustableDPI.cpp:39-43 | The bytes 03 20 06 40 00 00 are the list 800, 1600 |
| Dpi.RangeAnswers | src/logid/backend/hidpp20/features/AdjustableDPI.cpp:44-49 | The words of a sensor's range decode to that range, and requests are answered from it |
| Dpi.ListNearest | src/logid/features/DPI.cpp:43-59 | From a list the answer is supported, at least distance, and answered by itself |
| Dpi.FirstOfNearest | src/logid/features/DPI.cpp:43-59 | Of values equally near the first one listed is the answer, and an empty list answers 0 |
| Dpi.ListMonotone | src/logid/features/DPI.cpp:43-59 | From a list a larger request never gets a smaller answer |
| Dpi.WithinHalfStep | src/logid/features/DPI.cpp:30-41 | Within any range the answer is within half a step of the request |
| Dpi.InRangeIff | src/logid/features/DPI.cpp:30-41 | Every answer is within the range if and only if its upper end overhangs the grid by less than half a step |
| Dpi.MonotoneIff | src/logid/features/DPI.cpp:30-41 | A larger request never gets a smaller answer under the same condition, and only then |
| Dpi.GridIff | src/logid/features/DPI.cpp:30-41 | Answers are on the grid, and answered by themselves, if and only if the range is a whole number of steps |
| Dpi.NearestOnGrid | src/logid/features/DPI.cpp:30-41 | Then the answer is the grid value nearest to any request |
| Nicknames.DeviceManager.AdjacentFind | src/logid/DeviceManager.cpp:265-267 | The position found is that of the first name followed by a gap |
| Nicknames.DeviceManager.NewNickname | src/logid/DeviceManager.cpp:254-287 | The number returned is the smallest not in use, and is the only one added |
| Nicknames.DeviceManager.LeastFree | src/logid/DeviceManager.cpp:289-321 | The choice, shared with receivers, is the least free number |
| Nicknames.DeviceManager.Release | src/logid/Device.cpp:47-52 | The destructor takes exactly its number out |
| Nicknames.NicknamesStaySmall | src/logid/DeviceManager.cpp:254-287 | Over any run of creations and destructions live nicknames are distinct and each is below the most ever live at once |
| Discovery.DiscoveryEvent.Fill | src/logid/backend/hidpp10/Receiver.cpp:301-344 | A header replaces the event, a block of its sequence fills its part of the name, and the result says whether the name is complete |
| Discovery.DiscoveryEvent.ReadAddress | src/logid/backend/hidpp10/Receiver.cpp:310-312 | The loop reads six bytes, lowest first |
| Discovery.DiscoveryEvent.FillBlock | src/logid/backend/hidpp10/Receiver.cpp:327-342 | The loop overwrites exactly one block and reports whether it reached past the end |
| Discovery.NameIsRebuilt | src/logid/backend/hidpp10/Receiver.cpp:301-344 | A header and the blocks of any name in order rebuild exactly that name, and block floor(length / 13) + 1 is the first to complete it |
| Discovery.MixedBlocks | src/logid/backend/hidpp10/Receiver.cpp:327-340 | With blocks of a name in any order, lost or repeated, among any of other sequences, each character is the one that arrived with the first block or after it, else a space |
| Discovery.HeaderStartsOver | src/logid/backend/hidpp10/Receiver.cpp:301-321 | A header starts over: from it on, nothing before it matters, so a device may announce itself again at any time |
| Discovery.HeaderAnnounces | src/logid/backend/hidpp10/Receiver.cpp:306-320 | A header gives the event its device type, product ID, address, authentication and sequence number from the stated bytes, lowest byte first, and an empty name |
| Discovery.NameIsWholeIff | src/logid/backend/hidpp10/Receiver.cpp:301-344 | Whatever reports came before the last header, the name held is the name announced, if and only if since then its first block has arrived and every character has arrived since that or is a space |
| Discovery.MixedCompletes | src/logid/backend/hidpp10/Receiver.cpp:333-342 | A block completes the event exactly when it is of its sequence and reaches past the length known by then, whatever else is missing |
| Discovery.LostBlockCompletes | src/logid/backend/hidpp10/Receiver.cpp:333-342 | Blocks 1 and 3 of a name of three blocks complete it with spaces for block 2 |
| Discovery.ForeignBlocksIgnored | src/logid/backend/hidpp10/Receiver.cpp:323-325 | Blocks of other sequences change nothing and complete nothing |
| Discovery.EarlyBlockCompletes | src/logid/backend/hidpp10/Receiver.cpp:327-340 | A later block before the first completes an empty name |
| Discovery.RequestRepeatsHeader | src/logid/backend/hidpp10/Receiver.cpp:100-115 | The pairing request repeats the address and authentication bytes of the header, and asks for entropy 10 for a keyboard and 20 for any other device |
| Pairing.ReceiverMonitor.StartPair | src/logid/backend/hidpp10/ReceiverMonitor.cpp:197-208 | A session starts afresh in the state of its receiver |
| Pairing.ReceiverMonitor.StopPair | src/logid/backend/hidpp10/ReceiverMonitor.cpp:210-222 | Stopping ends the session and stops what was going on |
| Pairing.ReceiverMonitor.OnDiscovered | src/logid/backend/hidpp10/ReceiverMonitor.cpp:79-96 | Only a discovering session listens, and the completing report queues the pairing |
| Pairing.ReceiverMonitor.OnPasskey | src/logid/backend/hidpp10/ReceiverMonitor.cpp:106-116 | A passkey is signalled only while one is awaited |
| Pairing.ReceiverMonitor.OnStatus | src/logid/backend/hidpp10/ReceiverMonitor.cpp:127-152 | Status reports end the phase they are about and no other |
| Pairing.OncePerSession | src/logid/backend/hidpp10/ReceiverMonitor.cpp:73-154 | In a session bolt pairing is queued at most once, and pairReady emitted at most once, after it and with the same event; other receivers do neither |
| Pairing.LogsOnlyGrow | src/logid/backend/hidpp10/ReceiverMonitor.cpp:73-154 | Between two starts nothing queued or signalled is taken back |
| Pairing.EndsIff | src/logid/backend/hidpp10/ReceiverMonitor.cpp:127-152 | A stop ends every session and a status report exactly the phase it is about: then nothing is queued or signalled whatever comes until the next start; any other status changes nothing |
| Pairing.OverIff | src/logid/backend/hidpp10/ReceiverMonitor.cpp:79-116 | A session can still queue or signal a pairing exactly while it discovers or waits for a passkey |
| Pairing.StartsAfresh | src/logid/backend/hidpp10/ReceiverMonitor.cpp:197-208 | A start forgets the session before it |
| Pairing.AnnouncedDeviceIsPaired | src/logid/backend/hidpp10/ReceiverMonitor.cpp:79-116 | A device that announces its whole name is queued once with exactly that name and signalled when the passkey comes |
| Pairing.QueuedNameIff | src/logid/backend/hidpp10/ReceiverMonitor.cpp:84-93 | Whatever came before the last header and whatever blocks since are lost, repeated, out of order or of other sequences, the first completing one queues the event, and the name queued and signalled is the one announced, if and only if nothing of it was missing |
| Pairing.LostBlockIsQueued | src/logid/backend/hidpp10/ReceiverMonitor.cpp:84-93 | A device whose second name block is lost is queued with spaces in its name |
| Buttons.DivertedButtonEvent | src/logid/backend/hidpp20/features/ReprogControls.cpp:139-153 | The loop gives the set of the words before the first zero one |
| Buttons.DecodeInvertsEncode | src/logid/backend/hidpp20/features/ReprogControls.cpp:139-153 | Decoding inverts the encoding of any set of non-zero control IDs, closed by a zero or by the end |
| Buttons.RemapButton.ButtonEvent | src/logid/features/RemapButton.cpp:154-178 | Exactly the added known controls are pressed, in order, then exactly the removed ones released, the listing is kept, and the flag of an action that marks itself follows |
| Buttons.MissingIs | src/logid/features/RemapButton.cpp:154-178 | The controls pressed, or released, are each known control in one listing and not in the other, once and in ascending order |
| Buttons.RemapButton.RawXYEvent | src/logid/features/RemapButton.cpp:127-132 | Movement goes to exactly the buttons whose action says that it is pressed, and the first since a press goes no further |
| Buttons.EdgesAlternate | src/logid/features/RemapButton.cpp:154-178 | Over any run of reports the held set is the one listed last, each known control sees presses and releases strictly alternating from a press, and its action says that it is pressed exactly while the control is held and the action is neither ChangeHost nor ChangeProfile |
| Buttons.FirstMoveDropped | src/logid/features/RemapButton.cpp:224-243 | While a control stays held, an action other than ChangeHost and ChangeProfile is given every movement reported but the first, and these none |
| Buttons.MovesReachActionIff | src/logid/features/RemapButton.cpp:127-132 | Every run of movement reaches a held action, but for its first report, if and only if there is an action and it is neither ChangeHost nor ChangeProfile |

## Left out

- libconfig itself is not in the repository: `Settings` states its documented in-memory behaviour
  (typed assignment, members found by name, adding and removing, arrays of scalars, no automatic
  type conversion). Its text syntax, file access and the authorisation of a save are not modelled.
- SettingStore.GroupObject.LoadMembers: members are values; that a member wrapped in a property
  shares its storage with copies of it is not modelled.
- Text.LessCaseless: `tolower` in the C locale. Where the order of a gestures map is used, char is
  signed.
- Multiplex.Safety: safety only. Freeing a slot notifies no one, so a caller blocked on a slot that
  becomes free may wait on; when it is woken is not modelled. A failed write stands for any
  exception thrown while the request is being sent.
- EventHandlers.Reachable: each list operation is one step. `cleanup` walks and erases without
  `add_mutex`, so an add can race with it inside `std::list`; that the operations stay atomic is
  taken for granted. `run_all` has no method here and exists only as steps, because its callbacks
  may call back into the list.
- Exchange.AnswersMatchIff: the assignment of `_sent_sub_id` and that of `_sent_address` are single
  steps; torn reads of the two fields are not modelled.
- GestureAction.GestureAction.Move: the gestures are values in the map and no axis gesture is among
  them, so updates through a `shared_ptr` and mixing both kinds are not modelled. Replacing a
  gesture while its button is held is left out, as are profile switches.
- GestureLaws.FiresExactlyOnce: OnRelease gestures only; GestureLaws.EachFires has the counts for
  any mixture.
- AxisGesture.AxisGesture.Move: doubles are reals and the cast to int does not overflow. The lookup
  of a low-res axis is given the movement instead of the axis code, so its outcome is an arbitrary
  boolean of each move.
- AxisGesture.IntendedMovementIff: whole multipliers and factors. For real ones two scales can send
  the same because fractions are cut off; AxisGesture.IntendedScaleIff has the condition on the
  scale, and AxisGesture.MultiplierAppliedTwice the movement to within one for each move.
- Gestures.FurthestFiresIff: a press that starts an interval or more past a negative threshold has
  boundaries behind it that never fire; Gestures.IntervalAccounting covers it.
- HiresScroll.HiresScroll.HandleScroll: time is a parameter, gestures are values, and an axis
  gesture bound to the wheel is not among them.
- Dpi.DecodeList: what happens after a read past the end of the response, which is undefined in C++.
- Dpi.InRangeIff: a range needs two ends in order and a positive step, which the division in the
  source needs too. Caching of the lists per sensor is left out.
- Nicknames.DeviceManager.NewNickname: unbounded integers; the duplicate for receivers is the same
  code on another set and has no second model.
- Pairing.OncePerSession: says when a bolt pairing is queued, not when the task queue runs it.
- Buttons.EdgesAlternate: no profile or action change while a control is held.
- Integers that only accumulate (`_axis`, `_x`, `_y`, `_interval_pass_count`) are unbounded.
- udev, epoll, hidraw, evdev and D-Bus access, the GUI, the task queue, thumb wheel, smart shift,
  battery, host change and retry backoff are left out; the last five would add only easy members.
