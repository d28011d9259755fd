# A verified model of Esconf

Esconf is a configuration system: a daemon keeps named properties per channel, clients read and write
them over D-Bus through a local cache, and the daemon stores them in XML files.  This project models
the two state machines at its centre, and the link between them, in Dafny 4.11:

* the client cache against the daemon: optimistic local writes, bursts of overlapping sets folded into
  one "old item", suppressed signals, rollback, finalization;
* the property tree of a channel and its files: lookup, adding with parents, single and recursive
  reset, enumeration, the writer, the parser, and loading under the lock policy.

`dafny verify dfyconfig.toml` checks everything.  The code that works in place is modelled in place: the
cache is a class with its tables and old items, the property tree consists of linked nodes, the parser
is a class with its string and list pointer, structs live in an array of bytes.  Each method is proved
against a function on values, and the theorems are about those functions.

| file | contents |
|---|---|
| `Base`, `Values`, `Bus` | values, comparison, passage through GVariant and what arrives |
| `CacheModel`, `Cache` | the cache as functions, and as a class over its three tables |
| `Answers`, `Emissions` | what the daemon's answers leave in the cache, and what the application hears |
| `Protocol`, `Queues`, `Convergence`, `Relocking`, `Divergence`, `Progress`, `Bursts` | client, daemon and other clients as a state machine over FIFO queues; when the cache agrees with the daemon |
| `Lifetime`, `Leaks`, `Finalization` | old items: freed, leaked, left behind by finalization |
| `Names` | property names and paths, and the names that nodes announce |
| `TreeModel`, `TreeOrder`, `FlatMaps`, `Locks`, `Subtrees`, `Replay` | the tree as a map from paths, its refinement of two flat maps, locks, change signals |
| `Proptree`, `Backend`, `Enumeration`, `Daemon`, `StoreLink` | the tree as linked nodes, the operations on it, the daemon, and the link to `Protocol` |
| `IntText`, `Numerals`, `XmlText`, `XmlSpec`, `Tags`, `XmlInvariants`, `XmlDoc`, `XmlRuns`, `Rejects`, `Layers`, `LockLists`, `TreeFile`, `RoundTrip`, `LockedArrays`, `UserFiles` | texts, the parser as a state machine, documents, layered loading, the round trip |
| `XmlParser`, `Loader`, `XmlWriter` | parser, loader and writer on the linked tree |
| `Alignment`, `StructLayout` | structs as array properties |

## What turned out to be false

The code is modelled as it is.  Where a promise does not hold, the exact condition is proved.

* A set of a value without variant form fails after its old item is installed, and the property then
  keeps its cached value through every later change; a system default without variant form is announced
  to nobody; a recursive reset announces a name that has a one-character component as another name; and a
  reset of the whole channel brings back locks that had been pruned away, which undoes a burst of local
  sets wrongly.  The cache converges in all runs exactly if none of the four can occur
  (`Divergence.ConvergenceIsExact`).
* An old item is never freed if its last callback finds the property out of the cache, which happens
  after a removal or a reset during a pending set; every other one stays filed until it is freed, exactly
  once (`Lifetime.FreedUnlessLeaked`, `Finalization.InTheEnd`; runs that leak: `Leaks.SignalLeaks`,
  `Leaks.ResetLeaks`).
* A set that cannot be sent during a burst cancels the pending call and leaves its item out of the table
  that finalization goes through, so a callback that runs after finalization goes on to the cache.  No run
  does so exactly if the values set locally can all be sent, or none of them can
  (`Finalization.SafetyIsExact`).
* Names are rebuilt wrongly as soon as a component has one character, and a value without variant form is
  announced to nobody, so an observer of the signals can be wrong.  Over given names and stored values,
  defaults and values loaded at the start included, it is right in all runs exactly if there are no names,
  or every stored value has a variant form and no name has a one-character component
  (`Replay.ReplayIsExact`; runs that fail: `Replay.ShortStoredFails`, `Replay.UnsendableDefaultFails`).
* Pruning by a single reset removes locked ancestors that carry nothing: a lock survives all sets and
  resets exactly if some system default lies at its node or below it (`Locks.LockSurvivesExactly`).
* A property behind a pruned lock can be set, and the value saved is not loaded again.  In a channel that a
  system file locks, a property that no file mentions can be set, and no user file is ever read
  (`RoundTrip.LockedChannelForgets`).  The saved file, if it is read, parses, and loading gives back the user
  map, exactly if, in a locked channel, the map is empty, and otherwise every user value is storable and none lies on a path that the system
  files lock (`RoundTrip.SaveAndLoad`; for effective values, `LockedArrays.EffectiveRoundTrip`); runs stay
  clear of such values exactly if the channel is not locked and every lock has a default at or below it
  (`RoundTrip.RunsStayClear`).
* Every name of a locked channel is reported as locked, but a set asks the node only: the report tells
  exactly which sets are refused if and only if the channel is not locked (`Locks.LockReportIsExact`).
* An array in the user file on a property that a system file locks stops the parse of the user file, or,
  inside an open array, adds its items to that array (`Layers.LockedArrayStops`,
  `Layers.LockedArrayLeaks`).  Which whole files parse, and what values they leave with such items counted
  in: `UserFiles.UserFileReads`, `UserFiles.UserLoadIsActs`.
* CHAR values other than 0, 16-bit integers, string vectors and FLOAT values that are not positive do
  not survive saving; the writer even takes top-level 16-bit integers out of the tree
  (`RoundTrip.SaveAndLoad`, `XmlWriter.FlushChannel`).
* The parser's string is a stack only for names without '/' (`XmlInvariants.EndUndoesStart`).
* A struct of FLOAT members only cannot be set; one read back by the client that set it fails if it has a
  16-bit member, and one that went through the daemon fails if it has a CHAR or FLOAT member
  (`StructLayout.StructIsSent`, `StructLayout.LocalRoundTrip`, `StructLayout.DaemonRoundTrip`).
* A recursive reset evicts everything at or below its base exactly if the base is not "/"; it evicts
  nothing else exactly if the base has no letter, because the comparison ignores case
  (`CacheModel.ResetEvictsAllCovered`, `CacheModel.ResetEvictsOnlyCovered`).

## Assumptions

Callbacks run in call order, as a GLib main context runs them.  GLib's conversion of a basic value to a
variant keeps its number, also that of the program's own 16-bit types.  Values stored by other clients have
passed the bus.  `long` has 64 bits.  Reals are exact; `printf("%f")` and `g_ascii_strtod` are
parameters, and so is the membership of the user in the list of a lock attribute.  System files are
given in the order in which they are read, the user file left out.

## Model

| member | source | states |
|---|---|---|
| Values.IsEqualMeaning | common/esconf-gvaluefuncs.c:302-345 | comparison is equality for the basic types but INT16, never holds for arrays, and looks at the left value only for INT16; exactly when a value equals itself |
| Values.GValueToGVariant | common/esconf-gvaluefuncs.c:460-505 | the array loop builds the variant of the elements that have one, none if all elements drop out; which these are and what they carry is in `Bus.ItemsSent` |
| Values.GVariantToGValue | common/esconf-gvaluefuncs.c:599-648 | the array loop rebuilds the values, 16-bit integers widened |
| Values.SentTheSame | common/esconf-gvaluefuncs.c:507-566 | GetAllProperties sends what GetProperty sends, except that arrays without any convertible element go as empty arrays |
| Values.ImageIsAProjection | common/esconf-gvaluefuncs.c:358-505 | passing through the bus twice is passing once, and is the identity exactly on values without CHAR, 16-bit integers and FLOAT |
| Bus.ScalarSent | common/esconf-gvaluefuncs.c:358-405 | every basic value but a FLOAT is sent with its own number, text or truth; a number goes in the narrowest D-Bus type that holds its C type, and fits it |
| Bus.ScalarArrives | common/esconf-gvaluefuncs.c:408-458 | what arrives has the same contents: CHAR and INT16 as INT, UINT16 as UINT, every other type as itself, and in range |
| Bus.ItemsSent | common/esconf-gvaluefuncs.c:480-500 | the elements of a sent array are its items without the FLOATs, one for one, in order |
| Bus.SendableExactly | common/esconf-gvaluefuncs.c:460-566 | a value can be sent iff it is not FLOAT and not an array of nothing but FLOATs; in a hash iff it is not FLOAT |
| Bus.ValueArrives | common/esconf-gvaluefuncs.c:460-648 | a whole value arrives with the same contents, item by item, in the types of the bus |
| CacheModel.EvictedMeaning | esconf/esconf-cache.c:930-948 | a recursive reset evicts its base and what lies strictly below it up to ASCII case |
| CacheModel.ResetEvictsAllCovered | esconf/esconf-cache.c:1003-1018 | for every valid base, "" and "/": all valid names at or below the base are evicted iff the base is not "/"; the reset of "/" evicts none of them |
| CacheModel.ResetEvictsOnlyCovered | esconf/esconf-cache.c:930-948 | only names at or below the base are evicted iff the base has no letter |
| CacheModel.ResetForgets | esconf/esconf-cache.c:951-1018 | a successful reset takes away exactly what it evicts, a failed one nothing |
| CacheModel.SetReturns | esconf/esconf-cache.c:821-927 | a set that succeeds leaves the value, or one that compares equal, in the cache; it fails exactly if the daemon could not be asked, which changes nothing, or if a value that would have to be sent cannot be |
| CacheModel.SetTells | esconf/esconf-cache.c:912-921 | a set tells the application the new value, tells every change but that of its own lookup, and nothing that compares equal |
| CacheModel.ChangedTells | esconf/esconf-cache.c:500-528 | a change signal tells what the table holds afterwards, exactly if it changes it under the comparison |
| CacheModel.ReplyTells | esconf/esconf-cache.c:605-653 | the end of a failed burst of a cached property tells what it puts back, and no other reply tells or changes anything |
| Cache.EsconfCache.LookupLocked | esconf/esconf-cache.c:742-800 | a hit gives the cached value and changes nothing; a miss gives the daemon's answer, if there is one, and caches it |
| Cache.EsconfCache.Set | esconf/esconf-cache.c:821-927 | the three tables, the return value, the call sent, the cancellation and the emission are those of the specification of a set, with all its early exits; the emission is what the table holds |
| Cache.EsconfCache.CancelPrevious | esconf/esconf-cache.c:877-882 | the earlier call is cancelled, its entry leaves the pending table, the item gets a new cancellable |
| Cache.EsconfCache.FileCall | esconf/esconf-cache.c:895-910 | the sent call is filed under the current cancellable with one more callback owed and its variant remembered |
| Cache.EsconfCache.HandlePropertyChanged | esconf/esconf-cache.c:487-528 | ignored while an old item exists, otherwise cached and emitted if it differs |
| Cache.EsconfCache.HandlePropertyRemoved | esconf/esconf-cache.c:533-557 | removes the cached value even during a pending set |
| Cache.EsconfCache.Reset | esconf/esconf-cache.c:951-1026 | after a successful reset the property and, if recursive, everything under the case-insensitive prefix is evicted |
| Cache.EsconfCache.Prefetch | esconf/esconf-cache.c:700-739 | refused unless the cache is empty, otherwise the table is the daemon's answer |
| Cache.EsconfCache.Finalize | esconf/esconf-cache.c:455-484 | every pending call is repeated once with its last variant; of the old items left behind exactly those with a pending call are cancelled, and none is freed |
| Cache.EsconfCache.PendingCallsAreDue | esconf/esconf-cache.c:454-484 | the pending table and the calls that finalization must repeat correspond one to one, variant by variant |
| Cache.SetPropertyReplyHandler | esconf/esconf-cache.c:581-653 | a callback counts down; the last one frees the item, or commits, or rolls back to the remembered value or absence and emits what it put back; with a cancelled item it leaves the cache alone and emits nothing |
| Answers.GetTells | esconfd/esconf-daemon.c:207-233 | GetProperty tells apart the value as it arrives, no value at all, and a value that cannot be sent |
| Answers.LookupFills | esconf/esconf-cache.c:742-800 | a lookup of what is not cached caches what the daemon shows for it, and nothing else |
| Answers.UnknownValueBlocksSet | esconf/esconf-cache.c:838-850 | a set of a property whose value the daemon cannot send, and which is not cached, changes and sends nothing |
| Answers.PrefetchFills | esconf/esconf-cache.c:700-739 | a prefetch into an empty cache caches, for every name asked for, all that the daemon shows, and arrays of which nothing can be sent as empty ones; otherwise nothing changes |
| Emissions.StepTells | esconf/esconf-cache.c:487-927 | in every step of the protocol, what is told is what the cache holds, and every entry that changes is told, except by lookups, prefetches and resets |
| Emissions.ObserverKnows | esconf/esconf-cache.c:487-927 | over every run an observer of the emissions has, for each name told and not touched in silence since, what the cache holds |
| Convergence.StepPreserves | esconf/esconf-cache.c:487-927 | every step of client, daemon and other clients keeps the coherence invariant |
| Convergence.Converges | esconf/esconf-cache.c:487-927 | in every run with values that can be sent, names without one-character components and no lock that comes back, whenever no call, reply, signal or idle is outstanding, each cached property is the daemon's effective value |
| Emissions.ApplicationConverges | esconf/esconf-cache.c:487-927 | under the conditions of `Convergence.Converges`, once nothing is outstanding, what the application heard last about such a name is the daemon's effective value |
| Relocking.ConvergesApart | esconfd/esconf-backend-perchannel-xml.c:573-609 | locks that come back with a reset of the whole channel do no harm on properties that this client does not set |
| Divergence.UnconvertibleSetDiverges | esconf/esconf-cache.c:884-926 | for every name and every value without variant form, a run in which setting it leaves the cache wrong, and no run puts it right without another set, reset or removal of the property |
| Divergence.StuckStays | esconf/esconf-cache.c:500-505 | an old item that no callback is owed to keeps the cached value through every run without such a step |
| Divergence.UnconvertibleDefaultDiverges | esconfd/esconf-daemon.c:98-125 | for every name and every system default without variant form, a run in which its return is announced to nobody |
| Divergence.ShortNameDiverges | esconfd/esconf-backend-perchannel-xml.c:529-553 | for every valid name with a one-character component, a run in which a recursive reset removes it and the cache keeps it |
| Divergence.ReturningLockDiverges | esconfd/esconf-backend-perchannel-xml.c:573-609 | for every valid name without one-character component and every value that can be sent, a run in which the reset of the whole channel brings the lock back and the rollback of two refused sets leaves the cache with the value from before |
| Divergence.ConvergenceIsExact | esconf/esconf-cache.c:820-927 | all runs over a set of valid names converge iff the set is empty, or all values set locally or stored have a variant form, no name has a one-character component, and nothing is set locally or no lock comes back on one of the names |
| Progress.DeliveryDecreases | esconfd/esconf-daemon.c:98-140 | every delivery lowers a measure of what is outstanding |
| Progress.EventuallyCoherent | esconf/esconf-cache.c:487-653 | from every state reachable under the conditions of `Convergence.Converges` deliveries alone lead to a quiescent, coherent state |
| Progress.DeliveriesAreBounded | esconf/esconf-cache.c:487-653 | no run of deliveries is longer than the measure |
| Bursts.BurstStarts | esconf/esconf-cache.c:888-918 | the first set of a burst remembers the value, or absence, from before |
| Bursts.BurstOutcome | esconf/esconf-cache.c:504-646 | over any number of overlapping sets, of any values, the cache shows the last one that could be sent and ignores changes; the last callback keeps it, or restores what was there before the first; an INT16 zero hides later INT16 values |
| Lifetime.FreedUnlessLeaked | esconf/esconf-cache.c:581-653 | in every run each old item ever created is filed, or freed exactly once, iff no closing callback found its property out of the cache |
| Lifetime.LifetimeOk | esconf/esconf-cache.c:168-238 | in every reachable state an old item's count is the number of callbacks owed to it, it is pending iff its last call was not cancelled, and it was neither freed nor leaked |
| Lifetime.FreedUnlessDropped | esconf/esconf-cache.c:533-624 | if no property is removed or reset while it has an old item, every old item is filed or freed |
| Leaks.SignalLeaks | esconf/esconf-cache.c:533-624 | for every name, a run from the start in which the news of a removal during a pending set leaks the item |
| Leaks.ResetLeaks | esconf/esconf-cache.c:986-1018 | for every name, a run from the start in which a reset by the client before its own callback leaks the item |
| Finalization.NoWriteIsLost | esconf/esconf-cache.c:207-238 | whatever was cancelled, after finalization the daemon's last request for a property with a pending call carries the last value sent |
| Finalization.InTheEnd | esconf/esconf-cache.c:455-600 | once all late callbacks have run, in any order, each old item ever created has been freed exactly once, except the leaked ones and those whose last set could not be sent; exactly the callbacks of the latter reach for the cache |
| Finalization.SafetyIsExact | esconf/esconf-cache.c:591-602 | no late callback reaches for the cache, in any run, iff the values set locally can all be sent or none can |
| Finalization.SentThenNotStrays | esconf/esconf-cache.c:868-926 | a set that is sent and one that cannot be: the callback that runs after finalization finds its item not cancelled |
| Finalization.FinalizeThenReply | esconf/esconf-cache.c:455-600 | on the cache object, from every reachable state: finalization and then all callbacks of a pending property leave the dead cache alone, emit nothing, and free the item once |
| Names.PropertyIsValid | esconfd/esconf-backend.c:119-177 | the scan accepts exactly the names "/c1/.../cn" with n at least 1 and nonempty components over the allowed alphabet, and reports the first problem of any other |
| Names.AcceptedNames | esconfd/esconf-backend-perchannel-xml.c:66 | on accepted names the tree's own guard holds, and splitting and joining are mutual inverses |
| TreeModel.AddNodeMeaning | esconfd/esconf-backend-perchannel-xml.c:834-868 | adding with recursive parent creation changes exactly one path; the other new nodes are its ancestors, blank |
| TreeModel.PruneMeaning | esconfd/esconf-backend-perchannel-xml.c:892-908 | the upward loop removes exactly the maximal chain of emptied ancestors, never the root |
| TreeModel.OnlyChangesNotify | esconfd/esconf-backend-perchannel-xml.c:289-351 | a set announces exactly what goes through and does not compare equal, and then the value is there; a reset exactly the loss of a user value; otherwise nothing changes |
| TreeModel.SetKeepsShape | esconfd/esconf-backend-perchannel-xml.c:288-351 | after a set every leaf below the root still has a value |
| TreeModel.ResetKeepsShape | esconfd/esconf-backend-perchannel-xml.c:870-915 | after a single reset every leaf below the root still has a value |
| FlatMaps.SetIsFlat | esconfd/esconf-backend-perchannel-xml.c:288-351 | a set writes one user entry unless the property is locked or compares equal; system entries and locks stay |
| FlatMaps.ResetIsFlat | esconfd/esconf-backend-perchannel-xml.c:870-915 | a single reset removes exactly one user entry; locks go only where nothing is left below |
| FlatMaps.ResetBelowMeaning | esconfd/esconf-backend-perchannel-xml.c:529-571 | what the tree of a recursive reset is, as `Backend.ResetRecursive` computes it in two passes: a node of the subtree survives iff it or a descendant has a system value or a lock, all user values there are gone, nothing outside changes |
| FlatMaps.TreeRefinesMaps | esconfd/esconf-backend-perchannel-xml.c:288-915 | every run of sets and resets on the tree is a run of two flat maps with the same answers |
| FlatMaps.LockedIsFixed | esconfd/esconf-backend-perchannel-xml.c:315-325 | a locked property with a system value keeps lock and effective value through every run |
| FlatMaps.RunKeepsDefaults | esconfd/esconf-backend-perchannel-xml.c:288-915 | no run of sets and resets changes a system default or adds a lock |
| Locks.LockSurvivesExactly | esconfd/esconf-backend-perchannel-xml.c:892-908 | a lock survives every run of sets and resets under valid names iff a system default lies at its node or below it |
| Locks.LockReportIsExact | esconfd/esconf-backend-perchannel-xml.c:715-738 | over all valid names and values: a name is reported locked iff its set is refused, exactly if the channel is not locked |
| FlatMaps.ShapeOverRuns | esconfd/esconf-backend-perchannel-xml.c:834-915 | the pruning invariant holds after every run of sets and single resets |
| Proptree.EsconfChannel.LookupNode | esconfd/esconf-backend-perchannel-xml.c:783-817 | walking down the siblings finds the node of the name's path, or null exactly if there is none or the guard fails |
| Proptree.EsconfChannel.AddProperty | esconfd/esconf-backend-perchannel-xml.c:835-868 | the linked tree after adding is the specification's tree, all invariants kept |
| Proptree.EsconfChannel.ResetSingle | esconfd/esconf-backend-perchannel-xml.c:871-915 | answer and linked tree are those of the specification of a single reset, on every name |
| Proptree.EsconfChannel.PruneUp | esconfd/esconf-backend-perchannel-xml.c:892-908 | the loop computes the pruned tree and ends because depth decreases |
| Backend.BuildPropname | esconfd/esconf-backend-perchannel-xml.c:936-960 | the loops collect the components up to the first one-character name and join them |
| Backend.Set | esconfd/esconf-backend-perchannel-xml.c:289-351 | answer, tree, announced names and the dirty flag of a set |
| Backend.Get | esconfd/esconf-backend-perchannel-xml.c:354-395 | user value, else system value, else nothing |
| Backend.Exists | esconfd/esconf-backend-perchannel-xml.c:488-521 | true exactly when a get would succeed |
| Backend.IsPropertyLocked | esconfd/esconf-backend-perchannel-xml.c:715-738 | true iff the channel or the node is locked |
| Backend.Reset | esconfd/esconf-backend-perchannel-xml.c:612-643 | answer, tree, announcement and dirty flag of a single reset |
| Backend.ResetRecursive | esconfd/esconf-backend-perchannel-xml.c:644-676 | the tree is the fixpoint, and exactly one announcement is made for each node that had a user value |
| Backend.ResetValues | esconfd/esconf-backend-perchannel-xml.c:529-553 | the first post-order pass clears the subtree's user values and announces each once |
| Backend.CleanUpNodes | esconfd/esconf-backend-perchannel-xml.c:555-571 | the second post-order pass, unlinking while it runs, leaves exactly the needed nodes |
| Enumeration.NodeToHashTable | esconfd/esconf-backend-perchannel-xml.c:397-440 | the traversal enters exactly the listing of the subtree and restores the shared path buffer, also at the root |
| Enumeration.GetAll | esconfd/esconf-backend-perchannel-xml.c:443-485 | not found exactly if the base is missing, otherwise the listing at and below the base |
| Subtrees.ListingIsPointwise | esconfd/esconf-backend-perchannel-xml.c:353-485 | the listing holds exactly the names at or below the base whose get succeeds, with the value of that get |
| Names.BuildNameIsExact | esconfd/esconf-backend-perchannel-xml.c:935-960 | the rebuilt name is the property's name iff every component has at least two characters |
| Names.ClimbedIsSuffix | esconfd/esconf-backend-perchannel-xml.c:936-960 | the name rebuilt for a node is made of the longest end of its path without a one-character component |
| Replay.ChangesAreAnnounced | esconfd/esconf-backend-perchannel-xml.c:327-346 | every visible change of an operation is announced under the right name, except the removal by a recursive reset of a value whose name has a one-character component |
| Replay.ReplayIsFaithful | esconfd/esconf-daemon.c:98-140 | whenever the idle queue is empty, an observer of the signals holds the daemon's effective values |
| Replay.ShortStoredFails | esconfd/esconf-backend-perchannel-xml.c:945 | for every valid path with a one-character component and every value stored there from the start that the bus keeps, a recursive reset alone leaves the observer wrong |
| Replay.UnsendableDefaultFails | esconfd/esconf-daemon.c:107-114 | for every valid path, every default without variant form and every user value above it that the bus keeps: resetting that value leaves the observer with it |
| Replay.ReplayIsExact | esconfd/esconf-daemon.c:98-140 | over any stored values and valid names, initial trees that hold such values included: replay is faithful in all runs iff there are no names, or all stored values have a variant form and no name has a one-character component |
| StoreLink.SentIsSignals | esconfd/esconf-daemon.c:98-125 | what the replayed daemon sends from its tree is what the protocol's daemon sends from its store, silence included |
| StoreLink.GetIsStoreGet | esconfd/esconf-backend-perchannel-xml.c:354-395 | a get on the tree is a get on the protocol's store |
| StoreLink.SetIsStoreSet | esconfd/esconf-backend-perchannel-xml.c:289-351 | a set on the tree is the store step of the protocol, with the same answer and announcement |
| StoreLink.ResetIsStoreReset | esconfd/esconf-backend-perchannel-xml.c:529-676 | a reset on the tree is a reset of the protocol's store: a single one takes the value of its name, a recursive one all values its name covers, announced under the rebuilt names; locks only shrink |
| StoreLink.ChannelResetIsStoreReset | esconfd/esconf-backend-perchannel-xml.c:573-609 | dropping the tree and reading the system files again is, to the protocol's store, a recursive reset of "/" and the return of the missing locks |
| StoreLink.ListingIsGetAll | esconfd/esconf-daemon.c:238-272 | the enumeration of a subtree is the protocol's answer to GetAllProperties |
| StoreLink.StoreStarts | esconfd/esconf-backend-perchannel-xml.c:1230-1235 | the store of a tree without user values on locked nodes is an initial store of the protocol |
| Daemon.EsconfDaemon.SetProperty | esconfd/esconf-daemon.c:143-196 | the request's effect on store, reply and idle queue is the protocol's |
| Daemon.EsconfDaemon.GetProperty | esconfd/esconf-daemon.c:200-234 | the answer is the protocol's: value, not found, or failure for values without variant form |
| Daemon.EsconfDaemon.EmitPropertyChangedIdled | esconfd/esconf-daemon.c:98-125 | the signal is computed from the store at emission, not at change |
| Daemon.EsconfDaemon.ResetProperty | esconfd/esconf-daemon.c:304-334 | store, answer and idle queue after a single or recursive reset are the protocol's, rebuilt names included |
| IntText.ReadPrinted | common/esconf-gvaluefuncs.c:147-204 | reading the printed form of a number of the type's range gives it back, despite base-0 prefixes |
| IntText.AcceptedIsDenoted | common/esconf-gvaluefuncs.c:152-169 | a signed text is accepted exactly if what the scan denotes is in range; an unsigned one is the number denoted, or that plus 2^64; what a text denotes is in `Numerals.NumeralReads` |
| IntText.WideReadings | common/esconf-gvaluefuncs.c:187-204 | INT64 and UINT64 refuse no number: the first clamps, the second wraps or takes its maximum |
| IntText.NegativeUnsigned | common/esconf-gvaluefuncs.c:168-169 | every unsigned value has a second accepted spelling with a minus sign |
| Numerals.NumeralSpells | common/esconf-gvaluefuncs.c:152-204 | every number has a numeral in base 8, 10 and 16, in either case, that begins with 0 only for zero |
| Numerals.PrintedIsNumeral | esconfd/esconf-backend-perchannel-xml.c:1690-1782 | numbers are printed as decimal numerals |
| Numerals.NumeralReads | common/esconf-gvaluefuncs.c:152-204 | spaces, a sign, a base prefix and digits of either case are read as the number written: within the range, wrapped at 2^64 if unsigned, cut off at the ends for 64 bits |
| Numerals.TrailingRefused | common/esconf-gvaluefuncs.c:140-160 | a character behind the digits that is no digit of the base refuses the text |
| Numerals.NoDigitRefused | common/esconf-gvaluefuncs.c:140-160 | so does the lack of a digit |
| Numerals.EveryText | common/esconf-gvaluefuncs.c:152-204 | every text is a numeral, a numeral with something behind it, or one without digits |
| XmlText.ScalarFromText | common/esconf-gvaluefuncs.c:144-250 | whatever text is accepted, the value has the requested type and lies in its range |
| Numerals.KindReads | common/esconf-gvaluefuncs.c:177-246 | every integer type, CHAR and the 16-bit types included, reads a numeral as a value of the type with the number written, or refuses it |
| Numerals.KindRefuses | common/esconf-gvaluefuncs.c:177-246 | no integer type takes another text |
| Numerals.OthersRead | common/esconf-gvaluefuncs.c:172-235 | strings are taken as they are, the truth values are exactly "true" and "false", reals as strtod takes them, FLOAT only in its positive range |
| Numerals.ScalarsWritten | esconfd/esconf-backend-perchannel-xml.c:1690-1782 | the text written for a value is its number in decimal, CHAR always 0, its text, or "true" or "false" |
| Numerals.InitialIsZero | esconfd/esconf-backend-perchannel-xml.c:1291-1313 | what a failed conversion leaves is zero, empty or false |
| XmlText.TypeNamesRead | common/esconf-gvaluefuncs.c:69-140 | type names and types are in correspondence |
| XmlText.TypeNamesAre | common/esconf-gvaluefuncs.c:69-103 | the fourteen type names of the format |
| XmlText.OtherTypeNames | common/esconf-gvaluefuncs.c:69-103 | and no others are read |
| XmlText.PayloadRoundTrip | esconfd/esconf-backend-perchannel-xml.c:1690-1815 | what is written for a value reads back as that value exactly for the storable values |
| XmlText.GivesUpExactly | esconfd/esconf-backend-perchannel-xml.c:1690-1815 | the writer gives up exactly on arrays with a 16-bit integer, and writes a single one as a branch |
| XmlText.StringVectorReads | esconfd/esconf-backend-perchannel-xml.c:1690-1815 | a string vector reads back as an array of strings |
| Tags.LastAttrCounts | esconfd/esconf-backend-perchannel-xml.c:1041-1057 | of several attributes with the same name the last one counts |
| Tags.VersionMeaning | esconfd/esconf-backend-perchannel-xml.c:1067-1080 | only versions "1" and "1.x" are read |
| Tags.ChannelTagAccepted | esconfd/esconf-backend-perchannel-xml.c:1029-1139 | a channel tag is accepted iff its attributes are known, it has a name and such a version, and its lock attributes stand in a system file and do not take back a lock; it locks the channel, and drops what was read, iff it locks it for this user and no earlier file did |
| Tags.PropertyTagAccepted | esconfd/esconf-backend-perchannel-xml.c:1142-1334 | a property tag is accepted iff its attributes are known, it has name and type, and, unless its node is passed over, only a system file sets a lock, the type exists and the value converts |
| Tags.RefusedLeavesNode | esconfd/esconf-backend-perchannel-xml.c:1241-1313 | a tag refused after its node was opened leaves the node emptied, or with the zero of its type if the text does not convert |
| Tags.ValueTagAccepted | esconfd/esconf-backend-perchannel-xml.c:1337-1402 | an item is accepted iff it stands in an open array, with known attributes, a basic type and a value that converts |
| Tags.TagsHaveTheirPlaces | esconfd/esconf-backend-perchannel-xml.c:1405-1472 | channels stand outermost, properties in the channel or in properties, items in properties, and nothing else anywhere |
| XmlInvariants.StringIsAStack | esconfd/esconf-backend-perchannel-xml.c:1406-1509 | over every well-nested file with '/'-free names, `cur_path` is the join of the open property names, and `cur_elem` is CHANNEL exactly if none is open |
| XmlInvariants.EndUndoesStart | esconfd/esconf-backend-perchannel-xml.c:1481-1499 | the end of an element restores the string iff its name has no '/' |
| XmlInvariants.RunSound | esconfd/esconf-backend-perchannel-xml.c:1207-1313 | whatever a file contains, up to the first error or NULL text reading it keeps the tree a tree, leaves no user value on a locked node, and none at all for a system file; the open array always exists |
| XmlRuns.ElemRuns | esconfd/esconf-backend-perchannel-xml.c:1142-1509 | parsing an element with everything in it puts its entries one after the other and restores the parser's state |
| XmlRuns.FileRuns | esconfd/esconf-backend-perchannel-xml.c:1029-1139 | a refused file changes nothing; an accepted one puts its entries, into an empty tree if it turns the channel locked |
| Rejects.UserFileParses | esconfd/esconf-backend-perchannel-xml.c:1305-1313 | a user file with good names, nowhere against a lock, parses iff all its texts convert |
| Layers.LoadSound | esconfd/esconf-backend-perchannel-xml.c:1633-1686 | after loading any files, each up to its first error or NULL text, the tree is well formed and no locked node has a user value; a locked channel has none at all |
| Layers.LoadedLocksHold | esconfd/esconf-backend-perchannel-xml.c:1230-1235 | a property that any files lock with a system value keeps it through every later run |
| Layers.LockingFileStartsAnew | esconfd/esconf-backend-perchannel-xml.c:1123-1133 | a file that turns the channel locked gives the same result whatever was loaded before |
| Layers.UnlockingFileIsIgnored | esconfd/esconf-backend-perchannel-xml.c:1117-1122 | once locked, a file with a directive that does not lock contributes nothing |
| Layers.LockedArrayStops | esconfd/esconf-backend-perchannel-xml.c:1230-1235 | an element of the user file outside open arrays parses iff it is not an array with items on a locked node |
| Layers.LockedArrayLeaks | esconfd/esconf-backend-perchannel-xml.c:1230-1235 | inside an open array, the items of an array on a locked node are appended to the open one |
| Layers.SystemLoadIsFold | esconfd/esconf-backend-perchannel-xml.c:1664-1672 | the system layer is the fold of the entries that count: the last mention of a path decides; the channel is locked iff some file locks it |
| Layers.KeptLocked | esconfd/esconf-backend-perchannel-xml.c:1085-1134 | the channel lock of the fold is set iff some file's directive locks; what a directive is in terms of the lists is in `LockLists.ChannelLockedFor` |
| LockLists.ChannelLockedFor | esconfd/esconf-backend-perchannel-xml.c:1085-1100 | after loading, the channel is locked iff some file has an "unlocked" list without the user, or no "unlocked" list and a "locked" list with the user |
| Layers.LocksAreFold | esconfd/esconf-backend-perchannel-xml.c:1264-1289 | in a channel that is not locked the last lock directive about a property decides |
| LockLists.PropertyLockedFor | esconfd/esconf-backend-perchannel-xml.c:1264-1289 | in a channel that no file locks for the user, a property is locked iff the last element about it with a lock attribute locks it for the user, in the same sense |
| LockLists.SparedUser | esconfd/esconf-backend-perchannel-xml.c:1085-1289 | a user outside every "locked" list, where there is no "unlocked" list, finds nothing locked |
| Layers.LockedChannelLocksAll | esconfd/esconf-backend-perchannel-xml.c:1209-1228 | in a channel that some file locks every property is locked |
| Layers.LockedChannelHolds | esconfd/esconf-backend-perchannel-xml.c:1085-1134 | there the last mention of a path gives its value through every run, whatever the user file says |
| UserFiles.UserFileReads | esconfd/esconf-backend-perchannel-xml.c:1207-1402 | a user file parses iff nothing that counts carries a lock directive, all texts on nodes that are not locked convert, and every array with items on a locked node stands inside an open array and converts |
| UserFiles.UserLoadIsActs | esconfd/esconf-backend-perchannel-xml.c:1230-1402 | behind any system files, a user file that parses leaves the values of its elements that are not locked, by last mention, with the items of locked arrays appended to the arrays around them; defaults and locks stay |
| Layers.UserLoadIsFold | esconfd/esconf-backend-perchannel-xml.c:1674-1678 | the user file supplies user values by last mention, except on locked nodes and in locked channels, and changes nothing else |
| RoundTrip.DocMentions | esconfd/esconf-backend-perchannel-xml.c:1818-1884 | the written document mentions every node but the root with its own user value, and nothing else |
| RoundTrip.SaveThenLoad | esconfd/esconf-backend-perchannel-xml.c:1633-1884 | behind any system files, the reloaded user layer is path by path what the texts read as, without values on locked paths, and empty in a locked channel; system layer and locks are untouched |
| RoundTrip.SaveAndLoad | esconfd/esconf-backend-perchannel-xml.c:1633-1884 | behind any system files, the saved file parses, if it is read, and loading gives back the user map, iff the channel is locked and the map is empty, or the channel is not locked, every user value is storable and none lies on a path that the system files lock |
| RoundTrip.LockedChannelForgets | esconfd/esconf-backend-perchannel-xml.c:288-349 | in a locked channel the set of a name that no file mentions succeeds, against no lock of a node, and whatever is in the user file, loading gives neither that value nor any other user value |
| RoundTrip.RunsStayClear | esconfd/esconf-backend-perchannel-xml.c:892-908 | every run of sets and resets from the loaded system files has only user values that the reloaded channel takes iff the channel is not locked and every lock has a default at or below it |
| RoundTrip.UserRunKeepsLayer | esconfd/esconf-backend-perchannel-xml.c:1207-1313 | a user file changes neither locks nor system defaults, whatever it contains |
| RoundTrip.RunsKeepSystemLayer | esconfd/esconf-backend-perchannel-xml.c:1633-1686 | the system defaults stay those of the system files through the user file and every run |
| LockedArrays.EffectiveRoundTrip | esconfd/esconf-backend-perchannel-xml.c:1141-1884 | storable user values over system files with the same defaults: the saved file parses, if it is read, and all effective values come back iff every user value, in a locked channel, or every one on a locked path, elsewhere, equals the default there, and in the latter case is not an array with items |
| LockedArrays.ItemsOnLockHarm | esconfd/esconf-backend-perchannel-xml.c:1230-1402 | in a channel that is not locked, a saved array with items on a locked path, anywhere in the tree, stops the file or changes some effective value |
| XmlParser.Parser.HandleChannel | esconfd/esconf-backend-perchannel-xml.c:1029-1139 | the state after the handler is the specification's, for all attributes |
| XmlParser.Parser.HandleProperty | esconfd/esconf-backend-perchannel-xml.c:1142-1334 | string, list, verdict and linked tree after the handler are the specification's, errors with their leftovers included |
| XmlParser.Parser.HandleValue | esconfd/esconf-backend-perchannel-xml.c:1337-1402 | the item is converted and appended to the open array, or the error is that of the specification |
| XmlParser.Parser.Handle | esconfd/esconf-backend-perchannel-xml.c:1405-1509 | one element event takes the parser from its state to the next state of the machine, invariants kept |
| Loader.MergeFile | esconfd/esconf-backend-perchannel-xml.c:1562-1630 | the tree and lock after a file are those of the run over its events, up to the first error |
| Loader.LoadChannel | esconfd/esconf-backend-perchannel-xml.c:1633-1686 | the loaded channel is the specification's load of system files and user file |
| XmlWriter.FormatXmlTag | esconfd/esconf-backend-perchannel-xml.c:1690-1815 | what is written for a value; it gives up exactly on arrays with a 16-bit item |
| XmlWriter.WriteNode | esconfd/esconf-backend-perchannel-xml.c:1818-1884 | succeeds iff everything at or below the node can be written, and then appends the node's element and strips unknown values |
| XmlWriter.FlushChannel | esconfd/esconf-backend-perchannel-xml.c:1887-1974 | the file is the document of the tree; 16-bit user values leave the tree; the channel counts as clean even on failure |
| TreeFile.FileStrips | esconfd/esconf-backend-perchannel-xml.c:1799-1810 | writing a file takes the top-level 16-bit user values out of the tree, and nothing else |
| Alignment.AlignValRoundsUp | esconf/esconf-channel.c:43 | for every power of two the 64-bit mask rounds up to the next multiple |
| Alignment.AlignUpIsLeast | esconf/esconf-channel.c:43 | the rounded offset is the least multiple that is not below the offset |
| StructLayout.OffsetIsLeast | esconf/esconf-channel.c:1906-1914 | each member's offset is the least multiple of its alignment not below the end of the member before it |
| StructLayout.MembersApart | esconf/esconf-channel.c:1906-1914 | members lie in order and never overlap |
| StructLayout.SetStructv | esconf/esconf-channel.c:2104-2213 | the loop reads every member at its offset of the common layout |
| StructLayout.GetStructv | esconf/esconf-channel.c:1863-1994 | the loop stores the members at the same offsets up to the first of the wrong type, nothing if the lengths differ, and touches no other byte |
| StructLayout.FilledHolds | esconf/esconf-channel.c:1906-1914 | a stored member is not touched by the later ones |
| StructLayout.FilledElsewhere | esconf/esconf-channel.c:1906-1914 | bytes of no member stay |
| StructLayout.TruncationMeaning | esconf/esconf-channel.c:1968-1980 | a 16-bit member gets the number of its range that is the same modulo 2^16; other members the value as it is |
| StructLayout.StructIsSent | esconf/esconf-channel.c:2116-2208 | the array of a struct has a variant form, so that the set goes through, iff some member is not a FLOAT |
| StructLayout.LocalRoundTrip | esconf/esconf-channel.c:1890-2205 | once the set has succeeded, the client's own array gives everything back iff no member has 16 bits |
| StructLayout.DaemonRoundTrip | esconf/esconf-channel.c:1890-2205 | the array that passed the bus gives everything back iff there is no CHAR and no FLOAT member |
| StructLayout.SetThenGet | esconf/esconf-channel.c:1890-2205 | after set and get through the daemon each member of the target struct reads as in the source, whatever the target held before |

## Left out

- GDBus transport, proxies, threads and the mutex: FIFO queues and atomic steps; no timeouts, no loss of the bus.
- GMarkup lexing, escaping, mmap, fsync, rename and unlink: files are sequences of element events with attribute values.
- Rounding of reals and the decimal text of FLOAT and DOUBLE: reals are exact and their texts are parameters; NaN, which never equals itself, is not among them.
- NULL strings, NULL attribute values, names of 4096 characters or more and an abort in the parser: the verdict `Undefined`, about which nothing is claimed.
- Empty component names, which the file parser lets through: rebuilding such a name reads past its end.
- Channel names with upper-case letters, which are stored under a lower-cased key.
- Several backends in one daemon.
- Resetting a whole channel on the linked tree, and unlinking the user file; the protocol has it as a recursive reset and the return of locks (`StoreLink.ChannelResetIsStoreReset`).
- Arrays inside arrays, and boxed types other than arrays and string vectors.
- Membership of the user in a list of users and groups: a parameter.
- GObject plumbing, variable argument lists, typed getters and setters, bindings, the GSettings backend, the query tool, both main functions.
- Type transformation of a looked-up value into the caller's type.
- Freeing of memory, except of the old items of the cache.
- A member type that the struct functions do not know, where both give up.
- Protocol: names are valid names of one channel and a cache is created for that channel; the error for an invalid name is not modelled.
- Replay.ReplayIsExact: runs do not reset a whole channel.
- FlatMaps.TreeRefinesMaps: excludes the recursive reset of the root, which the backend handles as a reset of the whole channel.
- Backend.ResetRecursive: excludes the names "" and "/", which the backend handles as a reset of the whole channel.
- Daemon.EsconfDaemon.ResetProperty: excludes the names "" and "/", which the backend handles as a reset of the whole channel.
- Cache.EsconfCache.LookupLocked: does not model the conversion of the value found into the type the caller asks for.
- XmlInvariants.RunSound: a string property without value attribute, which the source takes as a NULL string, ends the run with the verdict `Undefined`.
- Layers.LoadSound: as `XmlInvariants.RunSound`, the file is read up to a NULL text only.
- XmlRuns.ElemRuns: requires of a user file that no array with items stands on a locked node; `UserFiles.UserFileReads` covers such files.
- XmlRuns.FileRuns: as `XmlRuns.ElemRuns`.
- Layers.UserLoadIsFold: requires that no array with items of the user file stands on a locked node, which `UserFiles.UserLoadIsActs` does not, and documents whose <value> elements directly follow the opening tag of their array, as the writer places them.
- UserFiles.UserLoadIsActs: says nothing about the values that a file that does not parse leaves behind, and requires documents as `Layers.UserLoadIsFold` does.
- RoundTrip.SaveThenLoad: requires, in a channel that is not locked, that no array with items stands on a path that the system layer locks, because the file then stops there or its items go to an array around it; `RoundTrip.SaveAndLoad` and `LockedArrays.EffectiveRoundTrip` cover these trees.
