# Verified models of liblaunch, configd and launchctl

A Dafny model of the stateful core of this repository, with proofs of what it
guarantees. `dafny verify dfyconfig.toml` checks all of it.

- **liblaunch values and their wire format** (`Bytes`, `LaunchData`, `LaunchWire`,
  `LaunchWalk`, `LaunchPack`, `LaunchUnpack`, `LaunchRoundTrip`): the recursive serializer and the in-place
  decoder work on byte arrays, and both are proved against one relation between
  trees and bytes and one pure decoder.
- **liblaunch connections** (`LaunchStream`, `LaunchConnection`, `LaunchRuns`,
  `LaunchSession`): framed messages with partial sends, arbitrary receive chunks
  and descriptors that travel with the first byte of a send. `LaunchRuns.Delivery`
  is the main result; `LaunchSession` ties two connections to it, call by call.
- **liblaunch dictionaries and trees** (`LaunchDict`, `LaunchNode`): arrays of
  alternating keys and values against a map on case-folded keys; deep copy and
  free on heap nodes.
- **Bond and bridge reconciliation** (`InterfaceLists`, `VirtualKernel`,
  `StaleGroups`, `BuildGroups`, `BondReconcile`, `BridgeReconcile`): the requests
  issued are replayed on a model of the kernel that accepts an added interface
  only while it belongs to no group. The two reconcilers share their first half
  and the member loops, which are the same in both sources.
- **Membership edits** (`MembershipEdits`): the checks before a member list is
  stored.
- **IPMonitor control** (`RankLedger`, `IPMonitorServer`, `IPMonitorClient`):
  `RankLedger` is the server's state without its representation; the server
  class is proved to refine it, and the run theorems are about it.
- **Child reaping** (`ChildReaper`, `ChildLists`): interleaved steps, and the
  linked lists relinked in place with contracts that use the same functions.
- **Store notifications** (`TripleList`, `StoreNotifier`): the flat schedule list,
  attaching and detaching, dispatch queues, reconnection.
- **launchd and launchctl framing** (`IpcFraming`, `Launchctl`): short reads and
  writes, interrupts and errors as a plan of outcomes, and a whole command.
- **DNS names** (`DnsName`).

Calls to the kernel, XPC and CoreFoundation appear as parameters that say how
they went, or as small abstract state.

## Assumptions

- Trees to be sent have no unset array elements, hold no NUL in strings and keys
  and are smaller than 2^64 bytes; the byte order is little-endian.
- The first sendmsg of a message that takes anything takes the 16 header bytes;
  `LaunchConnection.Connection.Send` says what happens otherwise.
- A message has at most 1024 descriptors; `LaunchConnection.Connection.Send` says
  what happens otherwise.
- Configured member lists are free of duplicates and disjoint, their members
  support the role, requests to the kernel that it can accept succeed, the kernel
  reports members in order of addition and frees the members of what is
  destroyed. `MembershipEdits.RunGivesGoodConfig` says when edits make such lists.
- For the run theorem about member edits, one handle is open for each bond and
  bridge. `MembershipEdits.EditApart` and `StaleHandle` say what happens otherwise.
- No request is outstanding, and the client's queue is drained, when the IPMonitor
  server goes away. `IPMonitorClient.Client.Replay` and `RetryBeforeReplay` say
  what happens otherwise.
- No child with a callout gets a pid that the reaper holds between wait4 and the
  lock. `ChildReaper.ReuseMisleads` shows that this is needed.
- A run-loop source is added and invalidated by schedule and cancel calls for
  each run loop and mode, and it is the session's current source.

## Where the code falls short of the obvious property

- liblaunch, receiving: the padding of a string or blob is skipped without a check,
  so on a buffer that is not made of whole words the loop can run past its end
  (`LaunchStream.OverranIff` gives the condition, `OverranAt41` an input; whole
  words are safe, `AlignedDrain`).
- liblaunch, receiving: strings are accepted without their terminator
  (`LaunchWire.AcceptedString`, `UnterminatedAccepted`), and one that claims
  2^64 - 1 bytes is accepted without any (`AcceptedRoom`, `EndlessAccepted`).
- liblaunch, sending: a first sendmsg that takes between 1 and 15 bytes makes the
  code move bytes from before its buffer (`LaunchConnection.Connection.Send`).
- liblaunch, sending: descriptors are written to an array of 1024 without a check
  (`LaunchConnection.Connection.PackMessage`, `DescriptorsOverrun`).
- liblaunch, sending: when the first sendmsg of a message fails, the packed bytes
  stay in the send buffer but the header, which was built on the stack, is lost;
  if the message is sent on, the receiver rejects the stream
  (`LaunchRuns.HeadlessBreaks`).
- Bridges: the address is set only when a bridge starts without members, so a
  wrong address of a bridge that keeps its first member stays
  (`BridgeReconcile.AddressedWhen`, `WrongAddressStays`).
- Membership edits: a member can be named twice (`MembershipEdits.DuplicateAccepted`),
  and through a stale handle an interface can end up in two bonds (`StaleHandle`).
- IPMonitor: a request that is sent again when the server has restarted can be
  overwritten by the replay of an older value (`IPMonitorClient.RetryBeforeReplay`,
  `RetryLost`).
- Child reaping: a pid that is used again between wait4 and the lock misleads the
  reaper (`ChildReaper.ReuseMisleads`).
- Notifications: a cancel that matches no schedule tears down the schedules of
  everyone else (`StoreNotifier.CancelKeepsCount`, `CancelEndsOther`); if the
  notifycancel request fails the session stays marked as registered
  (`StoreNotifier.Store.Cancel`); a reconnect reports success even if no port could
  be had and nothing was attached again (`StoreNotifier.ReconnectedUnattached`).
- launchctl: a job list over 16 MB is not sent, and launchctl then exits 1 although
  nothing was wrong (`Launchctl.ListTooLong`).

## Model

| member | source | states |
|---|---|---|
| `LaunchPack.Pack` | src/liblaunch/liblaunch.c:697-783 | Packing succeeds exactly if the 8-aligned size of the tree fits; what is written is an encoding of the tree, the descriptors other than -1 are written in preorder up to the place where packing fails, also told is whether they stayed inside their array, and no byte outside the packed range changes |
| `LaunchPack.FdsWrittenIs` | src/liblaunch/liblaunch.c:725-776 | The descriptors written by an attempt to pack are a beginning of those of the tree, and all of them if it fits |
| `LaunchPack.PackBlob` | src/liblaunch/liblaunch.c:732-758 | A string is written with its terminator, an opaque value without, both zero-padded to whole words, and only if they fit |
| `LaunchPack.PackList` | src/liblaunch/liblaunch.c:759-777 | A list is written as its count, one slot a child and the children one after another, and only if all of that fits |
| `LaunchWire.RoundTrip` | src/liblaunch/liblaunch.c:697-860 | Decoding any encoding of a tree, followed by anything, with its descriptors under whatever numbers they arrive by, followed by any others, gives back the tree with those numbers (up to mach-port values) and uses exactly its bytes and its descriptors |
| `LaunchRoundTrip.PackThenUnpack` | src/liblaunch/liblaunch.c:697-860 | A tree that fits is packed, decoded in place and read back as the same tree, up to mach-port values |
| `LaunchWire.AlignedDecode` | src/liblaunch/liblaunch.c:785-860 | On a buffer of whole words the decoder never runs past the end and stays on word boundaries, whatever the bytes are |
| `LaunchWire.AcceptedString` | src/liblaunch/liblaunch.c:812-821 | The terminator of a string is not checked: an accepted string reads in C as what was decoded exactly if the byte behind it is zero and none of its own is |
| `LaunchWire.AcceptedRoom` | src/liblaunch/liblaunch.c:812-821 | An accepted string has room for its length and a terminator exactly if its length word is not 2^64 - 1 |
| `LaunchWire.EndlessAccepted` | src/liblaunch/liblaunch.c:812-821 | A string node that claims 2^64 - 1 bytes and has none is accepted |
| `LaunchWire.PackedString` | src/liblaunch/liblaunch.c:732-744 | A string that was packed from a C string reads as that string |
| `LaunchWire.UnterminatedAccepted` | src/liblaunch/liblaunch.c:812-821 | A string of length 0 is accepted although no terminator is in the buffer |
| `LaunchWire.DecodeMore` | src/liblaunch/liblaunch.c:785-860 | What was decoded from a buffer does not depend on the bytes behind it |
| `LaunchWire.TypeByte` | src/liblaunch/liblaunch.c:697-783 | A packed tree starts with the number of its type, 1 to 10, in eight bytes |
| `LaunchWire.DecodedIs` | src/liblaunch/liblaunch.c:785-860 | What a decoded node is, which number it holds and how many children it has is what its words say; a type that is not among the ten is refused; a descriptor other than -1 is replaced by the next one received |
| `LaunchWalk.OverrunIff` | src/liblaunch/liblaunch.c:785-860 | The cursor leaves the buffer exactly if a flat walk over type and length words does, and then at a string or blob that ends in an incomplete last word; the walk also tells how far a decoding gets |
| `LaunchUnpack.Unpack` | src/liblaunch/liblaunch.c:785-860 | On any buffer the in-place decoder agrees with the pure one on outcome (including the cursor leaving the buffer), cursor and descriptors; on success the buffer holds the linked tree, and no byte from the cursor on was changed |
| `LaunchUnpack.UnpackList` | src/liblaunch/liblaunch.c:796-811 | The slots of a list are overwritten with the addresses of its decoded children, in order, all before the cursor; a count whose slot bytes wrap 64 bits is never accepted |
| `LaunchUnpack.ChildAt` | src/liblaunch/liblaunch.c:796-811 | Every slot of a linked list points to a decoded child that lies inside the list |
| `LaunchUnpack.Read` | src/liblaunch/liblaunch.c:1314-1344 | Following the links of a decoded tree yields that tree |
| `LaunchData.SameIsEqual` | src/liblaunch/liblaunch.c:778-780 | Without mach ports, equality up to port values is equality |
| `LaunchStream.AlignedDrain` | src/liblaunch/liblaunch.c:1252-1304 | On a buffer of whole words the receive loop stays inside, whatever the bytes are |
| `LaunchStream.OverranIff` | src/liblaunch/liblaunch.c:1252-1304 | The receive loop runs past its buffer exactly if a walk over headers, types and lengths does, whatever the descriptors |
| `LaunchStream.OverranAt41` | src/liblaunch/liblaunch.c:1272-1291 | A message of 41 bytes on which it does |
| `LaunchStream.DrainPartial` | src/liblaunch/liblaunch.c:1252-1304 | With less than a frame buffered the loop waits and keeps everything |
| `LaunchStream.DrainWhole` | src/liblaunch/liblaunch.c:1252-1304 | A whole frame delivers its tree with its own descriptors, and the rest is treated as if it had come alone |
| `LaunchStream.DrainStream` | src/liblaunch/liblaunch.c:1206-1312 | Draining any prefix of a stream of frames delivers exactly the complete messages in it and leaves the unread rest |
| `LaunchStream.DrainThenStop` | src/liblaunch/liblaunch.c:1252-1312 | Complete messages followed by bytes at which the loop stops are delivered, and then it stops |
| `LaunchRuns.ReceiveKeeps` | src/liblaunch/liblaunch.c:1206-1312 | A receive of any size, anywhere in the stream, keeps deliveries a prefix of what was sent and the buffers the rest of the stream; the stream is never rejected |
| `LaunchRuns.Delivery` | src/liblaunch/liblaunch.c:862-977 | Over every run of sends, partial and refused sends and receives in which no message that lost its header is sent on: the trees delivered are those sent, in order, each with its own descriptors under the numbers of the receiver; the bytes buffered, on the socket and unsent are the unread tail; when nothing is in flight all has been delivered; the stream is never rejected |
| `LaunchRuns.HeadlessBreaks` | src/liblaunch/liblaunch.c:914-946 | In every run in which bytes of a message without its header were sent, the receiver never gets more than the messages sent before; as soon as 16 such bytes were sent, what is on its way delivers the rest of those and is then rejected |
| `LaunchConnection.Connection.PackMessage` | src/liblaunch/liblaunch.c:883-912 | A message is packed into a new send buffer with its header, or refused if it is too big; its descriptors stay inside their array exactly if at most 1024 are written, and if the tree fits these are all of them |
| `LaunchConnection.DescriptorsOverrun` | src/liblaunch/liblaunch.c:725-730 | A tree that fits the send buffer and has 1025 descriptors |
| `LaunchConnection.Connection.Send` | src/liblaunch/liblaunch.c:862-977 | What the first sendmsg puts on the socket, descriptors on its first byte, and what stays in the send buffer, for every outcome of the call; sent is reported exactly if the kernel took bytes and none is left, try again exactly if some are left, failed exactly if the call failed, reset exactly if it took nothing or answered with another control length; exactly when the descriptor array overflows and when the send buffer is read before its start |
| `LaunchConnection.Connection.Resume` | src/liblaunch/liblaunch.c:913-977 | A later send goes on exactly where the last one stopped, and keeps everything if the call fails or the control length changed; sent, try again, failed and reset are reported in exactly the cases of the first send |
| `LaunchConnection.Connection.Recv` | src/liblaunch/liblaunch.c:1206-1312 | One receive of any bytes, decoding in place, delivers what draining the buffered bytes and the chunk would, and keeps the rest, of a refused message all but its decoded part unchanged; a closed socket or cut control data changes nothing |
| `LaunchSession.Session.SendMessage` | src/liblaunch/liblaunch.c:883-977 | A call of the sender is a step of the run: the message and its header, or its refusal; when it reports sent, every byte of every message so far is on the wire or received |
| `LaunchSession.Session.SendMore` | src/liblaunch/liblaunch.c:922-977 | A later call of the sender is a step of the run, or none; when it reports sent, every byte of every message so far is on the wire or received |
| `LaunchSession.Session.ReceiveSome` | src/liblaunch/liblaunch.c:1206-1312 | A call of the receiver, with bytes of any number, is a step of the run, and never gives up |
| `LaunchSession.Delivered` | src/liblaunch/liblaunch.c:862-977 | So of two connections, the callback of one was given the trees that the other sent, in order, each with its own descriptors, and all of them once nothing is under way |
| `LaunchDict.KeyedArray.Insert` | src/liblaunch/liblaunch.c:379-397 | The first entry whose key has the same letters and other bytes, whatever their case, is replaced where it is; if there is none, a new one comes last |
| `LaunchDict.KeyedArray.Lookup` | src/liblaunch/liblaunch.c:399-413 | The value found is that of the first key of the same length with the same bytes but for the case of letters; none exactly if there is no such key |
| `LaunchDict.KeyedArray.Remove` | src/liblaunch/liblaunch.c:415-431 | The first entry with such a key is taken out, the others keep their order; false exactly if there is none |
| `LaunchDict.RunRefines` | src/liblaunch/liblaunch.c:379-431 | After any run of inserts and removes the keys are distinct up to case and in order of arrival, and the array refines a map on folded keys |
| `LaunchDict.LookupRefines` | src/liblaunch/liblaunch.c:399-413 | A lookup finds exactly what the map holds |
| `LaunchDict.FoldIff` | src/liblaunch/liblaunch.c:379-431 | Two keys fold alike exactly if they have the same length and at each place the same byte or a capital and its small letter |
| `LaunchDict.RunKeysDiffer` | src/liblaunch/liblaunch.c:379-397 | After any run no two keys are the same but for the case of letters |
| `LaunchNode.Copy` | src/liblaunch/liblaunch.c:1314-1344 | A deep copy holds an equal tree, strings and blobs included, in new memory of which none is shared with the original |
| `LaunchNode.Free` | src/liblaunch/liblaunch.c:344-371 | Freeing a tree releases all of its nodes, strings and blobs and nothing else |
| `LaunchNode.CopyThenFree` | src/liblaunch/liblaunch.c:344-371 | After a copy, freeing either tree leaves the other as it was |
| `LaunchNode.CopyThenEdit` | src/liblaunch/liblaunch.c:1314-1344 | After a copy, a change in place anywhere in one tree leaves the other as it was |
| `StaleGroups.RemoveStale` | configd/src/SystemConfiguration.fproj/BondConfiguration.c:1529-1605 | The first half destroys what is not configured and removes members that are not, every request being acceptable, and requests nothing if nothing is stale |
| `BuildGroups.AddMissing` | configd/src/SystemConfiguration.fproj/BondConfiguration.c:1711-1741 | Adds, in order, exactly the configured members not present, each while it belongs to no group |
| `BuildGroups.RemoveKept` | configd/src/SystemConfiguration.fproj/BondConfiguration.c:1674-1705 | Empties a group of the members that survived the first half, before it is rebuilt in order |
| `BuildGroups.RearrangedIsArranged` | configd/src/SystemConfiguration.fproj/BondConfiguration.c:1674-1741 | Whatever the reported order, the members end as the configured set with the configured first one first |
| `BondReconcile.UpdateConfiguration` | configd/src/SystemConfiguration.fproj/BondConfiguration.c:1500-1801 | From any kernel state every request is acceptable (an interface is added only while it is in no bond); the kernel ends with exactly the configured bonds, modes and members, configured first member first, and fit for the next run; every request has its reason in what is configured and reported, and none is made twice; if the kernel already has what is configured nothing is requested |
| `VirtualKernel.NeededMeans` | configd/src/SystemConfiguration.fproj/BondConfiguration.c:1529-1741 | The reasons, entry by entry: only a bond that is configured and not reported is created, only one that is not configured destroyed; a member is removed only if it is not configured or another one has to come first, and added only if it is configured and was not reported or another one has to come first |
| `BondReconcile.ModeNeededMeans` | configd/src/SystemConfiguration.fproj/BondConfiguration.c:1606-1672 | A mode is set only to the configured one, and only if the bond is not reported with it |
| `BondReconcile.UpdateTwice` | configd/src/SystemConfiguration.fproj/BondConfiguration.c:1500-1801 | Run again on what the first run left, with the report the system gives of it, it requests nothing |
| `BuildGroups.SettledIsGood` | configd/src/SystemConfiguration.fproj/BondConfiguration.c:1500-1801 | A settled kernel whose other groups are those of a good one is good itself |
| `BridgeReconcile.Update` | configd/src/SystemConfiguration.fproj/BridgeConfiguration.c:1173-1302 | An existing bridge ends with its configured members; its address becomes that of the first one exactly if it starts without members; it is set at most once, and only while the bridge is empty |
| `BridgeReconcile.Establish` | configd/src/SystemConfiguration.fproj/BridgeConfiguration.c:1304-1362 | A new bridge gets its members in order and the address of the first |
| `BridgeReconcile.UpdateConfiguration` | configd/src/SystemConfiguration.fproj/BridgeConfiguration.c:1056-1379 | Whatever is configured, no bridge whose name ends in three digits is destroyed or loses a member, and no address is set twice. If configured bridges are managed and share no member with others: every request is acceptable and about a managed bridge, addresses are set only while a bridge is empty, other bridges are untouched, every request has its reason in what is configured and reported, and none is made twice, the managed ones end as configured, a settled kernel gets no request, and every managed non-empty bridge ends with the address of its first member exactly if those that kept their first member had it |
| `BridgeReconcile.UpdateTwice` | configd/src/SystemConfiguration.fproj/BridgeConfiguration.c:1056-1379 | Run again on what the first run left, with the report the system gives of it, it requests nothing |
| `BridgeReconcile.AddressNeededMeans` | configd/src/SystemConfiguration.fproj/BridgeConfiguration.c:1187-1205 | An address is set only to that of the first configured member, and only if the bridge is not reported, or without members, or with another first one |
| `BridgeReconcile.CopyActive` | configd/src/SystemConfiguration.fproj/BridgeConfiguration.c:388-470 | Of the bridges reported exactly the managed ones are looked at |
| `BridgeReconcile.ManagedIs` | configd/src/SystemConfiguration.fproj/BridgeConfiguration.c:425-434 | Not managed are exactly the names of three digits at the end of something |
| `BridgeReconcile.AddressedWhen` | configd/src/SystemConfiguration.fproj/BridgeConfiguration.c:1180-1362 | The exact condition under which all addresses are right afterwards |
| `BridgeReconcile.WrongAddressStays` | configd/src/SystemConfiguration.fproj/BridgeConfiguration.c:1187-1205 | A settled bridge with the wrong address, which stays wrong |
| `MembershipEdits.Preferences.CopyAvailable` | configd/src/SystemConfiguration.fproj/BondConfiguration.c:323-398 | Available are exactly the interfaces that are there, support the role, are in no stored bond, no stored bridge and under no VLAN |
| `MembershipEdits.Preferences.Check` | configd/src/SystemConfiguration.fproj/BondConfiguration.c:722-772 | The first member that is neither current nor available, or is available but in service, decides the error |
| `MembershipEdits.VerdictIs` | configd/src/SystemConfiguration.fproj/BondConfiguration.c:722-772 | Up to the first faulty member all are current, or available and out of service; that member is not current, and is refused as invalid exactly if it is not available, as existing exactly if it is available and in service; without one the bond or bridge has to be stored |
| `MembershipEdits.Handle.SetMembers` | configd/src/SystemConfiguration.fproj/BridgeConfiguration.c:694-793 | A rejected edit changes nothing, an accepted one exactly the stored and the cached list; a handle without preferences accepts anything and stores nothing |
| `MembershipEdits.AcceptedIff` | configd/src/SystemConfiguration.fproj/BondConfiguration.c:722-772 | An edit is accepted exactly if every wanted member is acceptable on its own and the bond or bridge is stored |
| `MembershipEdits.EditApart` | configd/src/SystemConfiguration.fproj/BondConfiguration.c:705-783 | An accepted edit keeps all lists apart exactly if no wanted member that the handle believes to hold is stored elsewhere |
| `MembershipEdits.RunKeepsApart` | configd/src/SystemConfiguration.fproj/BridgeConfiguration.c:307-384 | Over every run of edits, creations, deletions and changes around them, with one handle for each list, no interface is ever in two bonds or bridges or one of each |
| `MembershipEdits.StaleHandle` | configd/src/SystemConfiguration.fproj/BondConfiguration.c:729-740 | With two handles of one bond an interface can end up in two bonds |
| `MembershipEdits.GoodConfigIff` | configd/src/SystemConfiguration.fproj/BondConfiguration.c:705-783 | Lists that are kept apart make a configuration that the reconcilers can work with exactly if none has a duplicate |
| `MembershipEdits.DuplicateAccepted` | configd/src/SystemConfiguration.fproj/BondConfiguration.c:722-772 | The checks let an available interface be named twice |
| `MembershipEdits.RunGivesGoodConfig` | configd/src/SystemConfiguration.fproj/BondConfiguration.c:705-783 | After any run in which no edit names an interface twice, the stored bonds, and the stored bridges, make a configuration that the reconcilers can work with |
| `RankLedger.ChangesCovered` | configd/src/IPMonitorControl/IPMonitorControlServer.c:92-115 | Over any run between two snapshots, an interface whose aggregate rank differs is among the changed ones |
| `RankLedger.RunReports` | configd/src/IPMonitorControl/IPMonitorControlServer.c:523-570 | In every reachable state the last report submitted for an interface equals the flags and the number of the sessions that advise on it |
| `RankLedger.ReportsSay` | configd/src/IPMonitorControl/IPMonitorControlServer.c:523-570 | So in every reachable state the flags last reported are raised exactly if some session gives that advisory, the count is that of the advising sessions, and without a report nobody advises |
| `RankLedger.StepSays` | configd/src/IPMonitorControl/IPMonitorControlServer.c:462-570 | An event changes what its own connection says about its own interface, and nothing else; the default takes an entry away, a disconnect all of them |
| `RankLedger.ChangedOnly` | configd/src/IPMonitorControl/IPMonitorControlServer.c:92-115 | An interface is newly marked as changed only if the event is about it, or closes a session that asserted something about it |
| `RankLedger.AggregateUnique` | configd/src/IPMonitorControl/IPMonitorControlServer.c:170-189 | The aggregate rank is determined by the sessions alone, whatever their order |
| `IPMonitorServer.Server.AdvisoryFlags` | configd/src/IPMonitorControl/IPMonitorControlServer.c:226-257 | A flag is raised exactly if some session, or some other one, has that advisory in its dictionary, and the count is the number of those that have any |
| `IPMonitorServer.Server.SetRank` | configd/src/IPMonitorControl/IPMonitorControlServer.c:462-500 | The new ledger, changed interfaces and dictionary, which is never left empty |
| `IPMonitorServer.Server.SetAdvisory` | configd/src/IPMonitorControl/IPMonitorControlServer.c:523-570 | The new ledger and changed interfaces, and a report exactly if flags or count changed |
| `IPMonitorServer.Server.Invalidate` | configd/src/IPMonitorControl/IPMonitorControlServer.c:390-419 | A closing session leaves the ledger, its interfaces are marked changed and its advisories are reported as gone |
| `IPMonitorServer.Server.HandleDisconnect` | configd/src/IPMonitorControl/IPMonitorControlServer.c:822-836 | A connection that goes away closes its session; one that never asserted anything changes nothing |
| `IPMonitorServer.Server.ReportAtClose` | configd/src/IPMonitorControl/IPMonitorControlServer.c:354-388 | A report for every interface whose report differs without the session |
| `IPMonitorServer.Server.AddChange` | configd/src/IPMonitorControl/IPMonitorControlServer.c:92-105 | The change list grows by that interface and has no duplicates |
| `IPMonitorServer.Server.HandleSetRank` | configd/src/IPMonitorControl/IPMonitorControlServer.c:643-678 | The error for every request, rank truncated to 32 bits; a refused request changes nothing |
| `IPMonitorServer.Server.HandleSetAdvisory` | configd/src/IPMonitorControl/IPMonitorControlServer.c:731-775 | The error for every request, advisory truncated to 32 bits; a refused request changes nothing |
| `IPMonitorServer.Server.AggregateRanks` | configd/src/IPMonitorControl/IPMonitorControlServer.c:117-189 | The dictionary gives every interface the highest claim of any session, an advisory counting as Last, in whatever order sessions and dictionaries are walked. For every interface: no stored rank is higher than the aggregate, an advisory makes it at least Last, and it is the rank that some session stores, or Last and some session advises |
| `IPMonitorServer.Server.CopyRankInformation` | configd/src/IPMonitorControl/IPMonitorControlServer.c:973-986 | A snapshot returns the aggregate and each changed interface once, and starts a new change list. For every interface: no stored rank is higher than the aggregate, an advisory makes it at least Last, and it is the rank that some session stores, or Last and some session advises |
| `IPMonitorServer.Server.HasAdvisories` | configd/src/IPMonitorControl/IPMonitorControlServer.c:191-203 | True exactly if some session advises on the interface |
| `IPMonitorServer.Server.AnyHasAdvisories` | configd/src/IPMonitorControl/IPMonitorControlServer.c:259-270 | True exactly if some session advises on some interface, because dictionaries are never empty |
| `IPMonitorClient.RunProjects` | configd/src/IPMonitorControl/IPMonitorControlServer.c:450-570 | What a session asserts depends on its own events only, whatever others do in between |
| `IPMonitorClient.RestartRebuilds` | configd/src/IPMonitorControl/IPMonitorControl.c:354-370 | After any run, a restarted server to which the mirror is replayed in any order, among the events of others, holds for that client exactly what it held before |
| `IPMonitorClient.Client.SetPrimaryRank` | configd/src/IPMonitorControl/IPMonitorControl.c:410-454 | An update is queued for the mirror exactly if the server accepted, and the mirror with the queued updates stays equal to the server session |
| `IPMonitorClient.Client.SetAdvisory` | configd/src/IPMonitorControl/IPMonitorControl.c:489-544 | An update is queued for the mirror exactly if the server accepted, and the mirror with the queued updates stays equal to the server session |
| `IPMonitorClient.Client.UpdateMirror` | configd/src/IPMonitorControl/IPMonitorControl.c:213-304 | A queued update reaches the mirror, dictionaries never being left empty, and what mirror and queue stand for together does not change |
| `IPMonitorClient.Client.Replay` | configd/src/IPMonitorControl/IPMonitorControl.c:244-334 | Replaying the mirror into a server without that session makes the session equal to the mirror and touches no other; the two agree afterwards exactly if the queued updates change nothing |
| `IPMonitorClient.RetryAfterReplay` | configd/src/IPMonitorControl/IPMonitorControl.c:378-408 | An interrupted request that is sent again after the replay leaves the session as the client will mirror it |
| `IPMonitorClient.RetryBeforeReplay` | configd/src/IPMonitorControl/IPMonitorControl.c:378-408 | One that gets there before the replay does so exactly if the mirror had no other value for the interface |
| `IPMonitorClient.RetryLost` | configd/src/IPMonitorControl/IPMonitorControl.c:354-370 | A rank set while the server goes away is overwritten by the replay of the old one |
| `ChildReaper.StepKeeps` | configd/src/SystemConfiguration.fproj/SCDPlugin.c:130-216 | Every step of spawners, children and reaper keeps the invariant, given that no new child with a callout gets the pid the reaper holds |
| `ChildReaper.ReapedOnce` | configd/src/SystemConfiguration.fproj/SCDPlugin.c:276-405 | Under any interleaving: active, reaped and called-out children partition the registered ones; each is called out at most once, with its own pid and exit status; and when the reaper is done, exactly those waited for have been called out |
| `ChildReaper.NoneForgotten` | configd/src/SystemConfiguration.fproj/SCDPlugin.c:110-202 | Under any interleaving, while a child waits to be reaped and the reaper is away, a message is there to wake it or the signal can be delivered |
| `ChildReaper.FoundIsOwn` | configd/src/SystemConfiguration.fproj/SCDPlugin.c:162-188 | The entry found for a pid is that of the child that was waited for |
| `ChildReaper.ReuseMisleads` | configd/src/SystemConfiguration.fproj/SCDPlugin.c:144-188 | In every state in which it can happen, a child with a callout that gets the pid held by the reaper is taken for the child waited for |
| `ChildLists.Lists.Reap` | configd/src/SystemConfiguration.fproj/SCDPlugin.c:162-188 | The first entry with the pid moves from the active to the reaped list in place, with the status; all other entries stay in order |
| `ChildLists.Lists.Register` | configd/src/SystemConfiguration.fproj/SCDPlugin.c:383-396 | A new child is linked in first |
| `ChildLists.Lists.Take` | configd/src/SystemConfiguration.fproj/SCDPlugin.c:204-213 | The next reaped child is taken off and the others stay |
| `TripleList.IsScheduled` | configd/src/SystemConfiguration.fproj/SCDPrivate.c:845-865 | True exactly if a packed triple matches, absent parts matching anything |
| `TripleList.OccursIs` | configd/src/SystemConfiguration.fproj/SCDPrivate.c:845-865 | A triple matches somewhere exactly if three packed elements in a row, from a place divisible by three, equal the parts that are given |
| `TripleList.Schedule` | configd/src/SystemConfiguration.fproj/SCDPrivate.c:868-876 | One more triple at the end |
| `TripleList.Unschedule` | configd/src/SystemConfiguration.fproj/SCDPrivate.c:879-914 | Takes out the first matching triple, or all; found exactly if there is one |
| `TripleList.FirstTaken` | configd/src/SystemConfiguration.fproj/SCDPrivate.c:879-914 | Taking out one takes out the first that matches and nothing else |
| `TripleList.AllTaken` | configd/src/SystemConfiguration.fproj/SCDPrivate.c:879-914 | Taking out all leaves those that do not match, in their order |
| `StoreNotifier.Store.Schedule` | configd/src/SystemConfiguration.fproj/SCDNotifierInformViaCallback.c:218-274 | One more outstanding schedule; the inner source is attached to exactly the spots with one, and the port exists exactly while there is one; nothing changes if no port can be had, except that the server may be lost |
| `StoreNotifier.Store.Cancel` | configd/src/SystemConfiguration.fproj/SCDNotifierInformViaCallback.c:277-381 | A matching cancel takes away one schedule, any other ends all; what becomes of status and server, also when the request fails |
| `StoreNotifier.MatchedRun` | configd/src/SystemConfiguration.fproj/SCDPrivate.c:845-914 | While cancels match, what is outstanding for each spot is schedules less cancels |
| `StoreNotifier.CancelKeepsCount` | configd/src/SystemConfiguration.fproj/SCDNotifierInformViaCallback.c:277-381 | A cancel leaves all other schedules alone exactly if it matches one or none is outstanding |
| `StoreNotifier.CancelEndsOther` | configd/src/SystemConfiguration.fproj/SCDNotifierInformViaCallback.c:228-244 | A schedule that failed for want of a port, when cancelled, ends the schedule of another run loop |
| `StoreNotifier.Store.SetDispatchQueue` | configd/src/SystemConfiguration.fproj/SCDNotifierInformViaCallback.c:530-715 | When a queue is accepted, and the complete state afterwards on success and on each failure |
| `StoreNotifier.Store.CreateRunLoopSource` | configd/src/SystemConfiguration.fproj/SCDNotifierInformViaCallback.c:473-527 | Succeeds exactly with a server, no other kind of notification, and a source that exists or can be created |
| `StoreNotifier.Store.NotifyCancel` | configd/src/SystemConfiguration.fproj/SCDNotifierCancel.c:38-106 | Every schedule is cancelled, in any order, or the queue is given up |
| `StoreNotifier.Store.Reconnect` | configd/src/SystemConfiguration.fproj/SCDOpen.c:621-736 | Exactly when a reconnect succeeds; then the same keys and patterns and the same queue are back, and the schedules from the first attempt on that got a port, so all of them if the first did; the client is informed in every case |
| `StoreNotifier.ReconnectedUnattached` | configd/src/SystemConfiguration.fproj/SCDOpen.c:685-691 | A reconnect that succeeds and leaves the source attached nowhere |
| `StoreNotifier.Store.Perform` | configd/src/SystemConfiguration.fproj/SCDNotifierInformViaCallback.c:384-437 | A callout is made exactly if something changed or a disconnect forces one |
| `StoreNotifier.Store.NoSendersOnRunLoop` | configd/src/SystemConfiguration.fproj/SCDNotifierInformViaCallback.c:177-215 | After a successful reconnect the source is signalled, and the client is told by its disconnect function or by a forced callout |
| `StoreNotifier.Store.NoSendersOnQueue` | configd/src/SystemConfiguration.fproj/SCDNotifierInformViaCallback.c:653-661 | In dispatch mode the client is told at once, by its disconnect function or by a callout |
| `IpcFraming.Channel.WriteAll` | src/src/ipc_proto.c:17-35 | Success means that all was sent, an error that a proper beginning was; short writes and interrupts alone never fail |
| `IpcFraming.Channel.ReadAll` | src/src/ipc_proto.c:37-54 | Exactly the wanted bytes are taken off the stream; a clean end is reported only before the first byte |
| `IpcFraming.Channel.Send` | src/src/ipc_proto.c:56-72 | A whole frame, a proper beginning of it after an error, or nothing if it is too long |
| `IpcFraming.Channel.Receive` | src/src/ipc_proto.c:74-107 | A message received is what the stream starts with, and later bytes stay unread; a clean end only at a frame boundary; without failing calls the outcome is exactly what the bytes say |
| `IpcFraming.FrameRoundTrip` | src/src/ipc_proto.c:56-107 | A frame sent is read back as its command and payload, and what follows stays |
| `IpcFraming.FrameBytes` | src/src/ipc_proto.c:56-72 | A frame is the magic number, the version, the command and the length, 32 bits each, and the payload |
| `IpcFraming.ParseRefuses` | src/src/ipc_proto.c:80-91 | A wrong magic number or version is a protocol error, a length over the limit too big; nothing else is refused |
| `IpcFraming.ParsedIsFrame` | src/src/ipc_proto.c:74-107 | Only a frame is read as a message |
| `IpcFraming.PrefixIncomplete` | src/src/ipc_proto.c:74-107 | No proper beginning of a frame is read as a message |
| `Launchctl.ReadBack` | src/support/launchctl.c:127-133 | Any error number printed before a space is read back exactly |
| `Launchctl.TextCarries` | src/src/ipc.c:54-63 | The reply text carries its error even when it is cut to the size of the buffer, and so does the job list |
| `Launchctl.TextIs` | src/src/ipc.c:54-63 | A status text is the error, a space, the message and a newline, cut at 1023 bytes; a listing has the count of jobs in its first line, then the rows |
| `Launchctl.DigitAt` | src/src/ipc.c:54-63 | Numbers are printed in base ten, without leading zeros |
| `Launchctl.HandleConnection` | src/src/ipc.c:272-290 | One reply a connection, none if the client just left, with a nonzero error for a broken request. For a request received: load, unload, start and stop with an argument are answered by the job table for that very command, and without one as invalid; a list is that of the job table; shutdown succeeds; any other number is invalid |
| `Launchctl.DoCommand` | src/support/launchctl.c:92-134 | launchctl exits 0 only if the reply to this very command carried error 0; and exactly then if no call fails and the reply is not too long to be sent. Without failing calls: load, unload, start and stop exit 0 exactly if the job table answers that very command with error 0, and 1 without an argument; shutdown exits 0, an unknown number 1 |
| `Launchctl.ListTooLong` | src/src/ipc.c:168-182 | A job list that is too long to be sent: nothing was wrong and launchctl exits 1 |
| `DnsName.LabelsSplit` | configd/src/SystemConfiguration.fproj/SCDHostName.c:449-493 | Splitting at dots loses nothing and leaves no dot in a label |
| `DnsName.ScansIff` | configd/src/SystemConfiguration.fproj/SCDHostName.c:461-490 | From any point of a name the scan succeeds exactly if labels follow |
| `DnsName.IsValidDnsName` | configd/src/SystemConfiguration.fproj/SCDHostName.c:449-493 | The scanner accepts a string exactly if splitting it at dots gives only labels as in section 2.1 of RFC 1123 |

## Left out

- LaunchWire.RoundTrip: mach-port values are not carried, because packing writes only their type.
- LaunchUnpack.Unpack: the swap of byte order on big-endian hosts is not modelled; once the cursor has left the buffer the model stops, where the original goes on reading.
- LaunchRuns.Delivery: a send that the kernel took but that is reported as reset, because the control length changed, is not among the events of a run; `LaunchConnection.Connection.Send` has it.
- LaunchNode.Copy: the array of pointers to the children is part of its node here, and a string that claims 2^64 - 1 bytes owns nothing.
- BridgeReconcile.UpdateConfiguration: the address is stated at the end of the run; between the removal of a first member and the rebuilding it can differ.
- MembershipEdits.Handle.SetMembers: checks that an argument is an interface object with a name are not modelled, because members are names here; neither are the copies made of member objects.
- StoreNotifier.Store.Reconnect: attempts to get a port that fail during a reconnect do not lose the server here.
- IPMonitorClient.Client.SetPrimaryRank: the loop that sends an interrupted request again is not part of the method; `RetryAfterReplay` and `RetryBeforeReplay` say what it leads to.
- IPMonitorClient.Client.SetAdvisory: likewise.
- Launchctl.HandleConnection: what the job table answers is a parameter; how jobs are loaded, spawned and reaped is not part of this model.
- The two names `supportsBond` and `supportsBridge` are taken to hold for configured members, so the branch that skips an unsupported one is not exercised.
- Failing ioctl calls in the reconcilers: the code goes on with the next request and reports failure at the end.
- Closing a liblaunch connection from inside the receive callback.
- launch_data_array_pop_first and the iterators over arrays and dictionaries.
- Socket setup, control-message arithmetic, security sessions and other mach calls in liblaunch.
- Signals, blocking waits and file-descriptor notification of the dynamic store.
- Localized names, options and LACP status of bonds and bridges, logging and usage text.
