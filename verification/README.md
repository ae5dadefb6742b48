# Verified models of MeshLink

MeshLink builds a peer-to-peer mesh: nodes authenticate each other and exchange session keys with the SPTPS
protocol, flood their edges through the mesh, route over the resulting graph, discover the largest datagram a path
carries, and keep their configuration in encrypted files. This project models the parts of the C sources in `src/`
that carry state from one call to the next or that decode what others encoded, and proves what they promise for every
input, every interleaving and every run.

The models keep the form of the code. What the code updates in place is a class whose methods change the same fields
in the same order; what only computes is a function. A method's contract ties the object to a specification on
values, and lemmas about that specification, or `Run` methods over arbitrary sequences of events, state the results.

| module | what it is about |
|---|---|
| `SptpsSession`, `SptpsPair`, `SptpsNumbers` | the handshake and re-keying of a session, two sessions with records in flight between them, and their sequence numbers |
| `ReplayWindow` | the bitmap that drops replayed datagrams |
| `RecordStream` | cutting a byte stream into records |
| `SplayShape`, `SplayEdit`, `SplayNodes`, `SplayRelink`, `SplayTrees` | splay trees with threaded lists, down to the pointers |
| `KeyRotation` | rotating the key of the configuration files, with a crash after any step |
| `Routing` | breadth-first search, reachability, next hops and relaying |
| `PackMsg`, `PackCursor` | the packmsg encoding and its cursors |
| `HostConfig` | host files, built on packmsg |
| `Mdns`, `MdnsBuffer` | mDNS responses, written and parsed |
| `DnsMessage`, `MdnsReading` | DNS messages as section 4.1 of RFC 1035 has them read, and what responses read as |
| `ChannelQueues`, `ChannelAio` | the asynchronous buffers of a channel: the queues as values, and the channel with its callbacks |
| `Edges` | the two edge trees, and the handling of ADD_EDGE and DEL_EDGE |
| `Flooding` | remembering requests, aging them, and forwarding them through a network of nodes that do so |
| `Pmtu` | path MTU discovery |
| `Invitations` | using an invitation at most once |
| `CStrings`, `Wrappers` | strings that end at a NUL, and small shared types |

## How the models abstract

- Cryptography is symbolic in `SptpsSession`: a shared secret is the unordered pair of the two private keys, key
  material is made of that secret, the two nonces and the label, a sealed record opens under its key and number only,
  and a signature is the text it signs together with its signer.
- What the surroundings do is a parameter of the operation: new key pairs, random numbers, the clock, what file
  descriptors, sockets and callbacks do. Results hold for every value of these.
- `KeyRotation` records the disk after every single file operation, so "after every step" ranges over all crash
  points. File contents are a version and a body; a file that is being written cannot be read under any key.
- `SplayShape` describes a tree by the positions of its nodes in the sorted list; with bounds on the positions below
  each node, being ordered is a condition on one node and its neighbours. `SplayNodes` and `SplayTrees` carry the
  same operations out on linked nodes.

## Where the code does less than one might expect

- The replay window decides correctly only while the next expected number is below 2^32 - 256; `SoundExactly` proves
  that this condition is exact and `WrapReplays` shows a replay after the wrap.
- When a rotation is interrupted after the main file was copied but before all files were, opening with the new key
  adopts the incomplete copy and removes the complete one. `InterruptedCopyOpened` gives a disk, and
  `OpeningCompletesExactly` proves that an opening loses files in exactly this situation.
- packmsg compares the remaining length in 32 bits, so reading can fail in buffers of 4 GiB and more although the
  bytes are there, as `StrFails` shows; `StrExactly` and `BinExactly` say exactly when. `PackMsg` states its other
  results for shorter buffers.
- An mDNS key with a '=' is written but not recognised again, and a label with a NUL is accepted but would not be
  written like that; `EqualsRefused` and `AcceptedNul` give such packets, and `RoundTripExactly` and
  `AcceptedExactly` prove that nothing else breaks the correspondence.
- The packmsg getters are documented to return 0 on an error, but an integer cut off just after the header of its
  one-byte form is read as 0xc1, or -63 if signed; `TruncatedUint` and `TruncatedInt` prove that this is the only
  exception.
- What a channel sends from its buffers need not be a prefix of what was submitted: after a buffer was cut short, by a
  failed read, by a transport that accepted too little or for lack of room, later buffers are sent all the same, as
  `PrefixFails` shows on a channel. `ChannelAio.Run` proves that without such an event it is one, and `PollingOk` that
  exactly these events cut a buffer short.
- A node does not remember a request that it sent itself, so it may forward a copy that comes back; and a handler may
  return before it forwards a request. `Flooding.Spread` says what coverage and which number of copies remain.
- Sequence numbers wrap after 2^32 records, and a session does not re-key by itself; `NeverSealedTwice` and `NumberReused`
  say when key and number are used once only, and `SealedTwice` continues any run beyond that.
- Labels of more than 63 bytes and an empty name are written into mDNS packets, and so are pairs of 64 KiB and more with
  a truncated length; `ResponseReadsExactly` proves that nothing else keeps a response from being read as intended.
- The sum of two times is left with a fraction of exactly one second when the fractions add up to that (`SumAdds`).
- Recent addresses behind an unused entry are not written into a host file (`RestoredExactly`).

## Model

| member | source | states |
|---|---|---|
| SptpsSession.Sptps.constructor | src/sptps.c:685-741 | A new session is in the KEX phase, holds no cipher keys and has sent exactly one KEX record, in the clear |
| SptpsSession.Sptps.SendRecordPriv | src/sptps.c:118-141 | A record goes out sealed under the outgoing key and sequence number once encryption is on, in the clear before; the number advances as a 32-bit counter |
| SptpsSession.Sptps.SendKexRecord | src/sptps.c:161-187 | A KEX is generated, remembered and sent only when none is outstanding; otherwise the call fails and nothing changes |
| SptpsSession.Sptps.AcceptKex | src/sptps.c:289-311 | A KEX is accepted once per handshake; it is remembered and answered by a signature over both KEX messages, the role and the label; a refused one changes nothing |
| SptpsSession.Sptps.AcceptSig | src/sptps.c:314-373 | A SIG is accepted only over the peer's view of the same two KEX messages; it drops both, derives the key material and sends the ACK under the old key before the outgoing key changes |
| SptpsSession.Sptps.AcceptAck | src/sptps.c:264-286 | An ACK switches the incoming key to the half of the derived material that belongs to the peer's role and forgets the material |
| SptpsSession.Sptps.ForceRekey | src/sptps.c:376-388 | A new handshake starts from the idle state; while one is under way the call succeeds without a change, and before the first one is finished it fails without a change |
| SptpsSession.Sptps.FinishSig | src/sptps.c:419-432 | After a signature the first handshake completes at once, later ones wait for the ACK |
| SptpsSession.Sptps.AcceptRekey | src/sptps.c:394-410 | An idle session answers a KEX by its own KEX and a signature; a refused one leaves only the KEX behind |
| SptpsSession.Sptps.AcceptFinalSig | src/sptps.c:412-432 | A valid signature ends the first handshake at once, and leads a later one to waiting for the ACK |
| SptpsSession.Sptps.AcceptHandshake | src/sptps.c:391-449 | Each phase accepts exactly its own handshake message; a KEX while idle is first answered by a KEX of one's own, which is all that a refused message leaves behind |
| SptpsSession.Sptps.AcceptRecord | src/sptps.c:580-682 | A record is opened under the incoming key and number, handed to the handshake or to the application by its type, and refused when it does not open or comes too early; the number is used up in any case |
| SptpsPair.EveryRunIsSafe | src/sptps.c:144-449 | From start-up, for every interleaving of sends, forced re-keyings and deliveries at both ends, no delivery fails (sends and re-keyings that the session refuses before its first handshake is finished have no effect); what each application got accepted for sending equals what the other received followed by what is in flight, in order and unchanged |
| SptpsPair.EveryRunCanSettle | src/sptps.c:161-449 | Every run can be continued by deliveries alone, whatever KEX messages these generate, so that nothing is in flight any more; then every application record has arrived and the keys of both ends agree |
| SptpsPair.DeliverLess | src/sptps.c:391-449 | Every delivery of a record in flight brings the end nearer by one: a fixed number of deliveries, given by the handshakes begun and the records in flight, leaves nothing to deliver |
| SptpsPair.EveryRunSettles | src/sptps.c:161-449 | Whenever nothing is in flight, both ends have finished the same number of handshakes, each end's outgoing key is the other's incoming key, the two directions differ, and sequence numbers agree |
| SptpsPair.EveryEpochAgrees | src/sptps.c:213-373 | At every moment of every run each end's keys, in both directions and from the first handshake on, are its halves of the material that the two KEX messages of one handshake determine; the receiver is at most one handshake behind the sender; when nothing is in flight in a direction, both ends use the same key and number for it |
| SptpsPair.KeysMatch | src/sptps.c:213-373 | The same for one direction, in every state of the invariant |
| SptpsPair.RunRoles | src/sptps.c:161-449 | No run changes a role or a label |
| SptpsPair.RunSafe | src/sptps.c:161-449 | The invariant over both sessions and both queues survives every run from any state that satisfies it, and no step fails |
| SptpsPair.StepSafe | src/sptps.c:161-449 | One event at either end succeeds and keeps the invariant |
| SptpsPair.StartInv | src/sptps.c:685-741 | Two freshly started sessions with their first KEX messages in flight satisfy the invariant |
| SptpsPair.SendPreserves | src/sptps.c:144-158 | Sending application data keeps the invariant; data sent before the keys exist, or of a reserved type, is refused without effect |
| SptpsPair.ForcePreserves | src/sptps.c:376-388 | Forcing a new handshake at any moment keeps the invariant |
| SptpsPair.DeliverPreserves | src/sptps.c:580-682 | Delivering the oldest record in flight, whatever it is and whatever phase its receiver is in, succeeds and keeps the invariant |
| SptpsPair.FirstSigArrives | src/sptps.c:314-373 | The first SIG is always accepted and switches both directions on |
| SptpsPair.SigArrives | src/sptps.c:314-373 | A later SIG is always accepted, and its ACK is the next thing the other end expects |
| SptpsPair.AckArrives | src/sptps.c:264-286 | An ACK is always accepted and switches the incoming key to the key that the other end already uses |
| SptpsPair.SecondaryKexArrives | src/sptps.c:393-410 | A KEX that reaches an idle session is accepted after it sent a KEX and a SIG of its own, also when both ends started at the same time |
| SptpsPair.Settles | src/sptps.c:161-449 | In every state of the invariant with empty queues both ends are idle and hold matching keys and numbers |
| SptpsNumbers.EveryRunCounts | src/sptps.c:118-141 | In every run from start-up the outgoing number of each end is the number of records it has sent and the incoming number that of the records it has received, modulo 2^32; the k-th record of an end, if sealed, carries the number k modulo 2^32, over re-keyings as well, and a key of that end's role; application records are sealed and of a type below 128; what is in flight is what was sent and not yet received |
| SptpsNumbers.NeverSealedTwice | src/sptps.c:118-141 | As long as each end sends at most 2^32 records, no two sealed records of both ends share key and number |
| SptpsNumbers.NumberReused | src/sptps.c:118-141 | Two sealed records of an end share their number if and only if a multiple of 2^32 records lies between them |
| SptpsNumbers.SealedTwice | src/sptps.c:118-141 | Nothing forces a new key in time: any run can be continued by 2^32 + 1 application records so that two of them share key and number |
| SptpsNumbers.ReceiveCounts | src/sptps.c:628-665 | Every record that is accepted advances the incoming number by one and the outgoing one by the number of answers |
| SptpsNumbers.SendCounts | src/sptps.c:118-141 | Sending a record advances the outgoing number by one, after the record was sealed under it |
| ReplayWindow.Replay.constructor | src/sptps.c:698-714 | A session whose first records went through before encryption has taken exactly those numbers; the bitmap shows it |
| ReplayWindow.Replay.Receive | src/sptps.c:516-547 | The decision and the next number for every bitmap; while the bitmap shows the set of taken numbers, a packet is accepted if and only if its number was never taken and lies at most 256 behind, and the bitmap then shows that set with it added. The first holds while the next expected number is below 2^32 - 256, the second while no 32-bit sum wraps |
| ReplayWindow.Replay.Screen | src/sptps.c:522-539 | Late and replayed packets leave the bitmap alone; for others the numbers in between are marked missing |
| ReplayWindow.Replay.MarkAll | src/sptps.c:523-527 | A jump of a whole window marks all numbers as missing |
| ReplayWindow.Replay.MarkLate | src/sptps.c:533-538 | A smaller jump marks exactly the numbers that were skipped and leaves the other bits of the window |
| ReplayWindow.Replay.ClearLate | src/sptps.c:541-542 | Accepting a number clears its bit and no other |
| ReplayWindow.SoundExactly | src/sptps.c:516-547 | The window decides correctly for every packet and every bitmap that shows the taken numbers if and only if the next expected number is below 2^32 - 256 |
| ReplayWindow.WrapReplays | src/sptps.c:516-547 | On a session at the last number before the counter wraps, that number is accepted twice in a row: the bound on the number is needed |
| ReplayWindow.Run | src/sptps.c:516-547 | Over any run of packets through the bitmap, lost, reordered or replayed, a packet is accepted if and only if its number was not taken before the run, was not accepted earlier in it and is at most 256 behind; so no number is accepted twice |
| ReplayWindow.NeverTwice | src/sptps.c:516-547 | On the set of taken numbers, which Replay.Receive shows the bitmap to stand for: no number is accepted twice |
| ReplayWindow.AcceptedExactly | src/sptps.c:516-547 | On that set: a packet of a run is accepted if and only if its number was not taken before, was not accepted earlier in the run and is at most 256 behind |
| ReplayWindow.TakenAreAccepted | src/sptps.c:516-547 | On that set: every number that counts as taken was taken before the run or accepted from some packet of it |
| ReplayWindow.Accepted | src/sptps.c:516-547 | Clearing the accepted bit after marking the gap makes the bitmap show the new set of taken numbers |
| RecordStream.Receiver.ReceiveData | src/sptps.c:591-679 | Feeding a chunk to the buffered receiver gives what parsing the buffered bytes and the chunk at once gives, including a refused record |
| RecordStream.FragmentationIrrelevant | src/sptps.c:591-679 | Any two ways of cutting a byte stream into chunks lead to the same session, the same leftover and the same verdict, also across records that switch encryption on |
| RecordStream.FeedIsParse | src/sptps.c:591-679 | Feeding chunks one by one is parsing their concatenation |
| RecordStream.ParseSplit | src/sptps.c:591-679 | Parsing a stream in two parts is parsing it at once |
| RecordStream.LeftoverIncomplete | src/sptps.c:591-679 | What stays in the buffer is never a complete record |
| RecordStream.WrittenSize | src/sptps.c:118-141 | The first two bytes of a record are the length of its data, high byte first, and the receiver computes from them exactly the length of the record: 3 bytes more, or 19 once records are encrypted |
| RecordStream.MessagesDelivered | src/sptps.c:591-679 | Whatever messages a sender writes, of any type and with any data below 64 KiB, encrypted from any record on, and wherever their bytes are cut into chunks, the receiver gets exactly these messages in order and is left without a partial record |
| RecordStream.RecordsDelivered | src/sptps.c:118-141 | Whatever the chunks, records framed by a sender are handed over one by one and nothing is left |
| SplayShape.RotROk | src/splay_tree.c:177-193 | A right rotation keeps the tree's order: the same nodes in the same in-order sequence, with consistent parent links |
| SplayShape.RotLOk | src/splay_tree.c:184-193 | The mirror image |
| SplayShape.LinkROk | src/splay_tree.c:80-88 | Moving the root to the bottom of the right tree keeps the order of left tree, middle and right tree |
| SplayShape.LinkLOk | src/splay_tree.c:125-133 | The mirror image |
| SplayShape.MergeLOk | src/splay_tree.c:140-150 | Hanging the left tree below the new root keeps the order |
| SplayShape.MergeROk | src/splay_tree.c:152-160 | The mirror image |
| SplayShape.Closest | src/splay_tree.c:335-374 | The descent by comparisons ends at a node that holds the key or is a neighbour of its gap |
| SplayShape.InOrderIsRange | src/splay_tree.c:27-171 | A tree that satisfies the local conditions visits its nodes in list order |
| SplayNodes.StepLeft | src/splay_tree.c:45-89 | One step to the left (zig-zig, zig-zag or zig) keeps all three trees ordered and the node searched for within the middle one, which loses nodes |
| SplayNodes.StepRight | src/splay_tree.c:90-134 | The mirror image |
| SplayNodes.Merge | src/splay_tree.c:140-160 | Putting the three trees together gives one ordered tree over the same nodes |
| SplayNodes.TopDown | src/splay_tree.c:27-171 | Top-down splaying makes the node where the plain search ends the root, keeps the order of all nodes, and returns the comparison with it |
| SplayNodes.LiftRound | src/splay_tree.c:176-262 | One round of bottom-up splaying lifts the node above its parent and grandparent and keeps the order |
| SplayNodes.BottomUp | src/splay_tree.c:173-266 | Bottom-up splaying makes the given node the root and keeps the order of all nodes |
| SplayTrees.AddBefore | src/splay_tree.c:416-451 | On the nodes: the new node becomes the root, list and tree over the same nodes grow by it at its place, and the keys stay sorted |
| SplayTrees.AddAfter | src/splay_tree.c:453-488 | The mirror image |
| SplayTrees.Drop | src/splay_tree.c:555-589 | On the nodes: list and tree lose exactly the node, and the keys stay sorted |
| SplayTrees.Walk | src/splay_tree.c:335-374 | The loop of the search without splaying ends at the node the specification names, with the comparison to it |
| SplayTrees.NearestHolds | src/splay_tree.c:335-374 | A node nearest to a key holds it if and only if the key is present, and otherwise separates smaller from greater keys |
| SplayTrees.SplayTree.constructor | src/splay_tree.c:270-278 | A new tree is empty |
| SplayTrees.SplayTree.SearchClosest | src/splay_tree.c:376-378 | The node where the search ends becomes the root and is returned; contents and order stay |
| SplayTrees.SplayTree.SearchClosestNoSplay | src/splay_tree.c:335-374 | The same node is found and the tree is not changed |
| SplayTrees.SplayTree.SearchNode | src/splay_tree.c:326-333 | A node with the key is found if and only if there is one |
| SplayTrees.SplayTree.SearchClosestSmaller | src/splay_tree.c:380-391 | The last node with a key of at most the given one, or none if all are greater |
| SplayTrees.SplayTree.SearchClosestGreater | src/splay_tree.c:393-404 | The first node with a key of at least the given one, or none if all are smaller |
| SplayTrees.SplayTree.InsertTop | src/splay_tree.c:408-412 | The first node of a tree is head, tail and root |
| SplayTrees.SplayTree.InsertBefore | src/splay_tree.c:416-451 | The sequence of nodes grows by the new one before its neighbour, or at the end without one; list links, tree links, order and count agree |
| SplayTrees.SplayTree.InsertAfter | src/splay_tree.c:453-488 | The mirror image |
| SplayTrees.SplayTree.Insert | src/splay_tree.c:490-516 | A key that is present is refused and the contents stay; otherwise a new node takes its place in the sorted sequence |
| SplayTrees.SplayTree.InsertNode | src/splay_tree.c:518-541 | The same with a node of the caller |
| SplayTrees.SplayTree.Unlink | src/splay_tree.c:543-553 | The node with the key is taken out of the sequence; nothing else changes; a missing key changes nothing |
| SplayTrees.SplayTree.UnlinkNode | src/splay_tree.c:555-589 | The sequence of nodes loses exactly that node; list links, tree links, order and count agree |
| SplayTrees.InsertedKeys | src/splay_tree.c:490-516 | Inserting a node into the sequence adds exactly its key |
| SplayTrees.OffKeys | src/splay_tree.c:543-553 | Removing a node from a sorted sequence removes exactly its key |
| SplayTrees.Apply | src/splay_tree.c:490-553 | Each operation changes the key set and answers as a set does |
| SplayTrees.Run | src/splay_tree.c:490-553 | Every run of insertions, removals and searches answers as the same run on a set |
| KeyRotation.Storage.ConfigRename | src/conf.c:388-403 | Renaming fails without a source or onto a non-empty directory, and otherwise is one step |
| KeyRotation.Storage.ConfigDestroy | src/conf.c:195-239 | The directory goes; after each single step on the way it is intact or has lost its main file |
| KeyRotation.Storage.Renew | src/conf.c:258-268 | The destination of a copy is emptied, and after each single step only the destination has changed |
| KeyRotation.Storage.ConfigCopy | src/conf.c:362-373 | Succeeds if and only if all files decrypt; then the copy holds all of them under the new key, and after each single step only the destination has changed and holds nothing under another key |
| KeyRotation.HiddenNotCopied | src/conf.c:270-273 | A copy holds exactly the files that are neither hidden nor in a hidden directory |
| KeyRotation.Storage.CopyFiles | src/conf.c:241-360 | Files are copied in any order and hidden entries are left out; a file is unreadable until it is complete |
| KeyRotation.Storage.ConfbaseExists | src/conf.c:428-484 | Whether a configuration is found and unlocked, and which directory becomes the only one, for every disk; each single step on the way is described |
| KeyRotation.Storage.KeyRotate | src/meshlink.c:1307-1374 | Rotation ends with a single directory re-encrypted under the new key, and each single step leaves one of three kinds of disks |
| KeyRotation.RotationSafe | src/meshlink.c:1307-1374 | Every disk a rotation passes through is safe: some directory holds the whole configuration under one of the two keys, and no directory that could be adopted holds something else |
| KeyRotation.RecoverySafe | src/conf.c:428-484 | Opening a safe disk, interrupted anywhere, leaves a safe disk |
| KeyRotation.OpeningCompletes | src/conf.c:428-484 | Opening a safe disk finds a configuration; with a key that fits it leaves exactly the whole configuration under that key, with another key it changes nothing |
| KeyRotation.OpeningCompletesExactly | src/conf.c:428-484 | An opening of a safe disk loses part of the configuration if and only if it uses the new key of an unfinished copy while the current directory is under another key |
| KeyRotation.InterruptedCopyOpened | src/conf.c:428-484 | A disk on which that happens |
| KeyRotation.SomeKeyOpens | src/meshlink.c:1307-1374 | A safe disk opens with the old key, or with the new key without being an unfinished copy |
| KeyRotation.Mesh.Open | src/conf.c:428-484 | An opening keeps the invariant of the storage and opens the handle if and only if the key fits; then that key is the only one that counts, otherwise disk and keys stay |
| KeyRotation.Mesh.OpenInterrupted | src/conf.c:428-484 | An opening that is interrupted after any number of steps keeps the invariant for the same two keys |
| KeyRotation.Mesh.Rotate | src/meshlink.c:1307-1374 | A rotation keeps the invariant for the old and the requested key, and the handle has the requested one |
| KeyRotation.Mesh.RotateInterrupted | src/meshlink.c:1307-1374 | A rotation that is interrupted after any number of steps keeps the invariant for the old and the requested key |
| KeyRotation.Run | src/meshlink.c:1307-1374 | In every run of openings, rotations and crashes, in which no opening uses the key of an unfinished copy, every disk on the way holds the whole configuration, no opening reports it missing, every successful one leaves it complete and alone, and in the end the old or the new key of the last rotation, both of them keys that were used, opens it |
| Routing.Router.Search | src/graph.c:63-134 | The search ends with marks that are settled and relaxed for every node, whatever marks an earlier search left |
| Routing.Router.Examine | src/graph.c:90-127 | An edge without reverse or gain is skipped; one that reaches a new node, or the same layer by a lighter edge, updates the node and queues it |
| Routing.Router.ExamineAll | src/graph.c:83-131 | After all edges of a node the layered order of the queue holds, and a node examined again changes nothing |
| Routing.Router.CheckReachability | src/graph.c:136-226 | Flags follow the search, exactly the nodes whose flag changed are reported in order, without blacklisted ones, and the node itself is not counted |
| Routing.Router.Graph | src/graph.c:228-231 | Afterwards a node is flagged reachable if and only if a path of two-way edges leads to it, and the count is the number of other such nodes |
| Routing.Shortest | src/graph.c:63-134 | A node is visited if and only if it is reachable over two-way edges, and its distance is the least number of hops |
| Routing.LeastWeight | src/graph.c:112-120 | The previous edge of a node is one of least weight among the edges from the layer before it |
| Routing.NexthopIsFirst | src/graph.c:117-120 | The next hop is the first node on the path that the previous edges make |
| Routing.NexthopCloser | src/graph.c:117-120 | The next hop is a direct neighbour from which the node is one hop closer |
| Routing.RelayCloser | src/protocol_key.c:377-388 | When all nodes searched the same graph, relaying to the next hop brings a request exactly one hop closer |
| Routing.Route | src/protocol_key.c:377-388 | So a relayed request arrives after exactly as many relays as its distance |
| PackMsg.UintRoundTrip | src/packmsg.h:876-971 | Reading an unsigned integer of any width that was written in its shortest form gives it back and stops at its end |
| PackMsg.EncodeTyped | src/packmsg.h:322-681 | Every value is written under a header that MessagePack gives to its format |
| PackMsg.Shortest | src/packmsg.h:322-681 | Lengths and numbers are written in as few bytes as their format allows |
| PackMsg.ShortestInt | src/packmsg.h:322-370 | So are signed numbers |
| PackMsg.NumbersChecked | src/packmsg.h:772-971 | Reading a number succeeds only on a header of a number of the right kind |
| PackMsg.FormatsChecked | src/packmsg.h:1030-1437 | Reading a boolean, a string, binary data, an extension, a map or an array succeeds only on a header of that format |
| PackMsg.LittleBytes | src/packmsg.h:248-260 | Numbers of every width are written lowest byte first |
| PackMsg.TruncatedUint | src/packmsg.h:688-701 | A reading of an unsigned integer that fails gives 0, as documented, except that an input of just the header of the one-byte form gives 0xc1 |
| PackMsg.TruncatedInt | src/packmsg.h:688-701 | The same for signed integers, where the exception gives -63 |
| PackMsg.IntRoundTrip | src/packmsg.h:772-867 | The same for signed integers, including the negative short form |
| PackMsg.StrRoundTrip | src/packmsg.h:1030-1060 | The same for strings of every length class |
| PackMsg.BinRoundTrip | src/packmsg.h:1150-1178 | The same for binary data |
| PackMsg.ExtRoundTrip | src/packmsg.h:1262-1297 | The same for extensions with fixed and stored length |
| PackMsg.MapRoundTrip | src/packmsg.h:1389-1406 | The same for map headers |
| PackMsg.ArrayRoundTrip | src/packmsg.h:1420-1437 | The same for array headers |
| PackMsg.StrExactly | src/packmsg.h:704-716 | Without a bound on the buffer a string is read back if and only if the remaining lengths survive the comparison in 32 bits |
| PackMsg.BinExactly | src/packmsg.h:704-716 | The same for binary data |
| PackMsg.StrFails | src/packmsg.h:704-716 | A string of one byte followed by 2^32 - 1 bytes is not read back |
| PackMsg.SkipEncoded | src/packmsg.h:2023-2043 | Skipping an object on the encoding of any nested value, followed by anything, stops exactly at its end |
| PackMsg.SkipObjectTail | src/packmsg.h:2023-2043 | On arbitrary bytes skipping an object ends strictly later within them, or the cursor is invalid; an invalid cursor stays so |
| PackMsg.SkipElementTail | src/packmsg.h:1838-2011 | The same for one element |
| PackCursor.Input.ReadHdr | src/packmsg.h:688-701 | A header byte is taken, or the cursor becomes invalid and stays so |
| PackCursor.Input.ReadData | src/packmsg.h:704-716 | Bytes are taken, or the cursor becomes invalid |
| PackCursor.Input.PeekHdr | src/packmsg.h:719-728 | The next header byte, and nothing moves |
| PackCursor.Input.GetUint | src/packmsg.h:876-971 | The reader that UintRoundTrip is about |
| PackCursor.Input.GetInt | src/packmsg.h:772-867 | The reader that IntRoundTrip is about |
| PackCursor.Input.GetBool | src/packmsg.h:752-763 | Only the two boolean headers are accepted |
| PackCursor.Input.GetStr | src/packmsg.h:1030-1060 | The reader that StrRoundTrip is about |
| PackCursor.Input.GetBin | src/packmsg.h:1150-1178 | The reader that BinRoundTrip is about |
| PackCursor.Input.GetExt | src/packmsg.h:1262-1297 | The reader that ExtRoundTrip is about |
| PackCursor.Input.GetMap | src/packmsg.h:1389-1406 | The reader that MapRoundTrip is about |
| PackCursor.Input.GetArray | src/packmsg.h:1420-1437 | The reader that ArrayRoundTrip is about |
| PackCursor.Input.SkipElement | src/packmsg.h:1838-2011 | The cursor moves as the specification of skipping says |
| PackCursor.Input.SkipObject | src/packmsg.h:2023-2043 | The recursion with its two loops moves the cursor as SkipEncoded and SkipObjectTail need |
| PackCursor.Output.WriteHdr | src/packmsg.h:234-245 | A header byte follows what was written, or it does not fit and the cursor is invalid from then on |
| PackCursor.Output.WriteData | src/packmsg.h:248-260 | Whether the data fits is decided in 32 bits; then it follows what was written, otherwise the cursor is invalid; in buffers below 4 GiB that is whether it fits |
| PackCursor.Output.WriteHdrData | src/packmsg.h:263-279 | The same for a header with data |
| PackCursor.Output.AddUint | src/packmsg.h:378-426 | Writes the shortest encoding of the integer |
| PackCursor.Output.AddInt | src/packmsg.h:322-370 | Writes the shortest encoding of the integer |
| PackCursor.Output.AddStr | src/packmsg.h:478-486 | Writes header and contents; a string of 2^32 bytes or more invalidates the cursor |
| PackCursor.Output.AddBin | src/packmsg.h:522-532 | Writes header and contents |
| PackCursor.Output.AddExt | src/packmsg.h:568-596 | Writes header, type and contents for each length class |
| PackCursor.Output.AddMap | src/packmsg.h:652-660 | Writes the shortest header |
| PackCursor.Output.AddArray | src/packmsg.h:673-681 | Writes the shortest header |
| HostConfig.RoundTrip | src/net_setup.c:140-291 | Parsing the encoding of a host restores name, submesh, device class, blacklist flag, key, canonical address, recent addresses and times, with nothing left over |
| HostConfig.WriteAndRead | src/net_setup.c:140-291 | Writing a host file and reading it into a new node, named or not, succeeds whenever the file could be written, and the node then holds all that was stored |
| HostConfig.WriteConfig | src/net_setup.c:221-291 | The file is written if and only if it fits its buffer and all recent addresses are of a known family; then it is the specified encoding |
| HostConfig.Node.ReadFromConfig | src/net_setup.c:140-219 | The node's fields become what the specification parses from the file; a key that the node has already is kept, a name must match, and a node with a canonical address does not change at all |
| HostConfig.Node.ReadName | src/net_setup.c:145-167 | Only the current version and the expected name are accepted |
| HostConfig.Node.ReadRecent | src/net_setup.c:205-213 | Of the stored addresses the first five replace those of the node, and the others are skipped |
| HostConfig.FileBegins | src/net_setup.c:244-246 | A host file begins with the version 2 and the two names, the core mesh being written as a dot |
| HostConfig.RestoredExactly | src/net_setup.c:258-272 | What is read back is the host itself if and only if no recent address is used behind an unused one; other addresses are lost |
| HostConfig.TrailingRefused | src/net_setup.c:205-218 | A file with anything behind its last field is refused |
| HostConfig.KeyRoundTrip | src/net_setup.c:185-218 | The round trip from the public key on; a node without a key stays without one |
| HostConfig.AddressesRoundTrip | src/net_setup.c:205-213 | The list of recent addresses is restored, with unused entries behind it |
| HostConfig.AddressRoundTrip | src/netutl.c:299-360 | An IPv4 or IPv6 address is restored with family, port and address |
| HostConfig.ReadAddress | src/netutl.c:323-360 | Addresses of a wrong type or size invalidate the cursor |
| HostConfig.AddRecent | src/net_setup.c:258-272 | The number of used addresses and then each of them is written, up to the first unused entry |
| Mdns.RoundTrip | src/mdns.c:310-441 | Parsing what prepare_response built gives back name, port, labels and values, for strings without NUL and keys without '=' |
| Mdns.RoundTripExactly | src/mdns.c:310-441 | For strings without NUL it succeeds if and only if no key holds a '=' |
| Mdns.AcceptedIsResponse | src/mdns.c:373-441 | An accepted packet without NUL in its labels is byte for byte what prepare_response emits for the fields found in it |
| Mdns.AcceptedExactly | src/mdns.c:373-441 | An accepted packet is what prepare_response emits for the strings it returns if and only if no label holds a NUL |
| Mdns.EqualsRefused | src/mdns.c:201-224 | A key with a '=' is written, but the packet is not accepted |
| Mdns.AcceptedNul | src/mdns.c:373-441 | A packet whose name holds a NUL is accepted although prepare_response does not emit it for the strings found |
| Mdns.PairsRead | src/mdns.c:201-224 | Key-value labels are read back in order |
| Mdns.PairsSplit | src/mdns.c:201-224 | What was read as labels is what the packet holds |
| MdnsReading.ResponseReadsExactly | src/mdns.c:310-371 | Read as section 4.1 of RFC 1035 says, with names followed through their compression pointers, a response consists of exactly the TXT, PTR and SRV records of the instance, with its full names, the pairs, the port, the classes and the lifetimes, if and only if every label has 1 to 63 bytes and the pairs are shorter than 64 KiB |
| MdnsReading.PointerName | src/mdns.c:344-362 | A pointer is two bytes that begin with two ones, and stands for the name that begins at its target |
| MdnsReading.DomainRead | src/mdns.c:343-350 | The PTR record belongs to the service and leads to the instance |
| MdnsReading.ServiceRead | src/mdns.c:352-363 | The SRV record belongs to the instance and leads to its host name, with its port |
| MdnsReading.TextRead | src/mdns.c:324-341 | The TXT record belongs to the instance and holds the pairs |
| MdnsBuffer.Writer.Add | src/mdns.c:18-26 | Bytes follow what was written, or the buffer is invalid from then on |
| MdnsBuffer.Writer.AddLabel | src/mdns.c:48-57 | A label of up to 255 bytes is added, a longer one invalidates the buffer |
| MdnsBuffer.Writer.AddUlabel | src/mdns.c:59-69 | The same with a leading underscore |
| MdnsBuffer.Writer.AddPair | src/mdns.c:71-83 | The same for a key and a value joined by '=' |
| MdnsBuffer.Writer.LenEnd | src/mdns.c:97-104 | The two bytes reserved before become the length of what was written since |
| MdnsBuffer.PrepareResponse | src/mdns.c:310-371 | The packet is built if and only if all labels and the packet fit; then it is the specified one |
| MdnsBuffer.Reader.CheckBytes | src/mdns.c:113-120 | The expected bytes are consumed, or the cursor is invalid from then on |
| MdnsBuffer.Reader.ReadLabel | src/mdns.c:166-187 | A label is taken whole, or the cursor becomes invalid |
| MdnsBuffer.Reader.ReadPairs | src/mdns.c:201-224 | The loop, which goes on after an error, finds what a loop that stops at the first error finds |
| MdnsBuffer.Reader.LenEnd | src/mdns.c:238-248 | The announced length is compared with what was read since |
| MdnsBuffer.ParseResponse | src/mdns.c:373-441 | The cursor-based parser accepts what the specified parser accepts, and finds the same |
| MdnsBuffer.ScanPairs | src/mdns.c:201-224 | Going on after an error does not change what is found |
| ChannelQueues.FilledOk | src/meshlink.c:4026-4051 | Bytes that go through the first buffer keep the accounting of the queue and extend the stream by themselves |
| ChannelQueues.CalledTold | src/meshlink.c:3950-3978 | Each of the buffers that were finished while the channel was open had its callback called exactly once, with the length done, if it has one; those without a callback and those finished by closing did not |
| ChannelQueues.ShortNotTold | src/meshlink.c:4200-4207 | What a short send moved is in the stream, but is not in the length that the owner of the buffer is told |
| ChannelQueues.PollingMore | src/meshlink.c:4227-4232 | The poll callback is due if and only if the channel is open, no buffer is left and there is room, or the transport failed or reported an error |
| ChannelQueues.DrainedOk | src/meshlink.c:3981-3989 | Finishing all buffers keeps the accounting of the queue and calls no callback |
| ChannelQueues.TakenOk | src/meshlink.c:4009-4062 | A round of receiving puts exactly the next bytes of the data into buffers and fills every buffer in memory that it finishes, whatever file descriptors and callbacks do |
| ChannelQueues.RoomFits | src/meshlink.c:4020-4045 | A buffer takes all that is left of the data or of the buffer, a file descriptor at most what it accepts |
| ChannelQueues.AmountRead | src/meshlink.c:4170-4196 | From a file descriptor comes what it delivers, as far as the room, the buffer and 64 KiB allow, and nothing if it fails or is interrupted |
| ChannelQueues.TurnedOk | src/meshlink.c:4149-4226 | One round of polling sends what it uses up of the room; if the channel stays open, the buffers that it finished are complete if and only if the transport did not fall short and no read failed before the end of its source |
| ChannelQueues.PollingOk | src/meshlink.c:4139-4233 | The same for a whole poll from any queue, also without room; the loop stops only when there is no room, no buffer or a file descriptor that delivered less; and unless a read failed or a buffer had been cut short before, nothing is sent from behind a buffer that was cut short, whether or not the channel was closed meanwhile |
| ChannelQueues.PollingSmooth | src/meshlink.c:4139-4233 | A transport that accepts all it is given and file descriptors that deliver something whenever they are not interrupted, once for every buffer, never cut a buffer short |
| ChannelQueues.SentIsPrefix | src/meshlink.c:4139-4233 | In every queue the bytes sent from buffers are, up to and including the first buffer that was cut short, a prefix of what all submitted buffers are to send, in the order of submission, from memory and from file descriptors |
| ChannelQueues.StreamIsPrefix | src/meshlink.c:4139-4233 | The whole buffered stream is such a prefix as long as nothing was sent from behind a buffer that was cut short |
| ChannelQueues.SentExactly | src/meshlink.c:4139-4233 | Finished buffers sent exactly what they should, in order, if and only if none was cut short |
| ChannelAio.Channel.FinishReceive | src/meshlink.c:3950-3978 | The first buffer is taken off the queue and its callback is called once, with the length done, while the channel is open; a callback that closes the channel finishes all buffers of both queues without their callbacks and frees the channel |
| ChannelAio.Channel.FinishSend | src/meshlink.c:3950-3978 | The same for the send queue |
| ChannelAio.Channel.Close | src/meshlink.c:4434-4460 | All waiting buffers are finished without their callbacks; the channel is freed at once only outside of a callback |
| ChannelAio.Channel.AbortReceive | src/meshlink.c:3981-3989 | All waiting buffers are finished, with their callbacks until one closes the channel, and no byte moves |
| ChannelAio.Channel.AbortSend | src/meshlink.c:3981-3989 | The same for the send queue |
| ChannelAio.Channel.Recv | src/meshlink.c:3991-4069 | While the channel stays open all the data goes, in order, into the waiting buffers, those in memory being filled, and only when none is left to the receive callback; when a callback closes it, a part from the start does; no byte is dropped if there is a receive callback, which gets no empty chunk unless the call is empty, which ends all buffers; the queue is afterwards exactly what the rounds of TakenOk make of it |
| ChannelAio.Channel.RecvRound | src/meshlink.c:4009-4062 | One round of the loop is the round that TakenOk is about |
| ChannelAio.Channel.Poll | src/meshlink.c:4139-4233 | The send queue is what the poll of PollingOk makes of it, for every answer of transport, file descriptors and callbacks; the poll callback is called with the room left exactly when it is due, and may close the channel; the receive queue loses nothing |
| ChannelAio.Channel.PollRound | src/meshlink.c:4149-4226 | One round of the loop is the round that TurnedOk is about, with the same room, answers left and decision to go on |
| ChannelAio.Channel.Offer | src/meshlink.c:4200-4225 | Of the next bytes of the first buffer the stream gets what the transport accepts; a short send counts for the stream but not for the length that the owner is told, and finishes all buffers |
| ChannelAio.Channel.NextBytes | src/meshlink.c:4160-4198 | Exactly the next bytes of the memory, or of what the file descriptor delivers: as many as the room, the rest of the buffer, the answer of the descriptor and 65536 allow, and none if and only if reading fails, is interrupted or is at the end |
| ChannelAio.Channel.SubmitReceive | src/meshlink.c:4630-4702 | A buffer of length 0 is refused, another one goes to the end of the queue |
| ChannelAio.Channel.SubmitSend | src/meshlink.c:4540-4628 | A buffer of length 0 is refused; another one goes to the end of the queue, and a poll with the room there is, from memory no more than the buffer is long, follows unless there is none |
| ChannelAio.Channel.Send | src/meshlink.c:4490-4538 | Direct sending is refused while buffers wait or the channel is closed; otherwise what the transport accepted is the start of the data |
| ChannelAio.PrefixFails | src/meshlink.c:4139-4233 | For any two buffers that begin with different bytes: when the transport accepts nothing of the first one, or reading it fails, an open channel sends the second one all the same, and what it has sent is no prefix of what was submitted |
| ChannelAio.Run | src/meshlink.c:3950-4233 | In every run of submissions, arrivals, polls, direct sends and closing, what arrived went into buffers and callbacks in order, all of it while the channel is open; no byte of it is dropped if there is a receive callback; every buffer that was finished while the channel was open had its callback called exactly once if it has one, in the order of submission and with the length done, and no other buffer had; a closed channel is freed; what was sent from a buffer is the start of its source; if no event cut a buffer short, all that was sent from buffers, also after closing, is a prefix of what all buffers are to send; while the channel is open, a finished buffer was cut short if and only if an event did so by a short send, a failed read or for lack of room; and none does with a generous transport and steady file descriptors |
| Edges.Mesh.Add | src/edge.c:85-94 | The edge is in both trees and linked with its opposite, if that exists; all other links stay |
| Edges.Mesh.Delete | src/edge.c:96-103 | The edge is in neither tree and its opposite has no reverse; all other links stay |
| Edges.Mutual | src/edge.c:105-115 | In every valid mesh an edge has a reverse if and only if the opposite edge exists, and the links are mutual |
| Edges.Mesh.AddMessage | src/protocol_edge.c:86-260 | When an edge in a message is taken over, corrected or contradicted, what is sent back and whether it is forwarded; the node's own edges never change |
| Edges.Mesh.DelMessage | src/protocol_edge.c:290-384 | When an edge is removed, and with it that of an unreachable node to oneself, which is announced to all; a message about one's own edge is answered by a correction; the node's own edges never change |
| Edges.Mesh.Receive | src/protocol_edge.c:86-384 | Over any sequence of messages both trees hold the same edges, links are mutual, the node's own edges stay as they are, and what is known about an edge between two other nodes is what the last message about it said |
| Flooding.Seen.constructor | src/protocol.c:244-251 | Nothing is remembered and the aging timer is armed |
| Flooding.Seen.SeenRequest | src/protocol.c:219-242 | A request is new if and only if it is not remembered; two answers "new" for the same request are at least a minute apart; the timer is armed whenever requests are remembered |
| Flooding.Seen.Purge | src/protocol.c:195-207 | Exactly the requests that are a minute old go |
| Flooding.Seen.Age | src/protocol.c:195-217 | After aging the timer is armed again if and only if requests are left |
| Flooding.Seen.SetTimeout | src/event.c:142-162 | Setting a timer also moves one that is armed |
| Flooding.Seen.Fire | src/event.c:354-364 | A timer that is due is disabled before it runs; the aging timer purges, another one may set itself again, and neither is due afterwards |
| Flooding.Seen.Drain | src/event.c:354-364 | The loop ends whatever the other timers do, no timer is due afterwards, and requests are only forgotten after a minute |
| Flooding.YoungExactly | src/protocol.c:195-207 | A request is kept for less than a minute |
| Flooding.BeforeIsLess | src/event.c:57-63 | Times are compared by their nanoseconds |
| Flooding.SumAdds | src/event.c:39-46 | The sum of two times is their sum in nanoseconds; its fraction is below a second again if and only if the two fractions do not add up to exactly one |
| Flooding.Deliver | src/protocol.c:128-147 | A copy that arrives where the request is remembered is dropped; otherwise it is remembered there and, unless the handler returns before forwarding, copies go to all peers but the one it came from; the origin, which has not remembered its own request, is a node like the others then |
| Flooding.Spread | src/protocol.c:128-147 | In a network of nodes that remember requests, in any order of arrival, at any times within a retention period of each node, and whatever the handlers decide, the flood of a new request ends; the nodes that have seen it are exactly those that nodes which forwarded it connect to the origin; each node forwards it at most once; and where peers are mutual no more copies are sent than the nodes that saw it have peers |
| Flooding.FlowsOn | src/protocol.c:128-147 | Every arrival, forwarded or not, keeps that the peers of a node that forwarded the request have it or will get a copy, that nodes have it only by way of nodes that forwarded it, that each forwards once, and the bound on copies |
| Flooding.FlowsEverywhere | src/protocol.c:128-147 | When no copy is on its way, a node other than the origin has seen the request if and only if nodes that forwarded it connect it to the origin, and the bound on copies holds |
| Flooding.AllForwarded | src/protocol.c:128-147 | If every node that saw the request forwarded it, every node that peers connect to the origin has seen it |
| Flooding.Covered | src/protocol.c:128-147 | When no copy is on its way, every node that senders connect to the origin has the request |
| Pmtu.TickBounded | src/net_packet.c:59-157 | A timer event keeps all fields within their bounds, never raises the confirmed size and fixes the MTU only to what is confirmed and possible |
| Pmtu.TickMoves | src/net_packet.c:59-157 | When the MTU is fixed, both bounds and the MTU become the smaller of the two bounds; when a node that had answered is silent for too long the bounds are forgotten; otherwise the timer leaves them alone |
| Pmtu.ReplyConfirms | src/net_packet.c:166-238 | A reply of 64 bytes or more raises the confirmed size to its length, as far as the limit allows, unless it shows that the path has become better, which lifts the limit |
| Pmtu.TooBigLimits | src/net_packet.c:495-503 | An error that a datagram is too big lowers the limit and the MTU in use to just below its length, and nothing else |
| Pmtu.FixedWhenMet | src/net_packet.c:93-104 | The MTU is fixed at once when a size is confirmed that the limit does not exceed |
| Pmtu.ProbeReaches | src/net_packet.c:119-149 | Every size above the confirmed one and within the limit may be probed |
| Pmtu.ResetForgets | src/graph.c:188-196 | A reset forgets all but the MTU in use, which blacklisting sets to 0 |
| Pmtu.ProbeRaises | src/net_packet.c:119-149 | Every probe but the first is above the confirmed size and within the limit, so that a reply to it raises the confirmed size |
| Pmtu.ProbeGrows | src/net_packet.c:119-149 | The first probe is eight bytes above the fixed MTU, and a reply to it starts a new search |
| Pmtu.ConfirmedStays | src/net_packet.c:59-238 | In every run the confirmed size is at least every length that was answered since the discovery last started over, down to the lowest limit since that answer |
| Pmtu.FixedInTime | src/net_packet.c:59-157 | Once a size is confirmed, the MTU is fixed before the timer has counted to 30, whatever replies and errors come |
| Pmtu.ReplyBounded | src/net_packet.c:166-238 | On a path that only answers probes up to some size the confirmed size never exceeds it and never falls |
| Pmtu.BurstBounded | src/net_packet.c:119-149 | Every probe of a burst is between 64 bytes and the maximum, whatever the random choices and the errors of the socket |
| Pmtu.Discovery.Timer | src/net_packet.c:59-157 | The handler changes the fields and sends the probes as specified |
| Pmtu.Discovery.Reply | src/net_packet.c:166-238 | So does the handling of a reply |
| Pmtu.Discovery.Shrink | src/net_packet.c:495-503 | So does the error that a datagram is too big |
| Pmtu.Discovery.Handle | src/net_packet.c:59-238 | One event of any kind keeps the confirmed and the fixed size within what the path carries |
| Pmtu.Run | src/net_packet.c:59-238 | After every run of timer events, replies, errors and resets the confirmed size and a fixed MTU are within what the path carries, all probes were in range, and the fields are those that ConfirmedStays is about |
| Pmtu.Unanswered | src/net_packet.c:59-157 | Without any reply, whatever the sockets report, nine bursts are tried, and from then on there is one burst every other time; no size is confirmed and the MTU is not fixed |
| Invitations.Inviter.ReadInvitation | src/conf.c:865-937 | Once the file could be renamed it is gone whatever comes of it; it is used if and only if all operations on it succeed, it is not outdated and decrypts |
| Invitations.Inviter.Commit | src/protocol_auth.c:50-90 | A node is added if and only if its name is not known and its configuration can be written |
| Invitations.Inviter.Process | src/protocol_auth.c:92-156 | The file for the code is gone afterwards if it could be renamed; the call succeeds if and only if the invitation is usable, its submesh is known and, with the option to commit first, the node can be added; then the invitation is taken and the peer has its name and submesh |
| Invitations.Inviter.Dispatch | src/protocol_auth.c:158-183 | A peer that has not used a code can only present one, a peer that has can only commit, a handshake record changes nothing, anything else is refused without effect; a node is added in exactly one of the cases |
| Invitations.Inviter.Receive | src/protocol_auth.c:158-183 | A refused record closes the connection |
| Invitations.Join | src/protocol_auth.c:158-183 | A peer that sends what a joining node sends, in either mode, becomes a node with its key and the name and submesh of its invitation if and only if the invitation is there, intact and not outdated, its file can be renamed, opened and removed, its submesh is known, nobody has the name, and the configuration can be written |
| Invitations.Run | src/protocol_auth.c:50-183 | In any interleaving of connections no invitation is used twice, none when it is outdated or cannot be decrypted, at most one node is added for each that was used, and under the name in its file |

## Left out

- Sockets, name resolution, network discovery, logging, the public API wrappers and the C++ bindings.
- UTCP and the cryptographic primitives: a transport that accepts some of the bytes, and symbolic terms, stand in for them.
- Running out of memory, and the argument checks of sptps_start.
- Datagram sessions: only their replay window is modelled, for the window of 32 bytes that sptps_start sets; the counters of received packets are not.
- ReplayWindow.Replay.Receive: promises nothing about the new bitmap once a 32-bit sum wraps, because the bitmap then no longer shows the taken numbers, as WrapReplays shows.
- Splay trees: keys are integers; deleting a whole tree and the variants that call the delete action are not modelled.
- KeyRotation: meshes without encryption, failing system calls and changes of the configuration between rotations; a file's path is a sequence of names in one directory instead of nested directories.
- KeyRotation.Run: leaves out openings with the key of an unfinished copy, because those lose files, as OpeningCompletesExactly proves.
- Routing.Router.Search: the mesh is started; UDP addresses, session ids, status callbacks and the restart of path MTU discovery that go with reachability changes are not modelled.
- Edges: names are numbers; parsing of the request, device classes, creation of submeshes and the detection of duplicate nodes are not modelled; weights are compared without overflow; the edge trees of all nodes are one map.
- Flooding: filtering by submesh when a request is forwarded; peers that come or go during a flood; what the other timers do beside setting themselves again; a flood that lasts longer than a retention period, in which nodes may forward the request again.
- Pmtu: the length of the pauses between events, the request that refreshes the UDP address and the broadcast flag of a probe.
- PackMsg: conversion of floating point numbers (their bytes are carried as they are), the predicates on types, and the variants that copy or reserve.
- PackMsg.SkipEncoded: is stated for buffers below 4 GiB, because of the 32-bit comparison of lengths; so are the round trips and the writers above PackCursor.Output.WriteHdrData.
- HostConfig: storage policies, encryption and writing of the file; a missing submesh name or canonical address makes reading fail, where the code passes a null string on; creating a submesh succeeds.
- mDNS requests (prepare_request and parse_request), and the sending of packets.
- ChannelAio.Channel.SubmitReceive: the channel is open; on a channel that a callback has just closed the code still appends the buffer, which is then never finished.
- ChannelAio: buffers that callbacks submit while they run, and what the transport does with accepted bytes; meshlink_channel_abort, which does the same as closing.
- Invitations: writing and listing invitation files, a crash between renaming and removing a file, and what the joining side does beyond sending its records; codes lead to cookies by an arbitrary function, and no cookie is issued twice.
- Connections, meta protocol authentication, device classes, black- and whitelists, and the event loop beyond its timers.
