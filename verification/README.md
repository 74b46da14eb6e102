# A verified model of the UDP forwarder

The forwarder takes datagrams from clients, sends them through a chain of filters over a pipe to a
second event loop, and from there to a server, one connection a client; replies come back the same
way. On Windows its event loops run on an emulation of epoll, its main filter is AES, and it carries
a SHA-256. This project models these parts and proves what they are for. `dafny verify
dfyconfig.toml` checks all of it.

## How it is laid out

The epoll emulation, `src/lib/wepoll.c`:

- `RedBlackShape`, `RedBlackTree`: the intrusive red-black tree with parent pointers. `Tree` works on
  the nodes in place; its ghost field `shape` is the tree that the pointers spell. A place in the tree
  is a path from it to the root, so that every step of the loops is about the part below, the part
  above, and the few nodes between. The two mirror images of each macro are one method with a side.
- `IntrusiveQueue`: the circular queue whose links are in the nodes, as a sequence.
- `PollGroups`: the groups of at most 32 sockets.
- `Port`, `PortInvariant`, `PortRuns`: one epoll port. What is done while its lock is held is one step;
  the kernel answers submissions and cancellations as it likes and owns the polls whose completions
  have not been fed. A completion a thread has taken off the port but not fed yet still counts.
  The socket tree is the map that `RedBlackTree.Tree` maintains, the queues are the sequences that
  `IntrusiveQueue.Queue` maintains.
- `PortEffects`: what each call does to the socket states, the tree and the queues, field by field, and
  which event is reported when, in terms of the state before it only.
- `PortObject`: the functions of the source as methods of a class, with their loops, proved against
  the steps and these effects; `PortDelete` is the teardown.
- `HandleLifetime`, `HandleSafety`, `HandleRuns`, `HandleWitness`: the handle tree under its
  reader-writer lock and the reference locks, as atomic steps of any number of threads. Addresses and
  handles may be used again once they are free.

AES, `src/lib/plusaes.hpp` and `src/filters/aes_encryption.hpp`:

- `AesTables`, `AesField`, `AesBlock`: the tables, GF(2^8), packed columns, rounds and key schedule as
  functions, and that decryption and encryption undo each other.
- `AesStandard`: that these tables, rounds and key schedule are those of FIPS 197, on bytes and bits.
- `AesModes`: padding, ECB, CBC and CTR for any block cipher.
- `AesCipher`, `AesInPlace`: the same on buffers, with the source's loops.
- `AesFilter`: the filter.

SHA-256, `src/lib/picosha2.h`: `Sha256Block` (the block function in words of 32 or 64 bits against
arithmetic modulo 2^32), `Sha256` (buffer, length counter, padding, one call or many) and
`Sha256Standard` (the constants and formulas of FIPS 180-4).

The forwarder, `src/filters/base.hpp`, `src/lib/rlib/sys/sio.hpp`, `src/protocols/plain.hpp`:

- `FilterChain`: chains, reversed filters and the two ends of a tunnel.
- `Framing`: partial reads and writes, and messages with a head.
- `Channel`: one direction of the pipe, in pieces of any size.
- `Connections`: the two maps between clients and connections.
- `Forwarder`: both event loops in every interleaving. `PlainProtocol`: their event handlers.

`Numbers`, `Buffers` and `Options` hold numbers in base 256, copying into arrays, and optional values.

Proofs about AES and SHA-256 loops take the cipher or the compression function as a parameter that
agrees with it; this keeps the tables and bit operations out of them.

## What was found

- `check_padding` accepts a last byte of 0 (`src/lib/plusaes.hpp:444-456`), so some ciphertexts that no
  encryption produces are decrypted without an error: `AesModes.ZeroPaddingAccepted`. Encrypting the
  result of an accepted decryption gives the ciphertext back exactly if the padding was not 0:
  `AesModes.CbcConverse`, `AesModes.EcbConverse`.
- `encrypt_cbc` without padding turns empty data into one block of padding, and writes it without
  looking at the buffer size; `decrypt_cbc` reads and writes a whole block for empty data and for a
  buffer shorter than one; `decrypt_ecb` counts the blocks of empty data down below 0
  (`src/lib/plusaes.hpp:608-619`, `:672-676`, `:540-546`). Exactly when: `AesInPlace.EncryptCbcWithin`,
  `AesInPlace.DecryptCbcWithin`, `AesInPlace.DecryptEcbWithin`; with arguments the checks let through:
  `AesInPlace.BeyondBuffers`. There the model stops with the result `OutOfBounds`, which is none of
  the source's.
- With empty data `check_decrypt_cond` subtracts a block size from 0 in an unsigned type, which is what
  makes it refuse empty data when padding is to be removed (`src/lib/plusaes.hpp:410-442`).
- With 32-bit words, as on Windows, `hash256` in one call counts the length of a message of 2^32 bytes
  or more wrong (`src/lib/picosha2.h:235-247`): `Sha256.LengthRight`. Reading in pieces avoids it:
  `Sha256.Hash256InPieces`.
- `InjectiveConnectionMapping::add` keeps its two maps inverse to each other exactly if neither side is
  connected to another one (`src/protocols/plain.hpp:19-22`): `Connections.AddedInverse`. The
  caller sees to it: it asks the map first, and the new file descriptor is not in use. `del` of
  something that is not there deletes the default value's entry from the other map:
  `Connections.Mapping.DelClient`, `Connections.Mapping.DelServer`.
- After an empty reply the outbound loop deletes the connection and then asserts that it is known
  (`src/protocols/plain.hpp:164-171`): `Forwarder.EmptyReplyHalts`, `Forwarder.ReachesEmptyReply`.
- A thread that holds a reference to a port keeps it allocated, not open
  (`HandleRuns.OpenUntilClosed`): another thread may go through `port_close` meanwhile
  (`HandleRuns.ClosedUnderUse`, and a run in `HandleWitness.ClosedWhileWorking`). If the first one then
  adds a socket, the assertion of `port_get_iocp_handle` (`src/lib/wepoll.c:1444-1447`) fails exactly if
  the socket passes the first tests and all slots of all groups are in use, so that a new group is
  made: `PortRuns.AssertionFailsIff`, and a run in `PortRuns.AssertionFails`.

## Model

| member | source | states |
|---|---|---|
| `RedBlackTree.Tree.Add` | src/lib/wepoll.c:2036-2069 | the tree stays a red-black tree in strict key order with consistent parent links; -1 exactly if the key is there, and then tree and node are unchanged; otherwise the map grows by exactly this key |
| `RedBlackTree.Tree.Del` | src/lib/wepoll.c:2096-2167 | any node of the tree can be taken out; what is left is a red-black tree whose contents are the old contents without that key |
| `RedBlackTree.Tree.Find` | src/lib/wepoll.c:2169-2180 | the node the key is mapped to, null if there is none, after at most 2 log2(n + 1) turns of the loop |
| `RedBlackTree.Tree.constructor` | src/lib/wepoll.c:1972-1974 | the empty tree is valid and maps nothing |
| `RedBlackTree.Tree.Insert` | src/lib/wepoll.c:2036-2052 | the search ends at the node with the key, tree unchanged, or at the one empty place where the key belongs, which then holds the new node |
| `RedBlackTree.Tree.SetUp` | src/lib/wepoll.c:2054-2057 | once the fields are set the pointers spell the old tree with a red leaf in that place |
| `RedBlackTree.Tree.FixAfterInsert` | src/lib/wepoll.c:2059-2066 | the climb ends with every rule satisfied and the order of the nodes untouched; each parent and grandparent it dereferences is there |
| `RedBlackTree.Tree.ClimbAfterInsert` | src/lib/wepoll.c:2059-2065 | one turn: only one place can still break the rule on red nodes, strictly nearer to the root or none at all |
| `RedBlackTree.Tree.RebalanceAfterInsert` | src/lib/wepoll.c:2017-2034 | recolouring or rotating, on either side, leaves black heights equal and moves or ends the violation |
| `RedBlackTree.Tree.RotateAfterInsert` | src/lib/wepoll.c:2031-2033 | the last rotation ends the violation |
| `RedBlackTree.Tree.StraightenAfterInsert` | src/lib/wepoll.c:2026-2030 | the inner case is turned into the outer one |
| `RedBlackTree.Tree.RecolourAfterInsert` | src/lib/wepoll.c:2021-2024 | the red grandparent is the only possible violation left |
| `RedBlackTree.Tree.RotateLeft` | src/lib/wepoll.c:1980-2003 | a left rotation of any subtree in place: pointers, parents and root spell the rotated tree, no other node changes |
| `RedBlackTree.Tree.RotateRight` | src/lib/wepoll.c:2005-2007 | the mirror image |
| `RedBlackTree.Tree.TurnLeft` | src/lib/wepoll.c:1980-2003 | what becomes of the fields of the at most four nodes concerned, all others unchanged |
| `RedBlackTree.Tree.TurnRight` | src/lib/wepoll.c:2005-2007 | the mirror image |
| `RedBlackTree.Tree.Unlink` | src/lib/wepoll.c:2096-2151 | the node is out of the tree, its contents are without that key, and either the rules hold or exactly one place is one black node short |
| `RedBlackTree.Tree.Bypass` | src/lib/wepoll.c:2103-2145 | a node with at most one child is replaced by it |
| `RedBlackTree.Tree.Splice` | src/lib/wepoll.c:2113-2144 | what becomes of the fields of the at most two nodes concerned, all others unchanged |
| `RedBlackTree.Tree.Succeed` | src/lib/wepoll.c:2107-2145 | a node with two children is replaced by its successor, which keeps the node's colour and place while its own place is closed |
| `RedBlackTree.Tree.Leftmost` | src/lib/wepoll.c:2108-2110 | the loop ends at the node with the next larger key |
| `RedBlackTree.Tree.FixAfterRemove` | src/lib/wepoll.c:2153-2166 | the loop ends, and then every rule holds |
| `RedBlackTree.Tree.RebalanceAfterRemove` | src/lib/wepoll.c:2071-2094 | one turn: either all rules hold and the loop is left, or the place that is one black node short has moved up by one |
| `RedBlackTree.Tree.PaintSibling` | src/lib/wepoll.c:2094 | with a sibling that is black, and so are its children, painting it moves the shortage up, or ends it at a red parent |
| `RedBlackTree.Tree.ClimbAfterRemove` | src/lib/wepoll.c:2153-2163 | one turn of the loop, the side found by comparing pointers, also for an empty place: every rule holds again, or the shortage has moved up |
| `RedBlackTree.Tree.RotateSiblingUp` | src/lib/wepoll.c:2080-2092 | with a red nephew, on either side, the missing black node is made up for: every rule holds and the loop is left |
| `RedBlackTree.Tree.LiftSibling` | src/lib/wepoll.c:2074-2079 | a red sibling is replaced by a black one without changing what is missing |
| `RedBlackTree.Tree.RaiseSibling` | src/lib/wepoll.c:2088-2090 | the colours of parent, sibling and far nephew and the last rotation, which settle the case with a red far nephew |
| `RedBlackTree.Tree.StraightenSibling` | src/lib/wepoll.c:2082-2087 | a red near nephew is turned into a red far one |
| `RedBlackShape.RotatedInOrder` | src/lib/wepoll.c:1980-1999 | rotation keeps the sequence of keys |
| `RedBlackShape.AttachedMap` | src/lib/wepoll.c:2041-2052 | a leaf put where the search ends keeps the keys sorted and adds exactly one entry |
| `RedBlackShape.SearchEnds` | src/lib/wepoll.c:2169-2180 | an empty place at the end of a search proves that the key is not in the tree |
| `RedBlackShape.BypassedMap` | src/lib/wepoll.c:2103-2145 | taking out a node with at most one child removes exactly its key |
| `RedBlackShape.SucceededMap` | src/lib/wepoll.c:2107-2145 | putting the successor in its place removes exactly its key |
| `RedBlackShape.SucceededRB` | src/lib/wepoll.c:2122-2138 | all rules hold afterwards but for one black node missing where the successor was, if it was black |
| `RedBlackShape.InsertRB` | src/lib/wepoll.c:2017-2034 | what a violation below a red parent looks like: the grandparent is there and black |
| `RedBlackShape.RestoredRB` | src/lib/wepoll.c:2080-2092 | the rotation and colours that end the loop after a removal restore every rule |
| `RedBlackShape.RaisedRB` | src/lib/wepoll.c:2094 | a red sibling moves the missing black node one level up |
| `RedBlackShape.HeightBound` | src/lib/wepoll.c:2036-2167 | a red-black tree of n nodes is at most 2 log2(n + 1) high |
| `RedBlackShape.MapOfSize` | src/lib/wepoll.c:2036-2167 | distinct keys: the map has as many entries as the tree has nodes |
| `IntrusiveQueue.Queue.Prepend` | src/lib/wepoll.c:1483-1488 | the sequence grows at its front; nodes of other queues are untouched |
| `IntrusiveQueue.Queue.Append` | src/lib/wepoll.c:1490-1495 | the sequence grows at its end |
| `IntrusiveQueue.Queue.Remove` | src/lib/wepoll.c:1507-1510 | the sequence loses exactly this node, which closes on itself and is in no queue afterwards |
| `IntrusiveQueue.Queue.MoveToStart` | src/lib/wepoll.c:1497-1500 | the node comes first, the others keep their order |
| `IntrusiveQueue.Queue.MoveToEnd` | src/lib/wepoll.c:1502-1505 | the node comes last, the others keep their order |
| `IntrusiveQueue.Queue.First` | src/lib/wepoll.c:1475-1477 | the first of the sequence, null exactly if it is empty |
| `IntrusiveQueue.Queue.Last` | src/lib/wepoll.c:1479-1481 | the last of the sequence, null exactly if it is empty |
| `IntrusiveQueue.EnqueuedIffShared` | src/lib/wepoll.c:1516-1518 | a node is enqueued exactly if its ring has another member |
| `IntrusiveQueue.RingsDisjoint` | src/lib/wepoll.c:1483-1510 | a node is in at most one queue: rings that share a node share all of them |
| `IntrusiveQueue.RemovedIsGone` | src/lib/wepoll.c:1507-1510 | no node is in a queue twice: one taken out of the sequence is neither the head nor in what is left |
| `PollGroups.GroupsFollowPeak` | src/lib/wepoll.c:946-1024 | over every run of acquires and releases full groups come first in the queue, and there are exactly as many groups as the peak number of slots in use divided by 32, rounded up |
| `PollGroups.AcquireKeeps` | src/lib/wepoll.c:994-1012 | a new group is made only when all are full; one slot more is in use; it fails only if no group can be made |
| `PollGroups.NeedsGroupIffFull` | src/lib/wepoll.c:994-1006 | a new group is made exactly when all slots of all groups are in use |
| `PollGroups.ReleaseKeeps` | src/lib/wepoll.c:1014-1024 | one slot less is in use and full groups still come first |
| `PollGroups.AcquireSizes` | src/lib/wepoll.c:994-1012 | exactly the group that gave the slot has grown |
| `PollGroups.ReleaseSizes` | src/lib/wepoll.c:1014-1024 | exactly the group the slot belonged to has shrunk |
| `PollGroups.Allocator.AcquireSlot` | src/lib/wepoll.c:994-1012 | in place: fills the last group or makes one, and moves a full one to the front |
| `PollGroups.Allocator.ReleaseSlot` | src/lib/wepoll.c:1014-1024 | in place: the group moves to the end of the queue |
| `PortRuns.EveryRun` | src/lib/wepoll.c:1168-1349 | in every run with the lock free: a socket state is other than idle exactly if one poll of it is outstanding; a live one is in the tree and not in the deleted queue, a deleted one the other way round; a live one that is idle or whose poll misses an event is in the update queue; slots, states, and tree plus deleted queue agree in number |
| `PortRuns.EveryCompletionIsOwned` | src/lib/wepoll.c:1191-1207 | a completion taken off the port always belongs to an allocated socket state |
| `PortRuns.EveryRunQuiet` | src/lib/wepoll.c:1186-1239 | if submissions and cancellations do not fail unexpectedly, no update is left queued while some thread polls |
| `PortRuns.EveryPollMonitors` | src/lib/wepoll.c:1730-1832 | in every run the poll of a live socket that is not queued for an update and not cancelled monitors every AFD event that would be reported to the user |
| `PortRuns.AssertionFailsIff` | src/lib/wepoll.c:1444-1447 | in every run the assertion of port_get_iocp_handle fails in a step exactly if the port has been closed, the step adds a socket that passes the first tests of sock_new, and all slots of all groups are in use: 32 socket states for each group |
| `PortRuns.AssertionFails` | src/lib/wepoll.c:1444-1447 | a run in which it fails: the first socket added after port_close |
| `PortRuns.StepFlags` | src/lib/wepoll.c:954-958 | the assertion is reached with the completion port gone in exactly these steps |
| `PortRuns.RunExtends` | src/lib/wepoll.c:1209-1375 | runs go on with every step that is possible |
| `PortRuns.StepKeeps` | src/lib/wepoll.c:1209-1375 | every call and every wake-up keeps the whole invariant, whatever the kernel answers |
| `PortRuns.StepQuiet` | src/lib/wepoll.c:1186-1375 | and, with a reliable kernel, that the update queue is empty while a thread polls |
| `PortRuns.CreateKeeps` | src/lib/wepoll.c:1635-1674 | a new socket state is live, idle, tracked and holds one slot; a failed attempt leaves the slots as they were in number |
| `PortRuns.SetEventKeeps` | src/lib/wepoll.c:1713-1728 | new interest that the pending poll misses is queued, so that none is lost |
| `PortRuns.WakeKeeps` | src/lib/wepoll.c:1231-1304 | leaving the wait, feeding completions and starting over keeps the invariant |
| `PortRuns.PolledKeeps` | src/lib/wepoll.c:1209-1221 | entering the wait leaves the update queue empty if the kernel is reliable |
| `PortInvariant.DeleteSound` | src/lib/wepoll.c:1676-1711 | the state is freed exactly if the deletion is forced or no poll is outstanding; otherwise it is filed as deleted; no other state is touched |
| `PortInvariant.RetireSound` | src/lib/wepoll.c:1679-1687 | a deleted socket leaves the tree and the update queue |
| `PortInvariant.FreeSound` | src/lib/wepoll.c:1692-1697 | freeing gives exactly one slot back |
| `PortInvariant.UpdateKeeps` | src/lib/wepoll.c:1772-1832 | a queued socket is attended to, or an unexpected error changes nothing |
| `PortInvariant.UpdateAllKeeps` | src/lib/wepoll.c:1168-1184 | walking the queue ends with it empty unless an update failed, and no interest is lost |
| `PortInvariant.UpdateNext` | src/lib/wepoll.c:1168-1184 | each turn shortens the update queue |
| `PortInvariant.FeedKeeps` | src/lib/wepoll.c:1834-1887 | a completion frees a deleted or closed socket and queues any other one for a new poll; its poll is no longer outstanding |
| `PortInvariant.FeedReports` | src/lib/wepoll.c:1834-1887 | nothing is reported for sockets being deleted or closed, and otherwise only events that were asked for |
| `PortInvariant.EventsBelong` | src/lib/wepoll.c:1191-1207 | the events a batch reports are, in order, those of its completions for the sockets as they were before it, each with the data of its own socket |
| `PortInvariant.NotFirst` | src/lib/wepoll.c:1191-1207 | no socket has two completions in a batch |
| `PortInvariant.OneShotSilences` | src/lib/wepoll.c:1872-1887 | after an event of a one-shot socket nothing is reported for it, but its polls still notice that it is closed; the interest of any other socket stays |
| `PortInvariant.DeleteCancels` | src/lib/wepoll.c:1676-1687 | a socket state that outlives its deletion has its poll cancelled, unless the kernel refuses |
| `PortInvariant.FeedAllKeeps` | src/lib/wepoll.c:1191-1207 | a batch of completions keeps the invariant and uses up exactly the completions in it |
| `PortInvariant.FedExists` | src/lib/wepoll.c:1834-1841 | a completion that is about to be fed has an allocated state |
| `PortEffects.DeleteDrops` | src/lib/wepoll.c:1676-1711 | field by field: the socket is out of the tree and the update queue; freed if that was forced or no poll is outstanding, otherwise marked, its poll cancelled, and in the deleted queue; no other socket is touched |
| `PortEffects.UpdateUpdates` | src/lib/wepoll.c:1772-1832 | field by field: a poll for all that is asked for is submitted if there is none; one that misses something is cancelled; a closed socket is deleted; an error changes nothing |
| `PortEffects.SetEventAsks` | src/lib/wepoll.c:1713-1728 | the events given, errors and hang-ups replace what was asked for, the data is kept with them, and the socket is queued exactly if its poll misses one |
| `PortEffects.WalkRetains` | src/lib/wepoll.c:1168-1184 | an update walk keeps what every socket asks for; one leaves the tree only if the kernel says that it was closed |
| `PortEffects.EventAnswers` | src/lib/wepoll.c:1843-1887 | exactly which event is reported: each bit that was asked for and that one of the AFD events shows, with the data of the socket, and none at all exactly if there is no such bit; after a failed poll an error if asked for; nothing for a poll that was cancelled, timed out or saw the socket closed |
| `PortEffects.ShowsIff` | src/lib/wepoll.c:1751-1770 | translating a set of AFD events is translating each of them |
| `PortEffects.WhatShowsIn` | src/lib/wepoll.c:1751-1770 | readable: data, a connection to accept, or the end of the data |
| `PortEffects.WhatShowsPri` | src/lib/wepoll.c:1751-1770 | urgent data |
| `PortEffects.WhatShowsOut` | src/lib/wepoll.c:1751-1770 | writable, or the connection could not be made |
| `PortEffects.WhatShowsErr` | src/lib/wepoll.c:1751-1770 | errors, hang-ups and the end of the data; no other bit is ever shown |
| `PortEffects.NothingElseMonitored` | src/lib/wepoll.c:1730-1749 | polls monitor these AFD events and the closing of the socket only |
| `PortEffects.FedFeeds` | src/lib/wepoll.c:1834-1887 | field by field: a socket that was being deleted or was closed is gone; any other one is idle and queued for a new poll, and asks for nothing more after the event of a one-shot one; no other socket is touched |
| `PortEffects.CanAddIff` | src/lib/wepoll.c:1635-1674 | a socket can be added exactly if it is valid and not known yet, memory does not run out, and a slot is free or a new group can be made |
| `PortEffects.AddRetains` | src/lib/wepoll.c:1319-1334 | EPOLL_CTL_ADD: whatever the update walk does, the socket asks for the events and data given, and is in the tree unless the kernel says that it was closed; the others keep what they ask for |
| `PortEffects.AddFails` | src/lib/wepoll.c:1319-1334 | a failed one changes no socket, queue or tree |
| `PortEffects.ModifyRetains` | src/lib/wepoll.c:1336-1349 | the same for EPOLL_CTL_MOD |
| `PortEffects.DropDrops` | src/lib/wepoll.c:1351-1359 | EPOLL_CTL_DEL: the socket is out of the tree, and its state gone if no poll was outstanding, in the deleted queue otherwise; no other socket is touched |
| `PortEffects.PolledRetains` | src/lib/wepoll.c:1209-1221 | a thread waits once nothing is left to update; what the sockets ask for is as before |
| `PortEffects.PolledFails` | src/lib/wepoll.c:1209-1221 | if an update fails it does not wait, and the update is tried again for those that do |
| `PortEffects.WakeEffect` | src/lib/wepoll.c:1223-1308 | after a wait the thread waits again exactly if it is to, unless an update fails unexpectedly, and no update is left queued while some thread waits |
| `Port.MonitorsWhatIsReported` | src/lib/wepoll.c:1730-1770 | the two tables of events agree: a poll monitors an AFD event exactly if that event would be reported to the user, also after a one-shot event, when nothing is |
| `Port.CoversWhatIsAsked` | src/lib/wepoll.c:1777-1785 | a poll that misses no requested event monitors all that a new one would |
| `PortObject.NothingLeft` | src/lib/wepoll.c:1137-1166 | with tree and deleted queue empty there is no state, no queued update and no slot in use |
| `PortObject.EpollPort.PortDelete` | src/lib/wepoll.c:1137-1166 | ends; frees every socket state exactly once; the assertions on empty groups and on the update queue hold |
| `PortObject.EpollPort.DeleteLive` | src/lib/wepoll.c:1144-1147 | the first loop empties the tree |
| `PortObject.EpollPort.DeletePending` | src/lib/wepoll.c:1149-1152 | the second one empties the deleted queue |
| `PortObject.EpollPort.DeleteGroups` | src/lib/wepoll.c:1154-1157 | the third one meets only groups without slots in use |
| `PortObject.EpollPort.ForceDelete` | src/lib/wepoll.c:1709-1711 | one state less, and it is recorded as freed |
| `PortObject.EpollPort.SockDelete` | src/lib/wepoll.c:1676-1702 | the steps of the deletion that PortEffects.DeleteDrops is about |
| `PortObject.EpollPort.SockUpdate` | src/lib/wepoll.c:1772-1832 | the effect of PortEffects.UpdateUpdates on the fields, with its error result |
| `PortObject.EpollPort.SockFeedEvent` | src/lib/wepoll.c:1834-1887 | the event it returns is the one EventAnswers describes, the effect on the fields that of PortEffects.FedFeeds |
| `PortObject.EpollPort.SockSetEvent` | src/lib/wepoll.c:1713-1728 | the effect of PortEffects.SetEventAsks on the fields |
| `PortObject.EpollPort.SockNew` | src/lib/wepoll.c:1635-1674 | a new state with the next number, idle and asking for nothing, in the tree under its key, or -1 and the slot given back |
| `PortObject.EpollPort.AssertOpen` | src/lib/wepoll.c:1444-1447 | the assertion is evaluated exactly when a new group is needed |
| `PortObject.EpollPort.PortClose` | src/lib/wepoll.c:1115-1135 | the step Close of PortRuns |
| `PortObject.EpollPort.UpdateEvents` | src/lib/wepoll.c:1168-1184 | the loop over the update queue: empty at the end unless it failed |
| `PortObject.EpollPort.FeedEvents` | src/lib/wepoll.c:1191-1207 | the loop over a batch of completions: the array it fills is the one EventsBelong is about |
| `PortObject.EpollPort.CtlAdd` | src/lib/wepoll.c:1319-1334 | -1 exactly if the socket cannot be added, and then no socket has changed; otherwise, if it is still in the tree, its state is the new one and has the events and data given; all others keep theirs; the step Add of PortRuns |
| `PortObject.EpollPort.CtlMod` | src/lib/wepoll.c:1336-1349 | -1 exactly for an unknown socket; otherwise its state has the events and data given, and stays in the tree unless the kernel says that it was closed; all others keep theirs; the step Modify |
| `PortObject.EpollPort.CtlDel` | src/lib/wepoll.c:1351-1359 | -1 exactly for an unknown socket; otherwise the tree loses exactly its key, and its state is gone or delete-pending and in the deleted queue; all others keep theirs; the step Drop |
| `PortObject.EpollPort.PollEnter` | src/lib/wepoll.c:1209-1221 | the step Wait up to where the lock is given up |
| `PortObject.EpollPort.PollLeave` | src/lib/wepoll.c:1230-1308 | the step Wake from where the lock is held again, possibly into the next wait, which it enters exactly if no event was reported and time is left |
| `PortObject.EpollPort.RequestSocketUpdate` | src/lib/wepoll.c:1412-1418 | queued at most once |
| `PortObject.EpollPort.TakeOffQueue` | src/lib/wepoll.c:1420-1442 | off whichever queue it is on |
| `PortObject.EpollPort.AddDeletedSocket` | src/lib/wepoll.c:1428-1434 | in the deleted queue at most once |
| `HandleRuns.EveryRun` | src/lib/wepoll.c:555-681 | in every interleaving: no assertion of the reference lock fails, no freed port is used, the branch that should never happen is not taken, one thread at most creates or closes a port, and such a port cannot be found by its handle |
| `HandleRuns.EveryCount` | src/lib/wepoll.c:1554-1585 | the word of the lock is the number of references, plus the destroy flag once the closer has given up its own; the event is signalled once if the closer waits, by the last one to leave, and never otherwise |
| `HandleRuns.EveryDestroyerIsAlone` | src/lib/wepoll.c:471-480 | when the destroying call returns no other thread has anything to do with the port |
| `HandleRuns.NoReferenceAfterRemoval` | src/lib/wepoll.c:1934-1962 | once a port is out of the tree nobody but the thread that took it out gains a reference |
| `HandleRuns.NoDeadlock` | src/lib/wepoll.c:555-681 | whenever a thread is inside the library some thread can go on |
| `HandleRuns.OpenUntilClosed` | src/lib/wepoll.c:1444-1447 | the completion port of a referenced port is open exactly until its closer has been through port_close |
| `HandleRuns.ClosedUnderUse` | src/lib/wepoll.c:1127-1135 | whenever a thread works on a port that another one is about to close, the next step may take its completion port away |
| `HandleWitness.ClosedWhileWorking` | src/lib/wepoll.c:555-681 | a run of sixteen steps in which that happens |
| `HandleWitness.PortComesAndGoes` | src/lib/wepoll.c:555-681 | five steps more and the port is closed, its last user gone and its memory freed: the state the run started in |
| `HandleRuns.RunExtends` | src/lib/wepoll.c:555-681 | runs go on with every step that is possible, so the statements about runs are about all of them |
| `HandleRuns.StepKeeps` | src/lib/wepoll.c:555-681 | every step of every thread keeps the invariant |
| `HandleSafety.RefKeeps` | src/lib/wepoll.c:1554-1560 | taking a reference: the assertion holds and the count is exact |
| `HandleSafety.UnrefKeeps` | src/lib/wepoll.c:1562-1570 | giving one up: the assertion holds, and the last one to leave after the closer signals |
| `HandleSafety.DestroyKeeps` | src/lib/wepoll.c:1572-1581 | the closer waits exactly if other references are left |
| `HandleSafety.PoisonKeeps` | src/lib/wepoll.c:1583-1585 | the word is what the last assertion says when it is poisoned |
| `HandleSafety.SignalKeeps` | src/lib/wepoll.c:1540-1552 | signaller and waiter meet, and nobody signals again |
| `HandleSafety.UnlinkKeeps` | src/lib/wepoll.c:1934-1948 | from the removal on the port has one owner |
| `HandleSafety.CloseKeeps` | src/lib/wepoll.c:1127-1135 | the handle may be issued again, and no other open port has it |
| `HandleSafety.InsertKeeps` | src/lib/wepoll.c:1915-1923 | adding a new port to the tree cannot fail |
| `HandleSafety.DeleteKeeps` | src/lib/wepoll.c:1137-1166 | the port is freed when nobody refers to it |
| `HandleSafety.NewKeeps` | src/lib/wepoll.c:555-567 | a new port shares its handle with no other |
| `HandleSafety.Alone` | src/lib/wepoll.c:471-480 | no other thread mentions a port whose lock is poisoned |
| `AesTables.SboxUndone` | src/lib/plusaes.hpp:46-82 | looking a byte up in one table and the result in the other gives it back, for all 256 bytes |
| `AesTables.InvSboxUndone` | src/lib/plusaes.hpp:46-82 | the other way round |
| `AesStandard.SboxIsStandard` | src/lib/plusaes.hpp:46-63 | every entry of kSbox is the affine transform of the inverse in GF(2^8), of 0 for 0: section 5.1.1 of FIPS 197, bit by bit |
| `AesStandard.EncryptIsCipher` | src/lib/plusaes.hpp:288-306 | the rounds on packed words are the cipher of section 5.1 on bytes, with rows, columns and matrix as written there |
| `AesStandard.ExpandedIsSchedule` | src/lib/plusaes.hpp:220-255 | the round keys, byte by byte, follow section 5.2: the key first, then each word from the one before it and the one a key length before, with substitution, rotation and round constants; there are nk + 7 of them |
| `AesField.Mul` | src/lib/plusaes.hpp:141-153 | the loop computes the product in GF(2^8) |
| `AesField.Mul2Adds` | src/lib/plusaes.hpp:132-139 | doubling is linear |
| `AesField.PartialOfSum` | src/lib/plusaes.hpp:141-153 | multiplication distributes over sums of its first argument |
| `AesField.PartialBySum` | src/lib/plusaes.hpp:141-153 | and over sums of its second one |
| `AesField.PartialOfDoubled` | src/lib/plusaes.hpp:141-153 | doubling one factor is doubling the other |
| `AesField.Contributions` | src/lib/plusaes.hpp:155-193 | what one byte contributes, mixed and unmixed, to the four rows: itself once, 0 otherwise |
| `AesField.UnmixOfMix` | src/lib/plusaes.hpp:155-193 | the inverse matrix undoes the matrix, row by row |
| `AesField.MixOfUnmix` | src/lib/plusaes.hpp:155-193 | and the matrix undoes the inverse one, since they commute |
| `AesField.SubWordUndone` | src/lib/plusaes.hpp:84-96 | substitution of a packed word and its inverse undo each other |
| `AesField.MixWordUndone` | src/lib/plusaes.hpp:155-193 | unmixing a packed column undoes mixing it |
| `AesField.UnmixWordUndone` | src/lib/plusaes.hpp:155-193 | mixing undoes unmixing |
| `AesBlock.ShiftedUndone` | src/lib/plusaes.hpp:110-130 | the inverse row shifts undo the row shifts |
| `AesBlock.UnshiftedUndone` | src/lib/plusaes.hpp:110-130 | the other way round |
| `AesBlock.RoundUndone` | src/lib/plusaes.hpp:288-326 | an inverse round undoes a round under the same key |
| `AesBlock.InvRoundUndone` | src/lib/plusaes.hpp:288-326 | a round undoes an inverse round |
| `AesBlock.DecipherEncipher` | src/lib/plusaes.hpp:288-326 | decryption undoes encryption for every state and every list of at least two round keys |
| `AesBlock.EncipherDecipher` | src/lib/plusaes.hpp:288-326 | encryption undoes decryption |
| `AesBlock.DecryptEncrypt` | src/lib/plusaes.hpp:288-326 | the same for blocks of 16 bytes |
| `AesBlock.EncryptDecrypt` | src/lib/plusaes.hpp:288-326 | and the other way round |
| `AesBlock.StoreLoad` | src/lib/plusaes.hpp:257-269 | bytes survive being packed into words and unpacked |
| `AesCipher.EncryptState` | src/lib/plusaes.hpp:288-306 | in place, round by round, the block becomes what AesBlock.Encrypt says and nothing else of the buffer changes |
| `AesCipher.DecryptState` | src/lib/plusaes.hpp:308-326 | the same for AesBlock.Decrypt |
| `AesCipher.Encipher` | src/lib/plusaes.hpp:291-303 | the rounds in place are those of the cipher |
| `AesCipher.Decipher` | src/lib/plusaes.hpp:311-323 | the inverse rounds in place are those of the inverse cipher |
| `AesCipher.ShiftRows` | src/lib/plusaes.hpp:110-119 | masking rows word by word moves row r of each column by r columns |
| `AesCipher.InvShiftRows` | src/lib/plusaes.hpp:121-130 | and back |
| `AesCipher.MergeBytes` | src/lib/plusaes.hpp:110-119 | three masked merges pick one byte from each of four words |
| `AesCipher.MixColumn` | src/lib/plusaes.hpp:155-178 | the doubled and tripled bytes combine to the matrix of section 5.1.3 of FIPS 197 |
| `AesCipher.InvMixColumn` | src/lib/plusaes.hpp:180-193 | the sixteen products combine to the matrix of section 5.3.3 |
| `AesCipher.SubBytes` | src/lib/plusaes.hpp:98-102 | every byte of the state is looked up |
| `AesCipher.InvSubBytes` | src/lib/plusaes.hpp:104-108 | every byte is looked up in the inverse table |
| `AesCipher.AddRoundKey` | src/lib/plusaes.hpp:40-44 | the key is added to each word |
| `AesCipher.ExpandKey` | src/lib/plusaes.hpp:220-255 | the key schedule of section 5.2 of FIPS 197 for keys of 16, 24 and 32 bytes, byte by byte |
| `AesModes.PaddedAccepted` | src/lib/plusaes.hpp:444-456 | padding is accepted, and says how long the data was |
| `AesModes.PaddedBytes` | src/lib/plusaes.hpp:631-636 | the data, then one to sixteen bytes that say how many they are, to a multiple of 16 |
| `AesModes.PaddedAgain` | src/lib/plusaes.hpp:444-456 | padding taken off and put on again gives the same text exactly if it was not 0 bytes long |
| `AesModes.UnchainChain` | src/lib/plusaes.hpp:584-720 | unchaining undoes chaining for all data and every initialization vector |
| `AesModes.ChainUnchain` | src/lib/plusaes.hpp:584-720 | chaining undoes unchaining |
| `AesModes.ChainBlock` | src/lib/plusaes.hpp:608-629 | each block of the ciphertext is the encryption of its block of the data plus the block of ciphertext before it, or the vector |
| `AesModes.ChainByte` | src/lib/plusaes.hpp:608-629 | byte for byte: what a block decrypts to is the exclusive or of the two |
| `AesModes.CbcRoundTrip` | src/lib/plusaes.hpp:584-720 | decrypting padded and chained data is accepted, with the right padding, and gives the data back |
| `AesModes.CbcConverse` | src/lib/plusaes.hpp:659-720 | encrypting what an accepted decryption gave yields the ciphertext exactly if the padding was not 0 |
| `AesModes.ZeroPaddingAccepted` | src/lib/plusaes.hpp:444-456 | a ciphertext that is accepted although no encryption produces it: a block that decrypts to zeros |
| `AesModes.EcbRoundTrip` | src/lib/plusaes.hpp:475-564 | the round trip for ECB |
| `AesModes.EcbConverse` | src/lib/plusaes.hpp:523-564 | its converse, with the same condition |
| `AesModes.EachBlock` | src/lib/plusaes.hpp:486-506 | each block is encrypted by itself |
| `AesModes.CtrTwice` | src/lib/plusaes.hpp:734-762 | applying counter mode twice is the identity |
| `AesModes.CounterNext` | src/lib/plusaes.hpp:278-286 | counting on by one is counting modulo 2^128 |
| `AesModes.CounterValue` | src/lib/plusaes.hpp:278-286 | the k-th counter is the first one plus k modulo 2^128, as big-endian numbers |
| `AesModes.CtrByte` | src/lib/plusaes.hpp:747-762 | byte j is combined with byte j mod 16 of the encryption of the counter j / 16 steps on |
| `AesInPlace.EncryptCbc` | src/lib/plusaes.hpp:584-643 | which error when; otherwise the buffer starts with the padded data, chained, whatever its length; data shorter than a block, so empty data too, is padded even if padding was not asked for |
| `AesInPlace.EncryptCbcWithin` | src/lib/plusaes.hpp:594-642 | once its arguments have passed the checks it stays within its buffers exactly unless the data is empty, no padding is asked for and the buffer is shorter than a block |
| `AesInPlace.BeyondBuffers` | src/lib/plusaes.hpp:384-442 | arguments that pass the checks and make each of the three functions leave its buffers |
| `AesInPlace.ChainAll` | src/lib/plusaes.hpp:599-642 | the short, exact and remainder paths all compute pad-then-chain |
| `AesInPlace.ChainFirst` | src/lib/plusaes.hpp:608-619 | the first block, padded if the data is shorter, and no initialization vector is one of zeros |
| `AesInPlace.ChainMiddle` | src/lib/plusaes.hpp:621-629 | the loop over the whole blocks |
| `AesInPlace.PaddedBlock` | src/lib/plusaes.hpp:631-636 | the rest of the data with its padding is the last block of the padded data |
| `AesInPlace.DecryptCbc` | src/lib/plusaes.hpp:659-720 | buffer, error and padded size for every input: accepted padding cut off, a single block cleared first, a rejected one leaving the last block out |
| `AesInPlace.DecryptCbcWithin` | src/lib/plusaes.hpp:669-719 | it stays within its buffers exactly unless the data is empty, or is one block and the buffer is shorter than a block |
| `AesInPlace.UnchainAll` | src/lib/plusaes.hpp:676-699 | all blocks but the last in the buffer, the last one apart |
| `AesInPlace.CheckPadding` | src/lib/plusaes.hpp:444-456 | true exactly if the claimed padding is at most 16 bytes that all say so |
| `AesInPlace.Finish` | src/lib/plusaes.hpp:701-719 | copies what is left of the last block, or reports the error |
| `AesInPlace.EncryptEcb` | src/lib/plusaes.hpp:475-506 | which error when; otherwise every block of the padded data encrypted |
| `AesInPlace.DecryptEcb` | src/lib/plusaes.hpp:523-566 | buffer, error and padded size for every input |
| `AesInPlace.DecryptEcbWithin` | src/lib/plusaes.hpp:533-563 | it stays within its buffers exactly unless the data is empty |
| `AesInPlace.IncrCounter` | src/lib/plusaes.hpp:278-286 | the carry loop is big-endian addition of one modulo 2^128 |
| `AesInPlace.CarryOut` | src/lib/plusaes.hpp:278-286 | the carry out of the first byte is what the modulus takes off |
| `AesInPlace.CryptCtr` | src/lib/plusaes.hpp:734-762 | which error when; otherwise byte j is combined with byte j mod 16 of the encryption of the first counter plus j / 16 modulo 2^128 |
| `AesInPlace.CtrCryptedTwice` | src/lib/plusaes.hpp:734-762 | crypting twice gives the data back for every key, nonce and length |
| `AesInPlace.CipherInverts` | src/lib/plusaes.hpp:220-326 | under every valid key encryption and decryption of blocks are inverse to each other |
| `AesInPlace.CipherIsStandard` | src/lib/plusaes.hpp:220-306 | with any valid key a block is encrypted as FIPS 197 says: its cipher with its key schedule |
| `AesInPlace.EncryptPasses` | src/lib/plusaes.hpp:384-408 | exactly which sizes pass the checks of encryption |
| `AesInPlace.DecryptPasses` | src/lib/plusaes.hpp:410-442 | exactly which sizes pass the checks of decryption, for data that is not empty |
| `AesInPlace.FirstCounterIs` | src/lib/plusaes.hpp:734-752 | the nonce, then zeros |
| `AesFilter.BackwardForward` | src/filters/aes_encryption.hpp:34-58 | convertBackward undoes convertForward in both modes, for every datagram |
| `AesFilter.ForwardBackward` | src/filters/aes_encryption.hpp:34-58 | an accepted datagram is what its result encrypts to exactly if its padding is not 0 |
| `AesFilter.DecryptEncrypt` | src/filters/aes_encryption.hpp:34-58 | the same for every valid key |
| `AesFilter.FinishedAccepted` | src/filters/aes_encryption.hpp:46-58 | cutting the padding off the zero-filled result leaves exactly the text |
| `AesFilter.DecryptsAccepted` | src/filters/aes_encryption.hpp:46-58 | what comes back of an accepted datagram: the decrypted text without its padding |
| `AesFilter.DecryptsRejected` | src/filters/aes_encryption.hpp:46-58 | of a rejected one: the text with its last block cleared, shorter by what its padding claims if it is that long |
| `AesFilter.DecryptsRefused` | src/filters/aes_encryption.hpp:46-58 | of one of the wrong size, or with a key of the wrong size: zeros, as many as it had bytes |
| `AesFilter.Filter.ConvertForward` | src/filters/aes_encryption.hpp:34-44 | the padded datagram, chained from the fixed vector or block by block; zeros for a key of the wrong size |
| `AesFilter.Filter.ConvertBackward` | src/filters/aes_encryption.hpp:46-58 | refines the conversion back, errors ignored as in the source |
| `Sha256Block.HashBlock` | src/lib/picosha2.h:91-140 | the block function, in place and in words of 32 or 64 bits, is the compression function of section 6.2.2 of FIPS 180-4 modulo 2^32 |
| `Sha256Block.RoundAgrees` | src/lib/picosha2.h:117-128 | a round computed in words of either width and masked late is a round modulo 2^32 |
| `Sha256Block.NextAgrees` | src/lib/picosha2.h:103-106 | so is a step of the message schedule |
| `Sha256Block.SigmasAgree` | src/lib/picosha2.h:73-89 | the rotations and shifts in words of either width agree with those of 32 bits |
| `Sha256Block.Sum7Agrees` | src/lib/picosha2.h:118-127 | seven summands masked once |
| `Sha256Block.Sum6Agrees` | src/lib/picosha2.h:118-123 | six summands masked once |
| `Sha256Block.ChAgrees` | src/lib/picosha2.h:67 | the complement in a wide word does no harm |
| `Sha256Block.FillSchedule` | src/lib/picosha2.h:95-106 | the 64 words of the schedule |
| `Sha256Block.RunRounds` | src/lib/picosha2.h:117-128 | the 64 rounds |
| `Sha256Block.WordValue` | src/lib/picosha2.h:96-101 | four bytes are read as a big-endian number |
| `Sha256Block.WordBytesValue` | src/lib/picosha2.h:224-232 | and a word is written as one |
| `Sha256Standard.ConstantsAreCubeRoots` | src/lib/picosha2.h:50-61 | the 64 constants are the first 32 bits of the fractional parts of the cube roots of the first 64 primes: section 4.2.2 of FIPS 180-4 |
| `Sha256Standard.DigestIsSquareRoots` | src/lib/picosha2.h:63-65 | the initial digest has those of the square roots of the first eight: section 5.3.3 |
| `Sha256Standard.SigmasAre` | src/lib/picosha2.h:73-89 | the four functions are sums of rotations and shifts by the numbers of section 4.1.2 |
| `Sha256Standard.ChMajAre` | src/lib/picosha2.h:67-71 | choice and majority, bit by bit |
| `Sha256Standard.RoundIs` | src/lib/picosha2.h:117-128 | a round is step 3 of section 6.2.2, with T1 and T2 |
| `Sha256Standard.ScheduleIs` | src/lib/picosha2.h:103-106 | the schedule is step 1 |
| `Sha256Standard.CompressIs` | src/lib/picosha2.h:108-139 | 64 rounds, each with its constant and word, added to what was there: steps 2 to 4 |
| `Sha256.Hash256` | src/lib/picosha2.h:288-296 | the digest of the message padded with the length that was counted, one call |
| `Sha256.HashedAtOnce` | src/lib/picosha2.h:288-296 | which is its SHA-256 if words are 64 bits wide or the message is shorter than 2^32 bytes |
| `Sha256.HashSpells` | src/lib/picosha2.h:224-232 | the bytes of a hash spell the eight words of the digest of the padded message, in order |
| `Sha256.LengthRight` | src/lib/picosha2.h:235-268 | the length in the padding is right exactly then, give or take multiples of 2^61 bytes |
| `Sha256.Hash256InPieces` | src/lib/picosha2.h:298-317 | the SHA-256 of the message for every length, every size of the pieces and either width |
| `Sha256.Hasher.constructor` | src/lib/picosha2.h:184-191 | nothing hashed, nothing buffered, length 0 |
| `Sha256.Hasher.Process` | src/lib/picosha2.h:193-203 | the state depends on the concatenation of all data so far only; fewer than 64 bytes stay in the buffer |
| `Sha256.Hasher.Finish` | src/lib/picosha2.h:205-222 | the digest becomes that of the padded message, in both padding cases |
| `Sha256.PaddedAsRequired` | src/lib/picosha2.h:205-222 | the padding is that of section 5.1.1 of FIPS 180-4 for every message whose length in bits fits |
| `Sha256.PaddedInTwo` | src/lib/picosha2.h:205-222 | both cases of the code make up the padded message |
| `Sha256.AddToLength` | src/lib/picosha2.h:235-247 | the four digits equal what has been counted modulo 2^64, for any number of bytes, also if a word wraps around |
| `Sha256.CountsRight` | src/lib/picosha2.h:235-247 | the number counted is right modulo 2^64 exactly if words are 64 bits wide or nothing is lost when the lowest digit wraps around |
| `Sha256.CarryOn` | src/lib/picosha2.h:238-246 | a digit keeps what fits and carries the rest |
| `Sha256.WriteBitLength` | src/lib/picosha2.h:248-268 | writes eight times the counted length, big-endian, modulo 2^64 |
| `Sha256.TimesEight` | src/lib/picosha2.h:249-261 | shifting the digits multiplies their number by eight |
| `Sha256.ValueOfDigitBytes` | src/lib/picosha2.h:263-267 | the bytes written are that number |
| `Sha256.GetHashBytes` | src/lib/picosha2.h:224-232 | as many bytes as there is room for, and each four of them are the big-endian number that is their word of the digest |
| `FilterChain.ChainOfGoodFilters` | src/filters/base.hpp:32-52 | if every filter's backward undoes its forward, so does the chain's, for every list |
| `FilterChain.ChainUndoes` | src/filters/base.hpp:32-52 | the same for one datagram, from what each filter does to what reaches it |
| `FilterChain.PeerMirrors` | src/filters/base.hpp:32-75 | the reversed list of reversed filters converts forward what the list converts backward, and the other way round |
| `FilterChain.TunnelIsTransparent` | src/forwarder.hpp:18-33 | with that list at the other end datagrams come through unchanged in both directions |
| `FilterChain.ReversedTwice` | src/filters/base.hpp:54-75 | a filter reversed twice does what it did |
| `FilterChain.PeerOfPeer` | src/filters/base.hpp:54-75 | the peer of the peer does what this end does |
| `FilterChain.ConvertForward` | src/filters/base.hpp:37-42 | the loop applies the filters in order |
| `FilterChain.ConvertBackward` | src/filters/base.hpp:45-50 | the loop applies them in reverse order |
| `FilterChain.AesTunnelIsTransparent` | src/forwarder.hpp:18-33 | a tunnel of any number of AES filters with valid keys is transparent both ways |
| `FilterChain.AesComes` | src/filters/aes_encryption.hpp:34-58 | each of them undoes what it did to what reaches it, as long as sizes do not overflow |
| `Framing.Recvn` | src/lib/rlib/sys/sio.hpp:515-536 | exactly n bytes in however many pieces and interruptions, or failure |
| `Framing.Sendn` | src/lib/rlib/sys/sio.hpp:537-557 | all bytes in order, nothing for nothing, or a proper part on failure |
| `Framing.SendMsg` | src/lib/rlib/sys/sio.hpp:664-669 | appends the frame of the message, or a proper part of it |
| `Framing.RecvMsg` | src/lib/rlib/sys/sio.hpp:653-663 | takes exactly one frame off the stream; bad magic and lengths over 2 GiB are told apart |
| `Framing.NextIsFrame` | src/lib/rlib/sys/sio.hpp:646-669 | a message is received exactly if the stream goes on with the frame of one of at most 2 GiB |
| `Framing.HeadSays` | src/lib/rlib/sys/sio.hpp:646-651 | a head says the magic number and the length it was made for |
| `Framing.HeadBytes` | src/lib/rlib/sys/sio.hpp:646-651 | byte by byte: the magic number, then the length, the lowest byte first |
| `Framing.HeadIs` | src/lib/rlib/sys/sio.hpp:646-651 | and is determined by them |
| `Channel.StageOfPart` | src/lib/rlib/sys/sio.hpp:653-663 | a reader within a pair needs some of what is missing of it and nothing beyond |
| `Channel.ReadKeeps` | src/lib/rlib/sys/sio.hpp:515-536 | reading any number of bytes a call of recvn may take keeps the reader within the next pair |
| `Channel.WriteKeeps` | src/lib/rlib/sys/sio.hpp:537-557 | writing any number of bytes keeps what is under way |
| `Channel.TakeKeeps` | src/protocols/plain.hpp:68-69 | a complete pair is the next one sent |
| `Channel.PostKeeps` | src/protocols/plain.hpp:44-48 | a new pair goes behind those under way |
| `Channel.NeverBad` | src/lib/rlib/sys/sio.hpp:653-659 | a reader of such a channel never meets a head it refuses |
| `Channel.CompleteIsTwoMessages` | src/protocols/plain.hpp:68-69 | the reader's stages are those of recv_msg called twice |
| `Connections.AddedInverse` | src/protocols/plain.hpp:19-22 | adding keeps the two maps inverse to each other exactly if neither side is connected to another one |
| `Connections.WithoutInverse` | src/protocols/plain.hpp:23-32 | deleting keeps them inverse to each other exactly if neither side is connected to another one |
| `Connections.Mapping.Add` | src/protocols/plain.hpp:19-22 | both maps, and that they stay inverse for a new client and a new connection |
| `Connections.Mapping.DelClient` | src/protocols/plain.hpp:23-27 | a client and its server, or the default server for a client that is not there, leave the maps; they stay inverse exactly if the client was there or the default server was not |
| `Connections.Mapping.DelServer` | src/protocols/plain.hpp:28-32 | the same for a server |
| `Forwarder.EveryPairArrives` | src/protocols/plain.hpp:44-175 | in every interleaving and fragmentation each loop decodes exactly the first of the pairs sent to it, in order, and is at the boundary of a pair between events; the inbound loop never ends |
| `Forwarder.EveryReplyIsRouted` | src/protocols/plain.hpp:159-174 | the maps are inverse; clients get, in order, the replies on the connections their own messages opened, converted backward |
| `Forwarder.EveryRequestIsForwarded` | src/protocols/plain.hpp:138-158 | the server gets, in order, what clients sent, converted forward, each over the connection its client opened |
| `Forwarder.EmptyReplyHalts` | src/protocols/plain.hpp:164-171 | a reply ends the outbound loop, with its mapping gone, exactly if it is empty |
| `Forwarder.ReachesEmptyReply` | src/protocols/plain.hpp:44-175 | for every client and first message a run that gets there |
| `Forwarder.RunExtends` | src/protocols/plain.hpp:44-175 | runs go on with every step that is possible |
| `Forwarder.StepKeeps` | src/protocols/plain.hpp:44-175 | every step of either loop keeps the invariant |
| `Forwarder.ForwardedKeeps` | src/protocols/plain.hpp:138-158 | a pair is handled over the connection its client opened, now or before |
| `Forwarder.FromServerKeeps` | src/protocols/plain.hpp:159-174 | a reply is posted for the client of its connection |
| `Forwarder.InboundHandlesKeeps` | src/protocols/plain.hpp:65-74 | what the inbound loop decodes is always a valid client id |
| `PlainProtocol.ReceivePair` | src/protocols/plain.hpp:68-69 | exactly one pair off the pipe, if one is there |
| `PlainProtocol.SendPair` | src/protocols/plain.hpp:44-48 | the pair's two frames, in order |
| `PlainProtocol.PlainOutbound.OnPipe` | src/protocols/plain.hpp:138-158 | the pair taken off the pipe goes over its client's connection, which is added to the maps if it is new; maps stay inverse |
| `PlainProtocol.PlainOutbound.OnServer` | src/protocols/plain.hpp:159-174 | the reply goes back for the client of its connection; after an empty one the mapping is gone and the handler fails |
| `PlainProtocol.PlainInbound.OnPipe` | src/protocols/plain.hpp:65-74 | the pair taken off the pipe goes to its client if the id has the right size |
| `PlainProtocol.PlainInbound.OnClient` | src/protocols/plain.hpp:75-82 | the datagram goes into the pipe converted forward, with its client id |

## Left out

- RedBlackTree.Tree.Rotate: the left and right forms of each macro share one method with a side where the source expands the macro twice; rotation itself has both.
- PortObject.EpollPort.SockDelete: the socket tree and the two socket queues are a map and sequences here; that the pointer structures behave like them is proved in RedBlackTree and IntrusiveQueue, not linked in one heap.
- PortRuns.AssertionFailsIff: the handle protocol and the port are two models; that a thread at work on a port whose completion port is gone is one whose port has had its Close step is the meaning given to that step, not proved across the two.
- PortRuns.EveryRun: the kernel answers each submission and cancellation of one hold of the lock once for each socket; time-outs are arbitrary, and the clock, `maxevents` and the memory for completions are not modelled.
- PortObject.EpollPort.PortDelete: kernel writes into a state freed by forced deletion while a poll is outstanding depend on cancellation in the kernel.
- HandleRuns.EveryRun: a port has fewer than 2^28 references at a time, which is what the reference count has room for; a keyed event is a rendezvous of two threads; handles are closed by epoll_close only.
- HandleRuns.NoDeadlock: some thread can go on; fairness between threads is not modelled.
- AesInPlace.DecryptCbc: `unsigned long` is 64 bits wide here, and data is shorter than 2^64 bytes; nothing is said about what happens beyond the buffers once `OutOfBounds` is reached.
- AesFilter.Filter.ConvertBackward: datagrams are shorter than 2^64 - 16 bytes.
- AesFilter.BackwardForward: datagrams are shorter than 2^64 - 32 bytes, so that sizes do not overflow.
- FilterChain.AesComes: the same bound, with 16 bytes more for each filter.
- Sha256.Hash256InPieces: pieces have at least one byte; with a buffer of size 0 the source does not end.
- Sha256.WriteBitLength: the digits are natural numbers here; shifting and masking them is multiplying, dividing and taking remainders, and the carry goes into places that are free.
- Framing.Recvn: signals interrupt calls finitely often.
- Forwarder.StepKeeps: converted messages are at most 2 GiB long, and input and output fail only where the outbound loop cannot connect; the sockets, the epoll calls and the start-up of the pipe are not modelled.
- Forwarder.EveryPairArrives: both loops blocking in a write because both directions of the pipe are full is not excluded; nothing is said about progress.
- Client ids are byte strings of one size; what `src/utils.hpp:35` copies into them is not modelled.
- Windows and kernel calls, the error-code table and `ws_get_base_socket`: foreign, represented by arbitrary answers.
- `XorFilter`: its index never wraps around, so it means something only up to the length of its key.
- `pskToKey`: keys are arbitrary bytes.
- `readall` and `recvall`, `dynport.hpp`, logging, options, string helpers, `pool.hpp` and `traceable_list.hpp`: unused by the forwarder, unfinished, or only easy claims.
- The hexadecimal output of `src/lib/picosha2.h`: easy.
