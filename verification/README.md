# go-sshtunnel: verified model

A Dafny model of the parts of go-sshtunnel that are hardest to get right, with proofs about them.

* **Ordered trees** (`originaldest/darwin/include/libkern/tree.h`): the intrusive red-black tree, whose parent
  pointer carries the colour in bit 0, and the top-down splay tree. Both are modelled in place, on a class `Node`
  with the two embedded entries. The links are tied to a ghost shape: a tree and the path from the node in focus up
  to the root (red-black), or a tree and the two parts that splaying cuts off under a sentinel (splay).
  `Elements`, `Order`, `OrderedStore` serve both; then `PackedWord`, `RbShape`, `RbMemory`, `RbBalance`, `RbOrder`,
  `RbHeight`, `RbTree`, `RbWalk`; and `SplayShape`, `SplayMemory`, `SplayTree`, `SplayWalk`.
* **The SSH connector and the interactive connect protocol** (`dialer/sshdialer.go`, `server/server.go`): a labelled
  transition system. A section under the connector's lock is one step, each unlocked read or write of a shared field
  is a step of its own, and the network, the SSH library, the file system and the clients choose freely among the
  steps they can make. A run is any sequence of such steps; a log of what happened is part of the state, and safety
  is told from the log alone. `SshConnector` is the system, `SshLog` the readings of the log, `SshInvariants` the
  invariants; `SshCalls` follows a call from its request to what it returns, `SshCourse` says in which order things
  happen and what is said and shown meanwhile, and `SshSafety` has the theorems on host keys, prompts and clients.
* **The HTTP response-head reader** (`client-hook/client-hook.cpp`): the byte-at-a-time tokenizer over a fixed buffer
  and two tables of pointers. `HttpText` says what a text makes of the tables, `HttpParse` what a well-formed head
  makes of them, `HttpReader` is the class with the loops.
* **The rule set and its iptables script** (`rules/rules.go`, `commands/iptables.go`): IPv4 networks as ranges
  (`Networks`), the first-match rule list (`Rules`), the script, what running it leaves in the nat table, and what
  that table does to a packet (`Iptables`).

Conventions. The C header writes each tree algorithm twice, mirrored; here one text takes the side as a parameter,
and both mirror images are instances of it. The comparison function is a total order, modelled by integer keys that
do not change. Pointers are references; only the packed parent word is modelled as a machine word, with a table from
aligned addresses to nodes standing for the cast back to a pointer. Methods take ghost parameters (path, subtree,
position) where a proof needs to know where in the tree a node is; the code does not use them.

Results worth reading first: `RbTree.Head.Remove`, `RbWalk.ForeachSafe`, `RbWalk.Find`, `SplayTree.Head.Splay`,
`SplayWalk.Run`, `SshSafety.SuccessIsJustified`, `SshSafety.PersistedWasConfirmed`, `SshCalls.ReturnCatchesUp`,
`SshCourse.EverythingIsTold`, `HttpReader.HttpClient.ReadAndFind`, `HttpParse.FitsExactly`, `Iptables.Incoming`,
`Iptables.Agreement`.

Where the code does less than one might read into it:

* The script looks at all direct rules first, the rule set at the first matching rule. The two disagree exactly when
  a direct rule contains the address behind a first match that is not direct (`Iptables.Agreement`), and
  `Iptables.Disagreement` is such a rule list.
* The script's copies of its entries in PREROUTING never decide anything, because the jump to the sshtunnel chain
  comes before them (`Iptables.CopiesAreDead`).
* The response reader keeps within its tables, and reads to the end of the head, only for heads that fit: at most 29
  lines after the status line and at most 1023 bytes that are not carriage returns (`HttpParse.FitsExactly`, both
  directions). `HttpReader.HttpClient.ReadHead` reports an overrun where the source would write behind its tables.
* `GetHeader` follows a null pointer exactly for the empty name and for a name whose first line has no colon
  (`HttpParse.NullExactly`, example in `NullExample`), and takes the name of the next line for the value of a line that
  ends with its colon (`HttpParse.EmptyValueReadsOn`).
* The filter in the script's first line goes through all tables, so it also drops what others have in their PREROUTING
  chains (`Iptables.SparedExactly`).
* A dialer name that is not registered yields no connection and no error (`Rules.RuleSet.Dial`, result `Nowhere`);
  "direct" is such a name unless somebody registers it.
* `SPLAY_MINMAX` does not end on a non-empty tree when its direction is 0, and `RB_REMOVE` needs an element of the
  tree; both are preconditions.

## Model

| member | source | states |
|---|---|---|
| PackedWord.TagWritten | originaldest/darwin/include/libkern/tree.h:450-455 | setting the colour keeps the address in the word and changes only bit 0, also for a null parent |
| PackedWord.AddressWritten | originaldest/darwin/include/libkern/tree.h:456-461 | setting the parent keeps the colour, including a red node that gets a null parent |
| PackedWord.PackedRefinesApart | originaldest/darwin/include/libkern/tree.h:342-345 | after any sequence of colour and parent writes the packed word reads like two separate fields |
| RbTree.Head.GetParent | originaldest/darwin/include/libkern/tree.h:437-444 | decoding the word gives the parent that the abstract memory has, null for a tagged null |
| RbTree.Head.GetColor | originaldest/darwin/include/libkern/tree.h:445-449 | bit 0 gives the colour that the abstract memory has |
| RbTree.Head.SetColor | originaldest/darwin/include/libkern/tree.h:450-455 | exactly the colour of this node changes; its parent and all other cells stay |
| RbTree.Head.SetParent | originaldest/darwin/include/libkern/tree.h:456-461 | exactly the parent of this node changes; its colour and all other cells stay |
| RbTree.Head.constructor | originaldest/darwin/include/libkern/tree.h:328-330 | an initialized head is a valid empty tree |
| RbTree.Head.RotateLinks | originaldest/darwin/include/libkern/tree.h:364-402 | the pointer writes of a rotation, with the root moved when the node was the root |
| RbTree.Head.Rotate | originaldest/darwin/include/libkern/tree.h:364-402 | anywhere in a tree a rotation keeps the in-order sequence, all parent links, every colour and every node outside the tree |
| RbTree.Head.RotateAndBack | originaldest/darwin/include/libkern/tree.h:364-402 | a rotation followed by the opposite one restores every link, parent and colour |
| RbShape.RotatedBack | originaldest/darwin/include/libkern/tree.h:364-402 | opposite rotations undo each other on shapes |
| RbMemory.SpelledCells | originaldest/darwin/include/libkern/tree.h:335-345 | two memories that spell out the same tree have the same cell for each of its nodes |
| RbMemory.RotatedPlug | originaldest/darwin/include/libkern/tree.h:364-402 | the writes of a rotation, seen from the whole tree: child and parent links stay mutually consistent |
| RbBalance.GrandparentBlack | originaldest/darwin/include/libkern/tree.h:466-470 | when the parent is red there is a grandparent, and it is black, so the fix-up may follow it |
| RbBalance.FlippedGrows | originaldest/darwin/include/libkern/tree.h:472-477 | red uncle: recolouring moves the one possible red-red violation two levels up and keeps all black counts |
| RbBalance.InnerGrows | originaldest/darwin/include/libkern/tree.h:478-483 | inner grandchild: after the rotation the one violation sits at the old parent, black counts unchanged |
| RbBalance.OuterGrows | originaldest/darwin/include/libkern/tree.h:484-485 | outer grandchild: recoloured and rotated, no violation above the focus is left |
| RbTree.Head.InsertStep | originaldest/darwin/include/libkern/tree.h:466-503 | one turn of the loop keeps "at most one red-red violation, at the node in hand" and gets strictly closer to the root |
| RbTree.Head.InsertColor | originaldest/darwin/include/libkern/tree.h:463-505 | the loop ends, and the tree is red-black again with the same in-order sequence |
| RbTree.Head.Search | originaldest/darwin/include/libkern/tree.h:659-669 | the descent ends at the node with the key, or at the one empty place where the key belongs |
| RbTree.Head.Insert | originaldest/darwin/include/libkern/tree.h:652-681 | a valid tree becomes a valid tree with exactly the new element, result null; on an equal key the existing node is returned and nothing is written |
| RbBalance.SiblingExists | originaldest/darwin/include/libkern/tree.h:511-515 | a place that lacks a black node has a sibling, so the unchecked read of its colour is safe |
| RbBalance.RedSibling | originaldest/darwin/include/libkern/tree.h:515-519 | red sibling: rotated over the parent, the focus still lacks exactly one and its new sibling is black |
| RbBalance.BlackSibling | originaldest/darwin/include/libkern/tree.h:520-526 | black nephews: the sibling turns red and the parent's subtree lacks exactly one instead |
| RbBalance.InnerNephew | originaldest/darwin/include/libkern/tree.h:528-537 | red inner nephew only: after the rotation the outer nephew is the red one, black counts as before |
| RbBalance.OuterNephew | originaldest/darwin/include/libkern/tree.h:538-544 | red outer nephew: one rotation supplies the missing black node and the whole tree is red-black |
| RbTree.Head.RemoveStep | originaldest/darwin/include/libkern/tree.h:511-580 | one turn of the loop keeps "all paths through the focus lack exactly one black node" and decreases the lexicographic measure |
| RbTree.Head.RemoveColor | originaldest/darwin/include/libkern/tree.h:507-583 | the loop ends, and the tree is red-black again with the same in-order sequence |
| RbTree.Head.Extreme | originaldest/darwin/include/libkern/tree.h:596-598 | the walk along one side ends at the outermost node, which has no child there |
| RbTree.Head.Splice | originaldest/darwin/include/libkern/tree.h:634-645 | a node with at most one child is bypassed; links stay consistent and only its neighbours are written |
| RbTree.Head.UnlinkSuccessor | originaldest/darwin/include/libkern/tree.h:595-611 | the leftmost node on the right is unlinked; its parent, child and colour are those it had |
| RbTree.Head.Replace | originaldest/darwin/include/libkern/tree.h:614-625 | the unlinked node takes over all links of the removed one in both directions, with its colour |
| RbTree.Head.PromoteSuccessor | originaldest/darwin/include/libkern/tree.h:595-632 | two children: the successor stands in the place of the removed node, also when it was its own right child |
| RbTree.Head.Remove | originaldest/darwin/include/libkern/tree.h:585-650 | from any valid tree that contains it, the element alone is removed: a valid red-black tree, same order, nodes outside untouched |
| RbHeight.HeightBound | originaldest/darwin/include/libkern/tree.h:82-83 | every red-black tree with n nodes has 2^height <= (n+1)^2 |
| RbWalk.Find | originaldest/darwin/include/libkern/tree.h:683-699 | returns the node with the key if and only if there is one, within k turns where 2^k <= (n+1)^2 |
| RbWalk.Step | originaldest/darwin/include/libkern/tree.h:701-721 | RB_NEXT (and, for the other side, RB_PREV) gives the neighbour in order, or null at the end, by child and parent links alone |
| RbWalk.Climb | originaldest/darwin/include/libkern/tree.h:757-766 | the way up ends at the nearest ancestor beyond the node, or at null |
| RbWalk.StepBack | originaldest/darwin/include/libkern/tree.h:748-769 | RB_NEXT and RB_PREV undo each other wherever the first is not null |
| RbWalk.MinMax | originaldest/darwin/include/libkern/tree.h:723-736 | the least element for a negative argument, the greatest otherwise, null for an empty tree |
| RbWalk.Foreach | originaldest/darwin/include/libkern/tree.h:782-785 | visits every node exactly once in ascending order |
| RbWalk.SuccessorSaved | originaldest/darwin/include/libkern/tree.h:797-800 | after any removals so far, the saved successor is the next original element |
| RbWalk.ForeachSafe | originaldest/darwin/include/libkern/tree.h:797-800 | visits every original node once in order, whichever visited nodes the body removes in each turn; a node is left afterwards if and only if no turn asked for it when it was the one in hand or visited before |
| RbWalk.GoneExactly | originaldest/darwin/include/libkern/tree.h:797-800 | the nodes removed in the first k turns are exactly those that one of these turns asked for, in hand or visited before |
| RbWalk.Removal | originaldest/darwin/include/libkern/tree.h:585-650 | removing any visited node keeps what is still to be visited, and its order |
| RbWalk.Perform | originaldest/darwin/include/libkern/tree.h:774-776 | insert, find and remove refine a finite map from keys to elements, effect and answer |
| RbWalk.Run | originaldest/darwin/include/libkern/tree.h:774-776 | any run of inserts, removes and finds keeps the tree valid and refines the run on the map, answer by answer |
| SplayShape.RotatedInorder | originaldest/darwin/include/libkern/tree.h:110-120 | a rotation at the root keeps the in-order sequence |
| SplayShape.LinkedParts | originaldest/darwin/include/libkern/tree.h:122-132 | cutting the root off into the left or right part keeps inorder(left) + inorder(rest) + inorder(right) |
| SplayShape.AssembledInorder | originaldest/darwin/include/libkern/tree.h:134-139 | the three parts put together have the in-order sequence of the parts |
| SplayMemory.LinkedCut | originaldest/darwin/include/libkern/tree.h:122-132 | after a link the three parts are again spelled out by the memory under the sentinel |
| SplayMemory.AssembledRep | originaldest/darwin/include/libkern/tree.h:134-139 | the four writes through the sentinel leave exactly the assembled tree, also when a part is empty |
| SplayMemory.AssembledSplit | originaldest/darwin/include/libkern/tree.h:231-264 | with the left part below and the right part above the key, the assembled tree is split at the key |
| SplayTree.Head.RotateRoot | originaldest/darwin/include/libkern/tree.h:110-120 | the pointer writes of a rotation at the root |
| SplayTree.Head.LinkRoot | originaldest/darwin/include/libkern/tree.h:122-132 | SPLAY_LINKLEFT and SPLAY_LINKRIGHT move the root to the end of their part and keep the sequence of all parts |
| SplayTree.Head.Turn | originaldest/darwin/include/libkern/tree.h:245-250 | one turn with its optional rotation keeps the cut, the sequence of the parts and everything outside |
| SplayTree.Head.SearchLoop | originaldest/darwin/include/libkern/tree.h:240-262 | the loop ends; left part below the key, right part above, and the rest has the key at its root or nothing on its side |
| SplayTree.Head.Assemble | originaldest/darwin/include/libkern/tree.h:134-139 | the sentinel is gone and a valid tree with the sequence of the parts is left |
| SplayTree.Head.Splay | originaldest/darwin/include/libkern/tree.h:231-264 | ends on any non-empty search tree, keeps the sequence, and the root has the key or is an immediate neighbour of it |
| SplayTree.Head.SplayMinMax | originaldest/darwin/include/libkern/tree.h:269-300 | ends, keeps the sequence, and leaves nothing on the side it was asked for |
| SplayTree.Head.Find | originaldest/darwin/include/libkern/tree.h:149-159 | returns the element with the key if and only if there is one, and keeps the sequence |
| SplayTree.Head.Insert | originaldest/darwin/include/libkern/tree.h:186-208 | adds exactly the element, or returns the one that has its key and keeps the sequence |
| SplayTree.Head.JoinParts | originaldest/darwin/include/libkern/tree.h:221-224 | the second splay leaves a root without right child, so hanging the saved right part there loses nothing |
| SplayTree.Head.Remove | originaldest/darwin/include/libkern/tree.h:210-229 | exactly the element with that key is gone, and the element passed in is returned; or nothing matched and the sequence is kept |
| SplayMemory.NothingAbove | originaldest/darwin/include/libkern/tree.h:223-224 | a tree below the key, split at the key, has no right child at its root |
| SplayWalk.Next | originaldest/darwin/include/libkern/tree.h:161-173 | the next element in order, or null, although the tree is restructured |
| SplayWalk.Extreme | originaldest/darwin/include/libkern/tree.h:175-180 | the least or greatest element, which is then the root; null for an empty tree |
| SplayWalk.Foreach | originaldest/darwin/include/libkern/tree.h:314-317 | visits every element exactly once in ascending order while every step restructures the tree |
| SplayWalk.Perform | originaldest/darwin/include/libkern/tree.h:305-307 | insert, remove and find refine a finite map from keys to elements, effect and answer |
| SplayWalk.Run | originaldest/darwin/include/libkern/tree.h:305-307 | any run of operations refines the run on the map, answer by answer |
| OrderedStore.Added | originaldest/darwin/include/libkern/tree.h:186-208 | one more element in the sequence is one more entry in the map |
| OrderedStore.Dropped | originaldest/darwin/include/libkern/tree.h:210-229 | an element left out of the sequence is its key left out of the map |
| OrderedStore.HistoryOfStore | originaldest/darwin/include/libkern/tree.h:774-776 | after any run from the empty tree a key is there if and only if it was added and not dropped since, with the element added first since its latest drop |
| SshInvariants.HostKeyInvConnector | dialer/sshdialer.go:303-472 | every step of the connector's goroutine keeps the invariant that ties keys shown, prompts and status to its position |
| SshInvariants.ViewInvReceive | dialer/sshdialer.go:387-395 | the decision received counts for the key of the prompt that waited for it, and only for that |
| SshInvariants.ViewInvShown | dialer/sshdialer.go:327-354 | a key shown by the library is trusted at once if and only if known_hosts has this very key for the host; a revoked key and one that differs from those on file never become trusted |
| SshInvariants.AcceptNeverBlocks | dialer/sshdialer.go:279-290 | with status unknown_host_key there is a pending prompt with room in its channel, so the send under the lock completes |
| SshInvariants.HostKeyInvClient | server/server.go:118-130 | every step of every client's call keeps the same invariant |
| SshInvariants.PassphraseInvConnector | dialer/sshdialer.go:406-419 | passphrases given are those used plus the one in flight, at every unlocked step of the password callback |
| SshInvariants.PassphraseInvClient | dialer/sshdialer.go:253-263 | no client step overwrites a passphrase that was not yet used |
| SshInvariants.MessagesInvConnector | dialer/sshdialer.go:292-297 | new messages leave what every client got a prefix of the connector's messages |
| SshInvariants.MessagesInvClient | server/server.go:134-138 | a step of one client advances its own cursor by the message it read, and nobody else's |
| SshInvariants.WaitingInvConnector | dialer/sshdialer.go:480-500 | after every connector step the list of waiters names exactly the goroutines that are parked or have only the receive left to do, each once |
| SshInvariants.WaitingInvClient | dialer/sshdialer.go:480-500 | the same after every client step, with registering under the lock and parking as two steps |
| SshInvariants.SettledStays | dialer/sshdialer.go:303-472 | a status on which Connect returns is changed by no step of the connector, only by a client |
| SshInvariants.RunInv | dialer/sshdialer.go:303-472 | all invariants together hold in every reachable state, for any number of clients |
| SshSafety.PromptGrounded | dialer/sshdialer.go:366-391 | a prompt that is open, decided or granted is for the host and key shown last in this handshake, and its decision was given to this very prompt since then |
| SshSafety.BasisOfLast | dialer/sshdialer.go:326-404 | the reason noted for the key shown last is a fact: known_hosts has this key for the host, or has none for the host and a client decided with yes on the prompt for this showing |
| SshSafety.VouchedByTrack | dialer/sshdialer.go:326-404 | trusted keys of a handshake are justified one by one, each by what happened between its own showing and the next |
| SshSafety.SuccessIsJustified | dialer/sshdialer.go:326-404 | in every run, a connection is stored only for a handshake that showed a key, and each key shown in it is not revoked and is one that known_hosts has for the host, or known_hosts has none for the host and, after this showing and before the next, a client decided with yes on its open prompt; the decision is the one its call was made with, and the calls are the run's |
| SshSafety.MismatchNeverConnects | dialer/sshdialer.go:338-351 | a handshake that showed a revoked key, or a key that differs from those known_hosts has for the host, never ends in a connection |
| SshSafety.HandshakeEndsExactly | dialer/sshdialer.go:326-404 | the handshake can end with success if and only if a key was shown and every key shown is known or was accepted, and another key can be shown if and only if none was refused |
| SshSafety.NonInteractiveKnownOnly | dialer/sshdialer.go:356-364 | a run without clients shows no prompt and succeeds only on keys that known_hosts has for the host |
| SshSafety.PromptsPair | dialer/sshdialer.go:366-391 | prompts, answers and their effects alternate one to one for the same key; status unknown_host_key implies a pending prompt with an empty channel |
| SshSafety.PersistedWasAccepted | dialer/sshdialer.go:397-402 | appendKnownHost gets the host and key that this handshake showed last, after a client decided with yes on the prompt for that showing, by the request of a call in the run |
| SshSafety.PersistedWasDecided | dialer/sshdialer.go:366-402 | what goes to known_hosts is the host name and key of the decided prompt, and its decision was yes, as long as no other prompt came between |
| SshSafety.PersistedWasConfirmed | server/server.go:124-150 | with one client: a key persisted after a return with unknown_host_key is the one whose fingerprint was returned, under its prompt's host name; in between there was exactly one answer, yes, and the client passed it to a call made after that return |
| SshSafety.PassphrasesPair | dialer/sshdialer.go:406-419 | the k-th passphrase returned to SSH is the k-th one SetPassphrase accepted; none is reused or overwritten, and each is what its client passed to the call it was accepted in |
| SshSafety.PassphraseIsTaken | server/server.go:120-122 | a call's first step hands over its passphrase if it is not empty and one is needed, and changes nothing otherwise |
| SshSafety.DeliveredOnce | server/server.go:132-146 | for every client, the messages of its completed calls are exactly messages[0..messageCount], under any interleaving; Message is never read out of range |
| SshSafety.NewsWakes | dialer/sshdialer.go:480-485 | a new message, an answer, a passphrase, its use and the end of the connector leave nobody waiting; a client that waited is back at the top of its loop |
| SshSafety.ConnectorGoesOn | dialer/sshdialer.go:303-472 | the connector can go on if and only if it has not ended, is not parked and does not wait for a decision |
| SshSafety.ClientGoesOn | server/server.go:96-151 | a client can go on if and only if it has a call under way and is not parked; no send of an answer and no read of a message ever blocks it |
| SshSafety.NotifyFindsReceivers | dialer/sshdialer.go:480-500 | each channel that notifyWaitingLocked sends to under the lock has its goroutine parked on it, or with parking as its only next step, always possible and without the lock |
| SshCalls.RunCalls | server/server.go:96-151 | in every run a client answers at most once in a call, with the decision the call was made with and after its passphrase; the call returns if and only if the decision, where it has one, was handed over, and ends in an error otherwise |
| SshCalls.AnswersAreOwn | server/server.go:120-128 | whatever a step of a client hands over as passphrase or decision is what the latest call of this very client in the run was made with |
| SshCalls.CallsAreEvents | server/server.go:96-118 | the calls in the log are those of the run, in order, each with its request |
| SshCalls.StatusAfterMessages | server/server.go:133-137 | a call looks at the status only when its cursor is at the end of the messages |
| SshCalls.ReturnCatchesUp | server/server.go:132-150 | once a call has returned, its client has got every message that was there when the call was made, in order and without a gap |
| SshCalls.LeftAlone | server/server.go:132-150 | where Connect may return, a call that nobody disturbs does return, with this status, the fingerprint of the open prompt and all messages not yet read |
| SshCourse.RunsKeepCourse | dialer/sshdialer.go:437-471 | addresses are tried in order, each once until one succeeds; callbacks run only inside a handshake; succeeded means connected, failed means that all addresses were tried |
| SshCourse.EverythingIsTold | dialer/sshdialer.go:292-301 | the connector's messages are exactly what its course calls for, one by one in order: tries, failures, changed, unknown and prompted keys, added hosts, banners; complete wherever Connect may return |
| SshCourse.WaitingIsVisible | dialer/sshdialer.go:366-419 | the status is unknown_host_key exactly while the connector waits for a decision, and need_passphrase exactly while it waits for a passphrase |
| SshCourse.ChoicesAreLogged | dialer/sshdialer.go:437-471 | how a dial, a handshake and an append ended and which keys were shown is what the network, the library and the file system chose |
| SshCourse.AskedWhenSomeoneIsThere | dialer/sshdialer.go:356-364 | a key of an unknown host is put to the user if the connector is interactive or a client has called, and refused with a note otherwise |
| SshSafety.SingleClientReturns | server/server.go:132-150 | with one client, Connect returns only need_passphrase, unknown_host_key, succeeded or failed; a fingerprint is returned with unknown_host_key only, and is that of the open prompt; succeeded is returned only after a connection |
| SshSafety.NextAnswerDecides | server/server.go:124-150 | with one client, the answer after a return with unknown_host_key decides exactly the key whose fingerprint was returned, and the client passed it to a call made after that return |
| HttpText.AfterNext | client-hook/client-hook.cpp:202-219 | one more byte read: a carriage return changes nothing, any other byte is one step of the tables |
| HttpReader.HttpClient.Put | client-hook/client-hook.cpp:202-219 | the switch on the byte: line end, first colon of a line, carriage return, anything else |
| HttpReader.HttpClient.Turn | client-hook/client-hook.cpp:196-225 | one turn stays within buffer and tables and stops if and only if the line just closed is empty |
| HttpReader.HttpClient.ReadHead | client-hook/client-hook.cpp:194-226 | for any input, the reader overruns its tables if and only if more lines are opened than they have slots; otherwise the number of bytes read and the final buffer and tables are those of the specification |
| HttpReader.HttpClient.GetHeader | client-hook/client-hook.cpp:235-249 | after any read, every pointer followed lies within the buffer, and the first line with that key gives its value, none, or a null pointer that is followed |
| HttpReader.HttpClient.ReadAndFind | client-hook/client-hook.cpp:194-249 | for every well-formed head that fits, lines without a colon or without a value included, with any bytes behind it: exactly the head is consumed, and GetHeader answers by the first line of that name |
| HttpParse.ScanLine | client-hook/client-hook.cpp:202-214 | a line leaves its name and, behind its first colon, its value as C strings, later colons kept; a line without a colon leaves only its name |
| HttpParse.LinesParsed | client-hook/client-hook.cpp:202-214 | after k lines the tables find every one of them |
| HttpParse.LinesAlive | client-hook/client-hook.cpp:220-223 | at no byte before the blank line does the stop condition hold |
| HttpParse.ReadsExactlyTheHead | client-hook/client-hook.cpp:196-226 | the reader stops after exactly the bytes through the blank line, so what follows stays in the socket |
| HttpParse.WireBegins | client-hook/client-hook.cpp:194-226 | a head as it is sent, each line with colon and CR LF and any bytes behind the blank line, is an input these theorems speak of |
| HttpParse.NotThroughBefore | client-hook/client-hook.cpp:196-226 | on any input the reader stops at the first byte at which the head is complete, the buffer full or the input at its end |
| HttpParse.LongHeadCut | client-hook/client-hook.cpp:196-196 | a head longer than the buffer is cut: reading ends before the blank line |
| HttpParse.FitsExactly | client-hook/client-hook.cpp:194-226 | a well-formed head is read to its end within the tables if and only if it has at most 29 lines after the status line and 1023 bytes that are not carriage returns |
| HttpParse.LookupFinds | client-hook/client-hook.cpp:235-249 | looking up in the finished tables, from any line on, is looking up in the lines of the head |
| HttpParse.LookUpExactly | client-hook/client-hook.cpp:235-249 | by the first line of that name: no colon gives a null pointer, two or more bytes behind the colon give all but the first of them, one byte gives none, nothing gives the next line's name or none |
| HttpParse.NullExactly | client-hook/client-hook.cpp:239-246 | GetHeader follows a null pointer if and only if the key is empty or the first line of that name has no colon |
| HttpParse.NullExample | client-hook/client-hook.cpp:239-246 | a concrete head and key for which it does |
| HttpParse.EmptyValueReadsOn | client-hook/client-hook.cpp:209-215 | with nothing behind the colon the value is the name of the next line, or none at the end of the head |
| HttpParse.FieldsFound | client-hook/client-hook.cpp:235-249 | in a head of field lines every name finds the value of its first line, and only names that do not occur find nothing |
| Networks.ContainsRange | rules/rules.go:86-96 | a network contains exactly the addresses from its base up to its size |
| Networks.SameNetwork | rules/rules.go:60-60 | two networks hold the same addresses if and only if they are written alike, so comparing the texts compares the networks |
| Networks.Nested | rules/rules.go:89-93 | two networks with one address in common are nested |
| Rules.UnMarshall | rules/rules.go:33-54 | an address without a length is a single host, a length over 32 is an error, the network has the given length and holds the address, and a given dialer is kept while an empty one becomes "default" |
| Rules.RoundTrip | rules/rules.go:25-54 | a rule that is listed and added back is the same rule |
| Rules.RuleSet.AddRule | rules/rules.go:56-67 | the loop replaces the first rule with the same network in place, or appends |
| Rules.AddedPlaces | rules/rules.go:56-67 | the order of the networks stays; a new network comes last |
| Rules.AddedDialer | rules/rules.go:56-67 | the network gets the new dialer, every other network keeps its own |
| Rules.HistoryOfRules | rules/rules.go:56-67 | after any history of additions: one rule for each network, with its latest dialer, in the order of first mention |
| Rules.NoRuleTwice | rules/rules.go:56-67 | whatever was added in whatever order, no two rules stand for the same addresses |
| Rules.RuleSet.AddWireRule | server/server.go:183-189 | a rule that cannot be parsed changes nothing |
| Rules.RuleSet.ListRules | server/server.go:167-180 | every rule with its address, its length and its dialer, in order |
| Rules.RuleSet.Dial | rules/rules.go:86-96 | the dialer of the first rule that contains the address; a plain connection if and only if the name does not resolve or no rule matches |
| Rules.Shadowed | rules/rules.go:89-93 | a rule inside an earlier, wider one is never the first to match |
| Iptables.Ports | commands/iptables.go:35-45 | each port is that of the last proxy of its kind in the list, 0 if there is none |
| Iptables.Execute | commands/iptables.go:18-75 | the script: set-up, then all direct rules, then all others to the port of the last transparent proxy, then name service to that of the last DNS proxy, each entry with its copy; only the first line if a list is missing |
| Iptables.ScriptInstalls | commands/iptables.go:19-73 | whatever the tables hold, the script runs to its end; the resulting nat chains are given in full, and of all other lines what the filter spares |
| Iptables.SparedExactly | commands/iptables.go:22-22 | of the lines of other tables exactly those survive that are in no PREROUTING chain and do not mention sshtunnel |
| Iptables.SparedKeepsOrder | commands/iptables.go:22-22 | the filter looks at each line by itself and keeps the order |
| Iptables.WithoutJumpsDecides | commands/iptables.go:22-22 | what the filter leaves of OUTPUT decides every packet as OUTPUT did with the sshtunnel chain empty |
| Iptables.RunAgain | commands/iptables.go:22-51 | a later run replaces an earlier one completely; nothing piles up |
| Iptables.ChainVerdict | commands/iptables.go:55-72 | TCP is redirected if and only if some rule that is not direct and no direct rule contains the destination; UDP only for port 53 with a DNS proxy |
| Iptables.CopiesAreDead | commands/iptables.go:51-71 | the eth0 copies in PREROUTING never decide a packet |
| Iptables.CopiesDecide | commands/iptables.go:51-71 | by themselves the copies would decide what comes in on eth0 exactly like the chain, and nothing else |
| Iptables.OutputKeeps | commands/iptables.go:50-50 | what was in OUTPUT before, jumps to sshtunnel apart, decides exactly the packets that the chain lets through, and as it did before |
| Iptables.RedirectedIsDialed | rules/rules.go:86-96 | for every redirected destination the rule set has a first match, and it is not direct; it never falls through to a plain connection |
| Iptables.IncomingTcp | commands/iptables.go:51-67 | the whole way: after the script, an incoming TCP packet is redirected under exactly that condition, and the rule set then tunnels it |
| Iptables.Incoming | commands/iptables.go:35-72 | from the list of proxies to the packet: after the script that Execute makes, redirected TCP goes to the port of the last transparent proxy, UDP port 53 to the last DNS proxy if and only if that has a positive port, and nothing else is redirected |
| Iptables.Agreement | commands/iptables.go:55-67 | chain and rule set agree on an address if and only if no direct rule contains it behind a first match that is not direct |
| Iptables.DirectFirstAgrees | commands/iptables.go:55-67 | with all direct rules in front, chain and rule set agree on every address |
| Iptables.Disagreement | commands/iptables.go:55-67 | a concrete rule list and destination on which they disagree |

## Left out

- Liveness of the connect protocol beyond a call that is left alone and the wake-ups: a goroutine can test Done before it registers as a waiter, entering need_passphrase wakes nobody, and the final status can be seen before the last message is read.
- SSHDialer.GetConnector and SSHDialer.Connect: "at most one connector" and the balance of their read locks; a new client may join the connector at any time, which covers every interleaving of the ones that reach it.
- Connect with an id that is not known, which returns an error at once.
- Users and other text in the connector's messages; a message is its kind, the address index, and the host and key it is about.
- A send of notifyWaitingLocked waits for a goroutine that has registered but not yet parked; here the notification wakes it at once, since parking is its only next step and touches nothing else.
- Unlocked reads by the connector's own goroutine of fields that only it writes at that point are one step where the source has two.
- Rekeying after success: the host-key callback runs only inside NewClientConn, where the library may call it, the password callback and the banner callback any number of times in any order.
- The known_hosts file format: the file is a map from hosts to keys, read when the connector starts, plus keys for which the lookup fails.
- SSHDialer.AddDialer and all parsing of URLs, addresses and CIDR texts: a network is an address and a length.
- The amortized bound of the splay tree, which needs a potential over real logarithms.
- RB_AUGMENT, which does nothing unless redefined; RB_FOREACH_FROM and RB_FOREACH_REVERSE_FROM, which are the same loop from another start or with RB_PREV.
- SplayTree.Head.Remove: the removed element is a ghost result, because the source returns the element it was called with, which may be another one with an equal key.
- HttpReader.HttpClient.ReadHead: stops at the first write behind the tables, because what the source does from there on is undefined; a read that fails counts as the end of input only when it returns 0, and the case of -1 is not modelled.
- The sending half of HttpClient.Request and the tracing of the table.
- Rules.RuleSet.Dial: name resolution and the table of dialers are parameters; IPv6 is left out.
- Iptables: what other tables do with a packet; their lines only appear as kept or dropped. Ports are not range-checked, as in the source.
- Proxies, original-destination lookup, control transport, agent sockets, key parsing, prompting and logging.
