# cm4all-libcommon core, modelled in Dafny

This project models the core of cm4all-libcommon, a C++ systems library. It covers the following components:

- **Process spawning.**
  - `NamespaceOptions`: the Linux namespaces a child gets, the setup steps run inside it, and its identity text.
  - `CgroupOptions`: where the child is placed in the control-group hierarchy, and which controller attributes are written for it.
- **`IntrusiveForwardList`.** The singly linked list whose elements carry their own hook.
- **Stream readers and the QMQP client.**
  - `NetstringInput`: the incremental netstring receiver.
  - `BufferedReader`: the line and block reader.
  - The request framing and response classification of the QMQP client.
- **Small pure pieces.**
  - Text rendering of socket addresses (`ToString`).
  - The access-log `Datagram` record.
  - The epoll mask kept by `SocketEvent`.
  - The systemd-resolved varlink client (`ResolvedClient`).
  - The Lua extended-attribute table (`XattrTable`).

Each component is one module and one file:

| file | module |
|---|---|
| `namespace_options.dfy` | `NamespaceOptions` |
| `cgroup_options.dfy` | `CgroupOptions` |
| `forward_list.dfy` | `IntrusiveForwardList` |
| `netstring_input.dfy` | `NetstringInput` |
| `buffered_reader.dfy` | `BufferedReader` |
| `qmqp_client.dfy` | `QmqpClient` |
| `to_string.dfy` | `ToString` |
| `datagram.dfy` | `Datagram` |
| `socket_event.dfy` | `SocketEvent` |
| `resolved_client.dfy` | `ResolvedClient` |
| `xattr_table.dfy` | `XattrTable` |

`common.dfy` holds shared modules:
- `Bytes` and `Decimal`: decimal text and a model of `std::from_chars`.
- `CharBuffer`: `mempcpy` and `stpcpy` on a caller's buffer.
- `Optional`.

Code that changes state in place is modelled imperatively:
- These are classes with `modifies` frames:
  - the list, the receivers and the SocketEvent mask;
  - the QMQP request lists;
  - the cgroup attribute list, built on the intrusive list.
- Loops keep their invariants, and array cursors are arrays.
- Every such method's ensures give its new state, directly or through a specification function.

The identity texts, the response classifications and the address conversions are functions with lemmas.

What the kernel does, and what the operating system does, is modelled by values rather than performed:
- The namespace setup steps are `Effect`s handed to a `Kernel` object. The kernel logs each step and rejects those in a given set.
- The cgroup filesystem is a value `Fs`. It records:
  - the directories that exist;
  - the content last written to each file;
  - the paths whose `mkdirat` or write fails;
  - the files that `TryWriteExistingFile` does not find.
- Values that come from outside are parameters:
  - `read()`, `getnameinfo()`, `Send()` and `Receive()` results;
  - JSON parsing and dumping;
  - the extended attributes of the file.

Two properties of the code are worth knowing:

- **The namespace `MakeId` is not injective.**
  - The code renders the name of the network namespace to join only inside the `enable_network` branch (src/spawn/NamespaceOptions.cxx:154-161).
  - `NamespaceOptions.NetworkNameUnseen` proves that two configurations that differ only in that name render alike.
  - The cgroup identity fragment is injective only when the leaf name holds no '/'. `CgroupOptions.CgroupIdInjective` is proved under that restriction; `CgroupOptions.CgroupIdSlashCollision` shows why the restriction is needed.
- **Attribute files are written into the leaf directory, even when a session sub-group is configured.**
  - `MoveToNewCgroup` returns the leaf's descriptor, and `Apply` writes through that descriptor (src/spawn/CgroupOptions.cxx:133, 151-152, 177-178).

## Model

| member | source | states |
|---|---|---|
| NamespaceOptions.GetCloneFlags | src/spawn/NamespaceOptions.cxx:50-69 | every bit of `flags` is kept and only namespace bits are added |
| NamespaceOptions.CloneFlagBits | src/spawn/NamespaceOptions.cxx:53-66 | each CLONE_NEW* bit is set iff it was already set or the option asks for it: user, pid only when no pid namespace is joined, cgroup, net, ipc, mount, UTS iff a hostname is set |
| NamespaceOptions.CloneFlagsMonotonic | src/spawn/NamespaceOptions.cxx:53-66 | turning on more `enable_*` switches never removes a namespace bit |
| NamespaceOptions.BitwiseSubset | src/spawn/NamespaceOptions.cxx:53-66 | two results over the same `flags` whose namespace bits are included in each other are sub-masks |
| NamespaceOptions.PidFlagExcludesJoin | src/spawn/NamespaceOptions.cxx:55-56 | a pid namespace to join suppresses CLONE_NEWPID |
| NamespaceOptions.AttemptedPrefix | src/spawn/NamespaceOptions.cxx:102-124 | a step sequence that stops at the first failure attempts a prefix of its plan: all of it iff every step succeeds, otherwise up to and including the first failing step |
| NamespaceOptions.AttemptedAppend | src/spawn/NamespaceOptions.cxx:102-124 | running `a + b` runs `a`, then `b` only if all of `a` succeeded |
| NamespaceOptions.Terminator | src/spawn/NamespaceOptions.cxx:79-80 | the index of the 0 entry ending the group list, with no 0 before it |
| NamespaceOptions.GidSet | src/spawn/NamespaceOptions.cxx:77-80 | the mapped gids are exactly the primary gid and the groups before the terminator |
| NamespaceOptions.SetupUidGidMap | src/spawn/NamespaceOptions.cxx:71-84 | the loop collects that set; the gid map is written, then the uid map only if the gid map succeeded; the result is true iff both succeed |
| NamespaceOptions.ReassociatePid | src/spawn/NamespaceOptions.cxx:86-92 | requires a pid namespace name and joins exactly that namespace |
| NamespaceOptions.ReassociateNetwork | src/spawn/NamespaceOptions.cxx:94-100 | requires a network namespace name and joins exactly that namespace |
| NamespaceOptions.ApplyUser | src/spawn/NamespaceOptions.cxx:106-114 | with a user namespace: setgroups is denied, then the gid map if gid ≠ 0, then the uid map, each step only after the previous one succeeded |
| NamespaceOptions.ApplyMaps | src/spawn/NamespaceOptions.cxx:109-114 | the gid map is written iff gid ≠ 0, then the uid map; a failing gid map stops before the uid map |
| NamespaceOptions.ApplyNetworkJoin | src/spawn/NamespaceOptions.cxx:116-117 | the named network namespace is joined iff one is set, and its failure fails the step |
| NamespaceOptions.ApplyMountAndHostname | src/spawn/NamespaceOptions.cxx:119-123 | the mount setup runs, then `sethostname` only if the mount setup succeeded and a hostname is set |
| NamespaceOptions.ApplyRest | src/spawn/NamespaceOptions.cxx:116-123 | network join, then mount, then hostname, failing fast |
| NamespaceOptions.Apply | src/spawn/NamespaceOptions.cxx:102-124 | the kernel log grows by exactly the attempted prefix of the plan, and the result is true iff every step succeeded |
| NamespaceOptions.ApplyOrder | src/spawn/NamespaceOptions.cxx:106-123 | the plan's order:<br>• setgroups is denied first;<br>• the gid map is planned iff gid ≠ 0, and the uid map always;<br>• user steps come before all others;<br>• `sethostname` is planned iff a hostname is set, and only as the last step;<br>• no unshare and no pid join |
| NamespaceOptions.SingleStep | src/spawn/NamespaceOptions.cxx:102-124 | a one-step plan attempts its step and succeeds iff the kernel accepts it |
| NamespaceOptions.ApplyNetworkPlan | src/spawn/NamespaceOptions.cxx:126-135 | at most one step: join iff a name is set, otherwise unshare iff `enable_network`, otherwise nothing |
| NamespaceOptions.ApplyNetwork | src/spawn/NamespaceOptions.cxx:126-135 | the kernel log grows by exactly that plan, and the result is true iff its step, if any, succeeded |
| NamespaceOptions.AppendHeadId | src/spawn/NamespaceOptions.cxx:140-152 | appends ";uns", the pid tokens and ";cns" at the cursor, and touches no other cell |
| NamespaceOptions.AppendPidId | src/spawn/NamespaceOptions.cxx:143-149 | appends ";pns" when enabled, and independently ";pns=" plus the name when one is joined |
| NamespaceOptions.AppendNetworkId | src/spawn/NamespaceOptions.cxx:154-161 | appends ";nns[=name]" only when the network namespace is enabled |
| NamespaceOptions.AppendTailId | src/spawn/NamespaceOptions.cxx:163-171 | appends ";ins", the mount identity and ";uts=" plus the hostname, in that order |
| NamespaceOptions.MakeId | src/spawn/NamespaceOptions.cxx:137-174 | the buffer from `p` holds exactly the tokens in their fixed order, the returned cursor is just past them, and no other cell changes |
| CharBuffer.Mempcpy | src/spawn/NamespaceOptions.cxx:141 | `mempcpy`: the text lands at the cursor, the result is just past it, no other cell changes |
| CharBuffer.Stpcpy | src/spawn/NamespaceOptions.cxx:148 | `stpcpy`: the text and a null byte land at the cursor, the result is the null byte's position, no other cell changes |
| CharBuffer.Append | src/spawn/NamespaceOptions.cxx:155 | a `mempcpy` at the end of a region: the region from `start` grows by exactly the text |
| CharBuffer.AppendCString | src/spawn/CgroupOptions.cxx:187 | a `stpcpy` at the end of a region: the region grows by exactly the text and is null-terminated |
| NamespaceOptions.NetworkNameUnseen | src/spawn/NamespaceOptions.cxx:154-161 | with the network namespace disabled, configurations that differ in the network namespace name render the same text, so the identity is not injective |
| CgroupOptions.Mkdir | src/spawn/CgroupOptions.cxx:89-99 | fails iff `mkdirat` fails with an error other than EEXIST; otherwise the directory exists afterwards and nothing else changes |
| CgroupOptions.MakeCgroup | src/spawn/CgroupOptions.cxx:86-100 | creates or finds the sub-group; fails iff that path fails; no file changes |
| CgroupOptions.MkdirOpenPath | src/spawn/CgroupOptions.cxx:102-118 | the same for the session sub-group |
| CgroupOptions.WriteFile | src/spawn/CgroupOptions.cxx:76-81 | fails iff the write fails; a missing file is skipped silently; otherwise exactly that file holds the data |
| CgroupOptions.MoveToNewCgroup | src/spawn/CgroupOptions.cxx:120-134 | creates only the leaf and, if set, the session directory; succeeds iff none of them and not the membership file fails; afterwards the innermost `cgroup.procs` holds the pid unless that file is missing, and no other file changes |
| CgroupOptions.PlaceAll | src/spawn/CgroupOptions.cxx:150-152 | the placement loop adds directories only, and changes no file outside the membership files |
| CgroupOptions.PlaceAllOk | src/spawn/CgroupOptions.cxx:150-152 | the placement loop succeeds iff no directory or membership file fails on any mount |
| CgroupOptions.PlacedEverywhere | src/spawn/CgroupOptions.cxx:150-152 | after a successful placement every mount has the leaf, the session if set, and the pid in its membership file |
| CgroupOptions.PlacedFirstStays | src/spawn/CgroupOptions.cxx:150-152 | later placements keep a membership file that already holds the pid |
| CgroupOptions.PlaceOnMounts | src/spawn/CgroupOptions.cxx:149-152 | the loop computes exactly `PlaceAll`, and `fds` maps every mount to its leaf directory |
| CgroupOptions.FirstDot | src/spawn/CgroupOptions.cxx:157-158 | `strchr(name, '.')` returns the first dot |
| CgroupOptions.Controller | src/spawn/CgroupOptions.cxx:157-160 | the controller is the dot-free text before the first dot |
| CgroupOptions.TranslateName | src/spawn/CgroupOptions.cxx:172-175 | "memory.limit_in_bytes" becomes "memory.max" iff `memory_v2`; every other name is unchanged |
| CgroupOptions.Target | src/spawn/CgroupOptions.cxx:167-178 | an attribute is written into the leaf directory of the mount serving its controller, under its translated name |
| CgroupOptions.WriteAttribute | src/spawn/CgroupOptions.cxx:157-178 | one attribute: an unknown controller fails with "unavailable" and no change; otherwise its `Target` file is written, an absent file is skipped, and a failing write is an error |
| CgroupOptions.WriteAttributes | src/spawn/CgroupOptions.cxx:154-179 | the attribute loop creates no directories, and fails only on a write error or an unknown controller |
| CgroupOptions.WriteAttributesOk | src/spawn/CgroupOptions.cxx:154-179 | the attribute loop succeeds iff every controller is known and no target file fails |
| CgroupOptions.WriteAttributesFrame | src/spawn/CgroupOptions.cxx:154-179 | no file outside the attributes' targets changes |
| CgroupOptions.WriteAttributesAppend | src/spawn/CgroupOptions.cxx:154-179 | looping over `a + b` is looping over `a`, then over `b` if `a` succeeded |
| CgroupOptions.UnknownControllerStops | src/spawn/CgroupOptions.cxx:157-165 | an unknown controller fails with that controller; earlier writes stay, and no later write happens |
| CgroupOptions.LastWriteWins | src/spawn/CgroupOptions.cxx:154-179 | of several attributes aimed at one file, the value of the last one handled remains |
| CgroupOptions.WrittenThenKept | src/spawn/CgroupOptions.cxx:154-179 | a write followed only by writes to other files keeps its value |
| CgroupOptions.EarliestSetWins | src/spawn/CgroupOptions.cxx:68-74 | `Set` prepends, so of several `Set` calls aimed at one file the earliest call's value remains |
| CgroupOptions.LaterTargetsDiffer | src/spawn/CgroupOptions.cxx:68-74 | the calls before a given one come after it in the reversed list |
| CgroupOptions.SetsReverse | src/spawn/CgroupOptions.cxx:68-74 | a series of `Set` calls leaves their items in reverse order, in front of the existing list |
| CgroupOptions.ApplySpec | src/spawn/CgroupOptions.cxx:136-180 | no leaf name: success and nothing touched; the "disabled" error iff enabled is false and a name is set; failures name an unknown controller |
| CgroupOptions.MemoryLimitTarget | src/spawn/CgroupOptions.cxx:172-178 | on the unified hierarchy the legacy memory limit goes to `memory.max` in the memory mount's leaf |
| CgroupOptions.UnifiedMemoryLimit | src/spawn/CgroupOptions.cxx:136-180 | with nothing failing:<br>• the pid lands on every mount;<br>• the value lands in `memory.max`;<br>• no file `memory.limit_in_bytes` changes |
| CgroupOptions.ApplyOneAttribute | src/spawn/CgroupOptions.cxx:136-180 | with nothing failing, one attribute: pid everywhere, the value in its target, no other file changes |
| CgroupOptions.SingleAttribute | src/spawn/CgroupOptions.cxx:154-179 | a one-attribute loop writes exactly that attribute |
| CgroupOptions.AppendCgroupId | src/spawn/CgroupOptions.cxx:185-193 | nothing without a leaf name; otherwise ";cg" and the name, then "/" and the session if set; no other cell changes |
| CgroupOptions.CgroupIdInjective | src/spawn/CgroupOptions.cxx:185-193 | with leaf names free of '/', equal fragments mean equal leaf and session |
| CgroupOptions.CgroupIdSlashCollision | src/spawn/CgroupOptions.cxx:185-193 | leaf "a/b" with no session renders like leaf "a" with session "b" |
| CgroupOptions.CopyItems | src/spawn/CgroupOptions.cxx:59-65 | the copy loop appends behind a moving tail, so the copy holds the items in source order |
| CgroupOptions.AppendCopy | src/spawn/CgroupOptions.cxx:62-64 | one round: a new element after the tail, existing elements unchanged |
| CgroupOptions.CgroupOptions.Copy | src/spawn/CgroupOptions.cxx:55-66 | the copy has the source's leaf name and its items in the same order; the session is not copied |
| CgroupOptions.CgroupOptions.Set | src/spawn/CgroupOptions.cxx:68-74 | the new item becomes the first element, in front of all earlier ones |
| CgroupOptions.CgroupOptions.Apply | src/spawn/CgroupOptions.cxx:136-180 | the two loops compute exactly `ApplySpec`: the outcome and the resulting filesystem |
| CgroupOptions.CgroupOptions.WriteAll | src/spawn/CgroupOptions.cxx:154-179 | the loop over the list, through the open leaf directories, computes exactly `WriteAttributes` |
| CgroupOptions.CgroupOptions.MakeId | src/spawn/CgroupOptions.cxx:182-196 | appends exactly the cgroup identity fragment and returns the cursor after it |
| IntrusiveForwardList.Node.constructor | src/util/IntrusiveForwardList.hxx:42-44 | a new element is unlinked |
| IntrusiveForwardList.Reversed | src/util/IntrusiveForwardList.hxx:254-271 | the reversal has the length of its input |
| IntrusiveForwardList.ReversedAt | src/util/IntrusiveForwardList.hxx:254-271 | element `k` of the reversal is element `n-1-k` of the input |
| IntrusiveForwardList.ReversedTwice | src/util/IntrusiveForwardList.hxx:254-271 | reversing twice restores the original order |
| IntrusiveForwardList.ReversedSameElements | src/util/IntrusiveForwardList.hxx:254-271 | reversal is a permutation |
| IntrusiveForwardList.ReverseStep | src/util/IntrusiveForwardList.hxx:264-270 | one round moves the element after the middle to the front and extends the reversed prefix by one |
| IntrusiveForwardList.ForwardList.constructor | src/util/IntrusiveForwardList.hxx:93 | a new list is empty |
| IntrusiveForwardList.ForwardList.Move | src/util/IntrusiveForwardList.hxx:95-96 | the move constructor takes over the elements and leaves the source empty |
| IntrusiveForwardList.ForwardList.MoveAssign | src/util/IntrusiveForwardList.hxx:101-105 | move assignment swaps the two lists |
| IntrusiveForwardList.ForwardList.EmptyIffNoElements | src/util/IntrusiveForwardList.hxx:107-109 | `empty()` holds iff the list has no elements |
| IntrusiveForwardList.ForwardList.Clear | src/util/IntrusiveForwardList.hxx:111-113 | afterwards the list is empty |
| IntrusiveForwardList.ForwardList.ClearAndDispose | src/util/IntrusiveForwardList.hxx:115-122 | every element is handed to the disposer once, front to back, and the list ends empty |
| IntrusiveForwardList.ForwardList.Front | src/util/IntrusiveForwardList.hxx:124-130 | on a non-empty list, the first element |
| IntrusiveForwardList.ForwardList.PopFront | src/util/IntrusiveForwardList.hxx:132-134 | removes exactly the first element |
| IntrusiveForwardList.ForwardList.PushFront | src/util/IntrusiveForwardList.hxx:236-240 | turns `s` into `[t] + s` |
| IntrusiveForwardList.ForwardList.InsertAfter | src/util/IntrusiveForwardList.hxx:242-248 | `t` is spliced in right after `pos` (at the front from `before_begin()`), and the iterator returned designates it |
| IntrusiveForwardList.ForwardList.LinkAfter | src/util/IntrusiveForwardList.hxx:243-247 | the two pointer stores link `t` in after the element at `k` |
| IntrusiveForwardList.ForwardList.EraseAfter | src/util/IntrusiveForwardList.hxx:250-252 | exactly the element following `pos` is removed |
| IntrusiveForwardList.ForwardList.Reverse | src/util/IntrusiveForwardList.hxx:254-271 | the elements and their payloads end in reverse order, relinked in place |
| IntrusiveForwardList.ForwardList.MoveToFront | src/util/IntrusiveForwardList.hxx:267-269 | one round of `reverse()`: the element after the middle moves to the front |
| NetstringInput.ReadFailure | src/net/djb/NetstringInput.cxx:25-37 | EAGAIN and EINTR mean "more", ECONNRESET means "closed", any other errno is a read error |
| NetstringInput.ParseHeader | src/net/djb/NetstringInput.cxx:42-67 | the header parse:<br>• a header that does not start with a digit is malformed;<br>• "more" iff all digits, in range and with room left;<br>• "start" only at a colon after digits whose value does not exceed the maximum, with at most size+1 bytes after the colon;<br>• "too large" only with a size above the maximum;<br>• over the outcome of `from_chars`: an out-of-range length is malformed; digits filling the whole buffer are malformed; digits followed by anything but ':' are malformed; a size above the maximum at the colon is "too large"; more than size+1 bytes after the colon are garbage; otherwise it is "start" |
| NetstringInput.Completion | src/net/djb/NetstringInput.cxx:85-96 | "finished" iff the value buffer is full and ends with ','; "more" iff it is not full; otherwise malformed |
| NetstringInput.ParseNetstring | src/net/djb/NetstringInput.cxx:42-96 | a whole netstring in one read is accepted with exactly its value |
| NetstringInput.NetstringInput.FinishedIsNetstring | src/net/djb/NetstringInput.cxx:85-93 | once finished, the bytes received are the decimal length, ':', the value and ',' |
| NetstringInput.NetstringInput.Receive | src/net/djb/NetstringInput.cxx:123-139 | dispatches on the state:<br>• errors map as in `ReadFailure`;<br>• 0 bytes means "closed" and nothing changes;<br>• all received bytes are kept;<br>• in the header state the result is the `ParseHeader` verdict on everything received: more, its rejection, or, at the colon, a fresh value buffer of size+1 and `Completion` of the bytes after the colon;<br>• in the value state the position advances by the bytes read and the result is `Completion` of the value so far;<br>• "finished" iff the state is Finished |
| NetstringInput.NetstringInput.ReceiveHeader | src/net/djb/NetstringInput.cxx:19-76 | the header buffer grows by the read; the result follows `ParseHeader` on everything received; a start allocates size+1 bytes and completes as `Completion` says |
| NetstringInput.NetstringInput.StoreHeaderBytes | src/net/djb/NetstringInput.cxx:24-42 | the bytes land after the header received so far, and the position moves past them |
| NetstringInput.NetstringInput.StartValue | src/net/djb/NetstringInput.cxx:65-75 | a fresh value buffer of size+1 bytes takes the bytes after the colon |
| NetstringInput.NetstringInput.CopyToValue | src/net/djb/NetstringInput.cxx:74 | the `memcpy` puts `rest` at the start of the value buffer |
| NetstringInput.NetstringInput.ValueData | src/net/djb/NetstringInput.cxx:78-97 | the position advances by `nbytes`; the verdict is `Completion` of the body; the trailing comma is erased when finished |
| NetstringInput.NetstringInput.ReceiveValue | src/net/djb/NetstringInput.cxx:99-121 | the same error and close handling as the header, then `ValueData` |
| NetstringInput.NetstringInput.StoreValueBytes | src/net/djb/NetstringInput.cxx:102 | the read bytes land at the value position |
| BufferedReader.NewlineAt | src/io/BufferedReader.cxx:107-108 | the first newline, or -1 iff there is none |
| BufferedReader.Reader.Read | src/io/BufferedReader.cxx:56-59 | at most `size` bytes of the next chunk, none when there is no input left; the bytes produced are recorded, and `ended` is set exactly when nothing came |
| BufferedReader.BufferedReader.Fill | src/io/BufferedReader.cxx:40-64 | at end of file, or with the buffer full at `MAX_SIZE`, nothing changes and the result is `!need_more`; a full buffer below it doubles its capacity; end of file is set exactly when the read returns no bytes (the reader has no chunk left or its next chunk is empty); whenever nothing is appended the result is `!need_more`; otherwise the bytes read are appended behind the buffered data and the result is true |
| BufferedReader.BufferedReader.ReadFullSize | src/io/BufferedReader.cxx:66-77 | succeeds iff at least `size` bytes are buffered; buffered data is only extended |
| BufferedReader.BufferedReader.ReadFromBuffer | src/io/BufferedReader.cxx:79-87 | copies and consumes min(buffered, room) bytes into `dest` |
| BufferedReader.BufferedReader.ReadFull | src/io/BufferedReader.cxx:89-101 | on success exactly `dest` is delivered, next in stream order; on failure the buffer has been drained and end of file was reached (the source throws "Premature end of file") |
| BufferedReader.BufferedReader.ReadLine | src/io/BufferedReader.cxx:103-132 | a line:<br>• is a complete line without its '\n', or, at end of file, the unterminated rest;<br>• increments the line number;<br>• none is returned only when the input is exhausted, or when the buffer is full at the maximum with no newline |
| BufferedReader.BufferedReader.FillUntilLine | src/io/BufferedReader.cxx:106-113 | fills until a newline is buffered or `Fill` fails |
| BufferedReader.BufferedReader.Consume | src/io/BufferedReader.cxx:107-111 | consumes the line and its newline |
| QmqpClient.Header | src/event/net/djb/QmqpClient.cxx:42-44 | the netstring header: decimal digits followed by ':' |
| QmqpClient.SegmentsAreNetstrings | src/event/net/djb/QmqpClient.cxx:39-47 | the request segments concatenate to the netstrings of the values in order |
| QmqpClient.QmqpClient.AppendNetstring | src/event/net/djb/QmqpClient.cxx:39-47 | three segments (header, value, ",") are appended, and the header is prepended to the header list |
| QmqpClient.QmqpClient.Commit | src/event/net/djb/QmqpClient.cxx:49-56 | requires a header and a request, hands the whole request over and empties it; what is sent is the concatenated netstrings |
| QmqpClient.OnNetstringResponse | src/event/net/djb/QmqpClient.cxx:58-83 | the response is classified:<br>• success iff the payload starts with 'K', and temporary or permanent failure iff it starts with 'Z' or 'D', with the rest as text;<br>• otherwise malformed;<br>• exactly one callback |
| QmqpClient.ClassifyResponse | src/event/net/djb/QmqpClient.cxx:58-83 | rendering a callback as a payload and classifying it gives that callback back |
| QmqpClient.ResponseOfClassified | src/event/net/djb/QmqpClient.cxx:58-83 | every well-formed payload is the rendering of its classification |
| ToString.Unmapped | src/net/ToString.cxx:83-85 | an IPv4-mapped address becomes its IPv4 address, any other address is unchanged |
| ToString.ReplaceNul | src/net/ToString.cxx:63-65 | the result has the same length and no null byte |
| ToString.LocalTextShape | src/net/ToString.cxx:45-69 | the local text:<br>• fits with its terminator and holds no null byte;<br>• an abstract address starts with '@';<br>• a non-abstract path loses its trailing null byte |
| ToString.LocalToString | src/net/ToString.cxx:45-69 | always true, with the local text and a terminator in the buffer |
| ToString.ReplaceNulInPlace | src/net/ToString.cxx:65 | the loop replaces every null byte by '@' |
| ToString.GetNameInfo | src/net/ToString.cxx:87-93 | succeeds iff both host and service fit their buffers, leaving the host as a C string |
| ToString.Bracket | src/net/ToString.cxx:104-107 | the memmove and the stores put the host in brackets, terminated |
| ToString.AppendServ | src/net/ToString.cxx:114-115 | appends ':' and the service, terminated |
| ToString.ToString | src/net/ToString.cxx:71-119 | true iff the rendering exists; then the buffer holds it with a terminator |
| ToString.RenderedFits | src/net/ToString.cxx:71-119 | every rendering fits the buffer with its terminator and holds no null byte |
| ToString.RenderedWithPort | src/net/ToString.cxx:95-116 | with a service the rendering is "[host]:port" for IPv6 and "host:port" otherwise, exactly when that fits; without one it is the host alone |
| ToString.MappedRendersAsIPv4 | src/net/ToString.cxx:83-85 | an IPv4-mapped address renders as the IPv4 address |
| ToString.ToStringOr | src/net/ToString.cxx:121-128 | the buffer's text on success, the fallback otherwise |
| ToString.HostToString | src/net/ToString.cxx:130-150 | true iff the host rendering exists, with no port, and then the buffer holds it |
| Datagram.Default | src/net/log/Datagram.hxx:48 | unspecified type, nothing set, lengths invalid, not an HTTP access |
| Datagram.GuessIsHttpAccess | src/net/log/Datagram.hxx:97-105 | needs a URI and a method; a cancelled request (no status, but traffic) is an access; an error message (no status, no traffic) is not |
| Datagram.IsHttpAccess | src/net/log/Datagram.hxx:107-110 | the HTTP-access type always is one; otherwise only an unspecified record that the guess accepts |
| Datagram.OfType | src/net/log/Datagram.hxx:50-51 | the given type; an HTTP access iff that type is `HTTP_ACCESS` |
| Datagram.WithMessage | src/net/log/Datagram.hxx:74-75 | the given type and message |
| Datagram.Http | src/net/log/Datagram.hxx:53-72 | an HTTP access:<br>• a negative length is stored in two's complement and marked invalid;<br>• traffic and duration are valid;<br>• host, site, referer, user agent, remote host, traffic and duration are as given; there is no forwarding target, message or JSON |
| Datagram.SetTimestamp | src/net/log/Datagram.hxx:81-83 | sets the timestamp, so a timestamp is present iff it is not the epoch |
| Datagram.SetTimestampKeepsClass | src/net/log/Datagram.hxx:81-83 | only the timestamp changes, and the HTTP classification is kept |
| Datagram.OtherTypeNeverHttp | src/net/log/Datagram.hxx:107-110 | any other explicit type is never an HTTP access |
| Datagram.UnspecifiedByGuess | src/net/log/Datagram.hxx:97-110 | an unspecified record is an access iff it has a URI and a method, and a status or traffic |
| SocketEvent.ScheduleReadMask | src/event/SocketEvent.hxx:105-108 | adds READ, HANGUP and ERROR, keeps all other bits, and is idempotent |
| SocketEvent.CancelReadMask | src/event/SocketEvent.hxx:114-116 | removes the read group and keeps all other bits |
| SocketEvent.WriteMasks | src/event/SocketEvent.hxx:110-120 | scheduling or cancelling writes touches WRITE only |
| SocketEvent.CancelReadUndoesScheduleRead | src/event/SocketEvent.hxx:105-116 | on a mask without the read group, `CancelRead` undoes `ScheduleRead` |
| SocketEvent.SocketEvent.constructor | src/event/SocketEvent.hxx:66-70 | nothing is scheduled |
| SocketEvent.SocketEvent.Schedule | src/event/SocketEvent.hxx:99 | the scheduled mask becomes exactly `flags` |
| SocketEvent.SocketEvent.Cancel | src/event/SocketEvent.hxx:101-103 | nothing scheduled, neither read nor write pending |
| SocketEvent.SocketEvent.ScheduleRead | src/event/SocketEvent.hxx:105-108 | read pending afterwards, write pending unchanged |
| SocketEvent.SocketEvent.ScheduleWrite | src/event/SocketEvent.hxx:110-112 | write pending afterwards, read pending unchanged |
| SocketEvent.SocketEvent.CancelRead | src/event/SocketEvent.hxx:114-116 | read not pending afterwards, write pending unchanged |
| SocketEvent.SocketEvent.CancelWrite | src/event/SocketEvent.hxx:118-120 | write not pending afterwards, read pending unchanged |
| ResolvedClient.Serialize | src/event/systemd/ResolvedClient.cxx:42-48 | the dumped JSON with exactly one trailing null byte |
| ResolvedClient.Request | src/event/systemd/ResolvedClient.cxx:29-40 | an object of exactly "method" = io.systemd.Resolve.ResolveHostname and "parameters" = {"name": the hostname, "flags": 0} |
| ResolvedClient.Unframe | src/event/systemd/ResolvedClient.cxx:136-139 | a reply not ending in a null byte is malformed; otherwise the text before it |
| ResolvedClient.UnframeSerialized | src/event/systemd/ResolvedClient.cxx:42-48 | unframing the serialized request gives back the dumped JSON |
| ResolvedClient.GetUnsigned | src/event/systemd/ResolvedClient.cxx:94-97 | `get<uintN_t>()`: defined iff the value is a number or a boolean, and then below 2^N |
| ResolvedClient.Octets | src/event/systemd/ResolvedClient.cxx:94-97 | every element is converted, or the conversion fails |
| ResolvedClient.ToIPv4Address | src/event/systemd/ResolvedClient.cxx:87-100 | not exactly four elements: malformed; otherwise four octets converted element by element, with the port |
| ResolvedClient.BitOrDisjoint | src/event/systemd/ResolvedClient.cxx:110-125 | or-ing in bits below the shifted high part adds them |
| ResolvedClient.Group | src/event/systemd/ResolvedClient.cxx:110-111 | `(hi << 8) \| lo` cast to 16 bits stays below 2^16 |
| ResolvedClient.GroupOfOctets | src/event/systemd/ResolvedClient.cxx:110-111 | for octet inputs, a group is hi·256 + lo |
| ResolvedClient.Groups | src/event/systemd/ResolvedClient.cxx:109-125 | eight groups made from pairs of elements |
| ResolvedClient.ToIPv6Address | src/event/systemd/ResolvedClient.cxx:102-129 | not exactly sixteen elements: malformed; otherwise eight groups, the port and the scope |
| ResolvedClient.IPv6FromOctets | src/event/systemd/ResolvedClient.cxx:102-129 | sixteen octets give groups b[2k]·256 + b[2k+1] |
| ResolvedClient.IfIndex | src/event/systemd/ResolvedClient.cxx:151-153 | the scope is 0 when `ifindex` is absent |
| ResolvedClient.GetInt | src/event/systemd/ResolvedClient.cxx:155 | `get<int>()`: defined iff the value is a number or a boolean; the result is a 32-bit signed int congruent to the number modulo 2^32 |
| ResolvedClient.GetIntInRange | src/event/systemd/ResolvedClient.cxx:155 | a number that fits 32 bits reads back unchanged, and so does any number that differs from it by a multiple of 2^32 |
| ResolvedClient.WrappedFamilyIsIPv4 | src/event/systemd/ResolvedClient.cxx:155-158 | a family of AF_INET plus a multiple of 2^32 is treated as AF_INET |
| ResolvedClient.FromEntry | src/event/systemd/ResolvedClient.cxx:147-166 | an address needs "family" and "address"; the family is read by `get<int>()` (`GetInt`); IPv4 only for AF_INET, IPv6 only for AF_INET6; for a readable entry, AF_INET gives `ToIPv4Address` of "address", AF_INET6 gives `ToIPv6Address` of "address" with the `ifindex` scope, any other family value is "Unsupported address family", and a family that is no number is a JSON error |
| ResolvedClient.OnResponse | src/event/systemd/ResolvedClient.cxx:131-167 | the reply is handled:<br>• malformed without the trailing null byte;<br>• an "error" member is a resolver error;<br>• a parse failure is a parse error;<br>• a framed, parsed reply without "error" yields `FromEntry` of `parameters.addresses[0]`, or the error of reading that path |
| ResolvedClient.ReplyWithIPv4 | src/event/systemd/ResolvedClient.cxx:131-160 | a framed reply whose first address entry is AF_INET with octets `b` resolves to the IPv4 address `b` with the requested port |
| ResolvedClient.OnSocketReady | src/event/systemd/ResolvedClient.cxx:169-191 | an error or hangup fails as "closed prematurely", a failed receive as a receive error, 0 bytes as "closed prematurely"; otherwise the callback is decided by `OnResponse` of the first 4096 bytes at most: its address on success, its error otherwise |
| ResolvedClient.Start | src/event/systemd/ResolvedClient.cxx:67-75 | the bytes sent are exactly the serialized request; a failed send is an error and schedules nothing; otherwise a read is scheduled |
| XattrTable.CString | src/lua/io/XattrTable.cxx:37 | the key's bytes are cut at the first null byte |
| XattrTable.AttributeName | src/lua/io/XattrTable.cxx:46-58 | "user." is prepended iff the byte string has no '.' and fewer than 1024 bytes |
| XattrTable.Lookup | src/lua/io/XattrTable.cxx:40-65 | one result iff the attribute exists and its value has at most 4096 bytes, namely that value; otherwise zero results |
| XattrTable.Index | src/lua/io/XattrTable.cxx:31-38 | not exactly two arguments: "Invalid parameters"; results only for the table and a string key, and then those of `Lookup` |
| XattrTable.ShortNamesNamespaced | src/lua/io/XattrTable.cxx:46-53 | every short name is looked up in a namespace, and a dot-less one is recovered by dropping "user." |
| XattrTable.SameAttribute | src/lua/io/XattrTable.cxx:46-58 | two short names reach the same attribute only if they are equal or one is the other with "user." spelled out |
| Decimal.ValueOfDigits | src/net/djb/NetstringInput.cxx:46-47 | the decimal digits of `n` parse back to `n` |
| Decimal.LeadingDigits | src/net/djb/NetstringInput.cxx:46-47 | the length of the run of leading digits that `std::from_chars` consumes: all of them digits, and the next byte, if any, is not one |
| Decimal.FromChars | src/net/djb/NetstringInput.cxx:46-48 | `std::from_chars` reads the longest run of leading digits; no digits is an error, and so is a value out of range |
| Decimal.FromCharsOfDigits | src/net/djb/NetstringInput.cxx:46-47 | the canonical digits followed by a non-digit parse to their value, ending at the non-digit |

Some members have no contract of their own, because their definitions are one comparison:
- `Datagram.HasTimestamp`, `HasHttpMethod` and `HasHttpStatus` (src/net/log/Datagram.hxx:77-95) compare a field with its default. `Datagram.Default` states that none of them holds, and `Datagram.SetTimestamp` states when the timestamp is set.
- `SocketEvent.SocketEvent.GetScheduledFlags`, `IsReadPending` and `IsWritePending` (src/event/SocketEvent.hxx:93-95, 121-127) read `scheduledFlags`. What they return after each operation is stated in the ensures of `Cancel`, `ScheduleRead`, `ScheduleWrite`, `CancelRead` and `CancelWrite`.
- `ResolvedClient.Size`, `AtKey` and `AtIndex` model the JSON library's `size()` and `at()`, not code of this repository. `AtKey` and `AtIndex` state when they succeed.

## Left out

- **Real system calls.** The calls through which the spawn code acts are not performed. `Apply` and `ApplyNetwork` log effects to a `Kernel`, and the cgroup code maps one `Fs` value to the next. The affected calls:
  - `mkdirat` and `OpenPath`;
  - `TryWriteExistingFile`;
  - `setns`, `unshare` and `sethostname`;
  - the uid and gid map writes.
- **Error messages.** Errors are datatype values. The exception texts and `errno` formatting are not modelled.
- **The mount sub-configuration is opaque.** It appears as a flag, an identity string and one effect.
  - `mount.Apply`, `mount.MakeId` and `IsEnabled` are not part of this model.
  - `IsExpandable` and `Expand` only delegate to it, so they are left out.
- **`AllocatorPtr`.** Its duplication is memory management. Copies are value copies.
- **`CgroupState` is a value.** It holds the mounts, a controller map and the `memory_v2` flag.
  - The two `assert`s of `Apply` on lookups are the precondition `WellFormed`.
  - The first dot of each attribute name is the precondition `AllDotted`.
- **`CgroupOptions.CgroupOptions.Copy`.** `session` is left unset because the copy constructor copies only `name` and `set` (src/spawn/CgroupOptions.cxx:57). CgroupOptions.hxx is not part of this model.
- **Pid text.** The pid is rendered as its decimal text, which is what `sprintf("%u")` gives. The 32-bit width of `unsigned` is not modelled.
- **`MakeId` buffer bounds.** Both `MakeId`s require the caller's buffer to have room.
  - The source leaves this to the caller.
  - `name`, `session` and the namespace names must hold no null byte, being C strings.
- **`IntrusiveForwardList` iterators and raw access.**
  - `const_iterator` and `begin`/`end` are plain cursor traversal, used directly by the loops that walk `head` and `next`.
  - The `ShallowCopy` constructor aliases its source, which the model does not allow.
  - `Cast`, `ToHook` and `ToNode` are pointer adjustments. The element type is a `Node` that holds its payload.
- **NetstringInput buffer sizes.** NetstringInput.hxx is not part of this model.
  - The header buffer size and the maximum value size are constructor parameters.
  - `ResizeDiscard` allocates a new array.
- **`NetstringInput.NetstringInput.Receive` preconditions.**
  - It requires that a read returns no more bytes than fit the remaining buffer, as `fd.Read` on that span guarantees.
  - It requires that it is not called once finished, which the source asserts.
- **BufferedReader collaborators.** BufferedReader.hxx, the `Reader` interface and `DynamicFifoBuffer` are not part of this model.
  - The buffer is a byte sequence with a capacity: its free space is the capacity minus its length.
  - `MAX_SIZE` and the initial capacity are constructor parameters.
  - The reader is a scripted queue of chunks. Its ghost `ended` flag records that some `Read()` returned no bytes. The buffered reader's `Valid()` ties `eof` to that flag, so "end of file" in the contracts means the input ran out.
  - `ExtractLine` is taken to return the text before the first '\n' and to consume the '\n', with no '\r' stripping.
- **`BufferedReader.BufferedReader.ReadLine` null bytes.** The null byte that ends each returned line (src/io/BufferedReader.cxx:110, 126) is not written, because a line is a sequence. The growth by one byte that makes room for it at end of file is kept, as a capacity change.
- **BufferedReader exceptions.** Where `ReadFull` throws "Premature end of file", the model returns false.
- **QMQP networking.**
  - `NetstringHeader` (the header generator) is taken to render the decimal length and ':'.
  - `client.Request` is modelled as the `submitted` field.
  - The netstring client's I/O and the handler interfaces are not part of this model.
- **`ToString.ToString` address sizes.** `buffer_size` is the length of the buffer array.
  - `getnameinfo` is a function parameter. It returns the host and service texts, or a failure.
  - Overflow of either buffer (`EAI_OVERFLOW`) is modelled.
  - The `sockaddr` layouts and the `sun_path` offset are abstracted: a local address is its path bytes.
- **Datagram omissions.**
  - The fields the default constructor leaves uninitialised are modelled as 0.
  - The `system_clock` overload of `SetTimestamp` and the full `Type` enumeration are left out, because Protocol.hxx is not part of this model.
- **`SocketEvent.SocketEvent.Schedule` is taken to store the requested mask in `scheduled_flags`.** Its body and the epoll registration are not shown.
  - `Open`, `Close`, `Abandon`, the callback dispatch and the event loop are left out.
  - The destructor's `Cancel()` is the `Cancel` method.
- **ResolvedClient JSON.** JSON values are an abstract datatype: null, booleans, integers, strings, arrays and objects.
  - Parsing and dumping are function parameters.
  - Floating-point numbers are left out.
  - `get<int>()` of the family converts integers and booleans, narrowing an integer to 32-bit two's complement as the conversion to `int` does.
  - `ResolvedClient.Start` requires the dumped request to hold no null byte, which the escaping of JSON text guarantees. `Send()` is a function from the bytes sent to its return value.
- **ResolvedClient plumbing.** These are socket and object-lifetime plumbing over code that is not shown:
  - the socket `Close`;
  - `delete this`;
  - `Cancel`;
  - `ConnectResolved`;
  - the `ResolveHostname` entry point.
- **`XattrTable.Index`: key coercion.**
  - A Lua number as key is an error here, where `luaL_checkstring` would convert it to text.
  - The `Lua::Class` cast is a type test.
  - `fgetxattr` is a lookup in a map of the file's attributes, from byte-string names to byte-string values. Any failure of it, ERANGE for a value over 4096 bytes among them, gives zero results; the `errno` is not modelled.
  - `InitXattrTable` and `NewXattrTable` register and create the Lua object, and are left out.
