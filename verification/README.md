# Verified models of the fe2o3 evidence and authority tools

This project models the parts of fe2o3's Python, C and C++ tooling on which its evidence rests, and proves what they promise for every input, every run and every reachable state. `dafny verify dfyconfig.toml` checks all of it.

What is modelled, and where:

- **Git closure** (`GitTree`, `GitClosure`, `GitReads`, `GitObject`, `GitExport`, `GitCommits`): the raw tree parser, the frame of a loose object, the cached object reads with their limits, the walk that flattens a tree DAG under budgets, and the ancestry walk. The object store is an arbitrary map from ids to files, with inflation and identity as parameters, so sharing and cycles are possible. The meaning of an export is the `Unfold`ing of the DAG; the meaning of an ancestry is the set of commits on parent paths.
- **Source manifest** (`Text`, `Manifest`, `ManifestParser`, `ManifestExport`): the canonical printer, the parser, the byte comparison with an export, and when an export can be printed as a manifest at all.
- **Cleanup walker** (`FileTree`, `CleanupWalk`, `Cleanup`): the iterative deletion of a directory tree over a file system of inodes and an open-descriptor table. `Cleaner` is the code; every system call may fail at any time. `Cleared` is the recursive deletion it refines.
- **SHA-256** (`Sha256Spec`, `Sha256Constants`, `Sha256`): sections 5 and 6 of FIPS 180-4 as functions, the constants and word functions characterised on their own, and the streaming contexts in C and C++ with their in-place buffers.
- **Launcher** (`PidStream`, `Processes`, `Groups`, `Supervisor`, `Handshake`): the child-list reader, a process table with reparenting and process groups, the supervisor with its log of collected processes and of timed signals, and the two-process handshake as a transition system in which either side may stop at any point.
- **Trace checker** (`Ledger`, `SpawnTree`, `TraceCheck`, `Scanners`): the budget ledger that survives as text between runs, the spawn-tree check with an admission that has state, and the parser of a trace line with its two scanners.
- **Rust masker** (`RustTokens`, `RustMask`): what a token is in terms of the text alone, and the scanner.
- **Formats** (`Formats`): the printed records, written out line by line.
- **Lexical paths** (`Paths`), **instruction catalog** (`Catalog`, `CatalogIndex`) and **temporary-path redirect** (`TmpRedirect`).

Byte strings are `string`s, except in SHA-256, where they are sequences of `bv8`. Files and descriptors, the clock, signals, other processes, `zlib`, hashing inside the manifest and `str.isalnum` are parameters or arbitrary choices, so every statement holds for all of them.

Results worth knowing that a reader of the code would not expect:

- The final sort of `export_tree` is the identity, and its duplicate check can only fire on an empty closure: Git's entry order already is the order of full paths (`KeysOrderPaths`, `UnfoldIncreasing`, `SortIsIdentity`).
- An export of valid Git names need not be a valid manifest: a path that begins with `.`, `_`, `+`, `:` or `-` is exported but refused by the manifest grammar. `ExportAccepted` gives the exact condition on which the parser accepts an export, and `HiddenRefused` a store whose export it refuses.
- The "cyclic or repeated" failure of the trace processor, the "unavailable syscall record" failure of its line parser and the `ECHILD` failure of `poll_leader` cannot happen (`Process`, `ResultNotEmpty`, `PollLeader`).
- Whether an export can be read does not depend on the order of the walk: a walk stopped by an unreadable object proves that no order would have read them all within the limits (`UnreadableIsLack`).
- `verify_child_descriptors` does not notice an executable that an earlier install has overwritten. The installs are right exactly when no source is overwritten (`InstallExact`); the check passes wrongly exactly for an executable at the place of the policy or the capability (`CheckExact`), and the descriptors `main` obtains satisfy that (`MainAllocates`).
- The status the launcher reports is that of the last collected process with the leader's id. The first one collected is always the leader, so the report is right exactly when the id was collected once (`LogKnows` in `Run`). A collected leader's id can be given to a grandchild that the launcher then inherits and collects (`LeaderIdReused`).
- A signal to the leader's group stays inside the tree as long as the leader's id is in use and nobody from outside enters the group (`AllStayInside` in `Run`). Once the leader is collected and its group has no member, the id is free, and two steps of others suffice for the group to be somebody else's (`FreeIsLost`).
- The grace before SIGKILL counts from the beginning of the termination, not from the first SIGTERM: the deadline is taken before the first signal.
- `/` does not normalise to itself but to the empty refusal (`NormalTwice` says exactly which paths are affected), and the separate check for unsafe text adds nothing to the component check (`ResolvedIsSafe`).
- The child holds descriptors 0 to 2 and 240 to 242 when it execs; the executable's, 242, closes at the exec, so the program starts with 0 to 2, 240 and 241 (`AtExec`).

## Model

| member | source | states |
|---|---|---|
| `GitTree.ParseTree` | scripts/parity-oci-executor.py:2907-2952 | A payload is accepted exactly when it is the encoding of a canonical entry list, and the result is that list. |
| `GitTree.ParseEntry` | scripts/parity-oci-executor.py:2917-2943 | One entry: the slice read is the encoding of the entry returned; after a refusal no legal entry's encoding begins there. |
| `GitTree.SeparatorsInWindows` | scripts/parity-oci-executor.py:2917-2920 | The bounded searches for the blank and the zero byte find the separators of every legal entry. |
| `GitTree.PrefixCode` | scripts/parity-oci-executor.py:2917-2924 | Two legal entries whose encodings begin the same bytes are equal. |
| `Formats.EntryBytes` | scripts/parity-oci-executor.py:2917-2943 | The bytes of an entry: its mode in octal digits, `40000` for a directory, a blank, the name, a zero byte and the id. |
| `GitTree.EncodeInjective` | scripts/parity-oci-executor.py:2907-2952 | Different lists of legal entries have different encodings. |
| `GitTree.DecodeUnique` | scripts/parity-oci-executor.py:2907-2952 | Every canonical list is recovered from its encoding. |
| `GitTree.CanonicalSnoc` | scripts/parity-oci-executor.py:2928-2951 | The checks made on a further entry keep the list canonical. |
| `GitTree.Clash` | scripts/parity-oci-executor.py:2935-2946 | A repeated name or a key out of order rules out every canonical list that continues the one read. |
| `GitClosure.KeysOrderPaths` | scripts/parity-oci-executor.py:2944-2968 | The order of entry keys, with `/` after directory names, is the order of all full paths below the entries. |
| `GitClosure.UnfoldIncreasing` | scripts/parity-oci-executor.py:2959-2985 | The depth-first append order of files is strictly increasing by full path, for every store. |
| `GitClosure.UnfoldMembers` | scripts/parity-oci-executor.py:2959-2982 | A file is in the unfolding exactly when a chain of tree entries leads to it under its path. |
| `GitClosure.ChainUnfolds` | scripts/parity-oci-executor.py:2961-2975 | A chain of directories in an unfolding is no longer than the levels allowed. |
| `GitClosure.CycleHasNoUnfolding` | scripts/parity-oci-executor.py:2963-2964 | A tree that contains itself has no unfolding at any depth. |
| `GitClosure.UnfoldAcyclic` | scripts/parity-oci-executor.py:2963-2964 | Everything below an unfoldable tree is free of cycles. |
| `GitExport.ObjectStore.ExportTree` | scripts/parity-oci-executor.py:2954-2988 | Succeeds exactly when the unfolding is within the file, directory, depth and byte limits and not empty, and every object that the closure meets is sound and affordable together with what earlier calls cached. The result is the unfolding: all files of the closure, increasing, from an acyclic tree; the cache grew by exactly the objects met. An unreadable object means that they are not all affordable; any other failure means that the unfolding is over budget, absent or empty. The bounds on files, directories, tree bytes and visits hold in every outcome, also on cyclic and exponential stores. |
| `GitExport.ObjectStore.Visit` | scripts/parity-oci-executor.py:2959-2982 | A visit adds the unfolding of its tree to the output, counts and charges, and caches exactly what it meets; or fails only when the total is not admitted, or at an object that cannot be read with the cache as it then is. The bounds hold in every outcome. |
| `GitExport.ObjectStore.VisitContents` | scripts/parity-oci-executor.py:2966-2981 | The same for the tree object and its entries, while the tree is active. |
| `GitExport.ObjectStore.VisitEntries` | scripts/parity-oci-executor.py:2967-2980 | The same for the entries of one tree, with the active set restored. |
| `GitExport.ObjectStore.VisitEntry` | scripts/parity-oci-executor.py:2968-2980 | The same for one entry, directory or file. |
| `GitExport.ObjectStore.ParseTreeObject` | scripts/parity-oci-executor.py:2907-2911 | Reads the tree's entries and charges its bytes; fails only for an unreadable object, a payload that is no tree, or bytes beyond the index limit. |
| `GitExport.ObjectStore.ReadObject` | scripts/parity-oci-executor.py:2668-2778 | Succeeds exactly for an object of the wanted kind that is sound and whose compressed and expanded sizes still fit the totals of the distinct objects cached so far; then it returns the payload and caches it. After a failure the cache is as before. What the store holds is what `OnDisk` says. |
| `GitObject.UnframeExact` | scripts/parity-oci-executor.py:2744-2765 | An expanded object is taken apart exactly when it is the frame of kind, length and payload. |
| `GitObject.OnDisk` | scripts/parity-oci-executor.py:2729-2765 | The store holds an object exactly when its file expands to the frame of the object and the frame has its id. |
| `GitReads.ReadableWhen` | scripts/parity-oci-executor.py:2668-2778 | The limits on one read, taken together, are soundness of the object and room for the set of distinct objects. |
| `GitReads.TotalGrows` | scripts/parity-oci-executor.py:2668-2778 | The totals and the count grow with the set of objects, so the order of reads does not matter. |
| `GitReads.MeetsDown` | scripts/parity-oci-executor.py:2959-2982 | What a tree meets is itself and what its entries meet. |
| `GitReads.MeetsUp` | scripts/parity-oci-executor.py:2959-2982 | What an entry meets, its tree meets. |
| `GitReads.ReadOn` | scripts/parity-oci-executor.py:2967-2980 | Walks in sequence read the union, from the cache the first left. |
| `GitReads.UnreadableIsLack` | scripts/parity-oci-executor.py:2954-2988 | If a walk stopped at an unreadable object, the closure as a whole is not affordable. |
| `GitReads.CompleteIsAffordable` | scripts/parity-oci-executor.py:2954-2988 | If a walk read all it meets, the closure is affordable and the cache grew by exactly its objects. |
| `GitExport.SortIsIdentity` | scripts/parity-oci-executor.py:2985 | Sorting an increasing list by path leaves it alone. |
| `GitExport.PathsDistinct` | scripts/parity-oci-executor.py:2986-2987 | An increasing list has as many paths as files. |
| `GitExport.NextEntry` | scripts/parity-oci-executor.py:2967-2980 | Once a prefix of the entries is over budget, so is the whole. |
| `GitExport.TreeCharge` | scripts/parity-oci-executor.py:2907-2911 | The cost of a tree is its bytes and then its entries. |
| `GitExport.DirectoryCharge` | scripts/parity-oci-executor.py:2971-2975 | The cost of a directory entry is one directory and then its tree. |
| `GitCommits.Ancestry.CommitTree` | scripts/parity-oci-executor.py:2881-2905 | Success: the memo holds exactly the ancestors, with their headers; none is on a cycle; there are at most the limit; each has a path from the start within the depth limit. A failure names a true reason. |
| `GitCommits.Ancestry.Visit` | scripts/parity-oci-executor.py:2885-2903 | Success: the commit is finished after its ancestors, although the memo was written before; the active set is restored in all cases. |
| `GitCommits.Ancestry.VisitParents` | scripts/parity-oci-executor.py:2899-2900 | All parents are finished, or one of them failed for a true reason. |
| `GitCommits.PathDescends` | scripts/parity-oci-executor.py:2885-2903 | Along a parent path positions in the finishing order fall by at least one a step. |
| `GitCommits.OrderedIsAcyclic` | scripts/parity-oci-executor.py:2888-2889 | No finished commit is its own ancestor. |
| `GitCommits.OrderedIsClosed` | scripts/parity-oci-executor.py:2899-2901 | Every ancestor of a finished commit is finished. |
| `Cleanup.Cleaner.RemoveDirectoryContents` | scripts/parity-oci-executor.py:2143-2264 | The descriptor table is as before in every outcome; at most three more descriptors were ever open, the one that a listing duplicates included, at any depth; and at most one name beyond the quota was ever listed. Success: the file system is the recursive deletion, and the budget grew by the links in the tree. Failure: only links in the tree were removed; without a system error the quota was exceeded. |
| `Cleanup.Cleaner.ReadCleanupEntries` | scripts/parity-oci-executor.py:2129-2140 | Lists every name once and charges one for each, refusing exactly beyond the quota and after at most one name more; reading may also fail between names. |
| `Cleanup.Cleaner.TakeEntry` | scripts/parity-oci-executor.py:2158-2203 | One name of the current listing: unlinked, or entered as a directory; the walk invariant holds again. |
| `Cleanup.Cleaner.UnlinkEntry` | scripts/parity-oci-executor.py:2163-2166 | A link to anything but a directory, symbolic links included, is removed and not followed. |
| `Cleanup.Cleaner.EnterDirectory` | scripts/parity-oci-executor.py:2168-2203 | The child is opened, checked and listed, the parent's descriptor closed, the stack extended. |
| `Cleanup.Cleaner.OpenAndList` | scripts/parity-oci-executor.py:2168-2185 | A new descriptor for the checked child and its listing, or nothing left open. |
| `Cleanup.Cleaner.MoveDown` | scripts/parity-oci-executor.py:2186-2192 | The moving descriptor becomes the child's; the caller's is never closed. |
| `Cleanup.Cleaner.PushChild` | scripts/parity-oci-executor.py:2186-2203 | The child becomes the top of the stack with its descriptor and its listing charged, and the walk invariant holds; or a close failed. |
| `Cleanup.Cleaner.LeaveDirectory` | scripts/parity-oci-executor.py:2208-2255 | The emptied child is removed from its parent, and the walk continues there. |
| `Cleanup.Cleaner.OpenCheckedParent` | scripts/parity-oci-executor.py:2212-2233 | `..` is the parent on the stack and still links the child, or nothing is left open. |
| `Cleanup.Cleaner.MoveUp` | scripts/parity-oci-executor.py:2212-2250 | The moving descriptor becomes the parent's, or the caller's own at the root. |
| `Cleanup.Cleaner.RemoveEmptied` | scripts/parity-oci-executor.py:2251-2253 | The removed child was empty, and its subtree is done. |
| `Cleanup.Cleaner.WalkAll` | scripts/parity-oci-executor.py:2157-2255 | The loop ends, and then the tree is cleared. |
| `Cleanup.Cleaner.ListAndWalk` | scripts/parity-oci-executor.py:2147-2255 | From the first listing to the end, with the moving descriptor accounted for. |
| `CleanupWalk.UnlinkKeeps` | scripts/parity-oci-executor.py:2163-2166 | Unlinking the next name keeps the walk invariant. |
| `CleanupWalk.EnterKeeps` | scripts/parity-oci-executor.py:2168-2203 | Entering the next directory keeps it. |
| `CleanupWalk.LeaveKeeps` | scripts/parity-oci-executor.py:2208-2253 | Removing an exhausted directory keeps it. |
| `CleanupWalk.EnterFresh` | scripts/parity-oci-executor.py:2168-2185 | A directory about to be entered has not been touched and is not on the stack. |
| `CleanupWalk.LeaveFound` | scripts/parity-oci-executor.py:2208-2233 | An exhausted directory is empty and still linked from the frame below. |
| `CleanupWalk.EndIsCleared` | scripts/parity-oci-executor.py:2205-2206 | When only the exhausted root is left, the file system is the recursive deletion of its contents. |
| `CleanupWalk.Confined` | scripts/parity-oci-executor.py:2143-2264 | At every point of the walk only links below the root are missing. |
| `Cleanup.SortKeepsListing` | scripts/parity-oci-executor.py:2140 | Sorting a listing loses and repeats no name. |
| `Sha256Spec.PaddingIsLeast` | scripts/fe2o3-rustc-trampoline.c:414-433 | The padding of section 5.1.1 of FIPS 180-4 is the least that fills whole blocks. |
| `Sha256Spec.LengthFieldReads` | scripts/fe2o3-rustc-trampoline.c:425-427 | The length field reads back, big-endian, as the number of bits. |
| `Sha256Spec.HashConcat` | scripts/fe2o3-rustc-trampoline.c:392-412 | Hashing whole blocks in two parts is hashing them at once. |
| `Sha256Constants.ConstantsAreRoots` | scripts/fe2o3-rustc-trampoline.c:316-329 | Each of the 64 round constants is the first 32 bits of the fractional part of the cube root of its prime, 2 to 311, by exact comparison of cubes of integers. |
| `Sha256Constants.InitialIsRoots` | scripts/fe2o3-rustc-trampoline.c:383-385 | Each of the eight initial words is that of the square root of its prime, 2 to 19. |
| `Sha256Constants.RotateRightMoves` | scripts/fe2o3-rustc-trampoline.c:298-300 | The upper bits of a word come out below, the lower ones above, and no bit is lost. |
| `Sha256Constants.ChSelects` | scripts/fe2o3-rustc-trampoline.c:355 | `Ch` takes the second word's bits where the first has ones and the third's where it has zeros. |
| `Sha256Constants.MajAgreesFirst` | scripts/fe2o3-rustc-trampoline.c:360 | `Maj` has the common bits wherever the first two words agree. |
| `Sha256Constants.MajAgreesOuter` | scripts/fe2o3-rustc-trampoline.c:360 | The same for the first and the third. |
| `Sha256Constants.MajAgreesLast` | scripts/fe2o3-rustc-trampoline.c:360 | The same for the last two. |
| `Sha256Constants.BigSigma0Is` | scripts/fe2o3-rustc-trampoline.c:358-359 | The exclusive or of the rotations by 2, 13 and 22, each written as its two shifts. |
| `Sha256Constants.BigSigma1Is` | scripts/fe2o3-rustc-trampoline.c:353-354 | The same by 6, 11 and 25. |
| `Sha256Constants.SmallSigma0Is` | scripts/fe2o3-rustc-trampoline.c:337-338 | The exclusive or of the rotations by 7 and 18 and the shift by 3. |
| `Sha256Constants.SmallSigma1Is` | scripts/fe2o3-rustc-trampoline.c:339-340 | The same by 17 and 19 and the shift by 10. |
| `Sha256Constants.ExampleRound` | scripts/fe2o3-rustc-trampoline.c:352-368 | Round 20 of the published one-block example takes the published working variables to the published next ones. |
| `Sha256Constants.ExampleWord` | scripts/fe2o3-rustc-trampoline.c:335-342 | The published schedule word 40 of that example follows from the four words it depends on. |
| `Sha256Constants.ExampleEnds` | scripts/fe2o3-rustc-trampoline.c:302-312 | The published digest follows from the working variables after the last round; words and bytes are big-endian. |
| `Sha256.ExpandWords` | scripts/fe2o3-rustc-trampoline.c:330-342 | The 64 words are the message schedule of section 6.2.2. |
| `Sha256.Transform` | scripts/fe2o3-rustc-trampoline.c:314-380 | One block is compressed as section 6.2.2 says, with the constants of `ConstantsAreRoots` and the word functions of `Sha256Constants`. |
| `Sha256.Context.Update` | scripts/fe2o3-rustc-trampoline.c:392-412 | The message grows by the data; refused exactly when the byte count would wrap. |
| `Sha256.Context.AbsorbAll` | scripts/fe2o3-rustc-trampoline.c:399-410 | Any data, however it straddles blocks, is appended to the message the state stands for. |
| `Sha256.Context.PadAndCompress` | scripts/fe2o3-rustc-trampoline.c:414-428 | Padding in place, in one or two blocks, gives the digest of the padded message. |
| `Sha256.Context.Finish` | scripts/fe2o3-rustc-trampoline.c:414-433 | The bytes are the FIPS 180-4 digest of everything absorbed, below 2^61 bytes, with the constants and word functions characterised in `Sha256Constants`; beyond, with the length field reduced. |
| `Sha256.Context.UpdateWrapping` | scripts/fe2o3-static-host-lld-build-guard.cpp:104-118 | The C++ update appends the data; its byte count wraps. |
| `Sha256.Context.FinishHex` | scripts/fe2o3-static-host-lld-build-guard.cpp:122-143 | Padding byte by byte through `update` gives the lowercase hex of the same digest. |
| `Sha256.HashChunks` | scripts/fe2o3-rustc-trampoline.c:382-433 | For any split into updates, the hex digest is that of the concatenation. |
| `Sha256.HashChunksCpp` | scripts/fe2o3-static-host-lld-build-trace-check.cpp:64-190 | The same for the C++ copies. |
| `Sha256.PadInPlace` | scripts/fe2o3-rustc-trampoline.c:417-428 | Both cases of the in-place padding compress exactly the padded message. |
| `Sha256.PadByBytes` | scripts/fe2o3-static-host-lld-build-guard.cpp:123-133 | Feeding the padding bytewise leaves the digest in the state. |
| `Sha256.BelowWrap` | scripts/fe2o3-rustc-trampoline.c:416 | Below 2^61 bytes the wrapped bit count is the true one. |
| `Sha256.StoreDigest` | scripts/fe2o3-rustc-trampoline.c:429-431 | The eight words are stored big-endian, in order. |
| `Sha256.IdentityHex` | scripts/fe2o3-rustc-trampoline.c:1014-1023 | 64 lowercase hex characters of the 32 bytes. |
| `Sha256.HexWords` | scripts/fe2o3-static-host-lld-build-guard.cpp:135-142 | Printing nibbles of words is printing the bytes of the digest. |
| `RustMask.RustMask` | scripts/one_stop_completion_cpu.py:61-105 | The in-place scanner returns the text with exactly the tokens blanked, line breaks excepted: the ranges are in order, each begins where a token begins, ends where that token ends, and every character between two of them begins none. It fails exactly at the first token that is not closed. |
| `RustMask.FindToken` | scripts/one_stop_completion_cpu.py:67-101 | Which token begins at a position and where it ends, in terms of the text alone: a line comment up to the line break, a block comment at balance, a raw string after as many marks as it opened with and not after a word character, one of four forms of character literal, a string at the first quote not escaped; unclosed when there is no such end; and plain exactly when none of these begins. |
| `RustMask.ScanMeans` | scripts/one_stop_completion_cpu.py:67-101 | The recursive scanner has that meaning at every position of every text. |
| `RustMask.LineMeans` | scripts/one_stop_completion_cpu.py:68-70 | A line comment ends at the first line break, or at the end of the text. |
| `RustMask.RawOpenIs` | scripts/one_stop_completion_cpu.py:52-90 | A raw string opens exactly at `r` or `br`, marks and a quote, and not after a word character. |
| `RustMask.RawCloseFirst` | scripts/one_stop_completion_cpu.py:87-90 | It closes after the first quote with as many marks. |
| `RustMask.CharEndIs` | scripts/one_stop_completion_cpu.py:53 | A character literal ends at a place exactly when one of the four forms does: a plain character, an escaped one, two hex digits, or hex digits in braces. |
| `RustTokens.CharUnique` | scripts/one_stop_completion_cpu.py:53 | A character literal has one end, whichever of the four forms it has. |
| `RustMask.Segments` | scripts/one_stop_completion_cpu.py:61-105 | Every text is divided into tokens and plain characters, up to its end or to the first unclosed token. |
| `RustMask.MaskBlanks` | scripts/one_stop_completion_cpu.py:61-105 | The mask blanks exactly the ranges of that division, line breaks excepted. |
| `RustMask.BlockComment` | scripts/one_stop_completion_cpu.py:70-82 | The loop finds the first place where openers and closers balance, or that there is none. |
| `RustMask.StringLiteral` | scripts/one_stop_completion_cpu.py:93-98 | The loop finds the first quote that is not escaped, or that there is none. |
| `RustMask.FindsFirst` | scripts/one_stop_completion_cpu.py:69 | `find` gives the first occurrence from a place on, if there is one. |
| `RustMask.BlockEndsFirst` | scripts/one_stop_completion_cpu.py:70-82 | A block comment ends at the first place where openers and closers, read without overlap, balance; it is unclosed exactly when there is none. |
| `RustMask.StringEndsFirst` | scripts/one_stop_completion_cpu.py:93-98 | A string ends after the first quote that an even number of backslashes precedes; it is unclosed exactly when there is none. |
| `RustMask.BlankRange` | scripts/one_stop_completion_cpu.py:102-104 | Exactly the range is blanked, line breaks excepted. |
| `RustMask.MaskShape` | scripts/one_stop_completion_cpu.py:61-105 | The mask keeps the length and every line break, and changes other characters only to blanks. |
| `RustMask.MaskRemovesOpeners` | scripts/one_stop_completion_cpu.py:61-105 | No quote, `//` or `/*` is left. |
| `RustMask.MaskTwice` | scripts/one_stop_completion_cpu.py:61-105 | Masking a mask changes nothing. |
| `RustMask.NothingLeft` | scripts/one_stop_completion_cpu.py:84-101 | No token of any kind begins anywhere in a mask. |
| `RustMask.LiteralSurvives` | scripts/one_stop_completion_cpu.py:53-92 | Masking never makes a new character literal: one in the mask was one in the text. |
| `RustMask.Survivor` | scripts/one_stop_completion_cpu.py:99-104 | A visible character of a mask was outside every token. |
| `RustMask.Company` | scripts/one_stop_completion_cpu.py:102-104 | A changed character has a neighbour in the same token. |
| `Manifest.CanonicalReads` | scripts/parity-oci-executor.py:1846-1873 | The printed manifest splits back into its rows and fields. |
| `Manifest.CanonicalInjective` | scripts/parity-oci-executor.py:1846-1873 | Different entry lists have different manifests. |
| `Manifest.RowsRead` | scripts/parity-oci-executor.py:268-284 | Clean rows, printed, are accepted and read back. |
| `Manifest.Index4Reads` | scripts/parity-oci-executor.py:1858-1862 | An index is printed with four digits at least, no more than needed beyond that, and reads back. |
| `Formats.ManifestText` | scripts/parity-oci-executor.py:1846-1873 | The manifest, line by line: schema, commit, tree, count, one line for each file with its fields, the sum of sizes, and the digest of the root domain and the body. |
| `ManifestParser.ParseSourceManifest` | scripts/parity-oci-executor.py:1876-1943 | Accepts exactly the canonical print of a valid, sorted list within the limits and with the expected digests, and returns that list. |
| `ManifestParser.ParseRows` | scripts/parity-oci-executor.py:268-284 | Accepts exactly well-formed text and splits it. |
| `ManifestParser.Cursor.TakeScalar` | scripts/parity-oci-executor.py:292-299 | Takes the next row exactly when it is a nonempty scalar for the key. |
| `ManifestParser.EntryOf` | scripts/parity-oci-executor.py:1903-1919 | A row is a file row of a valid entry after the previous path exactly when an entry is returned, and it is that one. |
| `ManifestParser.ParseHead` | scripts/parity-oci-executor.py:1886-1898 | Reads the header and the count, refusing no list that is laid out. |
| `ManifestParser.ParseFiles` | scripts/parity-oci-executor.py:1899-1920 | Reads sorted valid entries within the byte limit, and exactly those laid out. |
| `ManifestParser.ParseTail` | scripts/parity-oci-executor.py:1921-1929 | Reads the totals and the root digest. |
| `ManifestParser.VerifyExportedSource` | scripts/parity-oci-executor.py:2059-2078 | The comparison of bytes and digests succeeds exactly when the entry lists are equal. |
| `ManifestExport.ExportIsClean` | scripts/parity-oci-executor.py:2059-2078 | Every exported file has a row without tabs or breaks. |
| `ManifestExport.ExportedPath` | scripts/parity-oci-executor.py:2928-2943 | Exported paths have only allowed characters and components. |
| `ManifestExport.EntryValidity` | scripts/parity-oci-executor.py:253-258 | An exported file is a valid manifest entry exactly when its path begins with a letter or digit and it fits. |
| `ManifestExport.ExportValidity` | scripts/parity-oci-executor.py:1876-1943 | The rows of an export are a valid manifest exactly when there is one at least and at most the file limit, all paths begin with a letter or digit and the sizes fit together. |
| `ManifestExport.CanonicalSize` | scripts/parity-oci-executor.py:1154-1156 | Within the limits of a profile, the manifest is never too long for the parser. |
| `ManifestExport.ExportAccepted` | scripts/parity-oci-executor.py:1876-1943 | The parser accepts the manifest printed for an export exactly under the condition of `ExportValidity`. |
| `ManifestExport.HiddenRefused` | scripts/parity-oci-executor.py:2942 | A store with one file `.x` has an export whose manifest the parser refuses. |
| `Ledger.ParseLedger` | scripts/fe2o3-static-host-lld-build-trace-check.cpp:1390-1431 | What is accepted balances: unique phases, totals that are sums within the bounds, no subtraction below zero. Serialised text of a balanced ledger parses to it. |
| `Ledger.ParsePhases` | scripts/fe2o3-static-host-lld-build-trace-check.cpp:1407-1423 | The phase rows of a serialised ledger are read to the last. |
| `Ledger.ParsePhase` | scripts/fe2o3-static-host-lld-build-trace-check.cpp:1410-1418 | A row is accepted only if it fits what was read so far, and always if it is the print of one that does. |
| `Ledger.SerializeReads` | scripts/fe2o3-static-host-lld-build-trace-check.cpp:1433-1447 | The text splits back into its lines. |
| `Formats.LedgerIs` | scripts/fe2o3-static-host-lld-build-trace-check.cpp:1433-1447 | The ledger, line by line: format, status, the two bounds, a line for each phase, the totals and the end. |
| `Ledger.SerializedSize` | scripts/fe2o3-static-host-lld-build-trace-check.cpp:1363-1368 | The text of a balanced ledger stays far below the reread limit. |
| `Ledger.AddBalanced` | scripts/fe2o3-static-host-lld-build-trace-check.cpp:1642-1644 | A new phase within the bounds keeps the balance. |
| `Ledger.LedgerFile.Retain` | scripts/fe2o3-static-host-lld-build-trace-check.cpp:1603-1648 | After any history, a step succeeds exactly for a new canonical phase that fits both bounds; the stored text always reparses to the ledger in memory. |
| `Ledger.LedgerFile.constructor` | scripts/fe2o3-static-host-lld-build-trace-check.cpp:1557-1562 | An empty file is an empty ledger for bounds the program accepts. |
| `SpawnTree.Run` | scripts/fe2o3-static-host-lld-build-trace-check.cpp:979-1002 | For any admission that goes from state to state: passes exactly when the traces form one spawn tree and the admission refuses no record on its walk, where a spawned process's records come right after the spawn. Then every record was judged once, each process was entered once with its parent's directory at the spawn, and the evidence names the spawner and counts execs. |
| `SpawnTree.Scan` | scripts/fe2o3-static-host-lld-build-trace-check.cpp:980-990 | Passes exactly when no process is spawned twice and each has a trace; the set is that of the spawned. |
| `SpawnTree.Processor.Process` | scripts/fe2o3-static-host-lld-build-trace-check.cpp:1053-1186 | After the scan a process is never entered twice; everything below it is entered and on record, the places judged are those of its walk and new; a failure means that the run cannot pass. |
| `SpawnTree.Processor.Step` | scripts/fe2o3-static-host-lld-build-trace-check.cpp:1058-1184 | One record: refused, or spawn, exec or change of directory, in the directory that the records so far give; the places judged continue the walk; a refusal means that the run cannot pass. |
| `SpawnTree.Processor.SpawnStep` | scripts/fe2o3-static-host-lld-build-trace-check.cpp:1060-1065 | The child of a successful spawn is new, and its walk is done before the next record. |
| `SpawnTree.NewChild` | scripts/fe2o3-static-host-lld-build-trace-check.cpp:1053-1055 | A spawn record not acted on leads to a process not entered. |
| `SpawnTree.OnlyRoot` | scripts/fe2o3-static-host-lld-build-trace-check.cpp:991-998 | A tree has no second unspawned process. |
| `SpawnTree.EverythingEntered` | scripts/fe2o3-static-host-lld-build-trace-check.cpp:999-1001 | In one tree, processing from the root enters every trace. |
| `SpawnTree.RefusedIsLost` | scripts/fe2o3-static-host-lld-build-trace-check.cpp:1058-1184 | A record refused after what was judged before it is refused on every walk that could pass. |
| `SpawnTree.StartsFollow` | scripts/fe2o3-static-host-lld-build-trace-check.cpp:1060-1065 | A process starts where its spawner's records before the spawn have led. |
| `SpawnTree.WalkUnique` | scripts/fe2o3-static-host-lld-build-trace-check.cpp:1053-1186 | There is at most one walk from a record on. |
| `SpawnTree.WalkCovers` | scripts/fe2o3-static-host-lld-build-trace-check.cpp:979-1002 | The walk from the root of a tree reaches every record of every trace. |
| `SpawnTree.WalkFits` | scripts/fe2o3-static-host-lld-build-trace-check.cpp:1053-1186 | Every place on the walk has the directory that its process's start and its records so far give. |
| `TraceCheck.Check` | scripts/fe2o3-static-host-lld-build-trace-check.cpp:922-1002 | On parsed records: passes exactly when every successful spawn has a process id for its result and, with the records read for their meaning, the run passes. Then, in terms of the records themselves: the root's first record was judged in the given directory, a spawned process's first in its parent's at the spawn, and every other in that of the record before it, which only a successful `chdir`, `fchdir` or `getcwd` changes, to what it names; the evidence of a process names a process one of whose records spawned it, and the number of its successful `execve` and `execveat` records. |
| `TraceCheck.DirectedNow` | scripts/fe2o3-static-host-lld-build-trace-check.cpp:1053-1186 | On the walk of a passing run, the directories are those that the records give. |
| `TraceCheck.WitnessedNow` | scripts/fe2o3-static-host-lld-build-trace-check.cpp:1053-1186 | The evidence of a passing run is that of the records. |
| `TraceCheck.MeaningMoves` | scripts/fe2o3-static-host-lld-build-trace-check.cpp:1058-1183 | What one record does to the directory, by its name, success and argument: `chdir` resolves against the directory unless absolute, `fchdir` takes the descriptor's path, `getcwd` the path returned; all others leave it. |
| `TraceCheck.ExecsCount` | scripts/fe2o3-static-host-lld-build-trace-check.cpp:1066-1073 | The exec count is the number of successful `execve` and `execveat` records. |
| `TraceCheck.ChildIs` | scripts/fe2o3-static-host-lld-build-trace-check.cpp:922-932 | A record spawns a process exactly when it is a successful `clone`, `clone3`, `fork` or `vfork` whose result begins with the digits of its id. |
| `TraceCheck.CheckResults` | scripts/fe2o3-static-host-lld-build-trace-check.cpp:922-932 | Passes exactly when no successful spawn has a result without an id that fits 64 bits. |
| `TraceCheck.ChildReads` | scripts/fe2o3-static-host-lld-build-trace-check.cpp:922-932 | A printed id is read whatever follows it, unless that is a digit. |
| `TraceCheck.SpawnsAre` | scripts/fe2o3-static-host-lld-build-trace-check.cpp:922-932 | The spawn relation of the traces is exactly what the results of spawns say. |
| `SpawnTree.ClosedHolds` | scripts/fe2o3-static-host-lld-build-trace-check.cpp:999-1001 | A set closed under spawning that holds the root holds every descendant. |
| `Scanners.FindClose` | scripts/fe2o3-static-host-lld-build-trace-check.cpp:404-429 | Finds the first place outside strings where the depth returns to zero, if there is one. |
| `Scanners.SplitArguments` | scripts/fe2o3-static-host-lld-build-trace-check.cpp:325-372 | Succeeds exactly on balanced text; the arguments are its pieces, trimmed. |
| `Scanners.PiecesUnique` | scripts/fe2o3-static-host-lld-build-trace-check.cpp:325-372 | A text has at most one list of balanced pieces without a top-level comma that gives it when joined by commas. |
| `Scanners.PiecesBalanced` | scripts/fe2o3-static-host-lld-build-trace-check.cpp:325-372 | Joining balanced pieces gives balanced text. |
| `Scanners.InString` | scripts/fe2o3-static-host-lld-build-trace-check.cpp:404-429 | From an opening quote on, as long as no quote after an even number of backslashes was met, the scanner is inside the string, and it takes the next character as escaped exactly after an odd number of backslashes. |
| `Scanners.StringEnds` | scripts/fe2o3-static-host-lld-build-trace-check.cpp:404-429 | It leaves the string at the first quote after an even number of backslashes and not before. |
| `Scanners.DepthCounts` | scripts/fe2o3-static-host-lld-build-trace-check.cpp:404-429 | The depth goes up by one at `(` and down at `)`, outside strings only. |
| `Scanners.Lockstep` | scripts/fe2o3-static-host-lld-build-trace-check.cpp:334-350 | On every text the two scanners agree about strings, and their depths differ by one. |
| `Scanners.RoundNeverFails` | scripts/fe2o3-static-host-lld-build-trace-check.cpp:462-468 | On what the first scanner selects, the second never fails for a round parenthesis or a quote. |
| `Scanners.ReadArguments` | scripts/fe2o3-static-host-lld-build-trace-check.cpp:404-429 | The argument text is split exactly when it closes and its brackets and braces match. |
| `Scanners.ParseRecord` | scripts/fe2o3-static-host-lld-build-trace-check.cpp:383-469 | A line is read as a record exactly when it is not marked unfinished, resumed, detached or as a message of the tracer, and has a syscall name, closing arguments that split, a result, and a canonical errno or an exit without result; name, arguments, result, success and error are those of the line. Signal and exit notices are skipped, exactly those. |
| `Scanners.OnlyShape` | scripts/fe2o3-static-host-lld-build-trace-check.cpp:395-434 | A line has at most one reading as name, arguments and result. |
| `Scanners.ResultNotEmpty` | scripts/fe2o3-static-host-lld-build-trace-check.cpp:434-436 | A result after `= ` is never empty, so that failure cannot occur. |
| `PidStream.SignalAdopted` | scripts/cargo-fe2o3-authority-launcher.c:846-907 | Succeeds exactly when the reads end within the limit and their bytes list signalable ids; these are signalled in order, however the reads cut the text; after a failure the signalled ids are the first of those listed. Found is true exactly when something was signalled. |
| `PidStream.Take` | scripts/cargo-fe2o3-authority-launcher.c:877-902 | One byte: the variables stand for the text so far, or no continuation of it is accepted. The overflow test is exact. |
| `PidStream.Finish` | scripts/cargo-fe2o3-authority-launcher.c:866-876 | At the end the last word is signalled exactly when the whole text is good. |
| `PidStream.EndFails` | scripts/cargo-fe2o3-authority-launcher.c:889-894 | A word that is over the count, zero or beyond `INT_MAX`, or whose signal fails, rules out every continuation of the text. |
| `PidStream.WordsJoin` | scripts/cargo-fe2o3-authority-launcher.c:877-902 | A text cut after a blank is read in two parts. |
| `PidStream.ListingReads` | scripts/cargo-fe2o3-authority-launcher.c:823-832 | A listing of ids in decimal reads back as those ids. |
| `PidStream.OverflowFails` | scripts/cargo-fe2o3-authority-launcher.c:881-884 | A word beyond 64 bits is refused in every continuation. |
| `Processes.StepKeeps` | scripts/cargo-fe2o3-authority-launcher.c:845-846 | Whatever other processes do, a subreaper keeps exactly the tree it started, loses no child, and an empty tree stays empty. |
| `Processes.NoChildrenNoDescendants` | scripts/cargo-fe2o3-authority-launcher.c:925-930 | A subreaper without children has no descendants. |
| `Processes.ReaperSide` | scripts/cargo-fe2o3-authority-launcher.c:1149-1151 | Orphans are inherited inside the tree exactly when their parent was in it. |
| `Processes.StepNumbers` | scripts/cargo-fe2o3-authority-launcher.c:845-846 | A process that is gone never comes back: a later one with its id has a later birth. |
| `Processes.LeaderIdReused` | scripts/cargo-fe2o3-authority-launcher.c:916-919 | A run in which the launcher collects the leader, and then a grandchild with the same id and another status. |
| `Processes.LostWithoutSubreaper` | scripts/cargo-fe2o3-authority-launcher.c:1149-1151 | Without the subreaper flag a grandchild escapes. |
| `Supervisor.Launcher.Run` | scripts/cargo-fe2o3-authority-launcher.c:1148-1252 | An outcome is given for every run, and each means exactly one thing: the launcher has children already, or a call failed before a leader was forked, or the leader never greeted, or the handshake failed, or the tree is not proved empty, or the leader outlived its time, or a signal was caught, or a call failed while waiting; the run ends with the leader's status exactly when none of these holds. That status is `n` for an exit with `n` and `128 + n` for death by signal `n`, of the last process collected under the leader's id; the first one collected is the leader, any later one is not. Every outcome but "has children", "not emptied" and "not proved empty" leaves no process of the tree. There is one termination: a timeout means that it began after the whole time with the leader not collected. All signals belong to it: SIGTERM until a turning point, then SIGKILL, and that only when the grace has passed or a call has failed since the termination began. While the leader's id is in use and nobody from outside enters its group, no signal leaves the tree. |
| `Supervisor.Launcher.Supervise` | scripts/cargo-fe2o3-authority-launcher.c:1204-1252 | The same from the fork on: with the greeting and the one termination on record, the outcome is exactly the one that they, the caught signal and the leader's end call for. |
| `Supervisor.Launcher.Conclude` | scripts/cargo-fe2o3-authority-launcher.c:1236-1252 | The last decisions: from the result of the wait, of the termination and the caught signal, the outcome that the state at the greeting and at the start of the termination calls for. |
| `Supervisor.TellsNoHandshake` | scripts/cargo-fe2o3-authority-launcher.c:1204-1235 | If the leader did not greet, the outcomes after the handshake are ruled out. |
| `Supervisor.Launcher.TerminateAndReap` | scripts/cargo-fe2o3-authority-launcher.c:1011-1026 | Result 1 means the tree is empty, 0 that the grace after SIGKILL has passed as well, -1 that a call failed. Its beginning and its result go on record. Signals are SIGTERM until the turning point and SIGKILL after it; if any SIGKILL is sent, then at the turning point the group had been sent SIGTERM and the grace had passed since the beginning, or a system call had failed since then. |
| `Supervisor.Launcher.DrainPhase` | scripts/cargo-fe2o3-authority-launcher.c:979-1009 | 1: empty; 0: the whole grace has passed; either way the group was signalled with this phase's signal, and nothing else was sent; -1: a system call failed; it ends. |
| `Supervisor.Launcher.DrainPass` | scripts/cargo-fe2o3-authority-launcher.c:985-996 | In a completed round the group and every child present at its start were signalled, with this signal only; an incomplete round means a failed system call. |
| `Supervisor.Launcher.SignalAdopted` | scripts/cargo-fe2o3-authority-launcher.c:846-907 | The ids signalled are, in order, those that the child list reads as, up to a failure; each is at that moment a child of the launcher, although others run in between; success tells every child present at the start. |
| `Supervisor.Launcher.ReapExited` | scripts/cargo-fe2o3-authority-launcher.c:909-936 | Success without live children means the tree is empty; the record of the leader stays true of the log. |
| `Supervisor.Launcher.PollLeader` | scripts/cargo-fe2o3-authority-launcher.c:938-970 | 1: collected; 0: not collected after the whole time; in both cases no call failed; -1: a call failed, or a signal was caught while the leader was not collected; a missing leader cannot occur. |
| `Supervisor.Launcher.DeadlineAfter` | scripts/cargo-fe2o3-authority-launcher.c:728-735 | A deadline is at least the duration ahead and within 64 bits. |
| `Supervisor.Launcher.WaitAny` | scripts/cargo-fe2o3-authority-launcher.c:909-936 | A collected process was a child and is logged with its birth; "no child" means that the tree is empty. |
| `Supervisor.KnowsMore` | scripts/cargo-fe2o3-authority-launcher.c:916-919 | Collecting a child keeps the launcher's record of its leader true, whatever its id. |
| `Supervisor.LogGrows` | scripts/cargo-fe2o3-authority-launcher.c:916-919 | In every log the first entry of the leader's id is the leader and no other is. |
| `Supervisor.KillOnlyWhenDue` | scripts/cargo-fe2o3-authority-launcher.c:1011-1026 | Every SIGKILL comes at least the grace after the termination began and after SIGTERM to the group, or after a call that failed since then. |
| `Supervisor.SignalsStay` | scripts/cargo-fe2o3-authority-launcher.c:972-977 | In every run, a signal sent while the leader's id had always been in use and nobody from outside had entered its group reaches only the tree. |
| `Groups.GroupStays` | scripts/cargo-fe2o3-authority-launcher.c:972-977 | The members of a guarded group are in the tree, at every moment of every run. |
| `Groups.ConfinedStep` | scripts/cargo-fe2o3-authority-launcher.c:972-977 | As long as the id is in use, a step takes it out of the tree exactly when a process outside enters the group. |
| `Groups.FreeIsLost` | scripts/cargo-fe2o3-authority-launcher.c:972-977 | From every table in which the id is free, two steps of others lead to one in which the group has a member outside the tree. |
| `Handshake.ExecOnlyAfter` | scripts/cargo-fe2o3-authority-launcher.c:1066-1252 | In every run that reaches the program, earlier steps led the group, received exactly READY, saw the group, sent exactly ALLOW and received it, in this order; at the exec the child leads its group and the launcher lives, and, if no source is overwritten, the three objects are in place and the program has 0 to 2, the policy and the capability. |
| `Handshake.ChildChecks` | scripts/cargo-fe2o3-authority-launcher.c:1066-1102 | Whatever messages get into the socket, a child that reaches the program led its group, bound its life to the launcher's, found it alive, found its descriptors right, received a message that says exactly ALLOW, and then made the exec, in this order. |
| `Handshake.LauncherChecks` | scripts/cargo-fe2o3-authority-launcher.c:1204-1235 | Whatever messages get into the socket, a launcher that supervises received one that says exactly READY, then saw the child lead its group, then sent ALLOW to a child not gone. |
| `Handshake.RunKeeps` | scripts/cargo-fe2o3-authority-launcher.c:1066-1252 | In every state of every run the events so far are the beginning of the one possible script, and the messages in flight are what it says. |
| `Handshake.StepKeeps` | scripts/cargo-fe2o3-authority-launcher.c:1066-1252 | Every step of either side, a death or a timeout keeps the invariant. |
| `Handshake.AtExec` | scripts/cargo-fe2o3-authority-launcher.c:1066-1102 | At the exec the child leads its group, the launcher lives, the descriptors are 0 to 2 and the three objects in place; the executable's closes. |
| `Handshake.LogGrows` | scripts/cargo-fe2o3-authority-launcher.c:1066-1252 | What each event of the script means in the step in which it happens. |
| `Handshake.CanExecute` | scripts/cargo-fe2o3-authority-launcher.c:1066-1252 | From every good start there is a run that succeeds. |
| `Handshake.InstallExact` | scripts/cargo-fe2o3-authority-launcher.c:1028-1082 | The three objects end in their places exactly when no source is overwritten by an earlier install. |
| `Handshake.CheckExact` | scripts/cargo-fe2o3-authority-launcher.c:1045-1064 | The check passes exactly when the capability is not at the place of the policy, and passes with an object out of place exactly when in addition the executable is at the place of the policy or the capability. |
| `Handshake.MainAllocates` | scripts/cargo-fe2o3-authority-launcher.c:1122-1174 | With lowest-free allocation the sources are 5, 7 and 4. |
| `Paths.NormalizeAbsolutePath` | scripts/fe2o3-static-host-lld-build-guard.cpp:953-982 | Nothing exactly when the text is not absolute, a component is malformed or a step goes above the root; otherwise the path of the names that no later `..` takes back, in order: a name remains exactly when the depth never falls below it again. |
| `Paths.PrintComponents` | scripts/fe2o3-static-host-lld-build-guard.cpp:978-981 | The loop prints a slash before every component, and the root for none. |
| `Paths.ResolvesExactly` | scripts/fe2o3-static-host-lld-build-guard.cpp:958-976 | Refused exactly for a malformed component or a step above the root; the depth is names less steps up. |
| `Paths.ResolvesTo` | scripts/fe2o3-static-host-lld-build-guard.cpp:958-976 | The place reached consists of the names that no later step up takes back. |
| `Paths.EndsUnique` | scripts/fe2o3-static-host-lld-build-guard.cpp:958-976 | There is one such place. |
| `Paths.NormalMeans` | scripts/fe2o3-static-host-lld-build-guard.cpp:953-982 | The same for the text: its pieces between slashes, and the path of the place. |
| `Paths.NormalTwice` | scripts/fe2o3-static-host-lld-build-guard.cpp:953-982 | Normalising twice is normalising once exactly for paths that do not lead to the root; those that do give `/` and then nothing. |
| `Paths.NormalIsRoot` | scripts/fe2o3-static-host-lld-build-guard.cpp:953-982 | The result is `/` exactly when the components are legal, never step above the root and end at depth zero. |
| `Paths.PrintInjective` | scripts/fe2o3-static-host-lld-build-guard.cpp:978-981 | Different places have different paths. |
| `Paths.UnderRoot` | scripts/fe2o3-static-host-lld-build-guard.cpp:998-1002 | The text prefix test is the prefix test on components. |
| `Paths.CandidateIs` | scripts/fe2o3-static-host-lld-build-guard.cpp:989-995 | The candidate is the print of where the link leads from its folder. |
| `Paths.ResolvedIsSafe` | scripts/fe2o3-static-host-lld-build-guard.cpp:309-314 | Text whose components resolve has no unsafe byte. |
| `Paths.SymlinkStaysWithin` | scripts/fe2o3-static-host-lld-build-guard.cpp:984-1003 | True exactly when the link's target, taken from the link's folder unless absolute, can be followed and the names that remain begin with those of a guarded root. |
| `Paths.AllowedMeans` | scripts/fe2o3-static-host-lld-build-guard.cpp:984-1003 | The place of the link's destination lies at or below a root exactly when its names begin with the root's. |
| `Catalog.CollectStrings` | scripts/amd-isa-catalog-v1.py:316-323 | The result grows by exactly the strings of the elements reached outside prose. |
| `Catalog.CompactSucceeds` | scripts/amd-isa-catalog-v1.py:309-313 | No lookup fails exactly when all strings in use have numbers. |
| `Catalog.CompactOfReached` | scripts/amd-isa-catalog-v1.py:326-330 | With the collected strings numbered, no lookup for any reached element fails, and its compact form decodes to it without prose. |
| `Catalog.DecodeCompact` | scripts/amd-isa-catalog-v1-tests.py:21-30 | Decoding the compact form gives the tree without its prose. |
| `Catalog.ChildrenKept` | scripts/amd-isa-catalog-v1.py:309-313 | The children kept are, in order and each without its prose, exactly those not tagged `Description`. |
| `Catalog.SortKeepsDict` | scripts/amd-isa-catalog-v1.py:311 | Sorting attributes does not change the dictionary. |
| `Catalog.SortStrings` | scripts/amd-isa-catalog-v1.py:329 | Strictly increasing, with exactly the given strings. |
| `Catalog.NumberStrings` | scripts/amd-isa-catalog-v1.py:330 | Every string maps to its position. |
| `CatalogIndex.JsonPrefix` | scripts/amd-isa-catalog-v1.py:44-45 | The text of a tree determines the tree and where it ends. |
| `CatalogIndex.Output.AddEntry` | scripts/amd-isa-catalog-v1.py:354-356 | The new range holds the text of the element, after all earlier ranges. |
| `CatalogIndex.AddSection` | scripts/amd-isa-catalog-v1.py:351-356 | All entries of a section get their ranges. |
| `CatalogIndex.AddSections` | scripts/amd-isa-catalog-v1.py:347-357 | The text grows by the sections with commas between them, and every entry has its range. |
| `CatalogIndex.Write` | scripts/amd-isa-catalog-v1.py:331-358 | The whole text is the open header, the sections and the closing braces. |
| `CatalogIndex.Metadata` | scripts/amd-isa-catalog-v1.py:326-360 | Each range slices the output to the text of its element and of no other compact tree, which decodes to it; ranges are in order and apart; the text is the header with its strings and trees, the sections and the end; the document and architecture in the header decode to theirs; the strings are the sorted strings in use; it fails exactly beyond the size limit. |
| `CatalogIndex.HeaderHolds` | scripts/amd-isa-catalog-v1.py:338-345 | Nine keys of the header hold their own values: architecture, digests, member, strings, document, architecture tree and the two lists of conditions. |
| `CatalogIndex.JsonIs` | scripts/amd-isa-catalog-v1.py:309-313 | The text of a node is the array of its tag number, attribute numbers, text number and children. |
| `TmpRedirect.RewriteTmp` | scripts/fe2o3-static-host-lld-tmp-redirect.cpp:12-50 | Writes only inside the buffer; keeps, refuses or rewrites exactly as the path, the root and the length limit say. |
| `TmpRedirect.Copy` | scripts/fe2o3-static-host-lld-tmp-redirect.cpp:32-48 | A text is copied exactly when it fits before the last byte. |
| `TmpRedirect.Confined` | scripts/fe2o3-static-host-lld-tmp-redirect.cpp:12-50 | What comes out is outside `/tmp` by its text, or inside the private directory. |
| `TmpRedirect.RewriteTwice` | scripts/fe2o3-static-host-lld-tmp-redirect.cpp:12-50 | Rewriting a result changes nothing. |
| `TmpRedirect.RewriteMeans` | scripts/fe2o3-static-host-lld-tmp-redirect.cpp:12-50 | A path is kept exactly when it is not in `/tmp` or already in a usable root; refused for access exactly when in `/tmp` without a usable root; otherwise the root takes the place of `/tmp` and all after it is kept, or the result is too long, exactly beyond 4095. |

## Left out

- Sha256Constants.ConstantsAreRoots: that the numbers listed are the first 64 primes is not proved; they are written out.
- GitExport.ObjectStore.ReadObject: inflation and SHA-1 are parameters, of which nothing is assumed; the checks of file metadata are not modelled.
- `parse_commit_headers` (lines 2809 to 2879): headers are given; only the walk over them is modelled.
- Cleanup.Cleaner.RemoveDirectoryContents: one actor, so other processes that change the tree during the walk, and what `fchmod` and `fsync` do, are not captured; a failed identity check counts as a system error.
- Ledger.ParseLedger: numerals with leading zeros are accepted by the program, so text that was not written by it need not be reproduced by the serialiser.
- Ledger.LedgerFile.Retain: completed transactions only; a crash between truncation and rewriting, locking and the copying of trace files are not modelled.
- SpawnTree.Processor.Step: what `Admission` decides is a parameter, for which its whole state and so the history of the records counts; the decoding of quoted paths and descriptor annotations and the normalisation of paths are parameters of `TraceCheck`.
- SpawnTree.Processor.Process: as for `Step`.
- SpawnTree.Run: as for `Step`.
- Supervisor.Launcher.Run: that a signalled process dies in the end is not claimed, only what follows when the launcher finds no child; the death of the launcher itself appears in `Handshake`.
- Supervisor.Launcher.Kill: the effect of a signal is arbitrary behaviour of other processes. Sessions, which restrict who may enter a group, are not modelled.
- Handshake.MainAllocates: descriptors that `main` opens and closes in between are assumed closed again.
- CatalogIndex.Metadata: JSON strings and the stripping of text are parameters, and two values of the header are given as their JSON; validation of the catalog is not modelled.
- Paths.SymlinkStaysWithin: lexical only, as in the program; links inside the candidate path are not followed.
- Landlock, seccomp, inotify, cgroups, memory files, containers, systemd records and Docker probes.
- Ed25519 verification in `scripts/gfx942_compiler_evidence.py`.
- Validators of profiles, policies, rulesets and release controls; shard partitioning; performance statistics and benchmarks. They would add only easy members or need floating-point and random sampling.
