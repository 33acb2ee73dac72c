# story-chain, modelled in Dafny

story-chain is an on-chain branching-story registry. The program stores one
`StoryNode` account per story fragment at an address it derives itself.
- A root is created by `create_root` from the seeds `"story-node"`, the
  author and the SHA-256 of the title.
- A branch is created by `create_branch` from the seeds `"story-node"`, the
  author, the parent node and the title hash. A branch also increments its
  parent's `children_count`.

A browser client fetches every node. It draws them as a list of root groups,
each root followed by its direct children. It shows a node's children in a
detail view and mints new nodes from a form.

This project models:
- both instructions, as pure functions from a ledger (a map from address to
  `StoryNode`) to a new ledger or a failure;
- the account layout and its size;
- the error enum and its codes;
- the instruction-argument encoding;
- the client's list ordering, its child filter, `mintNode`'s checks, seed
  lists and calls, and `shortenAddr`.

It then proves what the code promises:
- the check order and which check wins;
- the ledger invariant the instructions keep: counters equal the number of
  children, every address is derived from the node's own seeds, every parent
  exists, and every field is within its bound;
- that duplicates are rejected;
- that the client's addresses are the program's;
- that the list shows every node once;
- the scenarios of the repository's tests.

Modules, in dependency order:
- `Types`: bytes, keys, integer widths and `Option`.
- `Borsh`: little-endian integers and length-prefixed byte strings.
- `Utf8`: the encoder from client strings to bytes, and the decoder that
  decides which bytes a Borsh `String` may hold.
- `Errors`: `StoryChainError` and its codes.
- `State`: `StoryNode`, `space` and the account layout.
- `Addresses`: the seed layouts and the abstract address derivation.
- `Instructions`: the arguments and their encoding.
- `Program`: `create_root` and `create_branch`.
- `LedgerInvariant`: the ledger invariant and what every run preserves.
- `ClientText`: `trim` and `shortenAddr`.
- `StoryView`: the story list and the detail view.
- `Mint`: `mintNode`.
- `Browse`: the client's views over a valid ledger.
- `Scenarios`: the test suite's scenarios.

SHA-256 and `find_program_address` are the two fields of a `Runtime` value.
Every result holds for every runtime. Where a result needs more, it requires
one or both of these:
- `NeverDefault`: a derived address is never the all-zero key;
- `CollisionFreeOn`: the different seed lists of one given finite set get
  different addresses. A hash onto 32 bytes collides somewhere, so this is
  asked only of the seed lists a result is about: the new node's paired
  with each stored node's, or the four nodes of a scenario.

The clock reading is a parameter (`now`). The client's base58 parser is a
parameter too (`parseKey`).

What the program does, as the model states it:
- The handler checks run in this order (programs/story-chain/src/lib.rs:23-29):
  title length, content-URI length, image-URI length, empty content URI,
  title seed.
- An empty title is accepted: only its length and its hash are checked.
- An error's code is 6000 plus its position in `StoryChainError`
  (programs/story-chain/src/lib.rs:175-189). So `ImageUriTooLong` is 6002,
  `EmptyUri` 6003, `Overflow` 6004 and `InvalidTitleSeed` 6005.
- Account resolution comes before the handler checks, in this order:
  1. the parent must deserialize (`AccountNotInitialized`);
  2. the target must be the derived address (`ConstraintSeeds`);
  3. the target must be free (`AccountInUse`).
- A string argument or field must be well-formed UTF-8, or it is not read
  at all.

The generated interface app/src/story_chain.ts disagrees with the program.
Its argument lists for `createBranch` (app/src/story_chain.ts:81-98) and `createRoot` (app/src/story_chain.ts:158-176) have no `imageUri`. Its
error list (app/src/story_chain.ts:194-219) has five errors numbered
6000..6004 and no `ImageUriTooLong`, so `emptyUri` is 6002 there. The client follows that interface, and so do the tests' call sites, which pass three
arguments; the model follows the program.

## Model

| member | source | states |
|---|---|---|
| Errors.Code | programs/story-chain/src/lib.rs:175-189 | each error has a code in 6000..6005, in declaration order |
| Errors.FromCode | programs/story-chain/src/lib.rs:175-189 | a code names an error exactly when it lies in 6000..6005, and then it names the error with that code |
| Errors.CodeRoundTrip | programs/story-chain/src/lib.rs:175-189 | decoding an error's code gives back the error |
| Errors.CodeInjective | programs/story-chain/src/lib.rs:175-189 | no two errors share a code |
| State.Space | programs/story-chain/src/lib.rs:166-168 | the size allocated at `init`; what it amounts to is stated by `State.SpaceIsSerializedSize` and `State.SpaceBound` |
| State.Serialize | programs/story-chain/src/lib.rs:144-162 | the account's bytes; `State.AccountRoundTrip` states that `State.Deserialize` inverts it |
| State.Deserialize | programs/story-chain/src/lib.rs:144-162 | every node read back has well-formed UTF-8 strings |
| State.SpaceIsSerializedSize | programs/story-chain/src/lib.rs:164-168 | `space` is exactly the size of the account's serialized data: discriminator, keys, three length-prefixed strings, counter, timestamp, bump |
| State.SpaceBound | programs/story-chain/src/lib.rs:6-9 | an account whose strings respect the bounds takes at most 565 bytes, reached exactly at the bounds |
| State.AccountRoundTrip | programs/story-chain/src/lib.rs:144-162 | reading a stored account gives back the node that was written when its strings are UTF-8, and fails otherwise |
| Utf8.DecodeIffEncode | programs/story-chain/src/lib.rs:18-20 | a byte string decodes as a `String` to `s` exactly when `s` encodes to it |
| Utf8.EncodeIsUtf8 | app/src/main.ts:289-303 | every string the client encodes is well-formed UTF-8 |
| Addresses.SeedLayoutsInjective | programs/story-chain/src/lib.rs:99-126 | root seed lists are equal iff author and title hash are; branch seed lists are equal iff author, parent and title hash are; a root seed list never equals a branch seed list |
| Instructions.EncodeArgs | programs/story-chain/src/lib.rs:93 | the argument bytes a four-argument caller sends; `Instructions.ArgsRoundTrip` states that `Instructions.DecodeArgs` inverts it |
| Instructions.DecodeArgs | programs/story-chain/src/lib.rs:115 | every argument list the program reads has well-formed UTF-8 strings |
| Instructions.ArgsRoundTrip | programs/story-chain/src/lib.rs:93 | the four instruction arguments decode from their encoding unchanged when their strings are UTF-8, and do not decode otherwise |
| Instructions.StaleArgsNeverDecode | app/src/main.ts:319-320 | a three-argument encoding (no image URI) never decodes as the program's four arguments |
| Program.CheckArgs | programs/story-chain/src/lib.rs:23-29 | no error iff every bound holds and the seed is the title's hash; otherwise the error is the first check, in source order, that the arguments violate |
| Program.CheckedAdd | programs/story-chain/src/lib.rs:63-66 | the sum is returned iff it fits in a u64 |
| Program.CreateRoot | programs/story-chain/src/lib.rs:16-43 | never fails `AccountNotInitialized`; fails `ConstraintSeeds` iff the target is not the root-seed address, `AccountInUse` iff it is occupied, and otherwise with a custom error, the first violated check, iff a check fails; on success only the target is added, holding the author, the default parent, the arguments, a zero counter, the clock and the bump |
| Program.CreateBranch | programs/story-chain/src/lib.rs:46-85 | fails `AccountNotInitialized` iff the parent is missing, then `ConstraintSeeds`, `AccountInUse`, the first violated check, or `Overflow` iff the parent's counter is at u64 max; on success the parent's counter is one higher, the child is added under it, and nothing else changes |
| Program.Step | programs/story-chain/src/lib.rs:16-85 | a transaction commits all its writes or none; `LedgerInvariant.StepAppendOnly` and `LedgerInvariant.StepPreservesValid` state what that keeps |
| Program.FirstFailureWins | programs/story-chain/src/lib.rs:23-29 | the reported error is exactly the earliest violated check |
| Program.SameCheckOrder | programs/story-chain/src/lib.rs:53-59 | once accounts resolve, both instructions reject the same arguments with the same error |
| LedgerInvariant.EmptyLedgerValid | programs/story-chain/src/lib.rs:156-157 | the empty ledger satisfies the invariant |
| LedgerInvariant.CreateRootPreservesValid | programs/story-chain/src/lib.rs:31-39 | a committed root keeps the invariant |
| LedgerInvariant.CreateBranchPreservesValid | programs/story-chain/src/lib.rs:61-77 | a committed branch keeps the invariant: the parent's counter still equals its number of children |
| LedgerInvariant.StepPreservesValid | programs/story-chain/src/lib.rs:16-85 | every transaction, committed or aborted, keeps the invariant |
| LedgerInvariant.ReplayPreservesValid | programs/story-chain/src/lib.rs:16-85 | every sequence of transactions keeps the invariant |
| LedgerInvariant.StepAppendOnly | programs/story-chain/src/lib.rs:61-77 | no node disappears, and an existing node changes only in its counter, which never decreases |
| LedgerInvariant.CounterTracksBranches | programs/story-chain/src/lib.rs:61-66 | over any run, a node's counter grows by exactly the number of branches committed under it, and its other fields never change |
| LedgerInvariant.RemintRejected | programs/story-chain/src/lib.rs:95-105 | minting an existing node's (author, title) root, or (author, parent, title) branch, again fails, whatever target is named: `ConstraintSeeds` or `AccountInUse` |
| LedgerInvariant.RootTargetInUseIffDuplicate | programs/story-chain/src/lib.rs:99-104 | where the derivation does not collide between the new root's seeds and any stored node's, a root's target is occupied iff a root with that author and title hash exists |
| LedgerInvariant.BranchTargetInUseIffDuplicate | programs/story-chain/src/lib.rs:121-127 | where the derivation does not collide between the new branch's seeds and any stored node's, a branch's target is occupied iff a branch with that author, parent and title hash exists |
| ClientText.Trim | app/src/main.ts:289-290 | the result is no longer than the input and neither starts nor ends with whitespace |
| ClientText.TrimSpec | app/src/main.ts:289-290 | trim removes a whitespace prefix and suffix and leaves a result that neither starts nor ends with whitespace |
| ClientText.TrimEmptyIffBlank | app/src/main.ts:293-300 | the trimmed input is empty iff the input is all whitespace |
| ClientText.TrimIdempotent | app/src/main.ts:289-290 | trimming twice is trimming once |
| ClientText.ShortenAddr | app/src/main.ts:68-70 | the result has three characters more than twice the shorter of four and the address's length |
| ClientText.ShortenAddrShape | app/src/main.ts:68-70 | an address of at least four characters shortens to 11: its first four characters, `...`, then its last four |
| ClientText.ShortenShortAddr | app/src/main.ts:68-70 | an address of at most four characters appears whole on both sides of `...` |
| StoryView.RenderStoryList | app/src/main.ts:150-192 | the list view's card order; what it draws is stated by the `StoryView` lemmas below |
| StoryView.DetailChildren | app/src/main.ts:252-254 | the detail view's child list; stated by `StoryView.DetailChildrenSpec` |
| StoryView.EmptyStateIffNoNodes | app/src/main.ts:158-163 | the empty state is drawn iff nothing was loaded |
| StoryView.RootsBranchesPartition | app/src/main.ts:151-156 | roots and branches split the loaded nodes, each node in exactly one |
| StoryView.ThreeWayPartition | app/src/main.ts:179-192 | every node is a root, a child of a loaded root, or neither, and exactly one of these |
| StoryView.RootGroupsKeys | app/src/main.ts:168-177 | the root groups show each root once and each branch attached to a root once |
| StoryView.ShownKeysSpec | app/src/main.ts:180-187 | a node is in `shownKeys` iff it is a root or its parent is a loaded root |
| StoryView.UnshownIsUnattached | app/src/main.ts:188-192 | the leftover pass draws exactly the nodes that are neither roots nor children of roots |
| StoryView.EveryNodeOnce | app/src/main.ts:150-192 | with unique keys, every loaded node is drawn exactly once and nothing else is |
| StoryView.RootCardFollowedByChildren | app/src/main.ts:168-177 | each card drawn as a root is a loaded root, followed at once by its direct children in load order |
| StoryView.RootDrawnAsRoot | app/src/main.ts:151-169 | every loaded root (a node whose parent is the default key) is drawn as a root card |
| StoryView.UnattachedLast | app/src/main.ts:179-192 | orphans come after every root group, in load order, and every earlier card is a root or a child of one |
| StoryView.BranchChildrenAreDetailChildren | app/src/main.ts:171-173 | the children under a root in the list are the children its detail view shows |
| StoryView.DetailChildrenSpec | app/src/main.ts:252-254 | the detail view lists exactly the loaded nodes whose parent is the selected node, in load order |
| Mint.MintNode | app/src/main.ts:286-353 | rejects iff no wallet, a blank title, blank content, or an unparsable parent, in that order; otherwise submits the trimmed title's UTF-8, the data-URI-prefixed content, an empty image URI, the title's SHA-256, and a root iff the type is "root" |
| Mint.Prepare | app/src/main.ts:287-300 | the form checks let a form through iff a wallet is connected, neither title nor content is all whitespace, and a branch's parent address parses; the parent is the parsed address for a branch and none for a root |
| Mint.MintNodeAsWritten | app/src/main.ts:286-353 | the client as written; `Mint.AsWrittenDiffersOnlyInArgs` and `Mint.AsWrittenMintNeverDecodes` state how it behaves |
| Mint.SubmitIffSubmittable | app/src/main.ts:286-353 | both the corrected client and the client as written submit exactly those forms |
| Mint.NodeSeedMatches | app/src/main.ts:314 | the client's `"story-node"` bytes are the program's seed |
| Mint.ClientSeedsMatchProgram | app/src/main.ts:313-339 | the client's root and branch seed lists equal the program's |
| Mint.ContentUriShape | app/src/main.ts:303 | the content URI's bytes are the prefix's bytes followed by the content's, so it is never empty |
| Mint.MintTargetsDerivedAddress | app/src/main.ts:310-339 | every submittable form is submitted, naming the address the program derives from the right author, parent and title hash, with a non-empty content URI |
| Mint.ClientShapedRoot | programs/story-chain/src/lib.rs:16-43 | a root with a derived target, correct seed and non-empty URI never fails the seed constraint, the empty-URI check or the seed check, and commits iff the target is free and the lengths fit |
| Mint.ClientShapedBranch | programs/story-chain/src/lib.rs:46-85 | the branch counterpart, adding a missing parent and counter overflow as the other causes of failure |
| Mint.RootRequestOutcome | app/src/main.ts:312-326 | a submittable root form is submitted, and the program rejects it only for an occupied target or an over-long title or content |
| Mint.BranchRequestOutcome | app/src/main.ts:329-350 | a submittable branch form is submitted as a branch, and the program rejects it only for a missing parent, an occupied target, an over-long title or content, or a full counter |
| Mint.AsWrittenDiffersOnlyInArgs | app/src/main.ts:319-320 | the client as written rejects the same forms and targets the same accounts as the corrected one, differing only in the missing image URI |
| Mint.AsWrittenMintNeverDecodes | app/src/main.ts:342-343 | the client as written submits every submittable form, and the argument bytes it sends can never be decoded by the program |
| Mint.MintArgsDecode | programs/story-chain/src/lib.rs:93 | every submittable form is submitted, and the corrected request's argument bytes decode to exactly the arguments the client meant |
| Browse.DetailKeysAreChildren | app/src/main.ts:252-254 | over a full scan, the detail view's children are the ledger's children of the selected node |
| Browse.DetailCountMatchesCounter | app/src/main.ts:252-254 | over a valid ledger, the detail view shows as many children as the node's `children_count` |
| Browse.ScanRootsAreLedgerRoots | app/src/main.ts:151-153 | the client marks as roots exactly the ledger's roots |
| Browse.UnattachedAreDeep | app/src/main.ts:179-192 | over a ledger whose parents exist there are no orphans: the trailing nodes are exactly those whose parent is a branch |
| Browse.ListShowsEveryAccountOnce | app/src/main.ts:150-192 | over a full scan, the list draws each account exactly once and nothing else |
| Scenarios.DarkForest | tests/story-chain.ts:25-174 | where the derivation does not collide on the story's four seed lists, a root, two branches and a deep branch all commit; counters end 2, 1, 0, 0 and each node keeps its parent, author, title and URI |
| Scenarios.EmptyUriRejected | tests/story-chain.ts:176-203 | an empty content URI fails `EmptyUri`, code 6003, and leaves the ledger unchanged |
| Scenarios.LongTitleRejected | tests/story-chain.ts:205-232 | a 65-character title fails `TitleTooLong`, code 6000, and leaves the ledger unchanged |
| Scenarios.InclusiveBounds | programs/story-chain/src/lib.rs:23-26 | 64-byte titles, 200-byte URIs and empty titles pass; one more byte fails the matching check |

## Left out

- SHA-256 and the program-address search are abstract functions. Their only assumed properties are `NeverDefault` and `CollisionFreeOn` a finite set of seed lists, and only where a lemma says so.
- Rent, the payer's lamports, the system program and account-size limits are left out. They are runtime matters outside the program's logic.
- The `msg!` logs are left out.
- The clock is a parameter: `Clock::get` is a runtime call.
- The client's I/O is left out: the wallet, RPC, `loadStories`, DOM rendering, `escapeHtml`, `formatDate`, status messages, the form reset and the event listeners. None of them affects what is sent.
- Browse.ScanOf: assumes `loadStories` delivers a correct and complete scan of the ledger. The client as written decodes accounts with the stale interface, whose `storyNode` type has no `imageUri` (app/src/story_chain.ts:221-279), so every field after `contentUri` would be read too early. With an empty image URI the counter would read as a multiple of 2^32 and the timestamp as roughly the true one times 2^32, so `.toNumber()` (app/src/main.ts:138-139) would throw and the list would not render. This is read from the text, not executed; `loadStories` is outside this model.
- The generated interface file `app/src/story_chain.ts` is only a description of the argument lists. It is not part of this model.
- Mint.MintNode: a non-base58 parent address is modelled as a rejection. In the source it throws inside the `try` and is reported as an error, with the same effect: nothing is sent.
- Utf8.Encode: covers Unicode scalar values only. Lone surrogates in JavaScript strings are left out.
- StoryView.EveryNodeOnce: assumes the loaded nodes have distinct keys. A full account scan returns each account once. Without that assumption the source can draw a node twice.
- Mint.MintArgsDecode: requires a title and content of fewer than 2^30 characters (minus the 16-character prefix for the content). At up to four bytes a character, that keeps them under the 4 GiB a Borsh u32 length prefix can describe; a transaction is far smaller anyway.
- Mint.AsWrittenMintNeverDecodes: requires the same length bounds, for the same reason.
- The tests call `createRoot` and `createBranch` with three arguments (tests/story-chain.ts:36, 72, 112, 155, 187, 216), as the client does. None of these calls can reach the handler checks. The test's interface, generated from the program, lists four arguments, so the client library may refuse to encode a three-argument call; if a three-argument encoding is sent, `Instructions.StaleArgsNeverDecode` states that the program cannot decode it. The `Scenarios` lemmas state what the calls do once the empty image URI is passed as a fourth argument.
- The assertion at tests/story-chain.ts:197-200 accepts "EmptyUri" or "6002". In the program, 6002 is `ImageUriTooLong` and `EmptyUri` is 6003, as `Scenarios.EmptyUriRejected` states.
- Program.CreateBranch: `AccountNotInitialized` stands for every way the parent account can fail to load: missing, owned by another program, or holding another account type. The framework reports these under different names; each aborts the transaction before the handler runs.
- Program.CreateRoot and Program.CreateBranch take the arguments as decoded. They do not check UTF-8 again: `Instructions.DecodeArgs` states that every decoded argument list is well-formed UTF-8.

## Findings

| source | as written | input that shows it | evidently intended | confidence | as-written member | corrected member |
|---|---|---|---|---|---|---|
| app/src/main.ts:319-320 | `createRoot(title, contentUri, titleSeedArg(title))` sends three arguments | any form that passes the checks, e.g. title "a", content "b", type "root" | four arguments, with an empty image URI between content URI and seed | high; not executed | Mint.AsWrittenMintNeverDecodes | Mint.MintArgsDecode |
| app/src/main.ts:342-343 | `createBranch(title, contentUri, titleSeedArg(title))` sends three arguments | any branch form that passes the checks and names a valid parent | four arguments, with an empty image URI | high; not executed | Mint.AsWrittenMintNeverDecodes | Mint.MintArgsDecode |

The rest of the model uses the corrected client, `Mint.MintNode`. The client
as written is `Mint.MintNodeAsWritten`. `Mint.AsWrittenDiffersOnlyInArgs`
shows that the two differ only in the argument list.
