/** The scenarios the repository's test suite exercises, replayed against
    the model: the "Dark Forest" story (a root, two branches off it and a
    branch off a branch) and the rejected inputs. The hash and the address
    derivation stay abstract; the story holds for every runtime whose
    derivation does not collide on the story's four seed lists. */
module Scenarios {
  import opened Types
  import opened Utf8
  import opened Errors
  import opened State
  import opened Addresses
  import opened Instructions
  import opened Program
  import opened LedgerInvariant

  /** A committed `create_root`: the new node is written at the target and
      nothing else changes. */
  lemma RootCommits(rt: Runtime, ledger: Ledger, target: Pubkey, author: Pubkey, args: Args, now: I64)
    requires target == rt.findProgramAddress(RootSeeds(author, args.titleSeed)).address
    requires target !in ledger && ArgsValid(rt, args)
    ensures Step(rt, ledger, CreateRootIx(target, author, args), now)
         == ledger[target := StoryNode(author, DefaultKey, args.title, args.contentUri, args.imageUri, 0, now,
                                       rt.findProgramAddress(RootSeeds(author, args.titleSeed)).bump)]
  {
  }

  /** A committed `create_branch`: the parent's counter goes up by one, the
      new node is written at the target, and nothing else changes. */
  lemma BranchCommits(rt: Runtime, ledger: Ledger, target: Pubkey, parent: Pubkey, author: Pubkey, args: Args,
                      now: I64)
    requires target == rt.findProgramAddress(BranchSeeds(author, parent, args.titleSeed)).address
    requires parent in ledger && target !in ledger && ArgsValid(rt, args)
    requires ledger[parent].childrenCount < U64_MAX
    ensures Step(rt, ledger, CreateBranchIx(target, parent, author, args), now)
         == ledger[parent := ledger[parent].(childrenCount := ledger[parent].childrenCount + 1)]
                  [target := StoryNode(author, parent, args.title, args.contentUri, args.imageUri, 0, now,
                                       rt.findProgramAddress(BranchSeeds(author, parent, args.titleSeed)).bump)]
  {
  }

  /** Running `[tx] + rest` is running `tx`, then `rest`. */
  lemma ReplayCons(rt: Runtime, ledger: Ledger, txs: seq<Tx>)
    requires |txs| > 0
    ensures Replay(rt, ledger, txs) == Replay(rt, Step(rt, ledger, txs[0].ix, txs[0].now), txs[1..])
  {
  }

  /** The addresses of the story's four nodes. */
  datatype Forest = Forest(root: Pubkey, left: Pubkey, right: Pubkey, deep: Pubkey)

  function ForestAddresses(rt: Runtime, author: Pubkey, root: Args, left: Args, right: Args, deep: Args): Forest
  {
    var r := rt.findProgramAddress(RootSeeds(author, root.titleSeed)).address;
    var l := rt.findProgramAddress(BranchSeeds(author, r, left.titleSeed)).address;
    Forest(r, l,
           rt.findProgramAddress(BranchSeeds(author, r, right.titleSeed)).address,
           rt.findProgramAddress(BranchSeeds(author, l, deep.titleSeed)).address)
  }

  /** The seed lists of the story's four nodes. */
  function ForestSeeds(rt: Runtime, author: Pubkey, root: Args, left: Args, right: Args, deep: Args)
    : set<seq<seq<byte>>>
  {
    var f := ForestAddresses(rt, author, root, left, right, deep);
    {RootSeeds(author, root.titleSeed), BranchSeeds(author, f.root, left.titleSeed),
     BranchSeeds(author, f.root, right.titleSeed), BranchSeeds(author, f.left, deep.titleSeed)}
  }

  /** The story's transactions, in the order the tests send them. */
  function ForestTxs(rt: Runtime, author: Pubkey, root: Args, left: Args, right: Args, deep: Args,
                     now: I64): seq<Tx>
  {
    var f := ForestAddresses(rt, author, root, left, right, deep);
    [Tx(CreateRootIx(f.root, author, root), now),
     Tx(CreateBranchIx(f.left, f.root, author, left), now),
     Tx(CreateBranchIx(f.right, f.root, author, right), now),
     Tx(CreateBranchIx(f.deep, f.left, author, deep), now)]
  }

  /** Where the derivation does not collide on the story's seed lists, the
      four addresses are distinct, as long as the two sibling titles hash
      differently. */
  lemma ForestDistinct(rt: Runtime, author: Pubkey, root: Args, left: Args, right: Args, deep: Args)
    requires CollisionFreeOn(rt, ForestSeeds(rt, author, root, left, right, deep))
    requires left.titleSeed != right.titleSeed
    ensures var f := ForestAddresses(rt, author, root, left, right, deep);
      && f.root != f.left && f.root != f.right && f.root != f.deep
      && f.left != f.right && f.left != f.deep && f.right != f.deep
  {
    var f := ForestAddresses(rt, author, root, left, right, deep);
    SeedLayoutsInjective(author, DefaultKey, root.titleSeed, author, f.root, left.titleSeed);
    SeedLayoutsInjective(author, DefaultKey, root.titleSeed, author, f.root, right.titleSeed);
    SeedLayoutsInjective(author, DefaultKey, root.titleSeed, author, f.left, deep.titleSeed);
    SeedLayoutsInjective(author, f.root, left.titleSeed, author, f.root, right.titleSeed);
    SeedLayoutsInjective(author, f.root, left.titleSeed, author, f.left, deep.titleSeed);
    SeedLayoutsInjective(author, f.root, right.titleSeed, author, f.left, deep.titleSeed);
  }

  /** The story of the test suite: every transaction commits; the root ends
      with two children, the left branch with one, the others with none; each
      node names the parent it was minted under and keeps its own title and
      content URI. */
  lemma DarkForest(rt: Runtime, author: Pubkey, root: Args, left: Args, right: Args, deep: Args, now: I64)
    requires CollisionFreeOn(rt, ForestSeeds(rt, author, root, left, right, deep))
    requires ArgsValid(rt, root) && ArgsValid(rt, left) && ArgsValid(rt, right) && ArgsValid(rt, deep)
    requires left.titleSeed != right.titleSeed
    ensures var f := ForestAddresses(rt, author, root, left, right, deep);
      var l := Replay(rt, map[], ForestTxs(rt, author, root, left, right, deep, now));
      && l.Keys == {f.root, f.left, f.right, f.deep}
      && l[f.root].parent == DefaultKey && l[f.root].childrenCount == 2
      && l[f.left].parent == f.root && l[f.left].childrenCount == 1
      && l[f.right].parent == f.root && l[f.right].childrenCount == 0
      && l[f.deep].parent == f.left && l[f.deep].childrenCount == 0
      && l[f.root].title == root.title && l[f.root].contentUri == root.contentUri
      && l[f.left].title == left.title && l[f.left].contentUri == left.contentUri
      && l[f.right].title == right.title && l[f.right].contentUri == right.contentUri
      && l[f.deep].title == deep.title && l[f.deep].contentUri == deep.contentUri
      && forall a | a in l :: l[a].author == author
  {
    var f := ForestAddresses(rt, author, root, left, right, deep);
    var txs := ForestTxs(rt, author, root, left, right, deep, now);
    ForestDistinct(rt, author, root, left, right, deep);
    var l0: Ledger := map[];
    RootCommits(rt, l0, f.root, author, root, now);
    var l1 := Step(rt, l0, txs[0].ix, now);
    BranchCommits(rt, l1, f.left, f.root, author, left, now);
    var l2 := Step(rt, l1, txs[1].ix, now);
    BranchCommits(rt, l2, f.right, f.root, author, right, now);
    var l3 := Step(rt, l2, txs[2].ix, now);
    BranchCommits(rt, l3, f.deep, f.left, author, deep, now);
    var l4 := Step(rt, l3, txs[3].ix, now);
    ReplayCons(rt, l0, txs);
    ReplayCons(rt, l1, txs[1..]);
    ReplayCons(rt, l2, txs[2..]);
    ReplayCons(rt, l3, txs[3..]);
    assert txs[1..][1..] == txs[2..] && txs[2..][1..] == txs[3..] && txs[3..][1..] == [];
  }

  /** `"A".repeat(n)`. */
  function Repeat(c: char, n: nat): (r: string)
    ensures |r| == n
    ensures forall i | 0 <= i < n :: r[i] == c
  {
    seq(n, _ => c)
  }

  /** A title of 65 ASCII characters is 65 bytes: `create_root` fails with
      `TitleTooLong`, code 6000, and the ledger is left as it was. */
  lemma LongTitleRejected(rt: Runtime, ledger: Ledger, author: Pubkey, contentUri: seq<byte>, now: I64)
    ensures var title := Encode(Repeat('A', 65));
      var args := Args(title, contentUri, [], rt.sha256(title));
      var target := rt.findProgramAddress(RootSeeds(author, args.titleSeed)).address;
      && (target !in ledger ==> CreateRoot(rt, ledger, target, author, args, now) == Err(Custom(TitleTooLong)))
      && Code(TitleTooLong) == 6000
      && Step(rt, ledger, CreateRootIx(target, author, args), now) == ledger
  {
    EncodeAscii(Repeat('A', 65));
  }

  /** An empty content URI with an eight-character title fails with
      `EmptyUri`, code 6003 (6002 is `ImageUriTooLong`), and the ledger is
      left as it was. */
  lemma EmptyUriRejected(rt: Runtime, ledger: Ledger, author: Pubkey, now: I64)
    ensures var title := Encode("Bad Node");
      var args := Args(title, [], [], rt.sha256(title));
      var target := rt.findProgramAddress(RootSeeds(author, args.titleSeed)).address;
      && (target !in ledger ==> CreateRoot(rt, ledger, target, author, args, now) == Err(Custom(EmptyUri)))
      && Code(EmptyUri) == 6003 && FromCode(6002) == Some(ImageUriTooLong)
      && Step(rt, ledger, CreateRootIx(target, author, args), now) == ledger
  {
    EncodeLength("Bad Node");
  }

  /** The bounds are inclusive and there is no lower bound on the title: a
      64-byte title with 200-byte URIs passes every check, and so does an
      empty title; one byte more on any of them fails the matching check. */
  lemma InclusiveBounds(rt: Runtime, title: seq<byte>, contentUri: seq<byte>, imageUri: seq<byte>)
    requires |title| == 64 && |contentUri| == 200 && |imageUri| == 200
    ensures CheckArgs(rt, Args(title, contentUri, imageUri, rt.sha256(title))) == None
    ensures CheckArgs(rt, Args([], contentUri, imageUri, rt.sha256([]))) == None
    ensures CheckArgs(rt, Args(title + [0], contentUri, imageUri, rt.sha256(title + [0]))) == Some(TitleTooLong)
    ensures CheckArgs(rt, Args(title, contentUri + [0], imageUri, rt.sha256(title))) == Some(UriTooLong)
    ensures CheckArgs(rt, Args(title, contentUri, imageUri + [0], rt.sha256(title))) == Some(ImageUriTooLong)
  {
  }
}
