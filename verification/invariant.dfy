/** What every reachable ledger satisfies, and why: each node sits at the
    address derived from its own fields, every branch's parent exists, and
    each node's `children_count` equals the number of nodes naming it as
    parent. Both instructions preserve this, so every sequence of
    transactions does. */
module LedgerInvariant {
  import opened Types
  import opened State
  import opened Errors
  import opened Addresses
  import opened Instructions
  import opened Program

  /** The addresses of the nodes whose `parent` is `p`. */
  function ChildrenOf(ledger: Ledger, p: Pubkey): set<Pubkey>
  {
    set a | a in ledger && ledger[a].parent == p
  }

  /** The seeds a node was created from, recovered from its stored fields. */
  function SeedsOf(rt: Runtime, n: StoryNode): seq<seq<byte>>
  {
    if n.IsRoot() then RootSeeds(n.author, rt.sha256(n.title))
    else BranchSeeds(n.author, n.parent, rt.sha256(n.title))
  }

  /** `n` is stored at the address, and with the bump, derived from its seeds. */
  predicate AtDerivedAddress(rt: Runtime, a: Pubkey, n: StoryNode)
  {
    var pda := rt.findProgramAddress(SeedsOf(rt, n));
    a == pda.address && n.bump == pda.bump
  }

  /** The stored strings respect the bounds the handler enforced. */
  predicate FieldsWithinBounds(n: StoryNode)
  {
    |n.title| <= MAX_TITLE_LEN && 0 < |n.contentUri| <= MAX_URI_LEN && |n.imageUri| <= MAX_URI_LEN
  }

  /** Every branch's parent is a node of the ledger. */
  predicate ParentsExist(ledger: Ledger)
  {
    forall a | a in ledger :: ledger[a].IsRoot() || ledger[a].parent in ledger
  }

  /** Every counter equals the number of nodes naming its node as parent. */
  predicate CountsConsistent(ledger: Ledger)
  {
    forall a | a in ledger :: ledger[a].childrenCount == |ChildrenOf(ledger, a)|
  }

  predicate AddressesDerived(rt: Runtime, ledger: Ledger)
  {
    forall a | a in ledger :: AtDerivedAddress(rt, a, ledger[a])
  }

  predicate BoundsHold(ledger: Ledger)
  {
    forall a | a in ledger :: FieldsWithinBounds(ledger[a])
  }

  ghost predicate Valid(rt: Runtime, ledger: Ledger)
  {
    && DefaultKey !in ledger
    && ParentsExist(ledger)
    && CountsConsistent(ledger)
    && AddressesDerived(rt, ledger)
    && BoundsHold(ledger)
  }

  lemma EmptyLedgerValid(rt: Runtime)
    ensures Valid(rt, map[])
  {
  }

  /** No node of a ledger whose parents exist names a fresh address as its
      parent, so a fresh address has no children yet. */
  lemma NoChildrenOfFreshAddress(ledger: Ledger, t: Pubkey)
    requires ParentsExist(ledger)
    requires t !in ledger && t != DefaultKey
    ensures ChildrenOf(ledger, t) == {}
  {
  }

  /** Inserting a fresh node `t` under `p` (a root when `p` is the default
      key) adds `t` to `p`'s children and to no one else's. */
  lemma ChildrenAfterInsert(ledger: Ledger, next: Ledger, t: Pubkey, p: Pubkey)
    requires t !in ledger
    requires next.Keys == ledger.Keys + {t}
    requires forall a | a in ledger :: next[a].parent == ledger[a].parent
    requires next[t].parent == p
    ensures ChildrenOf(next, p) == ChildrenOf(ledger, p) + {t}
    ensures forall a | a != p :: ChildrenOf(next, a) == ChildrenOf(ledger, a)
  {
  }

  /** Inserting `t` under `p` and bumping `p`'s counter keeps every counter
      equal to its number of children. */
  lemma {:induction false} CountsAfterInsert(ledger: Ledger, next: Ledger, t: Pubkey, p: Pubkey)
    requires ParentsExist(ledger) && CountsConsistent(ledger)
    requires t !in ledger && t != DefaultKey
    requires p == DefaultKey || p in ledger
    requires next.Keys == ledger.Keys + {t}
    requires forall a | a in ledger && a != p :: next[a] == ledger[a]
    requires p in ledger ==> next[p] == ledger[p].(childrenCount := next[p].childrenCount)
    requires p in ledger ==> next[p].childrenCount == ledger[p].childrenCount + 1
    requires next[t].parent == p && next[t].childrenCount == 0
    ensures CountsConsistent(next)
  {
    NoChildrenOfFreshAddress(ledger, t);
    forall a | a in ledger
      ensures next[a].parent == ledger[a].parent
    {
    }
    ChildrenAfterInsert(ledger, next, t, p);
    forall a | a in next
      ensures next[a].childrenCount == |ChildrenOf(next, a)|
    {
      CountAfterInsertAt(ledger, next, t, p, a);
    }
  }

  /** One address's counter after the insertion of `t` under `p`. */
  lemma CountAfterInsertAt(ledger: Ledger, next: Ledger, t: Pubkey, p: Pubkey, a: Pubkey)
    requires a in next && next.Keys == ledger.Keys + {t} && t !in ledger && t != p
    requires ChildrenOf(ledger, t) == {}
    requires ChildrenOf(next, p) == ChildrenOf(ledger, p) + {t}
    requires a != p ==> ChildrenOf(next, a) == ChildrenOf(ledger, a)
    requires a in ledger ==> ledger[a].childrenCount == |ChildrenOf(ledger, a)|
    requires a in ledger && a != p ==> next[a] == ledger[a]
    requires a in ledger && a == p ==> next[p].childrenCount == ledger[p].childrenCount + 1
    requires next[t].parent == p && next[t].childrenCount == 0
    ensures next[a].childrenCount == |ChildrenOf(next, a)|
  {
    if a == p {
      assert t !in ChildrenOf(ledger, a);
    }
  }

  /** Nodes other than `t` keep the fields their address was derived from. */
  lemma AddressesAfterInsert(rt: Runtime, ledger: Ledger, next: Ledger, t: Pubkey)
    requires AddressesDerived(rt, ledger)
    requires next.Keys == ledger.Keys + {t}
    requires forall a | a in ledger :: next[a] == ledger[a].(childrenCount := next[a].childrenCount)
    requires AtDerivedAddress(rt, t, next[t])
    ensures AddressesDerived(rt, next)
  {
    forall a | a in next
      ensures AtDerivedAddress(rt, a, next[a])
    {
      if a != t {
        assert SeedsOf(rt, next[a]) == SeedsOf(rt, ledger[a]);
      }
    }
  }

  lemma ParentsAndBoundsAfterInsert(ledger: Ledger, next: Ledger, t: Pubkey, p: Pubkey)
    requires ParentsExist(ledger) && BoundsHold(ledger)
    requires p == DefaultKey || p in ledger
    requires next.Keys == ledger.Keys + {t}
    requires forall a | a in ledger :: next[a] == ledger[a].(childrenCount := next[a].childrenCount)
    requires next[t].parent == p && FieldsWithinBounds(next[t])
    ensures ParentsExist(next) && BoundsHold(next)
  {
    forall a | a in next
      ensures (next[a].IsRoot() || next[a].parent in next) && FieldsWithinBounds(next[a])
    {
      if a != t {
        assert FieldsWithinBounds(ledger[a]);
      }
    }
  }

  /** The common step of both instructions: a fresh node `t` is written under
      `p`, and `p`'s counter (when `p` is a node) goes up by one. */
  lemma {:induction false} InsertPreservesValid(rt: Runtime, ledger: Ledger, next: Ledger, t: Pubkey, p: Pubkey)
    requires Valid(rt, ledger)
    requires t !in ledger && t != DefaultKey
    requires p == DefaultKey || p in ledger
    requires next.Keys == ledger.Keys + {t}
    requires forall a | a in ledger && a != p :: next[a] == ledger[a]
    requires p in ledger ==> next[p] == ledger[p].(childrenCount := next[p].childrenCount)
    requires p in ledger ==> next[p].childrenCount == ledger[p].childrenCount + 1
    requires next[t].parent == p && next[t].childrenCount == 0
    requires AtDerivedAddress(rt, t, next[t]) && FieldsWithinBounds(next[t])
    ensures Valid(rt, next)
  {
    CountsAfterInsert(ledger, next, t, p);
    forall a | a in ledger
      ensures next[a] == ledger[a].(childrenCount := next[a].childrenCount)
    {
    }
    AddressesAfterInsert(rt, ledger, next, t);
    ParentsAndBoundsAfterInsert(ledger, next, t, p);
  }

  lemma CreateRootPreservesValid(rt: Runtime, ledger: Ledger, storyNode: Pubkey, author: Pubkey,
                                 args: Args, now: I64)
    requires NeverDefault(rt)
    requires Valid(rt, ledger)
    requires CreateRoot(rt, ledger, storyNode, author, args, now).Ok?
    ensures Valid(rt, CreateRoot(rt, ledger, storyNode, author, args, now).value)
  {
    var next := CreateRoot(rt, ledger, storyNode, author, args, now).value;
    assert AtDerivedAddress(rt, storyNode, next[storyNode]);
    InsertPreservesValid(rt, ledger, next, storyNode, DefaultKey);
  }

  lemma CreateBranchPreservesValid(rt: Runtime, ledger: Ledger, storyNode: Pubkey, parentNode: Pubkey,
                                   author: Pubkey, args: Args, now: I64)
    requires NeverDefault(rt)
    requires Valid(rt, ledger)
    requires CreateBranch(rt, ledger, storyNode, parentNode, author, args, now).Ok?
    ensures Valid(rt, CreateBranch(rt, ledger, storyNode, parentNode, author, args, now).value)
  {
    var next := CreateBranch(rt, ledger, storyNode, parentNode, author, args, now).value;
    assert next[storyNode].parent != DefaultKey;
    assert AtDerivedAddress(rt, storyNode, next[storyNode]);
    InsertPreservesValid(rt, ledger, next, storyNode, parentNode);
  }

  /** A transaction, committed or aborted, keeps the ledger valid. */
  lemma StepPreservesValid(rt: Runtime, ledger: Ledger, ix: Instruction, now: I64)
    requires NeverDefault(rt)
    requires Valid(rt, ledger)
    ensures Valid(rt, Step(rt, ledger, ix, now))
  {
    match ix
    case CreateRootIx(storyNode, author, args) =>
      if CreateRoot(rt, ledger, storyNode, author, args, now).Ok? {
        CreateRootPreservesValid(rt, ledger, storyNode, author, args, now);
      }
    case CreateBranchIx(storyNode, parentNode, author, args) =>
      if CreateBranch(rt, ledger, storyNode, parentNode, author, args, now).Ok? {
        CreateBranchPreservesValid(rt, ledger, storyNode, parentNode, author, args, now);
      }
  }

  /** A submitted transaction with the clock reading at its execution. */
  datatype Tx = Tx(ix: Instruction, now: I64)

  /** The ledger after running a sequence of transactions in order. */
  function Replay(rt: Runtime, ledger: Ledger, txs: seq<Tx>): Ledger
    decreases |txs|
  {
    if |txs| == 0 then ledger else Replay(rt, Step(rt, ledger, txs[0].ix, txs[0].now), txs[1..])
  }

  /** Every ledger reachable from the empty one is valid; in particular each
      node's counter equals its number of children, at any depth. */
  lemma {:induction false} ReplayPreservesValid(rt: Runtime, ledger: Ledger, txs: seq<Tx>)
    requires NeverDefault(rt)
    requires Valid(rt, ledger)
    ensures Valid(rt, Replay(rt, ledger, txs))
    decreases |txs|
  {
    if |txs| > 0 {
      StepPreservesValid(rt, ledger, txs[0].ix, txs[0].now);
      ReplayPreservesValid(rt, Step(rt, ledger, txs[0].ix, txs[0].now), txs[1..]);
    }
  }

  /** The ledger is append-only: no node disappears, and an existing node can
      change only in its counter, which never decreases. */
  lemma StepAppendOnly(rt: Runtime, ledger: Ledger, ix: Instruction, now: I64)
    ensures var next := Step(rt, ledger, ix, now);
      && ledger.Keys <= next.Keys
      && forall a | a in ledger ::
           && next[a] == ledger[a].(childrenCount := next[a].childrenCount)
           && ledger[a].childrenCount <= next[a].childrenCount
  {
  }

  /** How many transactions of `txs` commit as a branch off `p`. */
  function BranchesCommittedOff(rt: Runtime, ledger: Ledger, txs: seq<Tx>, p: Pubkey): nat
    decreases |txs|
  {
    if |txs| == 0 then 0
    else
      var ix := txs[0].ix;
      var committed := Execute(rt, ledger, ix, txs[0].now).Ok?;
      (if committed && ix.CreateBranchIx? && ix.parentNode == p then 1 else 0)
      + BranchesCommittedOff(rt, Step(rt, ledger, ix, txs[0].now), txs[1..], p)
  }

  /** Over any run, a node's counter grows by exactly the number of committed
      branches naming it as parent; nothing else touches it. */
  lemma {:induction false} CounterTracksBranches(rt: Runtime, ledger: Ledger, txs: seq<Tx>, p: Pubkey)
    requires p in ledger
    ensures p in Replay(rt, ledger, txs)
    ensures Replay(rt, ledger, txs)[p].childrenCount
         == ledger[p].childrenCount + BranchesCommittedOff(rt, ledger, txs, p)
    ensures Replay(rt, ledger, txs)[p] == ledger[p].(childrenCount := Replay(rt, ledger, txs)[p].childrenCount)
    decreases |txs|
  {
    if |txs| > 0 {
      var next := Step(rt, ledger, txs[0].ix, txs[0].now);
      StepAppendOnly(rt, ledger, txs[0].ix, txs[0].now);
      CounterTracksBranches(rt, next, txs[1..], p);
    }
  }

  /** The same `(author, title)` root, or `(author, parent, title)` branch,
      cannot be minted twice: whatever target the caller names, it is either
      not the derived address or already occupied. */
  lemma RemintRejected(rt: Runtime, ledger: Ledger, a: Pubkey, target: Pubkey, args: Args, now: I64)
    requires Valid(rt, ledger)
    requires a in ledger
    requires args.titleSeed == rt.sha256(ledger[a].title)
    ensures ledger[a].IsRoot() ==>
      CreateRoot(rt, ledger, target, ledger[a].author, args, now).failure in {ConstraintSeeds, AccountInUse}
    ensures !ledger[a].IsRoot() ==>
      CreateBranch(rt, ledger, target, ledger[a].parent, ledger[a].author, args, now).failure
        in {ConstraintSeeds, AccountInUse}
  {
    assert AtDerivedAddress(rt, a, ledger[a]);
  }

  /** The derivation does not collide between `seeds` and the seed list of
      any stored node. */
  predicate NoCollisionWith(rt: Runtime, ledger: Ledger, seeds: seq<seq<byte>>)
  {
    forall a | a in ledger :: CollisionFreeOn(rt, {SeedsOf(rt, ledger[a]), seeds})
  }

  /** Where the derivation does not collide between the new root's seeds and
      the stored nodes', the converse also holds: a root's target is occupied
      exactly when a root with the same author and title hash exists. */
  lemma RootTargetInUseIffDuplicate(rt: Runtime, ledger: Ledger, author: Pubkey, titleSeed: Bytes32)
    requires NoCollisionWith(rt, ledger, RootSeeds(author, titleSeed))
    requires Valid(rt, ledger)
    ensures var t := rt.findProgramAddress(RootSeeds(author, titleSeed)).address;
      t in ledger <==>
        exists a | a in ledger :: ledger[a].IsRoot() && ledger[a].author == author && rt.sha256(ledger[a].title) == titleSeed
  {
    var t := rt.findProgramAddress(RootSeeds(author, titleSeed)).address;
    if t in ledger {
      assert AtDerivedAddress(rt, t, ledger[t]);
      var n := ledger[t];
      assert CollisionFreeOn(rt, {SeedsOf(rt, n), RootSeeds(author, titleSeed)});
      assert SeedsOf(rt, n) == RootSeeds(author, titleSeed);
      SeedLayoutsInjective(n.author, n.parent, rt.sha256(n.title), author, DefaultKey, titleSeed);
      assert n.IsRoot();
    }
  }

  /** The branch counterpart: a branch's target is occupied exactly when a
      branch with the same author, parent and title hash exists. */
  lemma BranchTargetInUseIffDuplicate(rt: Runtime, ledger: Ledger, author: Pubkey, parent: Pubkey,
                                      titleSeed: Bytes32)
    requires NoCollisionWith(rt, ledger, BranchSeeds(author, parent, titleSeed))
    requires Valid(rt, ledger)
    requires parent != DefaultKey
    ensures var t := rt.findProgramAddress(BranchSeeds(author, parent, titleSeed)).address;
      t in ledger <==>
        exists a | a in ledger :: ledger[a].parent == parent && ledger[a].author == author
                                  && rt.sha256(ledger[a].title) == titleSeed
  {
    var t := rt.findProgramAddress(BranchSeeds(author, parent, titleSeed)).address;
    if t in ledger {
      assert AtDerivedAddress(rt, t, ledger[t]);
      var n := ledger[t];
      assert CollisionFreeOn(rt, {SeedsOf(rt, n), BranchSeeds(author, parent, titleSeed)});
      assert SeedsOf(rt, n) == BranchSeeds(author, parent, titleSeed);
      SeedLayoutsInjective(n.author, n.parent, rt.sha256(n.title), author, parent, titleSeed);
    }
    forall a | a in ledger && ledger[a].parent == parent && ledger[a].author == author
                           && rt.sha256(ledger[a].title) == titleSeed
      ensures t == a
    {
      assert AtDerivedAddress(rt, a, ledger[a]);
    }
  }
}
