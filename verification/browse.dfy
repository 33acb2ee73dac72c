/** The client's view of the chain: `loadStories` fetches every story-node
    account, and the story list and the detail view are drawn from that scan.
    Over a valid ledger the drawings agree with the program's bookkeeping. */
module Browse {
  import opened Types
  import opened State
  import opened Addresses
  import opened Program
  import opened LedgerInvariant
  import opened StoryView

  /** `program.account.storyNode.all()`: every account of the ledger exactly
      once, in an order the RPC node chooses, each reduced to its address and
      parent. */
  predicate ScanOf(ns: seq<LoadedNode>, ledger: Ledger)
  {
    && UniqueKeys(ns)
    && KeySet(ns) == ledger.Keys
    && forall i | 0 <= i < |ns| :: ns[i].key in ledger && ns[i].parent == ledger[ns[i].key].parent
  }

  /** A node of the scan is the ledger's account at its key. */
  lemma ScanNode(ns: seq<LoadedNode>, ledger: Ledger, n: LoadedNode)
    requires ScanOf(ns, ledger)
    requires n in ns
    ensures n.key in ledger && n.parent == ledger[n.key].parent
  {
    var i :| 0 <= i < |ns| && ns[i] == n;
  }

  /** With unique keys, a sequence has as many distinct keys as nodes. */
  lemma {:induction false} KeySetSize(ns: seq<LoadedNode>)
    requires UniqueKeys(ns)
    ensures |KeySet(ns)| == |ns|
  {
    if |ns| > 0 {
      UniqueKeysTail(ns);
      KeySetSize(ns[1..]);
      KeySetCons(ns);
    }
  }

  /** The keys of the detail view's children are the ledger's children of the
      selected node. */
  lemma DetailKeysAreChildren(ns: seq<LoadedNode>, ledger: Ledger, key: Pubkey)
    requires ScanOf(ns, ledger)
    ensures KeySet(DetailChildren(ns, key)) == ChildrenOf(ledger, key)
  {
    FilterMembers(ns, ParentIs(key));
    forall a | a in ChildrenOf(ledger, key)
      ensures a in KeySet(DetailChildren(ns, key))
    {
      var n :| n in ns && n.key == a;
      ScanNode(ns, ledger, n);
    }
    forall n | n in DetailChildren(ns, key)
      ensures n.key in ChildrenOf(ledger, key)
    {
      ScanNode(ns, ledger, n);
    }
  }

  /** Over a valid ledger, the detail view lists as many children as the
      selected node's `children_count` says. */
  lemma DetailCountMatchesCounter(rt: Runtime, ledger: Ledger, ns: seq<LoadedNode>, key: Pubkey)
    requires Valid(rt, ledger)
    requires ScanOf(ns, ledger)
    requires key in ledger
    ensures |DetailChildren(ns, key)| == ledger[key].childrenCount
  {
    DetailKeysAreChildren(ns, ledger, key);
    FilterUnique(ns, ParentIs(key));
    KeySetSize(DetailChildren(ns, key));
  }

  /** The client marks as roots exactly the ledger's roots. */
  lemma ScanRootsAreLedgerRoots(ns: seq<LoadedNode>, ledger: Ledger)
    requires ScanOf(ns, ledger)
    ensures RootKeys(ns) == set a | a in ledger && ledger[a].IsRoot()
  {
    forall a | a in ledger && ledger[a].IsRoot()
      ensures a in RootKeys(ns)
    {
      var n :| n in ns && n.key == a;
      ScanNode(ns, ledger, n);
    }
    forall n | n in ns && IsRootNode(n)
      ensures n.key in ledger && ledger[n.key].IsRoot()
    {
      ScanNode(ns, ledger, n);
    }
  }

  /** Over a ledger whose branches all have their parent (every valid one),
      there are no orphans: the nodes drawn after all root groups are exactly
      those whose parent is itself a branch. */
  lemma UnattachedAreDeep(ledger: Ledger, ns: seq<LoadedNode>, n: LoadedNode)
    requires ParentsExist(ledger)
    requires ScanOf(ns, ledger)
    ensures n in Unattached(ns, RootKeys(ns))
        <==> n in ns && !IsRootNode(n) && n.parent in ledger && !ledger[n.parent].IsRoot()
  {
    FilterMembers(ns, BranchParentNotIn(RootKeys(ns)));
    ScanRootsAreLedgerRoots(ns, ledger);
    if n in ns {
      ScanNode(ns, ledger, n);
    }
  }

  /** With unique keys, each key occurs once in the multiset of keys, or not
      at all. */
  lemma {:induction false} UniqueKeysCount(ns: seq<LoadedNode>, k: Pubkey)
    requires UniqueKeys(ns)
    ensures multiset(Keys(ns))[k] == if k in KeySet(ns) then 1 else 0
  {
    if |ns| > 0 {
      UniqueKeysTail(ns);
      UniqueKeysCount(ns[1..], k);
      KeySetCons(ns);
      KeysHead(ns);
    }
  }

  /** Over any ledger with accounts, the story list draws every account
      exactly once and nothing else. */
  lemma ListShowsEveryAccountOnce(ns: seq<LoadedNode>, ledger: Ledger, a: Pubkey)
    requires ScanOf(ns, ledger)
    requires |ledger| > 0
    ensures RenderStoryList(ns).CardList?
    ensures multiset(CardKeys(RenderStoryList(ns).cards))[a] == if a in ledger then 1 else 0
  {
    KeySetSize(ns);
    EveryNodeOnce(ns);
    UniqueKeysCount(ns, a);
  }
}
