/** The browser client's read path, reduced to keys: the story list groups
    each root with its direct children and puts every other node after the
    groups; the detail view lists a node's children. A loaded node is its
    address and its parent; a rendered card is an address and whether it is
    drawn as a root. */
module StoryView {
  import opened Types

  datatype LoadedNode = LoadedNode(key: Pubkey, parent: Pubkey)

  datatype Card = Card(key: Pubkey, isRoot: bool)

  /** What the story list shows: the empty-state message, or cards in order. */
  datatype StoryList = EmptyState | CardList(cards: seq<Card>)

  /** A node is a root exactly when its parent is the default key. */
  predicate IsRootNode(n: LoadedNode)
  {
    n.parent == DefaultKey
  }

  /** The accounts of one full scan are distinct accounts. */
  predicate UniqueKeys(ns: seq<LoadedNode>)
  {
    forall i, j | 0 <= i < j < |ns| :: ns[i].key != ns[j].key
  }

  /** `f` applied to each element, in order. */
  function Project<T>(s: seq<T>, f: T -> Pubkey): (r: seq<Pubkey>)
    ensures |r| == |s|
    ensures forall i | 0 <= i < |s| :: r[i] == f(s[i])
  {
    if |s| == 0 then [] else [f(s[0])] + Project(s[1..], f)
  }

  /** The addresses of loaded nodes, in load order. */
  function Keys(ns: seq<LoadedNode>): (r: seq<Pubkey>)
  {
    Project(ns, (n: LoadedNode) => n.key)
  }

  function KeySet(ns: seq<LoadedNode>): set<Pubkey>
  {
    set n | n in ns :: n.key
  }

  /** The addresses of drawn cards, in drawing order. */
  function CardKeys(cs: seq<Card>): (r: seq<Pubkey>)
  {
    Project(cs, (c: Card) => c.key)
  }

  /** One card per node, in order, all drawn the same way. */
  function AsCards(ns: seq<LoadedNode>, isRoot: bool): (r: seq<Card>)
    ensures |r| == |ns|
    ensures forall i | 0 <= i < |ns| :: r[i] == Card(ns[i].key, isRoot)
  {
    if |ns| == 0 then [] else [Card(ns[0].key, isRoot)] + AsCards(ns[1..], isRoot)
  }

  /** The tests the client filters nodes by, and the combinations of them the
      proofs below need. */
  datatype NodeTest =
    | IsRoot
    | IsBranch
    | ParentIs(key: Pubkey)
    | ParentIsNot(key: Pubkey)
    | KeyNotIn(keys: set<Pubkey>)
    | ParentIn(keys: set<Pubkey>)
    | ParentNotIn(keys: set<Pubkey>)
    | BranchParentIn(keys: set<Pubkey>)
    | BranchParentNotIn(keys: set<Pubkey>)

  predicate Holds(t: NodeTest, n: LoadedNode)
  {
    match t
    case IsRoot => IsRootNode(n)
    case IsBranch => !IsRootNode(n)
    case ParentIs(key) => n.parent == key
    case ParentIsNot(key) => n.parent != key
    case KeyNotIn(keys) => n.key !in keys
    case ParentIn(keys) => n.parent in keys
    case ParentNotIn(keys) => n.parent !in keys
    case BranchParentIn(keys) => !IsRootNode(n) && n.parent in keys
    case BranchParentNotIn(keys) => !IsRootNode(n) && n.parent !in keys
  }

  /** `Array.prototype.filter`: the nodes passing `t`, in order. */
  function Filter(ns: seq<LoadedNode>, t: NodeTest): seq<LoadedNode>
  {
    if |ns| == 0 then []
    else (if Holds(t, ns[0]) then [ns[0]] else []) + Filter(ns[1..], t)
  }

  /** `allNodes.filter(n => n.parent == default)`. */
  function Roots(ns: seq<LoadedNode>): seq<LoadedNode>
  {
    Filter(ns, IsRoot)
  }

  /** `allNodes.filter(n => n.parent != default)`. */
  function Branches(ns: seq<LoadedNode>): seq<LoadedNode>
  {
    Filter(ns, IsBranch)
  }

  /** The nodes of `ns` whose parent is `key`, in load order. */
  function WithParent(ns: seq<LoadedNode>, key: Pubkey): seq<LoadedNode>
  {
    Filter(ns, ParentIs(key))
  }

  /** The nodes of `ns` whose key is not in `shown`, in load order. */
  function Unshown(ns: seq<LoadedNode>, shown: set<Pubkey>): seq<LoadedNode>
  {
    Filter(ns, KeyNotIn(shown))
  }

  /** Each root's card followed by the cards of its direct children among
      `branches`. */
  function RootGroups(roots: seq<LoadedNode>, branches: seq<LoadedNode>): seq<Card>
  {
    if |roots| == 0 then []
    else [Card(roots[0].key, true)] + AsCards(WithParent(branches, roots[0].key), false)
         + RootGroups(roots[1..], branches)
  }

  /** `shownKeys`: the roots, and the branches whose parent is one of them. */
  function ShownKeys(roots: seq<LoadedNode>, branches: seq<LoadedNode>): set<Pubkey>
  {
    KeySet(roots) + (set b | b in branches && b.parent in KeySet(roots) :: b.key)
  }

  /** `renderStoryList`, keeping only the order of the cards. */
  function RenderStoryList(ns: seq<LoadedNode>): StoryList
  {
    var roots := Roots(ns);
    var branches := Branches(ns);
    if |ns| == 0 then EmptyState
    else CardList(RootGroups(roots, branches) + AsCards(Unshown(ns, ShownKeys(roots, branches)), false))
  }

  /** The child list of the detail view for the node at `key`. */
  function DetailChildren(ns: seq<LoadedNode>, key: Pubkey): seq<LoadedNode>
  {
    WithParent(ns, key)
  }

  // ---------------------------------------------------------------------
  // Independent descriptions of the node classes
  // ---------------------------------------------------------------------

  /** The keys of the loaded roots. */
  function RootKeys(ns: seq<LoadedNode>): set<Pubkey>
  {
    set n | n in ns && IsRootNode(n) :: n.key
  }

  /** Branches whose parent is a loaded root, in load order. */
  function Attached(ns: seq<LoadedNode>, rootKeys: set<Pubkey>): seq<LoadedNode>
  {
    Filter(ns, BranchParentIn(rootKeys))
  }

  /** Nodes that are neither roots nor children of a loaded root (deeper
      branches, and branches whose parent was not loaded), in load order. */
  function Unattached(ns: seq<LoadedNode>, rootKeys: set<Pubkey>): seq<LoadedNode>
  {
    Filter(ns, BranchParentNotIn(rootKeys))
  }

  // ---------------------------------------------------------------------
  // Filtering
  // ---------------------------------------------------------------------

  /** A filter keeps exactly the nodes that pass its test. */
  lemma {:induction false} FilterMembers(ns: seq<LoadedNode>, t: NodeTest)
    ensures forall n :: n in Filter(ns, t) <==> n in ns && Holds(t, n)
  {
    if |ns| > 0 {
      FilterMembers(ns[1..], t);
      assert ns == [ns[0]] + ns[1..];
    }
  }

  /** Filtering distributes over concatenation. */
  lemma {:induction false} FilterConcat(a: seq<LoadedNode>, b: seq<LoadedNode>, t: NodeTest)
    ensures Filter(a + b, t) == Filter(a, t) + Filter(b, t)
  {
    if |a| > 0 {
      FilterConcat(a[1..], b, t);
      assert (a + b)[1..] == a[1..] + b;
    } else {
      assert a + b == b;
    }
  }

  /** Tests that agree on the nodes give the same filter. */
  lemma {:induction false} FilterExt(ns: seq<LoadedNode>, t: NodeTest, u: NodeTest)
    requires forall n | n in ns :: Holds(t, n) == Holds(u, n)
    ensures Filter(ns, t) == Filter(ns, u)
  {
    if |ns| > 0 {
      FilterExt(ns[1..], t, u);
    }
  }

  /** A test no node passes filters everything out. */
  lemma {:induction false} FilterNone(ns: seq<LoadedNode>, t: NodeTest)
    requires forall n | n in ns :: !Holds(t, n)
    ensures Filter(ns, t) == []
  {
    if |ns| > 0 {
      FilterNone(ns[1..], t);
    }
  }

  /** Filtering by `t` and then by `u` is filtering by their conjunction
      `both`. */
  lemma {:induction false} FilterFilter(ns: seq<LoadedNode>, t: NodeTest, u: NodeTest, both: NodeTest)
    requires forall n | n in ns :: Holds(both, n) == (Holds(t, n) && Holds(u, n))
    ensures Filter(Filter(ns, t), u) == Filter(ns, both)
  {
    if |ns| > 0 {
      var x, rest := ns[0], ns[1..];
      FilterFilter(rest, t, u, both);
      if Holds(t, x) {
        assert Filter(ns, t) == [x] + Filter(rest, t);
        FilterConcat([x], Filter(rest, t), u);
        assert Filter([x], u) == if Holds(u, x) then [x] else [] by {
          assert [x][1..] == [];
        }
      } else {
        assert Filter(ns, t) == Filter(rest, t);
      }
    }
  }

  /** A test and its complement `other` split the keys of a sequence between
      them, with multiplicity. */
  lemma {:induction false} FilterSplitKeys(ns: seq<LoadedNode>, t: NodeTest, other: NodeTest)
    requires forall n | n in ns :: Holds(other, n) == !Holds(t, n)
    ensures multiset(Keys(ns)) == multiset(Keys(Filter(ns, t))) + multiset(Keys(Filter(ns, other)))
  {
    if |ns| > 0 {
      FilterSplitKeys(ns[1..], t, other);
      if Holds(t, ns[0]) {
        SplitStep(ns, t, other);
      } else {
        SplitStep(ns, other, t);
      }
    }
  }

  /** One step of `FilterSplitKeys`: the first node goes to the side whose
      test it passes. */
  lemma SplitStep(ns: seq<LoadedNode>, t: NodeTest, other: NodeTest)
    requires |ns| > 0 && Holds(t, ns[0]) && !Holds(other, ns[0])
    requires multiset(Keys(ns[1..]))
          == multiset(Keys(Filter(ns[1..], t))) + multiset(Keys(Filter(ns[1..], other)))
    ensures multiset(Keys(ns)) == multiset(Keys(Filter(ns, t))) + multiset(Keys(Filter(ns, other)))
    ensures multiset(Keys(ns)) == multiset(Keys(Filter(ns, other))) + multiset(Keys(Filter(ns, t)))
  {
    var x, rest := ns[0], ns[1..];
    var kept, dropped := Filter(rest, t), Filter(rest, other);
    var k := multiset{x.key};
    var m := multiset(Keys(Filter(ns, t)));
    assert multiset(Keys(ns)) == k + multiset(Keys(rest)) by {
      assert Keys(ns) == [x.key] + Keys(rest);
    }
    assert m == k + multiset(Keys(kept)) by {
      KeysCons(x, kept);
    }
    assert Filter(ns, other) == dropped;
    MoveKey(multiset(Keys(ns)), multiset(Keys(rest)), multiset(Keys(kept)), multiset(Keys(dropped)), k, m);
  }

  /** Adding `k` to one side of a split adds it to the whole. */
  lemma MoveKey(all: multiset<Pubkey>, rest: multiset<Pubkey>, side: multiset<Pubkey>, otherSide: multiset<Pubkey>,
                k: multiset<Pubkey>, grown: multiset<Pubkey>)
    requires all == k + rest && rest == side + otherSide && grown == k + side
    ensures all == grown + otherSide && all == otherSide + grown
  {
  }

  /** Every root passes the root test and every branch the branch test. */
  lemma RootsAndBranchesClassified(ns: seq<LoadedNode>)
    ensures forall n | n in Roots(ns) :: IsRootNode(n)
    ensures forall n | n in Branches(ns) :: !IsRootNode(n)
  {
    FilterMembers(ns, IsRoot);
    FilterMembers(ns, IsBranch);
  }

  // ---------------------------------------------------------------------
  // Keys
  // ---------------------------------------------------------------------

  lemma KeysCons(x: LoadedNode, ns: seq<LoadedNode>)
    ensures multiset(Keys([x] + ns)) == multiset{x.key} + multiset(Keys(ns))
  {
    assert ([x] + ns)[1..] == ns;
  }

  lemma CardKeysConcat(a: seq<Card>, b: seq<Card>)
    ensures CardKeys(a + b) == CardKeys(a) + CardKeys(b)
  {
  }

  lemma CardKeysOfAsCards(ns: seq<LoadedNode>, isRoot: bool)
    ensures CardKeys(AsCards(ns, isRoot)) == Keys(ns)
  {
  }

  /** Removing the first node keeps keys unique, and the first key does not
      occur again. */
  lemma UniqueKeysTail(ns: seq<LoadedNode>)
    requires |ns| > 0 && UniqueKeys(ns)
    ensures UniqueKeys(ns[1..])
    ensures ns[0].key !in KeySet(ns[1..])
  {
  }

  /** Two loaded nodes with the same key are the same node. */
  lemma SameKeySameNode(ns: seq<LoadedNode>, m: LoadedNode, n: LoadedNode)
    requires UniqueKeys(ns)
    requires m in ns && n in ns && m.key == n.key
    ensures m == n
  {
    var i :| 0 <= i < |ns| && ns[i] == m;
    var j :| 0 <= j < |ns| && ns[j] == n;
  }

  /** A filter of a sequence with unique keys has unique keys. */
  lemma {:induction false} FilterUnique(ns: seq<LoadedNode>, t: NodeTest)
    requires UniqueKeys(ns)
    ensures UniqueKeys(Filter(ns, t))
  {
    if |ns| > 0 {
      UniqueKeysTail(ns);
      FilterUnique(ns[1..], t);
      var rest := Filter(ns[1..], t);
      FilterMembers(ns[1..], t);
      if Holds(t, ns[0]) {
        var r := [ns[0]] + rest;
        forall i, j | 0 <= i < j < |r|
          ensures r[i].key != r[j].key
        {
          if i == 0 {
            assert r[j] in rest;
            assert r[j].key in KeySet(ns[1..]);
          } else {
            assert r[i] == rest[i - 1] && r[j] == rest[j - 1];
          }
        }
      }
    }
  }

  /** A key in the multiset of two node sequences' keys is the key of a node
      of one of them. */
  lemma KeyInMultiset(a: seq<LoadedNode>, b: seq<LoadedNode>, k: Pubkey)
    requires k in multiset(Keys(a)) + multiset(Keys(b))
    ensures k in KeySet(a) || k in KeySet(b)
  {
    if k in multiset(Keys(a)) {
      var i :| 0 <= i < |a| && Keys(a)[i] == k;
      assert a[i] in a;
    } else {
      var i :| 0 <= i < |b| && Keys(b)[i] == k;
      assert b[i] in b;
    }
  }

  /** The keys of the filtered roots are the root keys. */
  lemma RootKeysOfRoots(ns: seq<LoadedNode>)
    ensures KeySet(Roots(ns)) == RootKeys(ns)
  {
    FilterMembers(ns, IsRoot);
  }

  // ---------------------------------------------------------------------
  // Properties of the story list
  // ---------------------------------------------------------------------

  /** The list shows the empty state exactly when nothing was loaded. */
  lemma EmptyStateIffNoNodes(ns: seq<LoadedNode>)
    ensures RenderStoryList(ns) == EmptyState <==> |ns| == 0
  {
  }

  /** Roots and branches split the loaded nodes: every node is exactly one of
      the two, in load order within each. */
  lemma RootsBranchesPartition(ns: seq<LoadedNode>)
    ensures forall n :: n in Roots(ns) <==> n in ns && IsRootNode(n)
    ensures forall n :: n in Branches(ns) <==> n in ns && !IsRootNode(n)
    ensures multiset(Keys(Roots(ns))) + multiset(Keys(Branches(ns))) == multiset(Keys(ns))
  {
    FilterMembers(ns, IsRoot);
    FilterMembers(ns, IsBranch);
    FilterSplitKeys(ns, IsRoot, IsBranch);
  }

  /** Every node is a root, a child of a loaded root, or neither, and exactly
      one of these. */
  lemma ThreeWayPartition(ns: seq<LoadedNode>, rootKeys: set<Pubkey>)
    ensures multiset(Keys(ns))
         == multiset(Keys(Roots(ns))) + multiset(Keys(Attached(ns, rootKeys)))
            + multiset(Keys(Unattached(ns, rootKeys)))
  {
    FilterSplitKeys(ns, IsRoot, IsBranch);
    FilterSplitKeys(Branches(ns), ParentIn(rootKeys), ParentNotIn(rootKeys));
    FilterFilter(ns, IsBranch, ParentIn(rootKeys), BranchParentIn(rootKeys));
    FilterFilter(ns, IsBranch, ParentNotIn(rootKeys), BranchParentNotIn(rootKeys));
  }

  /** The children of one more root split off the branches attached to a set
      of roots. */
  lemma AttachedSplit(bs: seq<LoadedNode>, k: Pubkey, rest: set<Pubkey>)
    requires forall b | b in bs :: !IsRootNode(b)
    requires k !in rest
    ensures multiset(Keys(Attached(bs, {k} + rest)))
         == multiset(Keys(WithParent(bs, k))) + multiset(Keys(Attached(bs, rest)))
  {
    var wide := BranchParentIn({k} + rest);
    FilterSplitKeys(Filter(bs, wide), ParentIs(k), ParentIsNot(k));
    FilterFilter(bs, wide, ParentIs(k), ParentIs(k));
    FilterFilter(bs, wide, ParentIsNot(k), BranchParentIn(rest));
  }

  /** The root groups show each root once and each branch attached to a root
      once. */
  lemma {:induction false} RootGroupsKeys(roots: seq<LoadedNode>, bs: seq<LoadedNode>)
    requires UniqueKeys(roots)
    requires forall b | b in bs :: !IsRootNode(b)
    ensures multiset(CardKeys(RootGroups(roots, bs)))
         == multiset(Keys(roots)) + multiset(Keys(Attached(bs, KeySet(roots))))
  {
    if |roots| == 0 {
      FilterNone(bs, BranchParentIn(KeySet(roots)));
    } else {
      var k := roots[0].key;
      UniqueKeysTail(roots);
      RootGroupsKeys(roots[1..], bs);
      KeySetCons(roots);
      KeysHead(roots);
      AttachedSplit(bs, k, KeySet(roots[1..]));
      GroupCardKeys(roots, bs);
    }
  }

  /** The keys of a nonempty sequence are its first key and the rest's. */
  lemma KeySetCons(ns: seq<LoadedNode>)
    requires |ns| > 0
    ensures KeySet(ns) == {ns[0].key} + KeySet(ns[1..])
  {
    forall k | k in KeySet(ns)
      ensures k in {ns[0].key} + KeySet(ns[1..])
    {
      var i :| 0 <= i < |ns| && ns[i].key == k;
      if i > 0 {
        assert ns[1..][i - 1] == ns[i];
      }
    }
    KeySetTail(ns);
  }

  lemma KeysHead(ns: seq<LoadedNode>)
    requires |ns| > 0
    ensures multiset(Keys(ns)) == multiset{ns[0].key} + multiset(Keys(ns[1..]))
  {
    assert ns == [ns[0]] + ns[1..];
    KeysCons(ns[0], ns[1..]);
  }

  /** The card keys of the first root's group, then the rest's. */
  lemma GroupCardKeys(roots: seq<LoadedNode>, bs: seq<LoadedNode>)
    requires |roots| > 0
    ensures multiset(CardKeys(RootGroups(roots, bs)))
         == multiset{roots[0].key} + multiset(Keys(WithParent(bs, roots[0].key)))
            + multiset(CardKeys(RootGroups(roots[1..], bs)))
  {
    var kids := AsCards(WithParent(bs, roots[0].key), false);
    CardKeysConcat([Card(roots[0].key, true)] + kids, RootGroups(roots[1..], bs));
    CardKeysConcat([Card(roots[0].key, true)], kids);
    CardKeysOfAsCards(WithParent(bs, roots[0].key), false);
  }

  /** With unique keys, a loaded node's key is shown exactly when the node is
      a root or a child of a loaded root. */
  lemma ShownKeysSpec(ns: seq<LoadedNode>, n: LoadedNode)
    requires UniqueKeys(ns)
    requires n in ns
    ensures n.key in ShownKeys(Roots(ns), Branches(ns)) <==> IsRootNode(n) || n.parent in RootKeys(ns)
  {
    RootsBranchesPartition(ns);
    RootKeysOfRoots(ns);
    if n.key in KeySet(Roots(ns)) {
      var r :| r in Roots(ns) && r.key == n.key;
      SameKeySameNode(ns, r, n);
    } else if n.key in ShownKeys(Roots(ns), Branches(ns)) {
      var b :| b in Branches(ns) && b.parent in KeySet(Roots(ns)) && b.key == n.key;
      SameKeySameNode(ns, b, n);
    }
  }

  /** With unique keys, the leftover pass picks out exactly the unattached
      nodes. */
  lemma UnshownIsUnattached(ns: seq<LoadedNode>)
    requires UniqueKeys(ns)
    ensures Unshown(ns, ShownKeys(Roots(ns), Branches(ns))) == Unattached(ns, RootKeys(ns))
  {
    var shown := ShownKeys(Roots(ns), Branches(ns));
    forall n | n in ns
      ensures Holds(KeyNotIn(shown), n) == Holds(BranchParentNotIn(RootKeys(ns)), n)
    {
      ShownKeysSpec(ns, n);
    }
    FilterExt(ns, KeyNotIn(shown), BranchParentNotIn(RootKeys(ns)));
  }

  /** Restricting to branches first does not change which branches are
      attached. */
  lemma AttachedOfBranches(ns: seq<LoadedNode>, rootKeys: set<Pubkey>)
    ensures Attached(Branches(ns), rootKeys) == Attached(ns, rootKeys)
  {
    FilterFilter(ns, IsBranch, BranchParentIn(rootKeys), BranchParentIn(rootKeys));
  }

  /** The root groups of a scan list its roots and the branches attached to
      them. */
  lemma GroupsOfScan(ns: seq<LoadedNode>)
    requires UniqueKeys(ns)
    ensures multiset(CardKeys(RootGroups(Roots(ns), Branches(ns))))
         == multiset(Keys(Roots(ns))) + multiset(Keys(Attached(ns, RootKeys(ns))))
  {
    FilterUnique(ns, IsRoot);
    RootsAndBranchesClassified(ns);
    RootGroupsKeys(Roots(ns), Branches(ns));
    RootKeysOfRoots(ns);
    AttachedOfBranches(ns, RootKeys(ns));
  }

  /** The cards of a non-empty scan: the root groups, then the unattached
      nodes drawn as branches. */
  lemma CardsOfScan(ns: seq<LoadedNode>)
    requires UniqueKeys(ns)
    requires |ns| > 0
    ensures RenderStoryList(ns)
         == CardList(RootGroups(Roots(ns), Branches(ns)) + AsCards(Unattached(ns, RootKeys(ns)), false))
  {
    UnshownIsUnattached(ns);
  }

  /** Every loaded node appears in the story list exactly once. */
  lemma EveryNodeOnce(ns: seq<LoadedNode>)
    requires UniqueKeys(ns)
    requires |ns| > 0
    ensures RenderStoryList(ns).CardList?
    ensures multiset(CardKeys(RenderStoryList(ns).cards)) == multiset(Keys(ns))
  {
    var groups := RootGroups(Roots(ns), Branches(ns));
    var rest := Unattached(ns, RootKeys(ns));
    CardsOfScan(ns);
    GroupsOfScan(ns);
    ThreeWayPartition(ns, RootKeys(ns));
    CardKeysConcat(groups, AsCards(rest, false));
    CardKeysOfAsCards(rest, false);
  }

  /** A root's group starts with its card, followed by its children's. */
  lemma GroupHead(cs: seq<Card>, c: Card, kids: seq<Card>, later: seq<Card>)
    requires cs == [c] + kids + later
    ensures cs[0] == c
    ensures 1 + |kids| <= |cs|
    ensures cs[1..1 + |kids|] == kids
    ensures forall i | 0 < i <= |kids| :: cs[i] == kids[i - 1]
  {
  }

  /** Past a prefix `p`, `p + l` indexes as `l`. */
  lemma IndexAfterPrefix(p: seq<Card>, l: seq<Card>, j: nat)
    requires j < |l|
    ensures (p + l)[|p| + j] == l[j]
  {
  }

  /** A slice `g` of `l` at `j` is a slice of `p + l` at `|p| + j`. */
  lemma SliceAfterPrefix(p: seq<Card>, l: seq<Card>, j: nat, g: seq<Card>)
    requires j + |g| <= |l| && l[j..j + |g|] == g
    ensures |p| + j + |g| <= |p + l|
    ensures (p + l)[|p| + j..|p| + j + |g|] == g
  {
    assert (p + l)[|p| + j..|p| + j + |g|] == l[j..j + |g|];
  }

  lemma KeySetTail(ns: seq<LoadedNode>)
    requires |ns| > 0
    ensures KeySet(ns[1..]) <= KeySet(ns)
    ensures ns[0].key in KeySet(ns)
  {
  }

  /** The first root's group, then the rest. */
  lemma RootGroupsCons(roots: seq<LoadedNode>, bs: seq<LoadedNode>, tail: seq<Card>)
    requires |roots| > 0
    ensures RootGroups(roots, bs) + tail
         == [Card(roots[0].key, true)] + AsCards(WithParent(bs, roots[0].key), false)
            + (RootGroups(roots[1..], bs) + tail)
  {
  }

  /** A card drawn as a root is not one of the trailing branch cards, so
      there is a root group to hold it. */
  lemma RootCardNeedsGroup(roots: seq<LoadedNode>, bs: seq<LoadedNode>, tail: seq<Card>, cs: seq<Card>, i: nat)
    requires cs == RootGroups(roots, bs) + tail
    requires forall k | 0 <= k < |tail| :: !tail[k].isRoot
    requires i < |cs| && cs[i].isRoot
    ensures |roots| > 0
  {
  }

  /** Within the first group only the first card is drawn as a root. */
  lemma RootCardPosition(cs: seq<Card>, c: Card, kids: seq<LoadedNode>, later: seq<Card>, i: nat)
    requires cs == [c] + AsCards(kids, false) + later
    requires i < |cs| && cs[i].isRoot
    ensures i == 0 || i >= 1 + |kids|
  {
    GroupHead(cs, c, AsCards(kids, false), later);
  }

  /** In root groups followed by cards drawn as branches, a card drawn as a
      root, for `key`, belongs to a root and is followed at once by the cards
      of that root's children. */
  lemma {:induction false} RootCardInGroups(roots: seq<LoadedNode>, bs: seq<LoadedNode>, tail: seq<Card>,
                                            cs: seq<Card>, i: nat, key: Pubkey)
    requires cs == RootGroups(roots, bs) + tail
    requires forall k | 0 <= k < |tail| :: !tail[k].isRoot
    requires i < |cs| && cs[i] == Card(key, true)
    ensures key in KeySet(roots)
    ensures i + 1 + |WithParent(bs, key)| <= |cs|
    ensures cs[i + 1..i + 1 + |WithParent(bs, key)|] == AsCards(WithParent(bs, key), false)
    decreases |roots|, 1
  {
    RootCardNeedsGroup(roots, bs, tail, cs, i);
    var c, kids := Card(roots[0].key, true), WithParent(bs, roots[0].key);
    RootGroupsCons(roots, bs, tail);
    KeySetTail(roots);
    RootCardPosition(cs, c, kids, RootGroups(roots[1..], bs) + tail, i);
    var head, later := [c] + AsCards(kids, false), RootGroups(roots[1..], bs) + tail;
    if i == 0 {
      GroupHead(cs, c, AsCards(kids, false), later);
    } else {
      IndexAfterPrefix(head, later, i - |head|);
      RootCardInLaterGroups(roots, bs, tail, head, later, i, key);
    }
  }

  /** The case of `RootCardInGroups` where the card lies past the first
      root's group `head`. */
  lemma {:induction false} RootCardInLaterGroups(roots: seq<LoadedNode>, bs: seq<LoadedNode>, tail: seq<Card>,
                                                 head: seq<Card>, later: seq<Card>, i: nat, key: Pubkey)
    requires |roots| > 0 && later == RootGroups(roots[1..], bs) + tail
    requires forall k | 0 <= k < |tail| :: !tail[k].isRoot
    requires |head| <= i < |head| + |later| && later[i - |head|] == Card(key, true)
    ensures key in KeySet(roots[1..])
    ensures i + 1 + |WithParent(bs, key)| <= |head + later|
    ensures (head + later)[i + 1..i + 1 + |WithParent(bs, key)|] == AsCards(WithParent(bs, key), false)
    decreases |roots|, 0
  {
    var j := i - |head|;
    RootCardInGroups(roots[1..], bs, tail, later, j, key);
    SliceAfterPrefix(head, later, j + 1, AsCards(WithParent(bs, key), false));
  }

  /** Each card drawn as a root is a loaded root, and is immediately followed
      by the cards of that root's direct children, in load order, drawn as
      branches. */
  lemma RootCardFollowedByChildren(ns: seq<LoadedNode>, i: nat)
    requires RenderStoryList(ns).CardList?
    requires i < |RenderStoryList(ns).cards|
    requires RenderStoryList(ns).cards[i].isRoot
    ensures var cs := RenderStoryList(ns).cards;
      var kids := AsCards(WithParent(Branches(ns), cs[i].key), false);
      && cs[i].key in RootKeys(ns)
      && i + 1 + |kids| <= |cs|
      && cs[i + 1..i + 1 + |kids|] == kids
  {
    var roots := Roots(ns);
    var branches := Branches(ns);
    var tail := AsCards(Unshown(ns, ShownKeys(roots, branches)), false);
    RootCardInGroups(roots, branches, tail, RenderStoryList(ns).cards, i, RenderStoryList(ns).cards[i].key);
    RootKeysOfRoots(ns);
  }

  /** Every node of `roots` gets a root card among the root groups. */
  lemma {:induction false} RootInGroups(roots: seq<LoadedNode>, bs: seq<LoadedNode>, n: LoadedNode)
    requires n in roots
    ensures Card(n.key, true) in RootGroups(roots, bs)
  {
    if roots[0] != n {
      RootInGroups(roots[1..], bs, n);
    }
  }

  /** The converse of `RootCardFollowedByChildren`: every loaded root is
      drawn, as a root. */
  lemma RootDrawnAsRoot(ns: seq<LoadedNode>, n: LoadedNode)
    requires n in ns && IsRootNode(n)
    ensures RenderStoryList(ns).CardList?
    ensures Card(n.key, true) in RenderStoryList(ns).cards
  {
    RootsBranchesPartition(ns);
    RootInGroups(Roots(ns), Branches(ns), n);
  }

  /** The children shown under a root are its detail-view children: for any
      key other than the default one, every child is a branch. */
  lemma BranchChildrenAreDetailChildren(ns: seq<LoadedNode>, key: Pubkey)
    requires key != DefaultKey
    ensures WithParent(Branches(ns), key) == DetailChildren(ns, key)
  {
    FilterFilter(ns, IsBranch, ParentIs(key), ParentIs(key));
  }

  /** Nodes that are neither roots nor children of a loaded root come after
      every root group, drawn as branches, in load order; every card before
      them is a root or a child of a root. */
  lemma UnattachedLast(ns: seq<LoadedNode>)
    requires UniqueKeys(ns)
    requires |ns| > 0
    ensures var cs := RenderStoryList(ns).cards;
      var rest := Unattached(ns, RootKeys(ns));
      && |rest| <= |cs|
      && cs[|cs| - |rest|..] == AsCards(rest, false)
      && forall i | 0 <= i < |cs| - |rest| ::
           cs[i].key in RootKeys(ns) || cs[i].key in KeySet(Attached(ns, RootKeys(ns)))
  {
    var groups := RootGroups(Roots(ns), Branches(ns));
    CardsOfScan(ns);
    GroupsOfScan(ns);
    RootKeysOfRoots(ns);
    var cs := RenderStoryList(ns).cards;
    forall i | 0 <= i < |groups|
      ensures cs[i].key in RootKeys(ns) || cs[i].key in KeySet(Attached(ns, RootKeys(ns)))
    {
      assert CardKeys(groups)[i] == cs[i].key;
      KeyInMultiset(Roots(ns), Attached(ns, RootKeys(ns)), cs[i].key);
    }
  }

  /** The detail view lists exactly the loaded nodes whose parent is the
      selected node, in load order: filtering a longer scan filters each part
      of it. */
  lemma DetailChildrenSpec(ns: seq<LoadedNode>, key: Pubkey)
    ensures forall n :: n in DetailChildren(ns, key) <==> n in ns && n.parent == key
    ensures forall a, b :: DetailChildren(a + b, key) == DetailChildren(a, key) + DetailChildren(b, key)
  {
    FilterMembers(ns, ParentIs(key));
    forall a, b
      ensures WithParent(a + b, key) == WithParent(a, key) + WithParent(b, key)
    {
      FilterConcat(a, b, ParentIs(key));
    }
  }
}
