/** The on-chain program: `create_root` and `create_branch` as pure functions
    from a ledger of story-node accounts and an instruction to a new ledger or
    a failure. A failed transaction aborts as a whole, so a failure carries no
    ledger: the caller keeps the old one. */
module Program {
  import opened Types
  import opened State
  import opened Errors
  import opened Addresses
  import opened Instructions

  /** Every StoryNode account, by address. */
  type Ledger = map<Pubkey, StoryNode>

  datatype Result<T> = Ok(value: T) | Err(failure: Failure)

  /** The condition under which each handler check rejects its arguments. */
  predicate Violates(rt: Runtime, a: Args, e: StoryChainError)
  {
    match e
    case TitleTooLong => |a.title| > MAX_TITLE_LEN
    case UriTooLong => |a.contentUri| > MAX_URI_LEN
    case ImageUriTooLong => |a.imageUri| > MAX_URI_LEN
    case EmptyUri => |a.contentUri| == 0
    case InvalidTitleSeed => a.titleSeed != rt.sha256(a.title)
    case Overflow => false
  }

  /** The position of each handler check; both instructions use this order. */
  function CheckRank(e: StoryChainError): nat
  {
    match e
    case TitleTooLong => 0
    case UriTooLong => 1
    case ImageUriTooLong => 2
    case EmptyUri => 3
    case InvalidTitleSeed => 4
    case Overflow => 5
  }

  /** `e` is the check that rejects `a` when the checks run in order. */
  predicate FirstViolation(rt: Runtime, a: Args, e: StoryChainError)
  {
    Violates(rt, a, e) && forall e' | CheckRank(e') < CheckRank(e) :: !Violates(rt, a, e')
  }

  /** Arguments every handler check accepts: a title of at most 64 bytes (an
      empty one included), a non-empty content URI and an image URI of at
      most 200 bytes each, and a title seed equal to the title's SHA-256. */
  predicate ArgsValid(rt: Runtime, a: Args)
  {
    && |a.title| <= MAX_TITLE_LEN
    && 0 < |a.contentUri| <= MAX_URI_LEN
    && |a.imageUri| <= MAX_URI_LEN
    && a.titleSeed == rt.sha256(a.title)
  }

  /** The handler's `require!` sequence, shared by both instructions: the first
      failing check names the error. */
  function CheckArgs(rt: Runtime, a: Args): (r: Option<StoryChainError>)
    ensures r.None? <==> ArgsValid(rt, a)
    ensures r.Some? ==> FirstViolation(rt, a, r.value)
  {
    if |a.title| > MAX_TITLE_LEN then Some(TitleTooLong)
    else if |a.contentUri| > MAX_URI_LEN then Some(UriTooLong)
    else if |a.imageUri| > MAX_URI_LEN then Some(ImageUriTooLong)
    else if |a.contentUri| == 0 then Some(EmptyUri)
    else if a.titleSeed != rt.sha256(a.title) then Some(InvalidTitleSeed)
    else None
  }

  /** `u64::checked_add`. */
  function CheckedAdd(x: U64, y: U64): (r: Option<U64>)
    ensures r.Some? <==> x + y <= U64_MAX
    ensures r.Some? ==> r.value == x + y
  {
    if x + y <= U64_MAX then Some(x + y) else None
  }

  /** `create_root`. Account resolution (the `init` target must be the
      address derived from the root seeds and must be free) precedes the
      handler's checks. */
  function CreateRoot(rt: Runtime, ledger: Ledger, storyNode: Pubkey, author: Pubkey, args: Args, now: I64)
    : (r: Result<Ledger>)
    ensures r != Err(AccountNotInitialized)
    ensures var pda := rt.findProgramAddress(RootSeeds(author, args.titleSeed));
      && (r == Err(ConstraintSeeds) <==> storyNode != pda.address)
      && (r == Err(AccountInUse) <==> storyNode == pda.address && storyNode in ledger)
      && (r.Ok? <==> storyNode == pda.address && storyNode !in ledger && ArgsValid(rt, args))
      && (r.Ok? ==>
            && r.value.Keys == ledger.Keys + {storyNode}
            && (forall a | a in ledger :: r.value[a] == ledger[a])
            && r.value[storyNode].author == author
            && r.value[storyNode].IsRoot()
            && r.value[storyNode].title == args.title
            && r.value[storyNode].contentUri == args.contentUri
            && r.value[storyNode].imageUri == args.imageUri
            && r.value[storyNode].childrenCount == 0
            && r.value[storyNode].createdAt == now
            && r.value[storyNode].bump == pda.bump)
    ensures forall e :: r == Err(Custom(e)) ==> FirstViolation(rt, args, e) && e != Overflow
    ensures (storyNode == rt.findProgramAddress(RootSeeds(author, args.titleSeed)).address
             && storyNode !in ledger && !ArgsValid(rt, args)) ==> r.Err? && r.failure.Custom?
  {
    var pda := rt.findProgramAddress(RootSeeds(author, args.titleSeed));
    if storyNode != pda.address then Err(ConstraintSeeds)
    else if storyNode in ledger then Err(AccountInUse)
    else match CheckArgs(rt, args)
      case Some(e) => Err(Custom(e))
      case None =>
        Ok(ledger[storyNode := StoryNode(author, DefaultKey, args.title, args.contentUri, args.imageUri, 0, now, pda.bump)])
  }

  /** `create_branch`. Account resolution (the parent must be an existing
      node; the `init` target must be the address derived from the branch
      seeds and must be free) precedes the handler's checks, after which the
      parent's counter is incremented with overflow checking and the child is
      written. Both writes happen or neither does. */
  function CreateBranch(rt: Runtime, ledger: Ledger, storyNode: Pubkey, parentNode: Pubkey, author: Pubkey,
                        args: Args, now: I64): (r: Result<Ledger>)
    ensures var pda := rt.findProgramAddress(BranchSeeds(author, parentNode, args.titleSeed));
      && (r == Err(AccountNotInitialized) <==> parentNode !in ledger)
      && (r == Err(ConstraintSeeds) <==> parentNode in ledger && storyNode != pda.address)
      && (r == Err(AccountInUse) <==> parentNode in ledger && storyNode == pda.address && storyNode in ledger)
      && (r == Err(Custom(Overflow)) <==>
            && parentNode in ledger && storyNode == pda.address && storyNode !in ledger
            && ArgsValid(rt, args) && ledger[parentNode].childrenCount == U64_MAX)
      && (r.Ok? <==>
            && parentNode in ledger && storyNode == pda.address && storyNode !in ledger
            && ArgsValid(rt, args) && ledger[parentNode].childrenCount < U64_MAX)
      && (r.Ok? ==>
            && storyNode != parentNode
            && r.value.Keys == ledger.Keys + {storyNode}
            && (forall a | a in ledger && a != parentNode :: r.value[a] == ledger[a])
            && r.value[parentNode] == ledger[parentNode].(childrenCount := ledger[parentNode].childrenCount + 1)
            && r.value[storyNode].author == author
            && r.value[storyNode].parent == parentNode
            && r.value[storyNode].title == args.title
            && r.value[storyNode].contentUri == args.contentUri
            && r.value[storyNode].imageUri == args.imageUri
            && r.value[storyNode].childrenCount == 0
            && r.value[storyNode].createdAt == now
            && r.value[storyNode].bump == pda.bump)
    ensures forall e :: r == Err(Custom(e)) && e != Overflow ==> FirstViolation(rt, args, e)
  {
    if parentNode !in ledger then Err(AccountNotInitialized)
    else
      var pda := rt.findProgramAddress(BranchSeeds(author, parentNode, args.titleSeed));
      if storyNode != pda.address then Err(ConstraintSeeds)
      else if storyNode in ledger then Err(AccountInUse)
      else match CheckArgs(rt, args)
        case Some(e) => Err(Custom(e))
        case None =>
          var parent := ledger[parentNode];
          match CheckedAdd(parent.childrenCount, 1)
          case None => Err(Custom(Overflow))
          case Some(count) =>
            var node := StoryNode(author, parentNode, args.title, args.contentUri, args.imageUri, 0, now, pda.bump);
            var bumped: Ledger := ledger[parentNode := parent.(childrenCount := count)];
            Ok(bumped[storyNode := node])
  }

  function Execute(rt: Runtime, ledger: Ledger, ix: Instruction, now: I64): Result<Ledger>
  {
    match ix
    case CreateRootIx(storyNode, author, args) => CreateRoot(rt, ledger, storyNode, author, args, now)
    case CreateBranchIx(storyNode, parentNode, author, args) =>
      CreateBranch(rt, ledger, storyNode, parentNode, author, args, now)
  }

  /** The ledger after a transaction: the new one if it committed, the old one
      if it aborted. */
  function Step(rt: Runtime, ledger: Ledger, ix: Instruction, now: I64): Ledger
  {
    match Execute(rt, ledger, ix, now)
    case Ok(next) => next
    case Err(_) => ledger
  }

  /** The first failing check is unique: `CheckArgs` reports `e` exactly when
      `e` is the earliest check the arguments violate. */
  lemma FirstFailureWins(rt: Runtime, a: Args, e: StoryChainError)
    ensures CheckArgs(rt, a) == Some(e) <==> FirstViolation(rt, a, e)
  {
    var r := CheckArgs(rt, a);
    if FirstViolation(rt, a, e) {
      assert !ArgsValid(rt, a);
      // Neither of two first violations can precede the other.
      assert CheckRank(r.value) == CheckRank(e);
    }
  }

  /** Once accounts resolve, both instructions reject the same arguments with
      the same error: they share one check sequence. */
  lemma SameCheckOrder(rt: Runtime, ledger: Ledger, rootTarget: Pubkey, branchTarget: Pubkey, parentNode: Pubkey,
                       author: Pubkey, args: Args, now: I64, e: StoryChainError)
    requires rootTarget == rt.findProgramAddress(RootSeeds(author, args.titleSeed)).address
    requires rootTarget !in ledger
    requires parentNode in ledger
    requires branchTarget == rt.findProgramAddress(BranchSeeds(author, parentNode, args.titleSeed)).address
    requires branchTarget !in ledger
    requires e != Overflow
    ensures CreateRoot(rt, ledger, rootTarget, author, args, now) == Err(Custom(e))
        <==> CreateBranch(rt, ledger, branchTarget, parentNode, author, args, now) == Err(Custom(e))
  {
    FirstFailureWins(rt, args, e);
  }
}
