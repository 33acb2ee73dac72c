/** The browser client's `mintNode`: the checks it makes on the mint form,
    the content URI it builds, the address it derives for the new node and
    the instruction it submits. Wallet state and the parsing of the parent
    address (`new PublicKey(...)`, a base58 decoder that throws on bad input)
    are parameters. */
module Mint {
  import opened Types
  import opened Utf8
  import opened ClientText
  import opened Errors
  import opened State
  import opened Addresses
  import opened Instructions
  import opened Program

  /** The mint form as the user left it: the title and content fields, the
      node-type selector's value and the parent-address field. */
  datatype MintForm = MintForm(title: string, content: string, nodeType: string, parentAddress: string)

  /** Why `mintNode` stops before submitting anything. */
  datatype Rejection =
    | NotConnected        // no wallet: the function returns without a word
    | TitleRequired       // "Title is required"
    | ContentRequired     // "Story content is required"
    | InvalidParentKey    // `new PublicKey(...)` threw; the catch reports it

  /** What the client asks the program to do, with its strings already in the
      bytes the program sees. */
  datatype MintOutcome = Rejected(reason: Rejection) | Submit(ix: Instruction)

  /** The prefix of the content URI the client builds from the content. */
  const DATA_URI_PREFIX: string := "data:text/plain;"

  /** The node-type selector's value for a root; every other value is a branch. */
  const ROOT_TYPE: string := "root"

  /** `Buffer.from("story-node")`. */
  function NodeSeedText(): seq<byte>
  {
    Encode("story-node")
  }

  /** The seed list the client hands to `findProgramAddressSync` for a root. */
  function ClientRootSeeds(author: Pubkey, seed: Bytes32): seq<seq<byte>>
  {
    [NodeSeedText(), author, seed]
  }

  /** The seed list the client hands to `findProgramAddressSync` for a branch. */
  function ClientBranchSeeds(author: Pubkey, parent: Pubkey, seed: Bytes32): seq<seq<byte>>
  {
    [NodeSeedText(), author, parent, seed]
  }

  /** `titleHash(title)`: SHA-256 of the title's UTF-8 bytes, the same hash the
      program applies. */
  function TitleHash(rt: Runtime, title: string): Bytes32
  {
    rt.sha256(Encode(title))
  }

  /** Where the form checks leave `mintNode`: stopped, or going on with the
      parent of a branch (`None` for a root). */
  datatype Prepared = Stop(reason: Rejection) | Go(parent: Option<Pubkey>)

  /** The checks `mintNode` makes before it builds a transaction, in order,
      and the branch parent it parses; `None` for a root. The checks let
      through exactly the submittable forms. */
  function Prepare(wallet: Option<Pubkey>, form: MintForm, parseKey: string -> Option<Pubkey>)
    : (r: Prepared)
    ensures r.Go? <==> Submittable(wallet, form, parseKey)
    ensures r.Go? ==> r.parent == if form.nodeType == ROOT_TYPE then None else parseKey(Trim(form.parentAddress))
  {
    TrimEmptyIffBlank(form.title);
    TrimEmptyIffBlank(form.content);
    if wallet.None? then Stop(NotConnected)
    else if Trim(form.title) == [] then Stop(TitleRequired)
    else if Trim(form.content) == [] then Stop(ContentRequired)
    else if form.nodeType == ROOT_TYPE then Go(None)
    else match parseKey(Trim(form.parentAddress))
      case None => Stop(InvalidParentKey)
      case Some(p) => Go(Some(p))
  }

  /** A form `mintNode` goes on to submit: a connected wallet, a title and
      content that are not all whitespace, and for a branch a parent address
      that parses. */
  predicate Submittable(wallet: Option<Pubkey>, form: MintForm, parseKey: string -> Option<Pubkey>)
  {
    && wallet.Some? && !AllWhitespace(form.title) && !AllWhitespace(form.content)
    && (form.nodeType == ROOT_TYPE || parseKey(Trim(form.parentAddress)).Some?)
  }

  /** A form short enough that its title and content URI, at up to four
      UTF-8 bytes a character, fit Borsh's `u32` length prefix. */
  predicate FitsLengthPrefix(form: MintForm)
  {
    |form.title| < 0x4000_0000 && |DATA_URI_PREFIX| + |form.content| < 0x4000_0000
  }

  /** `mintNode` as the program expects it to be called: four arguments, the
      client having no image field, so an empty `image_uri`. */
  function MintNode(rt: Runtime, wallet: Option<Pubkey>, form: MintForm, parseKey: string -> Option<Pubkey>)
    : (r: MintOutcome)
    ensures r == Rejected(NotConnected) <==> wallet.None?
    ensures r == Rejected(TitleRequired) <==> wallet.Some? && AllWhitespace(form.title)
    ensures r == Rejected(ContentRequired)
        <==> wallet.Some? && !AllWhitespace(form.title) && AllWhitespace(form.content)
    ensures r == Rejected(InvalidParentKey)
        <==> && wallet.Some? && !AllWhitespace(form.title) && !AllWhitespace(form.content)
             && form.nodeType != ROOT_TYPE && parseKey(Trim(form.parentAddress)).None?
    ensures r.Submit? ==>
      && r.ix.author == wallet.value
      && r.ix.args.title == Encode(Trim(form.title))
      && r.ix.args.contentUri == Encode(DATA_URI_PREFIX + Trim(form.content))
      && r.ix.args.imageUri == []
      && r.ix.args.titleSeed == rt.sha256(r.ix.args.title)
      && (r.ix.CreateRootIx? <==> form.nodeType == ROOT_TYPE)
      && (r.ix.CreateBranchIx? ==> r.ix.parentNode == parseKey(Trim(form.parentAddress)).value)
  {
    TrimEmptyIffBlank(form.title);
    TrimEmptyIffBlank(form.content);
    match Prepare(wallet, form, parseKey)
    case Stop(why) => Rejected(why)
    case Go(parent) =>
      var author := wallet.value;
      var title := Trim(form.title);
      var seed := TitleHash(rt, title);
      var args := Args(Encode(title), Encode(DATA_URI_PREFIX + Trim(form.content)), [], seed);
      match parent
      case None =>
        Submit(CreateRootIx(rt.findProgramAddress(ClientRootSeeds(author, seed)).address, author, args))
      case Some(p) =>
        Submit(CreateBranchIx(rt.findProgramAddress(ClientBranchSeeds(author, p, seed)).address, p, author, args))
  }

  /** What the client actually submits: the same accounts with the
      three-argument list `(title, contentUri, titleSeed)`. */
  datatype StaleOutcome =
    | StaleRejected(reason: Rejection)
    | StaleSubmit(storyNode: Pubkey, parentNode: Option<Pubkey>, author: Pubkey, args: StaleArgs)

  /** `mintNode` as written: the calls pass `title, contentUri, titleSeedArg(title)`. */
  function MintNodeAsWritten(rt: Runtime, wallet: Option<Pubkey>, form: MintForm, parseKey: string -> Option<Pubkey>)
    : StaleOutcome
  {
    match Prepare(wallet, form, parseKey)
    case Stop(why) => StaleRejected(why)
    case Go(parent) =>
      var author := wallet.value;
      var title := Trim(form.title);
      var seed := TitleHash(rt, title);
      var args := StaleArgs(Encode(title), Encode(DATA_URI_PREFIX + Trim(form.content)), seed);
      match parent
      case None => StaleSubmit(rt.findProgramAddress(ClientRootSeeds(author, seed)).address, None, author, args)
      case Some(p) => StaleSubmit(rt.findProgramAddress(ClientBranchSeeds(author, p, seed)).address, Some(p), author, args)
  }

  // ---------------------------------------------------------------------
  // Properties
  // ---------------------------------------------------------------------

  /** Both versions of `mintNode` submit exactly the submittable forms. */
  lemma SubmitIffSubmittable(rt: Runtime, wallet: Option<Pubkey>, form: MintForm,
                             parseKey: string -> Option<Pubkey>)
    ensures MintNode(rt, wallet, form, parseKey).Submit? <==> Submittable(wallet, form, parseKey)
    ensures MintNodeAsWritten(rt, wallet, form, parseKey).StaleSubmit? <==> Submittable(wallet, form, parseKey)
  {
    MintSubmitsAfterChecks(rt, wallet, form, parseKey);
    AsWrittenSubmitsAfterChecks(rt, wallet, form, parseKey);
  }

  /** `mintNode` submits exactly when its checks let the form through. */
  lemma MintSubmitsAfterChecks(rt: Runtime, wallet: Option<Pubkey>, form: MintForm,
                               parseKey: string -> Option<Pubkey>)
    ensures MintNode(rt, wallet, form, parseKey).Submit? <==> Prepare(wallet, form, parseKey).Go?
  {
    match Prepare(wallet, form, parseKey)
    case Stop(why) =>
      assert MintNode(rt, wallet, form, parseKey) == Rejected(why);
    case Go(parent) =>
  }

  /** So does the client as written. */
  lemma AsWrittenSubmitsAfterChecks(rt: Runtime, wallet: Option<Pubkey>, form: MintForm,
                                    parseKey: string -> Option<Pubkey>)
    ensures MintNodeAsWritten(rt, wallet, form, parseKey).StaleSubmit? <==> Prepare(wallet, form, parseKey).Go?
  {
  }

  /** The title and content URI a short enough form yields fit a `u32`
      length prefix. */
  lemma EncodedFormFits(form: MintForm)
    requires FitsLengthPrefix(form)
    ensures |Encode(Trim(form.title))| < 0x1_0000_0000
    ensures |Encode(DATA_URI_PREFIX + Trim(form.content))| < 0x1_0000_0000
  {
    EncodeLength(Trim(form.title));
    EncodeLength(DATA_URI_PREFIX + Trim(form.content));
  }

  /** `"story-node"` is ASCII, so its UTF-8 bytes are the program's seed. */
  lemma NodeSeedMatches()
    ensures NodeSeedText() == NODE_SEED
  {
    AsciiEncodes("story-node", NODE_SEED);
  }

  /** The client's seed lists are the program's, byte for byte. */
  lemma ClientSeedsMatchProgram(author: Pubkey, parent: Pubkey, seed: Bytes32)
    ensures ClientRootSeeds(author, seed) == RootSeeds(author, seed)
    ensures ClientBranchSeeds(author, parent, seed) == BranchSeeds(author, parent, seed)
  {
    NodeSeedMatches();
  }

  /** The content URI's bytes are the data-URI prefix's followed by the
      content's, so the URI is never empty. */
  lemma ContentUriShape(content: string)
    ensures Encode(DATA_URI_PREFIX + content) == Encode(DATA_URI_PREFIX) + Encode(content)
    ensures |Encode(DATA_URI_PREFIX + content)| >= |DATA_URI_PREFIX| > 0
  {
    EncodeConcat(DATA_URI_PREFIX, content);
    EncodeLength(DATA_URI_PREFIX);
  }

  /** The client names the address the program derives: the seeds match,
      so `findProgramAddressSync` and the `seeds` constraint agree. */
  lemma MintTargetsDerivedAddress(rt: Runtime, wallet: Option<Pubkey>, form: MintForm,
                                  parseKey: string -> Option<Pubkey>)
    requires Submittable(wallet, form, parseKey)
    ensures MintNode(rt, wallet, form, parseKey).Submit?
    ensures var ix := MintNode(rt, wallet, form, parseKey).ix;
      && (ix.CreateRootIx? ==> ix.storyNode == rt.findProgramAddress(RootSeeds(ix.author, ix.args.titleSeed)).address)
      && (ix.CreateBranchIx? ==>
            ix.storyNode == rt.findProgramAddress(BranchSeeds(ix.author, ix.parentNode, ix.args.titleSeed)).address)
      && |ix.args.contentUri| > 0
  {
    SubmitIffSubmittable(rt, wallet, form, parseKey);
    NodeSeedMatches();
    ContentUriShape(Trim(form.content));
  }

  /** A root request shaped as the client shapes it (derived target, correct
      title seed, non-empty content URI, empty image URI) fails only for an
      occupied target or an over-long title or content URI. */
  lemma ClientShapedRoot(rt: Runtime, ledger: Ledger, storyNode: Pubkey, author: Pubkey, args: Args, now: I64)
    requires storyNode == rt.findProgramAddress(RootSeeds(author, args.titleSeed)).address
    requires args.titleSeed == rt.sha256(args.title) && |args.contentUri| > 0 && args.imageUri == []
    ensures var r := CreateRoot(rt, ledger, storyNode, author, args, now);
      && r != Err(ConstraintSeeds)
      && r != Err(Custom(EmptyUri))
      && r != Err(Custom(InvalidTitleSeed))
      && (r.Ok? <==> storyNode !in ledger && |args.title| <= MAX_TITLE_LEN && |args.contentUri| <= MAX_URI_LEN)
  {
  }

  /** The branch counterpart: a missing parent, an occupied target, an
      over-long title or content URI, or a parent counter at its maximum. */
  lemma ClientShapedBranch(rt: Runtime, ledger: Ledger, storyNode: Pubkey, parentNode: Pubkey, author: Pubkey,
                           args: Args, now: I64)
    requires storyNode == rt.findProgramAddress(BranchSeeds(author, parentNode, args.titleSeed)).address
    requires args.titleSeed == rt.sha256(args.title) && |args.contentUri| > 0 && args.imageUri == []
    ensures var r := CreateBranch(rt, ledger, storyNode, parentNode, author, args, now);
      && r != Err(ConstraintSeeds)
      && r != Err(Custom(EmptyUri))
      && r != Err(Custom(InvalidTitleSeed))
      && (r.Ok? <==>
            && parentNode in ledger && storyNode !in ledger
            && |args.title| <= MAX_TITLE_LEN && |args.contentUri| <= MAX_URI_LEN
            && ledger[parentNode].childrenCount < U64_MAX)
  {
  }

  /** A root request from the client is rejected by the program only for an
      occupied target or an over-long title or content: it always names the
      derived address, never sends an empty URI and always sends the right
      title seed. */
  lemma RootRequestOutcome(rt: Runtime, ledger: Ledger, wallet: Option<Pubkey>, form: MintForm,
                           parseKey: string -> Option<Pubkey>, now: I64)
    requires Submittable(wallet, form, parseKey)
    requires form.nodeType == ROOT_TYPE
    ensures MintNode(rt, wallet, form, parseKey).Submit?
    ensures var ix := MintNode(rt, wallet, form, parseKey).ix;
      var r := CreateRoot(rt, ledger, ix.storyNode, ix.author, ix.args, now);
      && r != Err(ConstraintSeeds)
      && r != Err(Custom(EmptyUri))
      && r != Err(Custom(InvalidTitleSeed))
      && (r.Ok? <==> ix.storyNode !in ledger && |ix.args.title| <= MAX_TITLE_LEN && |ix.args.contentUri| <= MAX_URI_LEN)
  {
    MintTargetsDerivedAddress(rt, wallet, form, parseKey);
    var ix := MintNode(rt, wallet, form, parseKey).ix;
    ClientShapedRoot(rt, ledger, ix.storyNode, ix.author, ix.args, now);
  }

  /** The branch counterpart: the program rejects a client branch only for a
      missing parent, an occupied target, an over-long title or content, or a
      parent counter at its maximum. */
  lemma BranchRequestOutcome(rt: Runtime, ledger: Ledger, wallet: Option<Pubkey>, form: MintForm,
                             parseKey: string -> Option<Pubkey>, now: I64)
    requires Submittable(wallet, form, parseKey)
    requires form.nodeType != ROOT_TYPE
    ensures MintNode(rt, wallet, form, parseKey).Submit?
    ensures var ix := MintNode(rt, wallet, form, parseKey).ix;
      && ix.CreateBranchIx?
      && var r := CreateBranch(rt, ledger, ix.storyNode, ix.parentNode, ix.author, ix.args, now);
      && r != Err(ConstraintSeeds)
      && r != Err(Custom(EmptyUri))
      && r != Err(Custom(InvalidTitleSeed))
      && (r.Ok? <==>
            && ix.parentNode in ledger && ix.storyNode !in ledger
            && |ix.args.title| <= MAX_TITLE_LEN && |ix.args.contentUri| <= MAX_URI_LEN
            && ledger[ix.parentNode].childrenCount < U64_MAX)
  {
    MintTargetsDerivedAddress(rt, wallet, form, parseKey);
    var ix := MintNode(rt, wallet, form, parseKey).ix;
    ClientShapedBranch(rt, ledger, ix.storyNode, ix.parentNode, ix.author, ix.args, now);
  }

  /** The client as written and the corrected client reject the same forms
      for the same reasons and target the same accounts with the same title,
      content and seed; they differ only in the missing `image_uri`. */
  lemma AsWrittenDiffersOnlyInArgs(rt: Runtime, wallet: Option<Pubkey>, form: MintForm,
                                   parseKey: string -> Option<Pubkey>)
    ensures var fixed := MintNode(rt, wallet, form, parseKey);
      var stale := MintNodeAsWritten(rt, wallet, form, parseKey);
      && (fixed.Rejected? <==> stale.StaleRejected?)
      && (fixed.Rejected? ==> fixed.reason == stale.reason)
      && (fixed.Submit? ==>
            && stale.storyNode == fixed.ix.storyNode
            && stale.author == fixed.ix.author
            && (stale.parentNode.Some? <==> fixed.ix.CreateBranchIx?)
            && (fixed.ix.CreateBranchIx? ==> stale.parentNode.value == fixed.ix.parentNode)
            && stale.args == StaleArgs(fixed.ix.args.title, fixed.ix.args.contentUri, fixed.ix.args.titleSeed))
  {
    match Prepare(wallet, form, parseKey)
    case Stop(why) =>
      assert MintNode(rt, wallet, form, parseKey) == Rejected(why);
      assert MintNodeAsWritten(rt, wallet, form, parseKey) == StaleRejected(why);
    case Go(parent) =>
      var author := wallet.value;
      var title := Trim(form.title);
      var seed := TitleHash(rt, title);
      var args := Args(Encode(title), Encode(DATA_URI_PREFIX + Trim(form.content)), [], seed);
      var stale := StaleArgs(args.title, args.contentUri, seed);
      match parent
      case None =>
        var t := rt.findProgramAddress(ClientRootSeeds(author, seed)).address;
        assert MintNode(rt, wallet, form, parseKey) == Submit(CreateRootIx(t, author, args));
        assert MintNodeAsWritten(rt, wallet, form, parseKey) == StaleSubmit(t, None, author, stale);
      case Some(p) =>
        var t := rt.findProgramAddress(ClientBranchSeeds(author, p, seed)).address;
        assert MintNode(rt, wallet, form, parseKey) == Submit(CreateBranchIx(t, p, author, args));
        assert MintNodeAsWritten(rt, wallet, form, parseKey) == StaleSubmit(t, Some(p), author, stale);
  }

  /** Every request the client as written submits is refused by the program
      before any check runs: its argument bytes never decode as the program's
      four arguments. */
  lemma AsWrittenMintNeverDecodes(rt: Runtime, wallet: Option<Pubkey>, form: MintForm,
                                  parseKey: string -> Option<Pubkey>)
    requires Submittable(wallet, form, parseKey)
    requires FitsLengthPrefix(form)
    ensures var o := MintNodeAsWritten(rt, wallet, form, parseKey);
      && o.StaleSubmit?
      && |o.args.title| < 0x1_0000_0000 && |o.args.contentUri| < 0x1_0000_0000
      && DecodeArgs(EncodeStaleArgs(o.args)) == None
  {
    SubmitIffSubmittable(rt, wallet, form, parseKey);
    EncodedFormFits(form);
    StaleArgsNeverDecode(MintNodeAsWritten(rt, wallet, form, parseKey).args);
  }

  /** The corrected request's argument bytes decode to exactly the arguments
      the client meant: the strings it encodes are always well-formed UTF-8. */
  lemma MintArgsDecode(rt: Runtime, wallet: Option<Pubkey>, form: MintForm, parseKey: string -> Option<Pubkey>)
    requires Submittable(wallet, form, parseKey)
    requires FitsLengthPrefix(form)
    ensures MintNode(rt, wallet, form, parseKey).Submit?
    ensures var a := MintNode(rt, wallet, form, parseKey).ix.args;
      a.Encodable() && DecodeArgs(EncodeArgs(a)) == Some(a)
  {
    SubmitIffSubmittable(rt, wallet, form, parseKey);
    EncodedFormFits(form);
    EncodeIsUtf8(Trim(form.title));
    EncodeIsUtf8(DATA_URI_PREFIX + Trim(form.content));
    EncodeIsUtf8([]);
    ArgsRoundTrip(MintNode(rt, wallet, form, parseKey).ix.args);
  }
}
