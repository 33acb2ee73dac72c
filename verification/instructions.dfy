/** The two instructions as a caller submits them: the accounts they name and
    their Borsh-encoded argument list
    `(title: String, content_uri: String, image_uri: String, title_seed: [u8; 32])`. */
module Instructions {
  import opened Types
  import opened Utf8
  import opened Borsh

  /** Instruction arguments; strings as their UTF-8 bytes. */
  datatype Args = Args(title: seq<byte>, contentUri: seq<byte>, imageUri: seq<byte>, titleSeed: Bytes32)
  {
    predicate Encodable() {
      |title| < 0x1_0000_0000 && |contentUri| < 0x1_0000_0000 && |imageUri| < 0x1_0000_0000
    }

    /** Every string argument is well-formed UTF-8, as a Rust `String` must be. */
    predicate Utf8Strings() {
      IsUtf8(title) && IsUtf8(contentUri) && IsUtf8(imageUri)
    }
  }

  /** An instruction with its accounts: `story_node` is the `init` target,
      `author` the signer, and for a branch `parentNode` the parent account. */
  datatype Instruction =
    | CreateRootIx(storyNode: Pubkey, author: Pubkey, args: Args)
    | CreateBranchIx(storyNode: Pubkey, parentNode: Pubkey, author: Pubkey, args: Args)

  function EncodeArgs(a: Args): seq<byte>
    requires a.Encodable()
  {
    EncodeBytes(a.title) + EncodeBytes(a.contentUri) + EncodeBytes(a.imageUri) + a.titleSeed
  }

  /** How the program reads its argument list; bytes that do not decode are
      refused before the handler runs. */
  function DecodeArgs(data: seq<byte>): (r: Option<Args>)
    ensures r.Some? ==> r.value.Utf8Strings()
  {
    match ReadThreeStrings(data)
    case None => None
    case Some((title, contentUri, imageUri, rest)) =>
    match ReadFixed(rest, 32)
    case None => None
    case Some((titleSeed, _)) => Some(Args(title, contentUri, imageUri, titleSeed))
  }

  /** The program reads back exactly the arguments a four-argument caller
      wrote, provided its strings are well-formed UTF-8; otherwise it reads
      nothing. */
  lemma {:induction false} ArgsRoundTrip(a: Args)
    requires a.Encodable()
    ensures DecodeArgs(EncodeArgs(a)) == if a.Utf8Strings() then Some(a) else None
  {
    var seed := a.titleSeed;
    ReadThreeStringsRoundTrip(a.title, a.contentUri, a.imageUri, seed);
    assert seed + [] == seed;
    ReadFixedPrefix(seed, []);
  }

  /** The three-argument list `(title, content_uri, title_seed)` that the
      browser client and the tests still send: the interface they were built
      against has no `image_uri`. */
  datatype StaleArgs = StaleArgs(title: seq<byte>, contentUri: seq<byte>, titleSeed: Bytes32)

  function EncodeStaleArgs(a: StaleArgs): seq<byte>
    requires |a.title| < 0x1_0000_0000 && |a.contentUri| < 0x1_0000_0000
  {
    EncodeBytes(a.title) + EncodeBytes(a.contentUri) + a.titleSeed
  }

  /** A three-argument call never decodes as the program's four arguments: the
      32 seed bytes are read as an `image_uri` length prefix plus at most 28
      bytes, leaving fewer than the 32 that `title_seed` needs (if a string
      is not UTF-8, decoding stops even earlier). */
  lemma StaleArgsNeverDecode(a: StaleArgs)
    requires |a.title| < 0x1_0000_0000 && |a.contentUri| < 0x1_0000_0000
    ensures DecodeArgs(EncodeStaleArgs(a)) == None
  {
    var t2 := a.titleSeed;
    var t1 := EncodeBytes(a.contentUri) + t2;
    assert EncodeStaleArgs(a) == EncodeBytes(a.title) + t1;
    ReadStringRoundTrip(a.title, t1);
    ReadStringRoundTrip(a.contentUri, t2);
    match ReadString(t2)
    case None =>
    case Some((img, r3)) =>
      assert |r3| <= 28;
  }
}
