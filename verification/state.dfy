/** The `StoryNode` account: its fields, the space the program allocates for
    it, and its byte layout (8-byte discriminator, then the fields in
    declaration order, Borsh-encoded). */
module State {
  import opened Types
  import opened Utf8
  import opened Borsh

  /** Longest accepted content or image URI, in bytes. */
  const MAX_URI_LEN: nat := 200
  /** Longest accepted title, in bytes. */
  const MAX_TITLE_LEN: nat := 64

  /** One story node. Strings are held as their UTF-8 bytes: the program only
      measures, hashes and copies them. */
  datatype StoryNode = StoryNode(
    author: Pubkey,
    parent: Pubkey,          // DefaultKey for a root
    title: seq<byte>,
    contentUri: seq<byte>,
    imageUri: seq<byte>,     // empty when there is no image
    childrenCount: U64,
    createdAt: I64,
    bump: byte)
  {
    predicate IsRoot() {
      parent == DefaultKey
    }

    /** Every string fits a Borsh `u32` length prefix. */
    predicate Encodable() {
      |title| < 0x1_0000_0000 && |contentUri| < 0x1_0000_0000 && |imageUri| < 0x1_0000_0000
    }

    /** Every string field is well-formed UTF-8, as a Rust `String` must be. */
    predicate Utf8Strings() {
      IsUtf8(title) && IsUtf8(contentUri) && IsUtf8(imageUri)
    }
  }

  /** `StoryNode::space`: the account size allocated at `init`. */
  function Space(title: seq<byte>, contentUri: seq<byte>, imageUri: seq<byte>): nat
  {
    8 + 32 + 32 + (4 + |title|) + (4 + |contentUri|) + (4 + |imageUri|) + 8 + 8 + 1
  }

  /** The account data of a node: discriminator, then each field in order. */
  function Serialize(discriminator: seq<byte>, n: StoryNode): seq<byte>
    requires n.Encodable()
  {
    discriminator + n.author + n.parent
    + EncodeBytes(n.title) + EncodeBytes(n.contentUri) + EncodeBytes(n.imageUri)
    + EncodeU64(n.childrenCount) + EncodeI64(n.createdAt) + [n.bump]
  }

  /** Reads an account back; fails on a wrong discriminator, short data or a
      string field that is not UTF-8. */
  function Deserialize(discriminator: seq<byte>, data: seq<byte>): (r: Option<StoryNode>)
    ensures r.Some? ==> r.value.Utf8Strings()
  {
    match ReadFixed(data, |discriminator|)
    case None => None
    case Some((d, r0)) =>
      if d != discriminator then None else
      match ReadFixed(r0, 32)
      case None => None
      case Some((author, r1)) =>
      match ReadFixed(r1, 32)
      case None => None
      case Some((parent, r2)) =>
      match ReadThreeStrings(r2)
      case None => None
      case Some((title, contentUri, imageUri, r5)) =>
      match ReadU64(r5)
      case None => None
      case Some((childrenCount, r6)) =>
      match ReadI64(r6)
      case None => None
      case Some((createdAt, r7)) =>
      match ReadFixed(r7, 1)
      case None => None
      case Some((bump, _)) =>
        Some(StoryNode(author, parent, title, contentUri, imageUri, childrenCount, createdAt, bump[0]))
  }

  /** The space allocated at `init` is exactly the size of the node's data, so
      the account is neither too small to hold it nor padded. */
  lemma SpaceIsSerializedSize(discriminator: seq<byte>, n: StoryNode)
    requires |discriminator| == 8
    requires n.Encodable()
    ensures |Serialize(discriminator, n)| == Space(n.title, n.contentUri, n.imageUri)
  {
  }

  /** Any node whose strings respect the program's bounds fits in at most
      565 bytes, reached exactly when every string is at its bound. */
  lemma SpaceBound(title: seq<byte>, contentUri: seq<byte>, imageUri: seq<byte>)
    requires |title| <= MAX_TITLE_LEN && |contentUri| <= MAX_URI_LEN && |imageUri| <= MAX_URI_LEN
    ensures Space(title, contentUri, imageUri) <= 565
    ensures Space(title, contentUri, imageUri) == 565
        <==> |title| == MAX_TITLE_LEN && |contentUri| == MAX_URI_LEN && |imageUri| == MAX_URI_LEN
  {
  }

  /** Reading the stored account yields the node that was written, provided
      its strings are well-formed UTF-8; otherwise the read fails. */
  lemma {:induction false} AccountRoundTrip(discriminator: seq<byte>, n: StoryNode)
    requires n.Encodable()
    ensures Deserialize(discriminator, Serialize(discriminator, n)) == if n.Utf8Strings() then Some(n) else None
  {
    var tail7 := [n.bump];
    var tail6 := EncodeI64(n.createdAt) + tail7;
    var tail5 := EncodeU64(n.childrenCount) + tail6;
    var tail2 := EncodeBytes(n.title) + EncodeBytes(n.contentUri) + EncodeBytes(n.imageUri) + tail5;
    var tail1 := n.parent + tail2;
    var tail0 := n.author + tail1;
    assert Serialize(discriminator, n) == discriminator + tail0;
    ReadFixedPrefix(discriminator, tail0);
    ReadFixedPrefix(n.author, tail1);
    ReadFixedPrefix(n.parent, tail2);
    ReadThreeStringsRoundTrip(n.title, n.contentUri, n.imageUri, tail5);
    ReadU64RoundTrip(n.childrenCount, tail6);
    ReadI64RoundTrip(n.createdAt, tail7);
    ReadFixedPrefix(tail7, []);
  }
}
