/** Machine types shared by the on-chain program and the browser client:
    bytes, 32-byte keys and the fixed-width integers of the account layout. */
module Types {

  type byte = x: int | 0 <= x < 0x100

  /** A `[u8; 32]`: a public key or a SHA-256 digest. */
  type Bytes32 = s: seq<byte> | |s| == 32 witness ZEROS

  type Pubkey = Bytes32

  const ZEROS: seq<byte> :=
    [0, 0, 0, 0, 0, 0, 0, 0, 0, 0, 0, 0, 0, 0, 0, 0,
     0, 0, 0, 0, 0, 0, 0, 0, 0, 0, 0, 0, 0, 0, 0, 0]

  /** `Pubkey::default()` / `PublicKey.default`: the all-zero key, used as the
      parent of every root node. */
  const DefaultKey: Pubkey := ZEROS

  const U64_MAX: int := 0xFFFF_FFFF_FFFF_FFFF
  const I64_MIN: int := -0x8000_0000_0000_0000
  const I64_MAX: int := 0x7FFF_FFFF_FFFF_FFFF

  type U64 = x: int | 0 <= x <= U64_MAX
  type I64 = x: int | I64_MIN <= x <= I64_MAX

  datatype Option<+T> = None | Some(value: T)
}
