/** Program-derived addresses. SHA-256 and the off-curve bump search of
    `find_program_address` are not modelled bit by bit: a `Runtime` carries
    them as opaque functions, and the lemmas that need a property of them say
    so in their `requires`. */
module Addresses {
  import opened Types

  /** The result of `find_program_address`: an address and the bump that puts
      it off the ed25519 curve. The program id is fixed, so it is folded into
      the function. */
  datatype Pda = Pda(address: Pubkey, bump: byte)

  datatype Runtime = Runtime(
    sha256: seq<byte> -> Bytes32,
    findProgramAddress: seq<seq<byte>> -> Pda)

  /** `b"story-node"`, the first seed of every node address. */
  const NODE_SEED: seq<byte> := [115, 116, 111, 114, 121, 45, 110, 111, 100, 101]

  /** Seeds of a root node: namespace, author, SHA-256 of the title. */
  function RootSeeds(author: Pubkey, titleSeed: Bytes32): seq<seq<byte>>
  {
    [NODE_SEED, author, titleSeed]
  }

  /** Seeds of a branch node: namespace, author, parent address, SHA-256 of the title. */
  function BranchSeeds(author: Pubkey, parent: Pubkey, titleSeed: Bytes32): seq<seq<byte>>
  {
    [NODE_SEED, author, parent, titleSeed]
  }

  /** A derived address is off the curve while the all-zero key is on it, so
      no derivation yields the default key. */
  ghost predicate NeverDefault(rt: Runtime)
  {
    forall seeds :: rt.findProgramAddress(seeds).address != DefaultKey
  }

  /** The derivation gives distinct addresses to the distinct seed lists of
      `seeds`. A hash onto 32 bytes collides somewhere, so no derivation is
      collision-free on every input; the lemmas that need collision
      resistance ask for it only on the finitely many seed lists they are
      about. */
  predicate CollisionFreeOn(rt: Runtime, seeds: set<seq<seq<byte>>>)
  {
    forall s1, s2 | s1 in seeds && s2 in seeds
      && rt.findProgramAddress(s1).address == rt.findProgramAddress(s2).address :: s1 == s2
  }

  /** The seed layouts determine their inputs, and a root layout never equals
      a branch layout; where the derivation does not collide, root and branch
      addresses are therefore disjoint and each address names one (author,
      parent, title seed). */
  lemma SeedLayoutsInjective(a1: Pubkey, p1: Pubkey, t1: Bytes32, a2: Pubkey, p2: Pubkey, t2: Bytes32)
    ensures RootSeeds(a1, t1) == RootSeeds(a2, t2) <==> a1 == a2 && t1 == t2
    ensures BranchSeeds(a1, p1, t1) == BranchSeeds(a2, p2, t2) <==> a1 == a2 && p1 == p2 && t1 == t2
    ensures RootSeeds(a1, t1) != BranchSeeds(a2, p2, t2)
  {
    if RootSeeds(a1, t1) == RootSeeds(a2, t2) {
      assert RootSeeds(a1, t1)[1] == a2 && RootSeeds(a1, t1)[2] == t2;
    }
    if BranchSeeds(a1, p1, t1) == BranchSeeds(a2, p2, t2) {
      assert BranchSeeds(a1, p1, t1)[1] == a2;
      assert BranchSeeds(a1, p1, t1)[2] == p2;
      assert BranchSeeds(a1, p1, t1)[3] == t2;
    }
    assert |RootSeeds(a1, t1)| != |BranchSeeds(a2, p2, t2)|;
  }
}
