/** The closed set of ways an instruction can be rejected: the program's own
    `StoryChainError` enum and the account-resolution failures the framework
    raises before the handler body runs. */
module Errors {
  import opened Types

  /** `StoryChainError`, in declaration order. */
  datatype StoryChainError =
    | TitleTooLong
    | UriTooLong
    | ImageUriTooLong
    | EmptyUri
    | Overflow
    | InvalidTitleSeed

  /** The custom-error offset of the framework: the first variant is 6000. */
  const ERROR_CODE_OFFSET: nat := 6000

  /** The numeric code a caller sees: the offset plus the variant's position. */
  function Code(e: StoryChainError): (c: nat)
    ensures ERROR_CODE_OFFSET <= c < ERROR_CODE_OFFSET + 6
  {
    ERROR_CODE_OFFSET +
    match e
    case TitleTooLong => 0
    case UriTooLong => 1
    case ImageUriTooLong => 2
    case EmptyUri => 3
    case Overflow => 4
    case InvalidTitleSeed => 5
  }

  /** The error a numeric code stands for, if any. */
  function FromCode(c: int): (r: Option<StoryChainError>)
    ensures r.Some? ==> Code(r.value) == c
    ensures r.Some? <==> ERROR_CODE_OFFSET <= c < ERROR_CODE_OFFSET + 6
  {
    if c == 6000 then Some(TitleTooLong)
    else if c == 6001 then Some(UriTooLong)
    else if c == 6002 then Some(ImageUriTooLong)
    else if c == 6003 then Some(EmptyUri)
    else if c == 6004 then Some(Overflow)
    else if c == 6005 then Some(InvalidTitleSeed)
    else None
  }

  /** Every error is recovered from its code, so no two errors share one. */
  lemma CodeRoundTrip(e: StoryChainError)
    ensures FromCode(Code(e)) == Some(e)
  {
  }

  lemma CodeInjective(e1: StoryChainError, e2: StoryChainError)
    requires Code(e1) == Code(e2)
    ensures e1 == e2
  {
    CodeRoundTrip(e1);
    CodeRoundTrip(e2);
  }

  /** Why an instruction was rejected. The first three come from account
      resolution, which happens before the handler body runs. */
  datatype Failure =
    | AccountNotInitialized   // `parent_node` does not load as a StoryNode account: missing,
                              // owned by another program, or another account type
    | ConstraintSeeds         // `story_node` is not the address derived from its seeds
    | AccountInUse            // the `init` target already holds an account
    | Custom(error: StoryChainError)
}
