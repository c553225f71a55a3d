/** Option and Result: the model's stand-ins for `null`/`undefined` and for thrown errors. */
module Wrappers {

  /** A value that may be absent (`T | null` or `T | undefined` in the source). */
  datatype Option<+T> = None | Some(value: T) {

    /** The value, or `default` when absent (the source's `x || default`). */
    function GetOr(default: T): T {
      match this
      case Some(v) => v
      case None => default
    }
  }

  /** The outcome of an operation that may throw. */
  datatype Result<+R, +E> = Success(value: R) | Failure(error: E)
}

/** The errors the core throws, one variant per distinct message; `AlreadyVoted` and
    `DuplicateBallot` are each thrown from two sites. */
module Errors {

  datatype Error =
    | ElectionOrVoterNotFound   // DataService.castVote, missing election or user
    | NotAVoter                 // DataService.castVote, user is an Admin
    | AlreadyVoted              // DataService.castVote and Voter.vote, flag already set
    | ElectionNotActive         // DataService.castVote, outside the voting window
    | DuplicateBallot           // a tally strategy's ledger already holds the voter
    | ElectionNotFound          // DataService.getElectionResults

  /** The message the source attaches to each error. */
  function Message(e: Error): string {
    match e
    case ElectionOrVoterNotFound => "Election or voter not found"
    case NotAVoter => "User is not a voter"
    case AlreadyVoted => "Voter has already voted in this election"
    case ElectionNotActive => "Election is not currently active"
    case DuplicateBallot => "Voter has already cast a vote"
    case ElectionNotFound => "Election not found"
  }
}
