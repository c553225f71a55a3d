/** The immutable ballot record (`Vote`). Its getters are the datatype's fields; a datatype
    value is never changed after construction, so repeated reads return the same values. */
module Votes {

  datatype Vote = Vote(
    id: string,
    voterId: string,
    electionId: string,
    candidateId: string,   // a candidate id, or a comma-joined ranking for ranked elections
    timestamp: int)        // milliseconds since the epoch
}

/** The immutable candidate record (`Candidate`), owned by exactly one election. */
module Candidates {

  datatype Candidate = Candidate(
    id: string,
    name: string,
    description: string,
    imageUrl: string,
    electionId: string)
}
