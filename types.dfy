/** The database records of types/index.ts. Timestamps are integer
    milliseconds since the epoch; optional fields (`x?: T`) are `Option`s.
    The nested relations (`creator`, `analytics`, `votes`, `user`, `option`)
    are not carried. */
module PollTypes {
  import opened Wrappers

  datatype PollOption = PollOption(
    id: string,
    pollId: string,
    text: string,
    orderIndex: int,
    createdAt: int,
    voteCount: Option<nat>)

  datatype Poll = Poll(
    id: string,
    title: string,
    description: Option<string>,
    creatorId: string,
    isPublic: bool,
    allowMultipleVotes: bool,
    expiresAt: Option<int>,
    createdAt: int,
    updatedAt: int,
    options: Option<seq<PollOption>>)

  datatype Vote = Vote(
    id: string,
    pollId: string,
    optionId: string,
    userId: Option<string>,
    voterIp: Option<string>,
    createdAt: int)
}
