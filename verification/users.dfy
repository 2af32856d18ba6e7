/** The user directory: the process-wide map from a chat platform's user
    id to the canonical username used for permission lookups, passed here
    as an explicit, immutable parameter. */
module Users {
  import opened Wrappers

  /** The canonical username of `userId`, or `None` (anonymous) when the id
      is absent or has no entry in the directory. */
  function Resolve(directory: map<string, string>, userId: Option<string>): (r: Option<string>)
    ensures r.Some? <==> userId.Some? && userId.value in directory
    ensures r.Some? ==> r.value == directory[userId.value]
  {
    match userId
    case None => None
    case Some(id) => if id in directory then Some(directory[id]) else None
  }
}
