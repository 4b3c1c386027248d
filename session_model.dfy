/** The Session record of models/session.js. */
module SessionModel {
  import opened UserModel

  /** A session: the user it belongs to, its token pair and an expiry
      date (a timestamp). */
  datatype Session = Session(userId: UserId, accessToken: string, refreshToken: string, expiration: int)

  /** The four paths are required; a required string path must be
      non-empty, and `userId` holds a user id (its ObjectId cast is not
      modelled).  Its `ref: 'User'` only
      names the model `populate` would load: the referenced user need not
      exist, so a session can outlive its user. */
  predicate SessionValid(s: Session) {
    s.userId != "" && s.accessToken != "" && s.refreshToken != ""
  }

  /** No unique index on `userId`: the collection is any sequence of valid
      sessions, several of which may belong to the same user. */
  ghost predicate SessionsValid(sessions: seq<Session>) {
    forall i :: 0 <= i < |sessions| ==> SessionValid(sessions[i])
  }

  /** Two sessions of one user, with different tokens, form a valid
      collection. */
  lemma SeveralSessionsPerUser(id: UserId)
    requires id != ""
    ensures SessionsValid([Session(id, "a1", "r1", 0), Session(id, "a2", "r2", 1)])
  {
  }
}
