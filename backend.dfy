/**
 * What the pages get back from the hosted backend. Every remote call is an input
 * to the model: the backend may answer anything, and the pages must cope.
 */
module Backend {
  import opened Wrappers

  /** An error object from the data API: its machine code and its text. */
  datatype ApiError = ApiError(code: string, message: string)

  /** The data API's code for "`.single()` found no row". */
  const NoRowsCode: string := "PGRST116"

  /** The authenticated user as the auth service reports it. */
  datatype AuthUser = AuthUser(id: string, email: Option<string>, metaUsername: Option<string>)

  /** The outcome of `auth.getUser()`: a user, nobody signed in, or an exception. */
  datatype Session = SignedIn(user: AuthUser) | SignedOut | SessionThrew

  /** A query that returns data: the `{ data, error }` pair (either part may be null), or an exception. */
  datatype Reply<T> = Answer(data: Option<T>, error: Option<ApiError>) | ReplyThrew {

    /** The answer carries an error with the given code. */
    predicate FailedWith(code: string) {
      Answer? && error.Some? && error.value.code == code
    }
  }

  /** A call whose caller only reads `error`: success, an error object, or an exception. */
  datatype Ack = AckOk | AckError(error: ApiError) | AckThrew
}
