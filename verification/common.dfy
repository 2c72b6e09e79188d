/** Shared vocabulary of the posts app: optional values and the outcome of a view. */
module Common {

  datatype Option<+T> = None | Some(value: T)

  /** The pages a view can redirect to. */
  datatype Route =
    | Login                                   // the login page that login_required sends anonymous users to
    | IndexPage                               // posts:index
    | PostPage(username: string, postId: nat) // posts:post
    | ProfilePage(username: string)           // posts:profile

  /**
   * What a view answers: a rendered template with its context, a redirect, a 404, or the
   * server error (status 500) Django answers when a view raises.
   */
  datatype Response<+T> = Render(context: T) | Redirect(to: Route) | NotFound | ServerError
}
