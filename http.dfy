/** The request and response side of the web layer, reduced to what the handlers
    read and write: form fields, uploaded-file metadata, the session record and the
    response a handler ends with. */
module Http {
  import opened Wrappers
  import Users

  /** A form field: one value, or several when the key is repeated. */
  datatype FormValue = One(value: string) | Many(values: seq<string>)

  /** `req.body`; a key absent from the map is `undefined`. */
  type Body = map<string, FormValue>

  function Field(body: Body, key: string): Option<FormValue> {
    if key in body then Some(body[key]) else None
  }

  /** The description multer gives of an uploaded file (`req.file`): the name on
      the client, the declared type, the name it was stored under and its size in
      bytes. */
  datatype UploadedFile = UploadedFile(originalName: string, mimetype: string, filename: string, size: nat)

  /** A failure the document store throws. */
  datatype StoreError = ReadFailed | WriteFailed

  /** The copy of the user that login puts into `req.session.user`. */
  datatype SessionUser = SessionUser(id: Users.UserId, name: string, email: string,
                                     role: Users.Role, status: Users.Status)

  /** How a handler ends the request. */
  datatype Response =
    | Redirect(to: string)
    | RedirectBack
    | NextHandler
    | NextWithError(error: StoreError)
    | NextWithUploadError(message: string)
    | NotFoundPage
    | RenderProfile(profile: Users.User, isOwner: bool)
    | RenderForm(errors: seq<string>)

  /** The per-visitor session: the logged-in user and the two flash messages. */
  class Session {
    var user: Option<SessionUser>
    var errorMsg: Option<string>
    var successMsg: Option<string>

    constructor (user: Option<SessionUser>)
      ensures this.user == user && errorMsg.None? && successMsg.None?
    {
      this.user := user;
      errorMsg, successMsg := None, None;
    }
  }
}
