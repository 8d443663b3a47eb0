/** What the request handlers answer, and the environment they read. */
module Http {

  import opened Js

  /** A handler's outcome. */
  datatype Response =
    | JsonError(status: int, error: string)   // res.status(status).json({ error })
    | JsonErrorDebug(status: int, error: string, debug: string)
                                              // res.status(status).json({ error, debug })
    | JsonUrl(url: string)                    // res.status(200).json({ url })
    | JsonSuccess                             // res.status(200).json({ success: true })
    | Redirect(location: string)              // res.redirect(location): a temporary redirect
    | Sent(status: int, body: string)         // res.status(status).send(body)
    | EndedPlain(status: int)                 // Content-Type text/plain and an empty body
    | Unhandled                               // an exception escaped the handler

  /** The environment variables the handlers read; None is an unset variable. */
  datatype Env = Env(whoopClientId: Option<string>, whoopRedirectUri: Option<string>, baseUrl: Option<string>)
}
