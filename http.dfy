/** The responses the routes hand back. */
module Http {
  datatype Response =
    /** `HTMLResponse(body, status_code=status)` */
    | Html(status: nat, body: string)
    /** `RedirectResponse(location, status_code=status)` with the cookies set on it */
    | Redirect(location: string, status: nat, cookies: map<string, string>)
    /** an `HTTPException(status)` or an uncaught error (500) escaping the route */
    | Raised(status: nat)
}
