/** Values shared by every part of the model: optional values, and the three
    ways a call of the Python client can end — returning a value, calling
    exit(), or letting an exception escape to its caller. */
module Common {

  datatype Option<T> = None | Some(value: T)

  /** Why assert_valid_http_response rejects a response. */
  datatype HttpError =
    | UnexpectedStatus(expected: int, got: int) // wrong status code
    | UndecodableJson                           // the body is not JSON

  /** Why the client calls exit(). */
  datatype Reason =
    | ScanNotFound(scanName: string)         // _assert_scan_exists finds no scan of that name
    | InvalidState(status: string)           // start_scan on a scan that cannot be started
    | BadResponse(error: HttpError)          // assert_valid_http_response rejected an answer
    | UnexpectedLaunchStatus(got: int)       // start_scan: launch answered neither 200 nor 412
    | ScanStartTimeout                       // block_until_scan_completes: never started running

  /** An exception that escapes the call. */
  datatype Error =
    | ElementNotVisible(locator: string)     // ElementNotVisibleError
    | MissingKey(key: string)                // KeyError on a scan dictionary
    | NegativeSleepLength                    // ValueError from time.sleep of a negative length

  datatype Outcome<T> = Return(value: T) | Abort(reason: Reason) | Raise(error: Error)
}

/** The one piece of HTTP handling the client does itself: deciding whether a
    response is acceptable. Transport, TLS and headers are not modelled; a
    response is its status code and its body, decoded as JSON when it can be. */
module Http {
  import opened Common

  datatype Response<T> = Response(status: int, json: Option<T>)

  /** assert_valid_http_response: None when the response passes, otherwise
      why the client exits. The status code is checked first. */
  function AssertValidHttpResponse<T>(resp: Response<T>, expected: int, expectingJson: bool): (r: Option<HttpError>)
    ensures r.None? <==> resp.status == expected && (expectingJson ==> resp.json.Some?)
    ensures resp.status != expected ==> r == Some(UnexpectedStatus(expected, resp.status))
    ensures resp.status == expected && r.Some? ==> r == Some(UndecodableJson)
  {
    if resp.status != expected then Some(UnexpectedStatus(expected, resp.status))
    else if expectingJson && resp.json.None? then Some(UndecodableJson)
    else None
  }

  /** A response that must come back 200 with a JSON body, as every REST
      query of the client requires. */
  predicate JsonOk<T>(resp: Response<T>)
  {
    AssertValidHttpResponse(resp, 200, true).None?
  }
}
