/**
 * `extractErrorMessage` (`utils/errors.ts`): the text the front end shows for a failed call.
 * The thrown value is one of a few shapes: a string, `null`/`undefined`, an axios error with
 * an optional server message, error code and error message, or another primitive.
 */
module ErrorMessages {
  import opened Wrappers
  import opened Text

  const TIMEOUT_TEXT := "请求超时，请稍后重试。"
  const FAILURE_TEXT := "请求失败，请稍后重试。"
  const ECONNABORTED := "ECONNABORTED"

  datatype Thrown =
    | StringError(text: string)
    | Nullish
    | AxiosError(serverMessage: Option<string>, code: Option<string>, message: Option<string>)
    | OtherPrimitive

  /** Evaluating the function throws a `TypeError`. */
  datatype TypeError = TypeError

  /** A JavaScript string is truthy when it is not empty. */
  predicate Truthy(s: Option<string>) {
    s.Some? && s.value != ""
  }

  /** The value of `axiosError.response.data.message` when that is truthy. */
  function ServerMessage(error: Thrown): Option<string> {
    if error.AxiosError? && Truthy(error.serverMessage) then error.serverMessage else None
  }

  /** `axiosError.code === 'ECONNABORTED'` or the error message mentions a timeout in any
      letter case. */
  predicate LooksLikeTimeout(error: Thrown) {
    error.AxiosError?
    && (error.code == Some(ECONNABORTED)
        || (error.message.Some? && Contains(ToLower(error.message.value), "timeout")))
  }

  /** `extractErrorMessage(error)`. A non-blank string is shown as it is; a server message
      wins over every timeout check; a timeout gets the timeout text; anything else the
      generic text. `null` and `undefined` make the `axiosError.code` read throw. */
  function ExtractErrorMessage(error: Thrown): (r: Result<string, TypeError>)
    ensures r.Failure? <==> error.Nullish?
    ensures error.StringError? && JsTrim(error.text) != [] ==> r == Success(error.text)
    ensures ServerMessage(error).Some? ==> r == Success(ServerMessage(error).value)
    ensures ServerMessage(error).None? && LooksLikeTimeout(error) ==> r == Success(TIMEOUT_TEXT)
    ensures (r.Success? && !(error.StringError? && JsTrim(error.text) != []) && ServerMessage(error).None?
             && !LooksLikeTimeout(error)) ==> r == Success(FAILURE_TEXT)
  {
    if error.StringError? && JsTrim(error.text) != [] then Success(error.text)
    else if ServerMessage(error).Some? then Success(ServerMessage(error).value)
    else if error.Nullish? then Failure(TypeError)
    else if LooksLikeTimeout(error) then Success(TIMEOUT_TEXT)
    else Success(FAILURE_TEXT)
  }

  /** The timeout test reads the error message case-insensitively. */
  lemma TimeoutTestIgnoresCase(code: Option<string>, message: string)
    requires code != Some(ECONNABORTED)
    ensures LooksLikeTimeout(AxiosError(None, code, Some(message))) <==> ContainsIgnoreCase(message, "timeout")
  {
    LowerContainsIff(message, "timeout");
  }

  /** `null` and `undefined` are not errors with a message: the function as written fails on
      them while reading `code`. */
  lemma NullishThrows()
    ensures ExtractErrorMessage(Nullish) == Failure(TypeError)
  {
  }

  /** With `?.` on both later reads of `axiosError` (`axiosError?.code` on line 11 and
      `axiosError?.message` on line 14), every thrown value gets a text, and `null`/`undefined`
      get the generic one. */
  function ExtractErrorMessageNullSafe(error: Thrown): (r: string)
    ensures error.Nullish? ==> r == FAILURE_TEXT
    ensures !error.Nullish? ==> Success(r) == ExtractErrorMessage(error)
  {
    if error.Nullish? then FAILURE_TEXT else ExtractErrorMessage(error).value
  }

  /** Every text shown is the string thrown, the server's message, or one of the two fixed
      texts. */
  lemma ShownTextOrigin(error: Thrown)
    ensures var r := ExtractErrorMessageNullSafe(error);
            (error.StringError? && r == error.text) || Some(r) == ServerMessage(error)
            || r == TIMEOUT_TEXT || r == FAILURE_TEXT
  {
  }
}
