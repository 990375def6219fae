/** The response envelope every command handler returns. */
module Responses {
  import opened Common

  /**
   * `BaseResponse<T>`: its four properties. A property the chosen constructor
   * does not set keeps its default (`default(T)` / null), written `None` here.
   */
  datatype BaseResponse<T> = BaseResponse(
    success: bool,
    data: Option<T>,
    errorMessage: Option<string>,
    validationErrors: seq<string>)

  /** The constructor taking the data of a successful call. */
  function WithData<T>(data: T): (r: BaseResponse<T>)
    ensures r.success
    ensures r.data == Some(data)
    ensures r.errorMessage == None && r.validationErrors == []
  {
    BaseResponse(true, Some(data), None, [])
  }

  /** The constructor taking an error message. */
  function WithErrorMessage<T>(message: string): (r: BaseResponse<T>)
    ensures !r.success
    ensures r.errorMessage == Some(message)
    ensures r.data == None && r.validationErrors == []
  {
    BaseResponse(false, None, Some(message), [])
  }

  /** The constructor taking a list of validation messages; the error message stays null. */
  function WithValidationErrors<T>(errors: seq<string>): (r: BaseResponse<T>)
    ensures !r.success
    ensures r.validationErrors == errors
    ensures r.data == None && r.errorMessage == None
  {
    BaseResponse(false, None, None, errors)
  }

  /** A response one of the three constructors can build. */
  ghost predicate Constructed<T(!new)>(r: BaseResponse<T>) {
    (exists d: T :: r == WithData(d))
    || (exists m: string :: r == WithErrorMessage<T>(m))
    || (exists es: seq<string> :: r == WithValidationErrors<T>(es))
  }

  /**
   * Success is true exactly for responses built from data, and a failed response
   * never carries data; an error message and validation errors never come together.
   */
  lemma SuccessIffBuiltFromData<T(!new)>(r: BaseResponse<T>)
    requires Constructed(r)
    ensures r.success <==> (exists d: T :: r == WithData(d))
    ensures r.success <==> r.data.Some?
    ensures r.errorMessage.Some? ==> r.validationErrors == []
  {
    if r.success {
      assert r == WithData(r.data.value);
    }
  }
}
