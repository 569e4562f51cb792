/** Option and Result values shared by the backend modules. A Python `None`
    becomes `None`; a raised exception becomes `Failure` carrying the text
    that `str(e)` gives for it. */
module Common {

  datatype Option<+T> = None | Some(value: T)

  datatype Result<+R, +E> = Success(value: R) | Failure(error: E)

  /** Python's `lst[i]`: a negative index counts from the end, anything
      outside `-len(lst) .. len(lst)-1` raises IndexError. */
  function PyIndex<T>(s: seq<T>, i: int): (r: Result<T, string>)
    ensures r.Success? <==> -|s| <= i < |s|
    ensures 0 <= i < |s| ==> r == Success(s[i])
    ensures -|s| <= i < 0 ==> r == Success(s[|s| + i])
    ensures r.Failure? ==> r.error == IndexErrorMessage
  {
    if 0 <= i < |s| then Success(s[i])
    else if -|s| <= i < 0 then Success(s[|s| + i])
    else Failure(IndexErrorMessage)
  }

  /** The message of the IndexError Python raises for an out-of-range list index. */
  const IndexErrorMessage: string := "list index out of range"
}
