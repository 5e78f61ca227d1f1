/** Request values as controllers see them, the checkbox coercion shared by
    the players and nudges controllers, and the flash message a redirect
    carries. */
module Forms {
  import Text

  /** A request input: a JSON boolean, a string, an integer, or anything else
      (missing, null, a fractional number, an object). */
  datatype FormValue = FBool(b: bool) | FStr(s: string) | FNum(n: int) | FOther

  /** `toBoolean`: a checkbox or flag input read as a boolean. */
  function ToBoolean(v: FormValue): (r: bool)
    ensures v.FBool? ==> r == v.b
    ensures v.FStr? ==> (r <==> v.s in {"true", "on", "1"})
    ensures v.FNum? ==> (r <==> v.n == 1)
    ensures v.FOther? ==> !r
  {
    v == FBool(true) || v == FStr("true") || v == FStr("on") || v == FNum(1) || v == FStr("1")
  }

  datatype FlashKind = FlashSuccess | FlashError

  /** A message stored in the session for the next page. */
  datatype Flash = Flash(kind: FlashKind, message: string)
}
