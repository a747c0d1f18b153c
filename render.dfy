/** What React puts on the page for a guarded element `{v && cond && <element/>}`. */
module Render {
  import opened Wrappers

  /** Nothing, a text node, or the element for a value. */
  datatype Rendered = Nothing | Literal(text: string) | Element(value: real)

  /**
   * `v && cond && <element/>` for a nullable number `v`: a missing value or a
   * false condition renders nothing. A value of 0 is falsy and is itself the
   * result of the expression, and React renders the number 0 as the text "0".
   */
  function AndRender(v: Option<real>, cond: bool): (r: Rendered)
    ensures r.Literal? <==> v == Some(0.0)
    ensures r.Literal? ==> r.text == "0"
    ensures r.Element? <==> v.Some? && v.value != 0.0 && cond
    ensures r.Element? ==> r.value == v.value
  {
    match v
    case None => Nothing
    case Some(x) => if x == 0.0 then Literal("0") else if cond then Element(x) else Nothing
  }
}
