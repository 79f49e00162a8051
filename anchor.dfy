/** `resolve_text_anchor`: the `text-anchor` keyword table. */
module Anchor {
  import opened Wrappers
  import Dom

  datatype TextAnchor = Start | Middle | End

  /**
    `resolve_text_anchor`: `middle` and `end` select those anchors; `start`,
    an absent attribute and anything unknown give `Start`.
   */
  function ResolveTextAnchor(attrs: Dom.Attrs): (r: TextAnchor)
    ensures r == Middle <==> Dom.GetStr(attrs, Dom.AId.TextAnchor) == Some("middle")
    ensures r == End <==> Dom.GetStr(attrs, Dom.AId.TextAnchor) == Some("end")
    ensures Dom.AId.TextAnchor !in attrs ==> r == Start
  {
    var anchor := Dom.GetStrOr(attrs, Dom.AId.TextAnchor, "start");
    if anchor == "start" then Start
    else if anchor == "middle" then Middle
    else if anchor == "end" then End
    else Start
  }
}
