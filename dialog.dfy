/** The dialog guard `handle_alert` (kakao_crawling.py and
    kakao_crawling_category.py share it verbatim). */
module Dialog {
  import opened Text
  import opened Browser

  /** What the guard did to the dialog: nothing, or the `dismiss()` or
      `accept()` that it called, and whether that call raised. */
  datatype Response = Untouched | Dismissed(ok: bool) | Accepted(ok: bool)

  datatype Handling = Handling(handled: bool, response: Response)

  /** The marker of a dialog that asks the user to log in. */
  const LoginMarker := "로그인"

  /** No dialog, or a probe error: nothing is done and `False` is returned.
      A login dialog is dismissed and any other dialog accepted; `True` is
      returned unless that call raised, when `False` is. */
  function HandleAlert(a: Alert): (h: Handling)
    ensures h.handled <==> a.Showing? && a.responds
    ensures h.response == Untouched <==> !a.Showing?
    ensures h.response.Dismissed? <==> a.Showing? && Contains(a.text, LoginMarker)
    ensures h.response.Accepted? <==> a.Showing? && !Contains(a.text, LoginMarker)
    ensures !h.response.Untouched? ==> h.response.ok == h.handled
  {
    match a
    case NoAlert => Handling(false, Untouched)
    case Unreadable => Handling(false, Untouched)
    case Showing(text, responds) =>
      if Contains(text, LoginMarker) then Handling(responds, Dismissed(responds))
      else Handling(responds, Accepted(responds))
  }

  /** A dialog whose text merely embeds the marker (for example a sentence
      that asks the user to log in) is dismissed, not accepted. */
  lemma LoginSentenceIsDismissed(before: string, after: string, responds: bool)
    ensures HandleAlert(Showing(before + LoginMarker + after, responds)).response == Dismissed(responds)
  {
    var s := before + LoginMarker + after;
    assert s[|before|..|before| + |LoginMarker|] == LoginMarker;
    assert Contains(s[|before|..|before| + |LoginMarker|], LoginMarker) by {
      assert StartsWith(s[|before|..|before| + |LoginMarker|], LoginMarker);
    }
    ContainsInSlice(s, |before|, |before| + |LoginMarker|, LoginMarker);
  }
}
