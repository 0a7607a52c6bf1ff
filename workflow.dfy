/**
 * The capture-to-history pipeline across the two screens: what the Scan
 * screen hands to the Result screen, and what `save` then does with it.
 */
module Workflow {
  import opened Wrappers
  import opened JsWhiteSpace
  import opened Ui
  import opened ScanScreen
  import opened ResultScreen

  /**
   * A successful recognition opens the Result screen with the recognized
   * text (or '' when the result has none); that text is shown and saved
   * unchanged when it is not blank, and an empty recognition is shown as
   * "No text recognized." and refused by `save`, like a failed one.
   */
  lemma RecognitionReachesSave(resp: CameraResponse, text: Option<string>)
    requires !resp.didCancel && CapturedPath(resp).Some?
    ensures var a := Attempted(false, Resolved(resp), Recognized(text));
            var t := text.GetOr("");
            a.effects[|a.effects| - 1] == Navigate(Result(Some(ResultParams(t)))) &&
            ScreenText(a.effects[|a.effects| - 1].screen.params) == t &&
            (SaveDecision(t).committed == Some(t) <==> !Blank(t)) &&
            (t == "" ==> Displayed(t) == NoTextPlaceholder && SaveDecision(t).committed.None?)
  {
  }
}
