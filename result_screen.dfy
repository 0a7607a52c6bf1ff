/**
 * The Result screen: the recognized text it receives, how it displays it,
 * and the `save` action that commits non-blank text to the history store.
 */
module ResultScreen {
  import opened Wrappers
  import opened JsWhiteSpace
  import opened ScanStore
  import opened Ui

  /** `route.params?.text ?? ''`: the parameter's text when the screen got parameters, otherwise empty. */
  function ScreenText(params: Option<ResultParams>): (r: string)
    ensures params.Some? ==> r == params.value.text
    ensures params.None? ==> r == ""
  {
    match params
    case Some(p) => p.text
    case None => ""
  }

  const NoTextPlaceholder := "No text recognized."

  /**
   * `text || 'No text recognized.'`: only the empty string is falsy, so any
   * non-empty text, whitespace-only included, is shown as it is.
   */
  function Displayed(text: string): (r: string)
    ensures text != "" ==> r == text
    ensures text == "" ==> r == NoTextPlaceholder
    ensures r != NoTextPlaceholder ==> r == text
  {
    if text != "" then text else NoTextPlaceholder
  }

  /** The alert shown when there is nothing to save; it has only the default dismiss button. */
  const NothingToSave := Alert("Nothing to save", "No text was recognized.", [])

  /** The confirmation shown after a save; its OK button goes to the History screen. */
  const Saved := Alert("Saved", "Scan saved to history.", [Button("OK", Some(History))])

  /** What one press of "Save to History" does: the text handed to `addScan`, if any, and the alert. */
  datatype SaveOutcome = SaveOutcome(committed: Option<string>, alert: Alert)

  /**
   * The decision `save` makes. Text with a non-whitespace character is
   * committed unchanged (untrimmed) and confirmed; blank text is refused.
   * Navigation is possible only from the confirmation, and only to History.
   */
  function SaveDecision(text: string): (r: SaveOutcome)
    ensures r.committed.Some? <==> exists i :: 0 <= i < |text| && !IsWs(text[i])
    ensures r.committed.None? <==> Blank(text)
    ensures r.committed.Some? ==> r.committed.value == text && r.alert == Saved
    ensures r.committed.None? ==> r.alert == NothingToSave
    ensures forall b :: b in r.alert.buttons && b.onPress.Some? ==>
              r.committed == Some(text) && b.onPress == Some(History)
  {
    if Trim(text) == "" then SaveOutcome(None, NothingToSave)
    else SaveOutcome(Some(text), Saved)
  }

  /**
   * `save()` on the screen showing `text`: blank text leaves the store as it
   * was; otherwise `addScan(text)` runs exactly once, and the alert is the
   * one the decision names. The id and timestamp of the new record are inputs.
   */
  method Save(store: Store, text: string, id: string, date: int) returns (alert: Alert)
    requires store.Valid()
    modifies store
    ensures store.Valid()
    ensures alert == SaveDecision(text).alert
    ensures SaveDecision(text).committed.None? ==>
              store.scans == old(store.scans) && store.ops == old(store.ops)
    ensures SaveDecision(text).committed.Some? ==>
              store.scans == [ScanItem(id, text, date)] + old(store.scans) &&
              store.ops == old(store.ops) + [Add(id, text, date)]
  {
    if Trim(text) == "" {
      alert := NothingToSave;
      return;
    }
    store.AddScan(text, id, date);
    alert := Saved;
  }
}
