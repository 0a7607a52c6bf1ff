/**
 * The parts of the user interface that the screens' logic produces: the
 * navigator's screens with their parameters, and alerts with their buttons.
 */
module Ui {
  import opened Wrappers

  /** The parameters of the Result screen: `{text: string} | undefined`. */
  datatype ResultParams = ResultParams(text: string)

  /** A screen of the root stack navigator, as passed to `navigation.navigate`. */
  datatype Screen =
    | Scan
    | Result(params: Option<ResultParams>)
    | History
    | Profile

  /** An alert button; pressing it navigates to `onPress` when that is present. */
  datatype Button = Button(text: string, onPress: Option<Screen>)

  /** `Alert.alert(title, message, buttons)`. */
  datatype Alert = Alert(title: string, message: string, buttons: seq<Button>)
}
