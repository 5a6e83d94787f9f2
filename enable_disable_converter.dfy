/** `EnableDisableConverter` (OneNoteAddinManager.App/Converters/EnableDisableConverter.cs):
    the WPF value converter that labels the toggle button. */
module EnableDisableConverter {
  import opened Wrappers
  import opened AddinModel

  /** The `object` handed to the converter: a boxed `bool` or anything else
      (null included). */
  datatype Boxed = BoxedBool(b: bool) | BoxedOther

  const DisableLabel: string := "Disable"
  const EnableLabel: string := "Enable"

  /** "Disable" for a boxed true; "Enable" for a boxed false and for every
      value that is not a `bool`. */
  function Convert(value: Boxed): (text: string)
    ensures text == DisableLabel || text == EnableLabel
    ensures text == DisableLabel <==> value == BoxedBool(true)
  {
    match value
    case BoxedBool(isEnabled) => if isEnabled then DisableLabel else EnableLabel
    case BoxedOther => EnableLabel
  }

  /** The reverse conversion is not supported. */
  function ConvertBack(text: string): (r: Result<bool, Exception>)
    ensures r == Failure(NotImplemented)
  {
    Failure(NotImplemented)
  }

  /** The label the main window puts on the toggle button for the selected
      add-in, written out where it sets the button's content. */
  function ToggleButtonLabel(d: AddinData): string {
    if d.isEnabled then DisableLabel else EnableLabel
  }

  /** Binding the converter to `IsEnabled` shows the label the main window
      sets by hand, and it reads "Disable" exactly when the status column
      reads "Enabled". */
  lemma ConvertMatchesToggleButton(d: AddinData)
    ensures Convert(BoxedBool(d.isEnabled)) == ToggleButtonLabel(d)
    ensures Convert(BoxedBool(d.isEnabled)) == DisableLabel <==> Status(d) == "Enabled"
  {
  }
}
