/** The file-picker endpoint: the project's files as the glob search
    returns them, cut to the first 200, or nothing when the search fails. */
module FilePicker {
  import opened Wrappers

  const MaxPickerFiles := 200

  /** `globbed` is the outcome of the glob search (its ignore list and
      depth bound are applied before the result reaches this point). */
  function PickerFiles(globbed: Result<seq<string>, string>): (shown: seq<string>)
    ensures |shown| <= MaxPickerFiles
    ensures globbed.Ok? ==> shown <= globbed.value
    ensures globbed.Ok? && |globbed.value| <= MaxPickerFiles ==> shown == globbed.value
    ensures globbed.Ok? && |globbed.value| > MaxPickerFiles ==> |shown| == MaxPickerFiles
    ensures globbed.Err? ==> shown == []
  {
    match globbed
      case Err(_) => []
      case Ok(files) => if |files| <= MaxPickerFiles then files else files[..MaxPickerFiles]
  }
}
