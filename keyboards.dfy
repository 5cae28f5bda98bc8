// The quality keyboard: bot/keyboards.py. Each offered (format id, label)
// pair becomes one inline button whose callback data names the video, the
// format and the label.

module Keyboards {
  import opened Text

  /** An inline keyboard button: its caption and its callback data. */
  datatype Button = Button(text: string, callbackData: string)

  /** The callback data `f"q:{video_id}:{format_id}:{label}"`. */
  function CallbackData(videoId: string, formatId: string, qualityLabel: string): (data: string)
    ensures StartsWith(data, "q:")
    ensures |data| == 4 + |videoId| + |formatId| + |qualityLabel|
  {
    "q:" + videoId + ":" + formatId + ":" + qualityLabel
  }

  /** The button offered for one (format id, label) option. */
  function QualityButton(videoId: string, option: (string, string)): Button {
    Button(option.1, CallbackData(videoId, option.0, option.1))
  }

  /** One button per option, in the order of the options. */
  predicate IsQualityKeyboard(buttons: seq<Button>, videoId: string, options: seq<(string, string)>) {
    |buttons| == |options| &&
    forall i :: 0 <= i < |options| ==> buttons[i] == QualityButton(videoId, options[i])
  }

  /** bot/keyboards.py `build_quality_keyboard`, as the list of buttons the
      builder collects. */
  method BuildQualityKeyboard(videoId: string, options: seq<(string, string)>) returns (buttons: seq<Button>)
    ensures IsQualityKeyboard(buttons, videoId, options)
  {
    buttons := [];
    for k := 0 to |options|
      invariant IsQualityKeyboard(buttons, videoId, options[..k])
    {
      var (formatId, qualityLabel) := options[k];
      buttons := buttons + [Button(qualityLabel, CallbackData(videoId, formatId, qualityLabel))];
    }
    assert options[..|options|] == options;
  }
}
