/**
 * The unit of speech: a text fragment with a speaker name, a speaker index and
 * a minimum length in milliseconds. An item with empty text and a positive
 * length is a pause; construction marks pauses by setting the speaker index
 * to -1.
 */
module Items {

  datatype Item = Item(text: string, speaker: string, speakerIdx: int, length: int)

  /** The speaker index that marks a pause. */
  const PauseMarker: int := -1

  /** What the constructor treats as a pause: no text and a positive length. */
  predicate IsPause(it: Item) { it.text == "" && it.length > 0 }

  /**
   * TTS_Item(text, speaker, speaker_idx, length) including the check that runs
   * right after construction: a pause gets the marker index, anything else
   * keeps the index it was given.
   */
  function NewItem(text: string, speaker: string, speakerIdx: int, length: int): (it: Item)
    ensures it.text == text && it.speaker == speaker && it.length == length
    ensures IsPause(it) ==> it.speakerIdx == PauseMarker
    ensures !IsPause(it) ==> it.speakerIdx == speakerIdx
  {
    if text == "" && length > 0 then Item(text, speaker, PauseMarker, length)
    else Item(text, speaker, speakerIdx, length)
  }

  /** TTS_Item(length=ms): a pause of `ms` milliseconds when ms > 0. */
  function Pause(ms: int): (it: Item)
    ensures it.text == "" && it.speaker == "" && it.length == ms
    ensures ms > 0 ==> IsPause(it) && it.speakerIdx == PauseMarker
    ensures ms <= 0 ==> it.speakerIdx == 0
  {
    NewItem("", "", 0, ms)
  }

  /**
   * The marker is set only at construction: a later change of the text (as
   * `final_items[-1].text += c` does) leaves a pause's marker on a text item.
   */
  lemma MarkerSurvivesTextEdit(ms: int, c: char)
    requires ms > 0
    ensures var it := Pause(ms).(text := [c]);
      !IsPause(it) && it.speakerIdx == PauseMarker
  {
  }
}
