/**
 The input box of the chat window: the text being typed and whether the
 emoji picker is open, with the submit, Enter-key, emoji and picker
 transitions, the send button's enable rule and the delivery glyph shown on
 a message bubble.
 */
module ChatWindow {
  import opened Optional
  import opened JsText
  import opened Conversation

  /** `messageInput` and `showEmojiPicker`. */
  datatype InputBox = InputBox(input: string, pickerOpen: bool)

  /** The box after a submit attempt, and the text handed to
      `onSendMessage`, if any. */
  datatype Submission = Submission(box: InputBox, sent: Option<string>)

  /** The palette the picker offers. */
  const Emojis: seq<string> := [
    "😀", "😃", "😄", "😁", "😆", "😊", "😍", "😘", "😉",
    "😎", "🤔", "😴", "😢", "😂", "👍", "👏", "🙏", "🎉"
  ]

  /** `handleSubmit`: the raw input is forwarded exactly when it is not
      blank, and then the box is emptied and the picker closed; a blank
      input leaves the box as it was and forwards nothing. */
  function HandleSubmit(b: InputBox): (r: Submission)
    ensures r.sent.Some? <==> !IsBlank(b.input)
    ensures r.sent.Some? ==> r.sent.value == b.input && r.box == InputBox("", false)
    ensures r.sent.None? ==> r.box == b
  {
    if !TrimsToEmpty(b.input) then Submission(InputBox("", false), Some(b.input))
    else Submission(b, None)
  }

  /** `handleKeyPress`: Enter without Shift submits; Shift+Enter and every
      other key leave the box alone and forward nothing. */
  function HandleKeyPress(b: InputBox, key: string, shiftKey: bool): (r: Submission)
    ensures key == "Enter" && !shiftKey ==> r == HandleSubmit(b)
    ensures key != "Enter" || shiftKey ==> r == Submission(b, None)
  {
    if key == "Enter" && !shiftKey then HandleSubmit(b) else Submission(b, None)
  }

  /** `addEmoji(e)`: the glyph goes at the end of the input; the picker
      stays as it was. */
  function AddEmoji(b: InputBox, e: string): (r: InputBox)
    ensures |r.input| == |b.input| + |e| && r.input[..|b.input|] == b.input && r.input[|b.input|..] == e
    ensures r.pickerOpen == b.pickerOpen
  {
    b.(input := b.input + e)
  }

  /** `toggleEmojiPicker`: flips the picker and keeps the input. */
  function ToggleEmojiPicker(b: InputBox): (r: InputBox)
    ensures r.pickerOpen == !b.pickerOpen && r.input == b.input
  {
    b.(pickerOpen := !b.pickerOpen)
  }

  /** The send button's `disabled` attribute: the input is blank. */
  function SendButtonDisabled(input: string): (d: bool)
    ensures d <==> IsBlank(input)
  {
    TrimsToEmpty(input)
  }

  /** The status glyph of a bubble: only the user's own messages carry one,
      a single tick while `sent` and a double tick otherwise. */
  function StatusGlyph(m: Message): (g: Option<string>)
    ensures g.Some? <==> m.sender == FromUser
    ensures g == Some("✓") <==> m.sender == FromUser && m.status == Sent
    ensures g == Some("✓✓") <==> m.sender == FromUser && m.status != Sent
  {
    if m.sender == FromUser then Some(if m.status == Sent then "✓" else "✓✓") else None
  }

  /** The button is disabled exactly when a submit would be ignored, so the
      click path and the Enter path apply one and the same guard. */
  lemma SendDisabledIffSubmitIgnored(b: InputBox)
    ensures SendButtonDisabled(b.input) <==> HandleSubmit(b).sent.None?
    ensures SendButtonDisabled(b.input) ==> HandleKeyPress(b, "Enter", false) == Submission(b, None)
  {
  }

  /** Toggling the picker twice restores the box. */
  lemma ToggleTwiceRestores(b: InputBox)
    ensures ToggleEmojiPicker(ToggleEmojiPicker(b)) == b
  {
  }

  /** Appending any glyph of the palette makes the input sendable, whatever
      it held before, and never closes or opens the picker. */
  lemma {:induction false} EmojiEnablesSend(b: InputBox, k: nat)
    requires k < |Emojis|
    ensures !SendButtonDisabled(AddEmoji(b, Emojis[k]).input)
    ensures HandleSubmit(AddEmoji(b, Emojis[k])).sent == Some(b.input + Emojis[k])
  {
    var e := Emojis[k];
    assert |e| == 1 && !IsJsSpace(e[0]);
    BlankConcat(b.input, e);
  }
}
