/**
  The chat input of components/lobby/components/ChatBox.tsx: what a send
  hands to the lobby and what stays in the input box.
 */
module ChatBox {
  import opened Basics
  import opened Text
  import opened LobbyTypes
  import opened LobbyUtils

  /** `handleSendMessage` on the text in the input: returns the input's
      new text and the content sent, if any. A non-blank text of at most
      200 characters after trimming is sanitised, sent, and the input is
      cleared; any other text is neither sent nor cleared. */
  function HandleSendMessage(input: string): (r: (string, Option<string>))
    ensures r.1.Some? <==> !IsBlank(input) && |Trim(input)| <= MaxMessageLength
    ensures r.1.Some? ==> r.0 == "" && r.1.value == SanitizeMessage(Trim(input))
    ensures r.1.None? ==> r.0 == input
  {
    var trimmed := Trim(input);
    if trimmed != [] && |trimmed| <= MaxMessageLength then ("", Some(SanitizeMessage(trimmed)))
    else (input, None)
  }

  /** Since the text is trimmed and short already, what is sent is the
      trimmed text with its angle brackets deleted: nothing is cut off. */
  lemma SentIsTrimmedWithoutBrackets(input: string)
    requires HandleSendMessage(input).1.Some?
    ensures HandleSendMessage(input).1.value == Without(Trim(input), {'<', '>'})
  {
    TrimIdempotent(input);
  }

  /** A message made only of brackets passes the emptiness test and is
      sent as the empty string. */
  lemma BracketsOnlySendsEmpty()
    ensures HandleSendMessage("<>") == ("", Some(""))
  {
    TrimOfTrimmed("<>");
    TrimIdempotent("<>");
  }

  /** The smiley button: shows the emoji picker when hidden and hides it
      when shown. */
  function ToggleEmojiPicker(showEmojiPicker: bool): bool
  {
    !showEmojiPicker
  }

  /** `handleEmojiClick`: returns whether the picker still shows and the
      emoji handed to the lobby. The emoji goes out unchanged, and the
      picker closes whatever its state was. */
  function HandleEmojiClick(showEmojiPicker: bool, emoji: string): (r: (bool, string))
    ensures !r.0 && r.1 == emoji
  {
    (false, emoji)
  }

  /** Opening the picker and picking an emoji sends that emoji and leaves
      the picker closed, as before it was opened; a second press of the
      smiley button would have closed it without sending anything. */
  lemma EmojiPickerCycle(emoji: string)
    ensures HandleEmojiClick(ToggleEmojiPicker(false), emoji) == (false, emoji)
    ensures ToggleEmojiPicker(ToggleEmojiPicker(false)) == false
  {
  }

  /** `isOwnMessage`: sent by the current user, which puts the bubble on
      the right. */
  function IsOwnMessage(m: ChatMessage, currentUserId: string): (b: bool)
  {
    m.senderId == currentUserId
  }
}
