/**
 * What the bot sees of the chat platform: the user behind an update, and
 * the replies and sends it asks the platform to perform. Sends and replies
 * are recorded as actions rather than performed.
 */
module Transport {
  import opened Wrappers

  /** `update.effective_user`: Telegram always supplies an id and a first name. */
  datatype TgUser = TgUser(id: int, username: Option<string>, firstName: string, lastName: Option<string>)

  /** The reply keyboards attached to replies (`get_main_keyboard`, `get_admin_keyboard`, the one-button cancel keyboard). */
  datatype Keyboard = NoKeyboard | MainKeyboard | AdminKeyboard | CancelKeyboard

  /**
   * The `chat_id` given to `send_message`: a numeric id, a text (the
   * configured admin id, or an id recovered from a quoted notification),
   * or Python's `None` when the admin id is not configured.
   */
  datatype Chat = ById(id: int) | ByText(text: string) | Unset

  datatype Action =
    | Reply(text: string, keyboard: Keyboard)   // update.message.reply_text to the caller
    | Send(chat: Chat, text: string)            // one context.bot.send_message attempt

  /** No action in `acts` sends anything to anyone other than the caller. */
  predicate NoSends(acts: seq<Action>)
  {
    forall i :: 0 <= i < |acts| ==> !acts[i].Send?
  }
}
