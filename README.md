# Relay bot core in Dafny

This project models the core of a Telegram relay bot (`bot.py`). End users
send messages to a single administrator. The administrator answers by
replying to the relayed notification and can broadcast a message to every
registered user. The model covers these parts:

- **User registry** (`registry.dfy`, module `Registry`): the `users` table is a
  class `UserTable` whose `rows` field maps `user_id` to a row. A second field,
  `ids`, holds the keys in the order a table scan returns them. Because
  `user_id` is the table's rowid, that order is ascending `user_id`. The class
  has these operations:
  - `Save`: `save_user`'s `INSERT OR REPLACE`, a full-row overwrite stamped with a `now` parameter.
  - `Count`: `panel`'s `COUNT(*)`.
  - `Broadcast`: the broadcast loop.
  - `ListText`: the user list of `show_users`.
- **Relay correlator** (`relay.dfy`, module `Relay`): `Notification` builds the
  admin notification of `handle_user_message`. `DecodeSenderId` is
  `admin_reply`'s `split(...)[1].split("\n")[0].strip('`')`. The main lemma
  is the round trip between the two.
- **String primitives** (`text.dfy`, module `Text`): Python's `split`, `join`,
  `strip` with one character, and `str(int)`, written over code points. Each
  one has the properties the correlator's proofs need.
- **Handlers and conversation** (`conversation.dfy`, module `Conversation`):
  - every handler, with the value it returns to the conversation and the replies and sends it performs, recorded as `Transport.Action`s;
  - the admin gate `str(user.id) == ADMIN_ID`;
  - the per-user conversation step that applies a handler's returned state.
- `transport.dfy` (module `Transport`): the Telegram user, keyboards, chat
  ids and the recorded actions. `wrappers.dfy` holds `Option` and `Result`.

Sends whose outcome the bot cannot predict take that outcome as a
parameter. These are the admin notification, each broadcast send and the
admin's reply. The current time and `ADMIN_ID` are parameters too.

## Model

| member | source | states |
|---|---|---|
| `Text.IndexOf` | bot.py:211 | the first occurrence of the separator `split` finds, or none: the result is an occurrence and no earlier one exists |
| `Text.Split` | bot.py:211 | `split` always yields at least one piece, and at least two exactly when the separator occurs, so `[1]` fails exactly then |
| `Text.JoinSplit` | bot.py:211 | joining the pieces of `split` with the separator gives back the text |
| `Text.SplitPiecesFree` | bot.py:211 | no piece produced by `split` contains the separator |
| `Text.StripLeft` | bot.py:211 | the result is a suffix, every dropped character is the stripped one, and the result does not start with it |
| `Text.StripRight` | bot.py:211 | the result is a prefix, every dropped character is the stripped one, and the result does not end with it |
| `Text.Strip` | bot.py:211 | `strip('`')` leaves no backtick at either end and is empty exactly when the text is all backticks |
| `Text.StripKeeps` | bot.py:211 | a text that neither starts nor ends with the character is left unchanged |
| `Text.Digits` | bot.py:184 | decimal digits of a natural number: non-empty, digits only, no leading zero |
| `Text.Decimal` | bot.py:94 | `str(id)` is non-empty and made of digits and `-` |
| `Text.DecimalRoundTrip` | bot.py:94 | `str` on integers is invertible: the decimal text of `n` denotes `n` |
| `Text.DecimalInjective` | bot.py:94 | different ids have different decimal texts |
| `Text.DecimalValueExact` | bot.py:94 | a text denotes `n` exactly when it is the text `str(n)`: each integer has one decimal text, so "007" and "-0" denote nothing |
| `Registry.InsertSorted` | bot.py:29-30 | a new key enters the ascending rowid scan order at its place, keeping it strictly ascending, with exactly one more key |
| `Registry.NullShownAsNone` | bot.py:159 | `Shown` prints a NULL column as `None`, so a user without a last name gets the same line as one whose last name is "None" |
| `Registry.UserLine` | bot.py:159 | each user line starts with the pin and ends with a newline, so it is never empty |
| `Registry.UserLines` | bot.py:158-159 | the lines for `n` users have at least `n` characters |
| `Registry.UserListText` | bot.py:157-162 | the list is the "no users" text exactly when there are no users; otherwise it starts with the header |
| `Registry.BroadcastSends` | bot.py:138-142 | one send of the message to each scanned user, in scan order, and nothing else |
| `Registry.Delivered` | bot.py:138-142 | a user is reached exactly when the send to that user succeeded |
| `Registry.BroadcastPartialFailure` | bot.py:138-144 | five users where the third send fails: five attempts and four users reached |
| `Registry.UserTable.constructor` | bot.py:25-36 | the table starts empty |
| `Registry.UserTable.Count` | bot.py:97-98 | `COUNT(*)` equals the number of rows a scan returns |
| `Registry.UserTable.Save` | bot.py:39-46 | keyed full replace: the row for the id holds exactly the new names and timestamp, and no other row changes; the count grows by one only for a new id, so a repeated save keeps the count; the scan order is kept |
| `Registry.UserTable.Broadcast` | bot.py:132-142 | the loop makes exactly the sends `BroadcastSends` lists, whatever the outcomes, and reaches exactly `Delivered` |
| `Registry.UserTable.ListText` | bot.py:151-162 | the loop builds `UserListText` of the table, which is the "no users" text exactly when the table is empty |
| `Relay.UsernameShown` | bot.py:183 | the username shown is never empty: either the placeholder "ندارد" or the user's own username |
| `Relay.PrefixClean` | bot.py:179-183 | no label can start in the header, the sender link `[first_name](tg://user?id=id)` or the username line unless the first name or the username contains it |
| `Relay.NotificationAnswerable` | bot.py:178-187 | every `Notification`, whatever the sender's names, carries the label, so extracting an id from it never raises `IndexError` |
| `Relay.DecodeSenderId` | bot.py:211 | extraction fails (the `IndexError`) exactly when the label is absent; a recovered id has no backtick at either end |
| `Relay.DecodeNotification` | bot.py:180-211 | round trip: decoding the notification for user `u` gives `str(u.id)` when the first name and username do not contain the label |
| `Relay.DecodeLabelInFirstName` | bot.py:180-211 | when the first name is the label followed by text without a newline or the label's first letter, decoding takes the text after the label in the name, not the id line |
| `Relay.LabelInFirstNameExample` | bot.py:180-211 | user 5 named with the label followed by "7": decoding yields `7](tg://user?id=5)`, which is not `str(5)` |
| `Relay.DecodeNotificationValue` | bot.py:184 | when the first name and username do not contain the label, the text recovered from a notification denotes the sender's numeric id |
| `Conversation.AdminUnique` | bot.py:94 | at most one caller id passes the admin gate |
| `Conversation.AdminGateMeaning` | bot.py:94 | `IsAdmin`: the gate passes a caller exactly when the configured text denotes that caller's id, written as `str` writes it |
| `Conversation.NonCanonicalAdminId` | bot.py:10 | an `ADMIN_ID` not written as `str` writes integers admits no caller at all |
| `Conversation.LeadingZeroAdminId` | bot.py:94 | `ADMIN_ID` "007" denotes no integer by that rule, and admits nobody, user 7 included |
| `Conversation.AdminChat` | bot.py:190-191 | the notification's chat is unset exactly when `ADMIN_ID` is; otherwise it is the chat of the caller who passes the gate |
| `Conversation.Welcome` | bot.py:68-71 | the greeting opens with "سلام " and the caller's first name |
| `Conversation.PanelText` | bot.py:101-106 | the panel shows the user count, written by `str`, right after its label and ended by a newline |
| `Conversation.Start` | bot.py:64-76 | `/start` saves the caller's row with the current time and greets them |
| `Conversation.HandleMessage` | bot.py:78-90 | enters `WAITING_FOR_MESSAGE` exactly on the compose trigger, with the prompt and the cancel keyboard; the social trigger only replies with the link; any other text gives no state and no reply; nothing is sent to anyone else |
| `Conversation.Panel` | bot.py:92-109 | the admin sees the row count; anyone else gets only the access-denied reply |
| `Conversation.SendBroadcast` | bot.py:111-119 | enters `WAITING_FOR_BROADCAST` exactly for the admin, who gets the broadcast prompt with the cancel keyboard; anyone else gets no state and no reply |
| `Conversation.BroadcastMessageOutcome` | bot.py:121-145 | always returns END; on cancel only the acknowledgement; otherwise one send per scanned user in order, then the success reply |
| `Conversation.HandleBroadcastMessage` | bot.py:121-145 | the handler does what `BroadcastMessageOutcome` states, and reaches exactly the users whose send succeeded |
| `Conversation.ShowUsers` | bot.py:147-164 | a non-admin gets nothing; the admin gets the user list, which is the "no users" text exactly when the table is empty |
| `Conversation.HandleUserMessage` | bot.py:166-201 | on cancel only the acknowledgement and END; otherwise the notification goes to `ADMIN_ID`, then the thanks and END; if that send fails the handler raises instead |
| `Conversation.AdminReply` | bot.py:203-221 | returns no state; a non-admin or a non-reply gets nothing; a reply to a message without text or without the label gets only the error notice and no send; otherwise the admin's text goes to the extracted id, then the success notice if the send succeeded and the error notice if not |
| `Conversation.AdminReplyUnrelated` | bot.py:207-221 | a reply to a text without the label sends nothing and answers with the error notice |
| `Conversation.AdminReplyReachesSender` | bot.py:207-219 | when the first name and username of `u` do not contain the label, the admin's reply to a notification for `u` is sent to `str(u.id)`, then the admin is told the outcome |
| `Conversation.Resolve` | bot.py:231-238 | END leaves the conversation; any other returned state replaces the current one; a bare return or an escaping exception keeps the state |
| `Conversation.Step` | bot.py:231-238 | after one text message the user is out of the conversation, in the same state, or newly in the compose state; from outside a conversation the compose state is entered exactly on the trigger |
| `Conversation.CancelLeavesConversation` | bot.py:124-175 | cancel in either waiting state leaves the conversation and sends nothing to anyone |
| `Conversation.MessageStateOutcome` | bot.py:190-201 | a message in the compose state leaves the conversation unless the send to the admin failed |
| `Conversation.BroadcastStateNeedsAdmin` | bot.py:111-119 | text messages never open the broadcast state; `/broadcast` opens it exactly for the admin |
| `Conversation.Deliver` | bot.py:231-238 | a message moves only its sender's conversation state; every other user's state is unchanged |

## Left out

- The Telegram transport is not modelled. This covers `Update`, `reply_text`, `send_message`, `ReplyKeyboardMarkup` and the keyboard builders. Replies and sends are recorded as actions, and keyboards as tags.
- Every `reply_text` is taken to succeed. Only the sends whose failure the code treats specially get an outcome parameter: the notification to the admin, each broadcast send and the admin's reply.
- The framework's dispatch in `main` is not modelled: handler registration, groups and precedence. `Conversation.Resolve` states the conversation semantics the model assumes. An exception escaping a handler leaves the state unchanged.
- As wired, `/broadcast` is a plain command and not an entry point of the conversation. The broadcast state is therefore never entered at run time. The model follows the handler's own returned value.
- As wired, the catch-all text handler is registered before `admin_reply`. The model treats `admin_reply` as a handler of its own.
- As wired, the filter of `admin_reply` is built with `int(ADMIN_ID)` (bot.py:248). An unset `ADMIN_ID` therefore stops the program at startup, so `Config(None)` and `Chat.Unset` do not occur at run time. And `int("007")` is 7, so that filter lets user 7 through while the text gate inside the handler refuses them (`Conversation.LeadingZeroAdminId`).
- SQLite connections, the database path and storage errors are not modelled. The table is always available.
- `datetime.now()` and `strftime` are not modelled. The join timestamp and the formatted time are opaque parameters.
- `os.getenv` is not modelled. `ADMIN_ID` is a `Config` value that may be absent, and `TOKEN` is not used.
- Logging is not modelled.
- Markdown rendering of the notification is not modelled. The notification is the text as built.
- async/await and interleaving are not modelled. Events from different users are handled one at a time.
- Display strings are the exact texts of `bot.py`. Only the triggers "ارسال پیام", "شبکه‌های اجتماعی من" and "لغو" and the label "آیدی عددی: " affect control flow.
- `Relay.DecodeNotification` assumes the sender's first name and username do not contain the label. The code makes no such check. With a first name that contains the label, the extracted text is not the sender's id; `Relay.DecodeLabelInFirstName` and `Relay.LabelInFirstNameExample` state what is extracted from the text as built. The admin's client quotes the text as rendered from Markdown, where the link shows only the first name and the backticks vanish. From that text the same first name decodes to "7", so the reply would go to user 7 rather than fail. Rendering is not modelled, so this is not proved.
- The scan order is SQLite's rowid order for this table. SQL itself does not promise any order.
