/**
 * The handlers of the bot and the conversation they drive. Each handler is
 * modelled by what it returns to the conversation (`WAITING_FOR_MESSAGE`,
 * `WAITING_FOR_BROADCAST`, `ConversationHandler.END` or nothing) and by the
 * replies and sends it performs, recorded as actions. The outcome of each
 * send the bot cannot predict is a parameter.
 *
 * How the application wires the handlers is not modelled; two things about
 * that wiring matter when reading the model. `send_broadcast` is registered
 * as a plain `/broadcast` command, not as an entry point of the
 * conversation, so as wired its return value does not start the broadcast
 * conversation. And the catch-all text handler (`handle_message`) is
 * registered before `admin_reply` in the same group, and only the first
 * matching handler of a group runs, so it receives the admin's text
 * replies instead of `admin_reply`.
 */
module Conversation {
  import opened Wrappers
  import opened Text
  import opened Transport
  import opened Registry
  import opened Relay

  // The conversation states and the value that ends a conversation.
  const WaitingForMessage := 1
  const WaitingForBroadcast := 2
  const End := -1   // ConversationHandler.END

  // The texts that decide which branch a handler takes.
  const SocialTrigger := "شبکه\U{200C}های اجتماعی من"
  const ComposeTrigger := "ارسال پیام"
  const CancelText := "لغو"

  // What the bot says back.
  const WelcomeHead := "سلام "
  const SocialLink := "https://google.com"
  const ComposePrompt := "لطفاً پیام خود را وارد کنید:"
  const BroadcastPrompt := "لطفاً پیام همگانی خود را وارد کنید:"
  const CancelledText := "عملیات لغو شد."
  const BroadcastDone := "پیام همگانی با موفقیت ارسال شد. ✅"
  const MessageSent := "پیام شما با موفقیت ارسال شد. ✅"
  const AccessDenied := "شما دسترسی به این دستور ندارید."
  const ReplySent := "پاسخ شما ارسال شد. ✅"
  const ReplyFailed := "خطا در ارسال پاسخ!"
  const AdminReplyPrefix := "پاسخ ادمین:\n\n"

  /** `ADMIN_ID` as read from the environment: `None` when the variable is not set. */
  datatype Config = Config(adminId: Option<string>)

  /** The admin gate `str(user.id) == ADMIN_ID`. */
  predicate IsAdmin(cfg: Config, id: int)
  {
    cfg.adminId == Some(Decimal(id))
  }

  /** At most one caller passes the gate. */
  lemma AdminUnique(cfg: Config, a: int, b: int)
    requires IsAdmin(cfg, a) && IsAdmin(cfg, b)
    ensures a == b
  {
    DecimalInjective(a, b);
  }

  /** The gate passes exactly the caller whose id the configured text denotes, written the way `str` writes it. */
  lemma AdminGateMeaning(cfg: Config, id: int)
    ensures IsAdmin(cfg, id) <==> cfg.adminId.Some? && DecimalValue(cfg.adminId.value) == Some(id)
  {
    if cfg.adminId.Some? {
      DecimalValueExact(cfg.adminId.value, id);
    }
  }

  /**
   * The comparison is on text: an `ADMIN_ID` that is not written the way
   * `str` writes integers (a leading zero, a sign on zero, spaces) admits
   * nobody, not even the id it denotes.
   */
  lemma NonCanonicalAdminId(cfg: Config, id: int)
    requires cfg.adminId.Some? && DecimalValue(cfg.adminId.value).None?
    ensures !IsAdmin(cfg, id)
  {
    DecimalRoundTrip(id);
  }

  /** For instance "007" denotes 7, yet user 7 does not pass the gate. */
  lemma LeadingZeroAdminId()
    ensures DecimalValue("007").None?
    ensures forall id :: !IsAdmin(Config(Some("007")), id)
  {
    forall id {
      NonCanonicalAdminId(Config(Some("007")), id);
    }
  }

  /** `chat_id=ADMIN_ID`: the chat of the one caller who passes the gate, if any. */
  function AdminChat(cfg: Config): (r: Chat)
    ensures r.Unset? <==> cfg.adminId.None?
    ensures forall id :: IsAdmin(cfg, id) ==> r == ByText(Decimal(id))
  {
    match cfg.adminId
    case None => Unset
    case Some(t) => ByText(t)
  }

  /**
   * What a handler does: it returns a value to the conversation (`next`,
   * `None` for a bare `return`) after performing `actions`, or an exception
   * escapes it after `actions` were performed.
   */
  datatype Outcome = Returned(next: Option<int>, actions: seq<Action>) | Raised(actions: seq<Action>)

  // ---- start and the menu ----

  /** The greeting of `/start`, which addresses the caller by first name. */
  function Welcome(u: TgUser): (r: string)
    ensures |r| > |WelcomeHead| + |u.firstName| && r[..|WelcomeHead| + |u.firstName|] == WelcomeHead + u.firstName
  {
    WelcomeHead + u.firstName + " عزیز!\n" + "به ربات من خوش آمدید. لطفاً یکی از گزینه\U{200C}های زیر را انتخاب کنید:"
  }

  /** `/start`: registers (or re-registers) the caller with the time `now`, then greets them. */
  method Start(table: UserTable, u: TgUser, now: Timestamp) returns (actions: seq<Action>)
    requires table.Valid()
    modifies table
    ensures table.Valid()
    ensures table.rows == old(table.rows)[u.id := UserRow(u.username, u.firstName, u.lastName, now)]
    ensures actions == [Reply(Welcome(u), MainKeyboard)]
  {
    table.Save(u.id, u.username, u.firstName, u.lastName, now);
    actions := [Reply(Welcome(u), MainKeyboard)];
  }

  /**
   * `handle_message`: the menu. The compose trigger opens the
   * message conversation, the social trigger only answers with the link,
   * and any other text is ignored.
   */
  function HandleMessage(text: string): (o: Outcome)
    ensures o.Returned? && NoSends(o.actions)
    ensures o.next == Some(WaitingForMessage) <==> text == ComposeTrigger
    ensures o.next.None? <==> text != ComposeTrigger
    ensures text == SocialTrigger ==> o.actions == [Reply(SocialLink, NoKeyboard)]
    ensures text == ComposeTrigger ==> o.actions == [Reply(ComposePrompt, CancelKeyboard)]
    ensures text != SocialTrigger && text != ComposeTrigger ==> o.actions == []
  {
    if text == SocialTrigger then Returned(None, [Reply(SocialLink, NoKeyboard)])
    else if text == ComposeTrigger then Returned(Some(WaitingForMessage), [Reply(ComposePrompt, CancelKeyboard)])
    else Returned(None, [])
  }

  // ---- admin commands ----

  const PanelHead := "🔐 پنل مدیریت:\n\n" + "📊 تعداد کل کاربران: "

  /** The admin panel: the user count, written by `str`, right after its label and ended by a newline. */
  function PanelText(count: nat): (r: string)
    ensures |r| > |PanelHead| + |Decimal(count)|
    ensures r[..|PanelHead|] == PanelHead
    ensures r[|PanelHead|..|PanelHead| + |Decimal(count)| + 1] == Decimal(count) + "\n"
  {
    PanelHead + Decimal(count) + "\n" + "\n" + "دستورات موجود:\n"
  }

  /** `/panel`: the admin sees the number of registered users; anyone else is told access is denied. */
  function Panel(cfg: Config, caller: TgUser, table: UserTable): (acts: seq<Action>)
    reads table
    requires table.Valid()
    ensures |acts| == 1 && NoSends(acts)
    ensures IsAdmin(cfg, caller.id) ==> acts == [Reply(PanelText(|table.ids|), AdminKeyboard)]
    ensures !IsAdmin(cfg, caller.id) ==> acts == [Reply(AccessDenied, NoKeyboard)]
  {
    if IsAdmin(cfg, caller.id) then [Reply(PanelText(table.Count()), AdminKeyboard)]
    else [Reply(AccessDenied, NoKeyboard)]
  }

  /** `/broadcast`: only the admin is prompted and moves to the broadcast state; anyone else gets nothing. */
  function SendBroadcast(cfg: Config, caller: TgUser): (o: Outcome)
    ensures o.Returned? && NoSends(o.actions)
    ensures o.next == Some(WaitingForBroadcast) <==> IsAdmin(cfg, caller.id)
    ensures !IsAdmin(cfg, caller.id) ==> o == Returned(None, [])
    ensures IsAdmin(cfg, caller.id) ==> o == Returned(Some(WaitingForBroadcast), [Reply(BroadcastPrompt, CancelKeyboard)])
  {
    if !IsAdmin(cfg, caller.id) then Returned(None, [])
    else Returned(Some(WaitingForBroadcast), [Reply(BroadcastPrompt, CancelKeyboard)])
  }

  /**
   * What `handle_broadcast_message` does with the scanned keys `ids`: on
   * cancel only the acknowledgement; otherwise one send attempt to every
   * key in scan order, then the success reply. It ends the conversation
   * either way. The handler does not check the caller itself.
   */
  function BroadcastMessageOutcome(message: string, ids: seq<int>): (o: Outcome)
    ensures o.Returned? && o.next == Some(End)
    ensures message == CancelText ==> o.actions == [Reply(CancelledText, AdminKeyboard)]
    ensures message != CancelText ==>
      |o.actions| == |ids| + 1
      && (forall i :: 0 <= i < |ids| ==> o.actions[i] == Send(ById(ids[i]), message))
      && o.actions[|ids|] == Reply(BroadcastDone, AdminKeyboard)
  {
    if message == CancelText then Returned(Some(End), [Reply(CancelledText, AdminKeyboard)])
    else Returned(Some(End), BroadcastSends(ids, message) + [Reply(BroadcastDone, AdminKeyboard)])
  }

  /**
   * `handle_broadcast_message`, with `ok[i]` the outcome of the send to
   * the `i`-th scanned user. A failed send is skipped and the admin is
   * told of success regardless; `reached` are the users the message got to.
   */
  method HandleBroadcastMessage(table: UserTable, message: string, ok: seq<bool>) returns (o: Outcome, reached: seq<int>)
    requires table.Valid() && |ok| == |table.ids|
    ensures o == BroadcastMessageOutcome(message, table.ids)
    ensures reached == if message == CancelText then [] else Delivered(table.ids, ok)
  {
    if message == CancelText {
      o, reached := Returned(Some(End), [Reply(CancelledText, AdminKeyboard)]), [];
      return;
    }
    var attempts;
    attempts, reached := table.Broadcast(message, ok);
    o := Returned(Some(End), attempts + [Reply(BroadcastDone, AdminKeyboard)]);
  }

  /** `/users`: the admin gets the user list; anyone else gets nothing. */
  method ShowUsers(cfg: Config, caller: TgUser, table: UserTable) returns (acts: seq<Action>)
    requires table.Valid()
    ensures !IsAdmin(cfg, caller.id) ==> acts == []
    ensures IsAdmin(cfg, caller.id) ==> acts == [Reply(UserListText(table.ids, table.rows), AdminKeyboard)]
    ensures IsAdmin(cfg, caller.id) ==> (acts[0].text == NoUsersText <==> table.Count() == 0)
  {
    if !IsAdmin(cfg, caller.id) {
      return [];
    }
    var text := table.ListText();
    acts := [Reply(text, AdminKeyboard)];
  }

  // ---- the user's message to the admin ----

  /**
   * `handle_user_message`: on cancel only the acknowledgement; otherwise
   * the notification goes to the admin and the user is thanked. The send
   * to the admin is not guarded: when it fails (`adminSendOk` false) the
   * exception escapes the handler before the thanks and before it returns.
   */
  function HandleUserMessage(cfg: Config, u: TgUser, message: string, time: string, adminSendOk: bool): (o: Outcome)
    ensures o.Returned? ==> o.next == Some(End)
    ensures o.Raised? <==> message != CancelText && !adminSendOk
    ensures message == CancelText ==> o.actions == [Reply(CancelledText, MainKeyboard)]
    ensures message != CancelText ==>
      |o.actions| >= 1 && o.actions[0] == Send(AdminChat(cfg), Notification(u, time, message))
      && (adminSendOk ==> o.actions == [o.actions[0], Reply(MessageSent, MainKeyboard)])
      && (!adminSendOk ==> |o.actions| == 1)
  {
    if message == CancelText then Returned(Some(End), [Reply(CancelledText, MainKeyboard)])
    else
      var notify := Send(AdminChat(cfg), Notification(u, time, message));
      if adminSendOk then Returned(Some(End), [notify, Reply(MessageSent, MainKeyboard)])
      else Raised([notify])
  }

  // ---- the admin's reply ----

  /** `update.message.reply_to_message`: absent, or a message whose `text` may be absent. */
  datatype Quoted = NotAReply | ReplyTo(text: Option<string>)

  /**
   * `admin_reply`: for the admin's reply to a message, recover the sender
   * id from the quoted text and send the reply there. A missing text, a
   * missing label or a failed send all end in the error reply.
   */
  function AdminReply(cfg: Config, caller: TgUser, text: string, quoted: Quoted, sendOk: bool): (o: Outcome)
    ensures o.Returned? && o.next.None?
    ensures !IsAdmin(cfg, caller.id) || quoted.NotAReply? ==> o.actions == []
    ensures forall i :: 0 <= i < |o.actions| && o.actions[i].Send? ==> i == 0 && o.actions[i].text == AdminReplyPrefix + text
    ensures IsAdmin(cfg, caller.id) && quoted.ReplyTo? ==>
      |o.actions| >= 1 && o.actions[|o.actions| - 1] in [Reply(ReplySent, NoKeyboard), Reply(ReplyFailed, NoKeyboard)]
    ensures IsAdmin(cfg, caller.id) && quoted.ReplyTo? && (quoted.text.None? || DecodeSenderId(quoted.text.value).Err?) ==>
      o.actions == [Reply(ReplyFailed, NoKeyboard)]
    ensures IsAdmin(cfg, caller.id) && quoted.ReplyTo? && quoted.text.Some? && DecodeSenderId(quoted.text.value).Ok? ==>
      o.actions == [Send(ByText(DecodeSenderId(quoted.text.value).value), AdminReplyPrefix + text),
                    Reply(if sendOk then ReplySent else ReplyFailed, NoKeyboard)]
  {
    if !IsAdmin(cfg, caller.id) then Returned(None, [])
    else match quoted
      case NotAReply => Returned(None, [])
      case ReplyTo(None) => Returned(None, [Reply(ReplyFailed, NoKeyboard)])
      case ReplyTo(Some(q)) =>
        match DecodeSenderId(q)
        case Err(_) => Returned(None, [Reply(ReplyFailed, NoKeyboard)])
        case Ok(id) =>
          var send := Send(ByText(id), AdminReplyPrefix + text);
          Returned(None, [send, Reply(if sendOk then ReplySent else ReplyFailed, NoKeyboard)])
  }

  /** A reply to anything without the label sends nothing and tells the admin it failed. */
  lemma AdminReplyUnrelated(cfg: Config, caller: TgUser, text: string, q: string, sendOk: bool)
    requires IsAdmin(cfg, caller.id) && !Contains(q, IdLabel)
    ensures AdminReply(cfg, caller, text, ReplyTo(Some(q)), sendOk).actions == [Reply(ReplyFailed, NoKeyboard)]
  {
  }

  /**
   * The admin's reply to a notification for `u` is sent to `u`'s id, and the
   * admin is told the outcome.
   */
  lemma AdminReplyReachesSender(cfg: Config, caller: TgUser, text: string, u: TgUser, time: string, message: string, sendOk: bool)
    requires IsAdmin(cfg, caller.id)
    requires !Contains(u.firstName, IdLabel)
    requires u.username.Some? ==> !Contains(u.username.value, IdLabel)
    ensures AdminReply(cfg, caller, text, ReplyTo(Some(Notification(u, time, message))), sendOk).actions ==
      [Send(ByText(Decimal(u.id)), AdminReplyPrefix + text), Reply(if sendOk then ReplySent else ReplyFailed, NoKeyboard)]
  {
    DecodeNotification(u, time, message);
  }

  // ---- the conversation ----

  /** The conversation state of one user: `None` outside a conversation. */
  type SessionState = Option<int>

  /**
   * How the conversation takes a handler's outcome: a returned state
   * replaces the current one, `END` leaves the conversation, a bare
   * `return` keeps the current state, and so does an escaping exception.
   */
  function Resolve(state: SessionState, o: Outcome): (r: (SessionState, seq<Action>))
    ensures r.1 == o.actions
    ensures o.Raised? || o.next.None? ==> r.0 == state
    ensures o.Returned? && o.next == Some(End) ==> r.0.None?
    ensures o.Returned? && o.next.Some? && o.next.value != End ==> r.0 == o.next
  {
    match o
    case Raised(acts) => (state, acts)
    case Returned(None, acts) => (state, acts)
    case Returned(Some(k), acts) => (if k == End then None else Some(k), acts)
  }

  /**
   * One text message from `caller` in conversation state `state`: outside a
   * conversation the menu handles it; in the message state it goes to the
   * admin; in the broadcast state it goes to the users `ids`.
   */
  function Step(state: SessionState, cfg: Config, caller: TgUser, text: string, ids: seq<int>, time: string, adminSendOk: bool): (r: (SessionState, seq<Action>))
    ensures r.0 == None || r.0 == state || (state == None && text == ComposeTrigger && r.0 == Some(WaitingForMessage))
    ensures state == None ==> (r.0 == Some(WaitingForMessage) <==> text == ComposeTrigger)
  {
    match state
    case None => Resolve(state, HandleMessage(text))
    case Some(k) =>
      if k == WaitingForMessage then Resolve(state, HandleUserMessage(cfg, caller, text, time, adminSendOk))
      else if k == WaitingForBroadcast then Resolve(state, BroadcastMessageOutcome(text, ids))
      else (state, [])
  }

  /** Cancelling in either waiting state leaves the conversation and sends nothing to anyone. */
  lemma CancelLeavesConversation(state: SessionState, cfg: Config, caller: TgUser, ids: seq<int>, time: string, adminSendOk: bool)
    requires state == Some(WaitingForMessage) || state == Some(WaitingForBroadcast)
    ensures Step(state, cfg, caller, CancelText, ids, time, adminSendOk).0 == None
    ensures NoSends(Step(state, cfg, caller, CancelText, ids, time, adminSendOk).1)
  {
  }

  /** A message in the message state either completes and leaves the conversation, or the send to the admin failed and the state stays. */
  lemma MessageStateOutcome(cfg: Config, caller: TgUser, text: string, ids: seq<int>, time: string, adminSendOk: bool)
    ensures var r := Step(Some(WaitingForMessage), cfg, caller, text, ids, time, adminSendOk);
      r.0 == (if text == CancelText || adminSendOk then None else Some(WaitingForMessage))
  {
  }

  /** Text messages alone never open the broadcast conversation: only `/broadcast` does, exactly for the admin. */
  lemma BroadcastStateNeedsAdmin(state: SessionState, cfg: Config, caller: TgUser, text: string, ids: seq<int>, time: string, adminSendOk: bool)
    requires state != Some(WaitingForBroadcast)
    ensures Step(state, cfg, caller, text, ids, time, adminSendOk).0 != Some(WaitingForBroadcast)
    ensures Resolve(state, SendBroadcast(cfg, caller)).0 == Some(WaitingForBroadcast) <==> IsAdmin(cfg, caller.id)
  {
  }

  /** Conversation states of all users, keyed by user id; a missing key means no conversation. */
  type Sessions = map<int, SessionState>

  function StateOf(sessions: Sessions, id: int): SessionState
  {
    if id in sessions then sessions[id] else None
  }

  /** One text message from `caller`: only the caller's own conversation state moves. */
  function Deliver(sessions: Sessions, cfg: Config, caller: TgUser, text: string, ids: seq<int>, time: string, adminSendOk: bool): (r: (Sessions, seq<Action>))
    ensures forall id :: id != caller.id ==> StateOf(r.0, id) == StateOf(sessions, id)
    ensures StateOf(r.0, caller.id) == Step(StateOf(sessions, caller.id), cfg, caller, text, ids, time, adminSendOk).0
  {
    var (s, acts) := Step(StateOf(sessions, caller.id), cfg, caller, text, ids, time, adminSendOk);
    (sessions[caller.id := s], acts)
  }
}
