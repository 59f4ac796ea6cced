/**
 * The relay correlator. `handle_user_message` sends the admin a notification
 * that carries the sender's numeric id on a labelled line; `admin_reply`
 * recovers that id from the text of the notification the admin replies to,
 * with `split("آیدی عددی: ")[1].split("\n")[0].strip('`')`. The
 * notification text is the only record of who sent what.
 */
module Relay {
  import opened Wrappers
  import opened Text
  import opened Transport

  /** The label in front of the numeric id, and the separator `admin_reply` splits on. */
  const IdLabel := "آیدی عددی: "
  /** Shown for a user without a username. */
  const NoUsername := "ندارد"

  const NotificationHeader := "📩 پیام جدید\n\n"

  /** `user.username if user.username else 'ندارد'`: an absent or empty username shows as "none". */
  function UsernameShown(u: TgUser): (r: string)
    ensures |r| > 0
    ensures r != NoUsername ==> u.username == Some(r)
  {
    if u.username.Some? && u.username.value != "" then u.username.value else NoUsername
  }

  /** The Markdown link to the sender: `[first_name](tg://user?id=id)`. */
  function SenderLink(u: TgUser): string
  {
    "[" + u.firstName + "](tg://user?id=" + Decimal(u.id) + ")"
  }

  function SenderLine(u: TgUser): string
  {
    "👤 فرستنده: " + SenderLink(u) + "\n"
  }

  function UsernameLine(u: TgUser): string
  {
    "🆔 یوزرنیم: @" + UsernameShown(u) + "\n"
  }

  /** The labelled line that carries the id: ``📌 آیدی عددی: `id` ``. */
  function IdLine(id: int): string
  {
    "📌 " + IdLabel + "`" + Decimal(id) + "`\n"
  }

  function TimeLine(time: string): string
  {
    "⏰ زمان: " + time + "\n\n"
  }

  function MessageBlock(message: string): string
  {
    "📝 متن پیام:\n" + message
  }

  /**
   * `admin_notification` in `handle_user_message`, for sender `u`, the
   * formatted time `time` and the user's text `message`.
   */
  function Notification(u: TgUser, time: string, message: string): string
  {
    NotificationHeader + SenderLine(u) + UsernameLine(u) + IdLine(u.id) + TimeLine(time) + MessageBlock(message)
  }

  /** The `IndexError` raised by `[1]` when the quoted text has no label. */
  datatype DecodeError = IndexError

  /**
   * The id extraction of `admin_reply`: the text after the first label, up
   * to the next label, cut at its first newline, with backticks stripped
   * from both ends. It fails exactly when the label is absent.
   */
  function DecodeSenderId(quoted: string): (r: Result<string, DecodeError>)
    ensures r.Err? <==> !Contains(quoted, IdLabel)
    ensures r.Ok? ==> |r.value| == 0 || (r.value[0] != '`' && r.value[|r.value| - 1] != '`')
  {
    var parts := Split(quoted, IdLabel);
    if |parts| < 2 then Err(IndexError)
    else Ok(Strip(Split(parts[1], "\n")[0], '`'))
  }

  // ---- the round trip ----

  lemma DecimalClean(n: int, pat: string)
    requires |pat| > 0 && !IsDigit(pat[0]) && pat[0] != '-'
    ensures Clean(Decimal(n), pat)
  {
    var d := Decimal(n);
    assert pat[0] !in d by {
      forall i | 0 <= i < |d| ensures d[i] != pat[0] {
        assert IsDigit(d[i]) || d[i] == '-';
      }
    }
    CleanWithout(d, pat);
  }

  /** Everything before the label in a notification is clean when the user's own texts do not contain it. */
  lemma PrefixClean(u: TgUser)
    requires !Contains(u.firstName, IdLabel)
    requires u.username.Some? ==> !Contains(u.username.value, IdLabel)
    ensures Clean(NotificationHeader + SenderLine(u) + UsernameLine(u) + "📌 ", IdLabel)
  {
    var L := IdLabel;
    var d := Decimal(u.id);
    assert L[0] == 'آ';
    CleanWithout(NotificationHeader, L);
    // the sender line
    CleanWithout("[", L);
    NotContainsAppend("[", u.firstName, L);
    CleanWithout("](tg://user?id=", L);
    CleanBeforeBarrier("[" + u.firstName, "](tg://user?id=", L);
    DecimalClean(u.id, L);
    CleanAppend("[" + u.firstName + "](tg://user?id=", d, L);
    CleanWithout(")", L);
    CleanAppend("[" + u.firstName + "](tg://user?id=" + d, ")", L);
    CleanWithout("👤 فرستنده: ", L);
    CleanAppend("👤 فرستنده: ", SenderLink(u), L);
    CleanWithout("\n", L);
    CleanAppend("👤 فرستنده: " + SenderLink(u), "\n", L);
    // the username line
    var name := UsernameShown(u);
    assert !Contains(name, L) by {
      if name == NoUsername {
        CleanWithout(NoUsername, L);
        CleanExtends(NoUsername, "", L);
        assert NoUsername + "" == NoUsername;
      }
    }
    CleanWithout("🆔 یوزرنیم: @", L);
    NotContainsAppend("🆔 یوزرنیم: @", name, L);
    CleanBeforeBarrier("🆔 یوزرنیم: @" + name, "\n", L);
    // the whole prefix
    CleanAppend(NotificationHeader, SenderLine(u), L);
    CleanAppend(NotificationHeader + SenderLine(u), UsernameLine(u), L);
    CleanWithout("📌 ", L);
    CleanAppend(NotificationHeader + SenderLine(u) + UsernameLine(u), "📌 ", L);
  }

  /** The notification cut at the label: what precedes it, and what follows it. */
  lemma NotificationShape(u: TgUser, time: string, message: string)
    ensures Notification(u, time, message) ==
      (NotificationHeader + SenderLine(u) + UsernameLine(u) + "📌 ")
      + (IdLabel + (("`" + Decimal(u.id) + "`") + ("\n" + (TimeLine(time) + MessageBlock(message)))))
  {
  }

  /**
   * Every notification can be answered: whatever the sender's names, the
   * text carries the label, so the extraction never raises `IndexError`.
   */
  lemma NotificationAnswerable(u: TgUser, time: string, message: string)
    ensures DecodeSenderId(Notification(u, time, message)).Ok?
  {
    var before := NotificationHeader + SenderLine(u) + UsernameLine(u) + "📌 ";
    var after := ("`" + Decimal(u.id) + "`") + ("\n" + (TimeLine(time) + MessageBlock(message)));
    NotificationShape(u, time, message);
    assert OccursAt(before + (IdLabel + after), |before|, IdLabel) by {
      assert (before + (IdLabel + after))[|before|..|before| + |IdLabel|] == IdLabel;
    }
  }

  /** The piece after the label reaches at least to the newline that ends the id line. */
  lemma PieceAfterLabel(k: string, rest: string)
    requires 'آ' !in k
    ensures |Split(k + ("\n" + rest), IdLabel)[0]| >= |k| + 1
    ensures Split(k + ("\n" + rest), IdLabel)[0][..|k| + 1] == k + "\n"
  {
    var L := IdLabel;
    var z := k + ("\n" + rest);
    CleanWithout(k, L);
    CleanWithout("\n", L);
    CleanAppend(k, "\n", L);
    CleanExtends(k + "\n", rest, L);
    assert z == (k + "\n") + rest;
    SkipNoStart(k + "\n", rest, L);
  }

  /** The first line of a text that starts with `k` and a newline, where `k` has no newline, is `k`. */
  lemma {:induction false} FirstLine(k: string, piece: string)
    requires '\n' !in k
    requires |piece| >= |k| + 1 && piece[..|k| + 1] == k + "\n"
    ensures Split(piece, "\n")[0] == k
  {
    var tail := piece[|k|..];
    assert piece == k + tail;
    CleanWithout(k, "\n");
    CleanExtends(k, tail, "\n");
    SkipNoStart(k, tail, "\n");
    assert tail[..1] == "\n";
  }

  /** Reading the id back out of what follows the label. */
  lemma DecodeTail(d: string, rest: string)
    requires |d| > 0 && d[0] != '`' && d[|d| - 1] != '`'
    requires '\n' !in d && '`' !in d && 'آ' !in d
    ensures Strip(Split(Split(("`" + d + "`") + ("\n" + rest), IdLabel)[0], "\n")[0], '`') == d
  {
    var k := "`" + d + "`";
    assert 'آ' !in k && '\n' !in k;
    PieceAfterLabel(k, rest);
    FirstLine(k, Split(k + ("\n" + rest), IdLabel)[0]);
    assert k[1..] == d + "`";
    assert (d + "`")[..|d|] == d;
  }

  /**
   * Round trip: the id `admin_reply` extracts from a notification for `u`
   * is `str(u.id)`, provided the sender's first name and username, which
   * precede the id line, do not contain the label.
   */
  lemma DecodeNotification(u: TgUser, time: string, message: string)
    requires !Contains(u.firstName, IdLabel)
    requires u.username.Some? ==> !Contains(u.username.value, IdLabel)
    ensures DecodeSenderId(Notification(u, time, message)) == Ok(Decimal(u.id))
  {
    var L := IdLabel;
    var before := NotificationHeader + SenderLine(u) + UsernameLine(u) + "📌 ";
    var d := Decimal(u.id);
    var after := ("`" + d + "`") + ("\n" + (TimeLine(time) + MessageBlock(message)));
    NotificationShape(u, time, message);
    PrefixClean(u);
    CleanExtends(before, L + after, L);
    SkipNoStart(before, L + after, L);
    assert (L + after)[..|L|] == L;
    assert IndexOf(L + after, L) == Some(0);
    var text := before + (L + after);
    assert text[|before| + |L|..] == after;
    assert Split(text, L)[1] == Split(after, L)[0];
    // `str(n)` has no backtick, newline or label character
    assert '\n' !in d && '`' !in d && 'آ' !in d by {
      forall i | 0 <= i < |d| ensures d[i] != '\n' && d[i] != '`' && d[i] != 'آ' {
        assert IsDigit(d[i]) || d[i] == '-';
      }
    }
    DecodeTail(d, TimeLine(time) + MessageBlock(message));
  }

  /** The recovered text is the decimal id of the sender: replying reaches `u.id`. */
  lemma DecodeNotificationValue(u: TgUser, time: string, message: string)
    requires !Contains(u.firstName, IdLabel)
    requires u.username.Some? ==> !Contains(u.username.value, IdLabel)
    ensures DecodeSenderId(Notification(u, time, message)).Ok?
    ensures DecimalValue(DecodeSenderId(Notification(u, time, message)).value) == Some(u.id)
  {
    DecodeNotification(u, time, message);
    DecimalRoundTrip(u.id);
  }

  // ---- when the first name carries the label ----

  /** Concatenation is associative: the pieces of a notification regrouped around a label that opens the first name. */
  lemma RegroupAtName(h: string, a: string, lb: string, lab: string, s: string, c: string, d: string, e: string,
                nl: string, ul: string, il: string, tl: string, mb: string)
    ensures h + (a + ((((lb + (lab + s)) + c) + d) + e) + nl) + ul + il + tl + mb
         == (h + (a + lb)) + (lab + ((((s + c) + d) + e) + (nl + (((ul + il) + tl) + mb))))
  {
  }

  /** The notification cut at a label that opens the first name. */
  lemma LabelNameShape(u: TgUser, time: string, message: string, s: string)
    requires u.firstName == IdLabel + s
    ensures Notification(u, time, message) ==
      (NotificationHeader + ("👤 فرستنده: " + "["))
      + (IdLabel + ((s + "](tg://user?id=" + Decimal(u.id) + ")")
        + ("\n" + (UsernameLine(u) + IdLine(u.id) + TimeLine(time) + MessageBlock(message)))))
  {
    RegroupAtName(NotificationHeader, "👤 فرستنده: ", "[", IdLabel, s, "](tg://user?id=", Decimal(u.id), ")", "\n",
      UsernameLine(u), IdLine(u.id), TimeLine(time), MessageBlock(message));
  }

  /** When no label can start in `before`, `split` cuts at the label that follows it. */
  lemma SplitAfterCleanPrefix(before: string, after: string)
    requires Clean(before, IdLabel)
    ensures |Split(before + (IdLabel + after), IdLabel)| >= 2
    ensures Split(before + (IdLabel + after), IdLabel)[1] == Split(after, IdLabel)[0]
  {
    var L := IdLabel;
    CleanExtends(before, L + after, L);
    SkipNoStart(before, L + after, L);
    assert (L + after)[..|L|] == L;
    assert IndexOf(L + after, L) == Some(0);
    var text := before + (L + after);
    assert text[|before| + |L|..] == after;
  }

  /**
   * The round trip needs its precondition: when the first name is the label
   * followed by some text `s`, extraction stops at the name and returns the
   * rest of the sender link instead of the id line.
   */
  lemma {:induction false} DecodeLabelInFirstName(u: TgUser, time: string, message: string, s: string)
    requires u.firstName == IdLabel + s
    requires 'آ' !in s && '\n' !in s
    ensures DecodeSenderId(Notification(u, time, message)) ==
      Ok(Strip(s + "](tg://user?id=" + Decimal(u.id) + ")", '`'))
  {
    var d := Decimal(u.id);
    var before := NotificationHeader + ("👤 فرستنده: " + "[");
    var k := s + "](tg://user?id=" + d + ")";
    var rest := UsernameLine(u) + IdLine(u.id) + TimeLine(time) + MessageBlock(message);
    LabelNameShape(u, time, message, s);
    assert 'آ' !in d && '\n' !in d by {
      forall i | 0 <= i < |d| ensures d[i] != '\n' && d[i] != 'آ' {
        assert IsDigit(d[i]) || d[i] == '-';
      }
    }
    assert 'آ' !in before && 'آ' !in k && '\n' !in k;
    CleanWithout(before, IdLabel);
    SplitAfterCleanPrefix(before, k + ("\n" + rest));
    PieceAfterLabel(k, rest);
    FirstLine(k, Split(k + ("\n" + rest), IdLabel)[0]);
  }

  lemma LinkTailOfUser5()
    ensures "7" + "](tg://user?id=" + "5" + ")" == "7](tg://user?id=5)"
  {
  }

  /** For instance, user 5 whose first name is the label followed by "7": the extracted text is not 5's id. */
  lemma {:induction false} LabelInFirstNameExample(u: TgUser, time: string, message: string)
    requires u.id == 5 && u.firstName == IdLabel + "7"
    ensures DecodeSenderId(Notification(u, time, message)) == Ok("7](tg://user?id=5)")
    ensures DecodeSenderId(Notification(u, time, message)) != Ok(Decimal(u.id))
  {
    DecodeLabelInFirstName(u, time, message, "7");
    assert Decimal(5) == "5";
    LinkTailOfUser5();
    StripKeeps("7](tg://user?id=5)", '`');
  }
}
