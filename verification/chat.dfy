/**
 * What the handlers exchange with the chat transport, and the texts both
 * versions of the bot share.
 */
module Chat {
  import opened Wrappers
  import opened Tokens
  import opened Calendar
  import opened Strptime

  /** The parts of `message.from_user` the handlers read. */
  datatype Sender = Sender(id: int, firstName: string, username: Option<string>)

  /** One `bot.send_message(chat, text)`. */
  datatype Message = Message(chat: int, text: string)

  /** How a handler ends: it replies with a text, it replies with the text
      of the ValueError that `strptime` raised for `data` against `format`,
      or an exception no handler catches ends it without a reply. */
  datatype Response = Reply(text: string) | StrptimeError(data: string, format: string) | Crash

  const DateFormat := "%d.%m.%Y"
  const TimeFormat := "%H:%M"

  /** Why a reminder request writes nothing. */
  datatype Refusal =
    | TooFewArguments             // the split gave too few pieces
    | Unparsable(field: DateTimeError)
    | MissingText                 // `args[3]` read past the end: IndexError
    | PastDue                     // the instant is before the current minute

  /** Both versions split `/set_reminder` three times: the text is
      everything after the third space. */
  function ReminderArgs(command: string): seq<string>
  {
    Split(command, ' ', 3)
  }

  /** What an accepted reminder request stores. */
  datatype Plan = Plan(wall: Wall, text: string, dueAt: int)

  /** The notification: `"{name}, не забудь: {text}"`. */
  function NoticeText(name: string, text: string): string
  {
    name + ", не забудь: " + text
  }

  /** `str(x)` for an optional string: None prints as "None". */
  function Shown(x: Option<string>): string
  {
    match x
    case Some(s) => s
    case None => "None"
  }

  /** `str(datetime)` of a naive value with zero seconds. */
  function WallText(w: Wall): (s: string)
    requires ValidWall(w)
    ensures |s| == 19
    ensures s[4] == '-' && s[7] == '-' && s[10] == ' ' && s[13] == ':' && s[16] == ':'
    ensures s[17..] == "00"
  {
    Pad4(w.date.year) + "-" + Pad2(w.date.month) + "-" + Pad2(w.date.day)
    + " " + Pad2(w.hour) + ":" + Pad2(w.minute) + ":00"
  }

  /** The confirmation both versions send after storing a reminder. */
  function ConfirmationText(w: Wall, zone: string, text: string): (c: string)
    requires ValidWall(w)
    ensures |ConfirmationHead| + 19 <= |c| && |text| <= |c|
    ensures c[..|ConfirmationHead|] == ConfirmationHead
    ensures c[|ConfirmationHead|..|ConfirmationHead| + 19] == WallText(w)
    ensures c[|c| - |text|..] == text
  {
    var s := ConfirmationHead + WallText(w) + " (" + zone + "): " + text;
    assert s == ConfirmationHead + WallText(w) + (" (" + zone + "): " + text);
    s
  }

  const ConfirmationHead := "Напоминание установлено на "

  /** Different wall times never print alike. */
  lemma WallTextInjective(a: Wall, b: Wall)
    requires ValidWall(a) && ValidWall(b) && WallText(a) == WallText(b)
    ensures a == b
  {
    var s, t := WallText(a), WallText(b);
    assert s[..4] == Pad4(a.date.year) && t[..4] == Pad4(b.date.year);
    assert s[5..7] == Pad2(a.date.month) && t[5..7] == Pad2(b.date.month);
    assert s[8..10] == Pad2(a.date.day) && t[8..10] == Pad2(b.date.day);
    assert s[11..13] == Pad2(a.hour) && t[11..13] == Pad2(b.hour);
    assert s[14..16] == Pad2(a.minute) && t[14..16] == Pad2(b.minute);
    Pad4Injective(a.date.year, b.date.year);
    Pad2Injective(a.date.month, b.date.month);
    Pad2Injective(a.date.day, b.date.day);
    Pad2Injective(a.hour, b.hour);
    Pad2Injective(a.minute, b.minute);
  }

  /** The confirmation pins down the wall time the reminder was set for. */
  lemma ConfirmationShowsWall(a: Wall, za: string, ta: string, b: Wall, zb: string, tb: string)
    requires ValidWall(a) && ValidWall(b)
    requires ConfirmationText(a, za, ta) == ConfirmationText(b, zb, tb)
    ensures a == b
  {
    WallTextInjective(a, b);
  }

  /** The reply for a parse failure names the field that failed and the
      format it was read with. */
  function ParseFailure(args: seq<string>, field: DateTimeError): Response
    requires |args| >= 3
  {
    match field
    case BadDate => StrptimeError(args[1], DateFormat)
    case BadTime => StrptimeError(args[2], TimeFormat)
  }
}
