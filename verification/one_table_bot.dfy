/**
 * The version of the bot with a single reminders table (bot.py). A row
 * carries everything the notification needs: the chat id, the Telegram
 * username, the text, the due instant in UTC and the zone it was read in,
 * which is always the process-wide zone. There is no users table.
 */
module OneTableBot {
  import opened Wrappers
  import opened Tokens
  import opened Calendar
  import opened Strptime
  import opened Zones
  import opened Sweep
  import opened Chat

  datatype Row = Row(id: int, user: int, username: Option<string>, text: string,
                     dueAt: int, zone: string)

  function IdOf(r: Row): int
  {
    r.id
  }

  const FormatText := "Неверный формат команды. Пример: /set_reminder 15.10.2024 18:30 текст_напоминания"
  const PastText := "Указанная дата и время не могут быть меньше текущей даты и времени."

  /**
   * What `/set_reminder` decides before it writes. The guard asks for
   * three pieces, not four: with exactly three, the date and the time are
   * parsed and only then does reading the text raise IndexError, which
   * the handler does not catch.
   */
  function PlanRow(command: string, zone: string, db: ZoneDb, now: int): (r: Result<Plan, Refusal>)
    ensures r == Err(TooFewArguments) <==> |ReminderArgs(command)| < 3
    ensures r == Err(MissingText) <==>
              var args := ReminderArgs(command);
              |args| == 3 && ParseDateTime(args[1], args[2]).Ok?
    ensures r.Ok? <==>
              var args := ReminderArgs(command);
              && |args| == 4
              && ParseDateTime(args[1], args[2]).Ok?
              && !IsPast(Localize(db, zone, ParseDateTime(args[1], args[2]).value), now)
    ensures r.Ok? ==>
              var args := ReminderArgs(command);
              && |args| == 4
              && ParseDateTime(args[1], args[2]) == Ok(r.value.wall)
              && r.value.text == args[3]
              && r.value.dueAt == Localize(db, zone, r.value.wall)
              && now < r.value.dueAt + 60
    ensures r.Err? && r.error.Unparsable? ==>
              var args := ReminderArgs(command);
              |args| >= 3 && ParseDateTime(args[1], args[2]) == Err(r.error.field)
    ensures var args := ReminderArgs(command);
            |args| >= 3 && ParseDateTime(args[1], args[2]).Err? ==> r.Err? && r.error.Unparsable?
    ensures r == Err(PastDue) <==>
              var args := ReminderArgs(command);
              && |args| == 4
              && ParseDateTime(args[1], args[2]).Ok?
              && IsPast(Localize(db, zone, ParseDateTime(args[1], args[2]).value), now)
  {
    var args := ReminderArgs(command);
    if |args| < 3 then Err(TooFewArguments)
    else match ParseDateTime(args[1], args[2])
      case Err(e) => Err(Unparsable(e))
      case Ok(w) =>
        if |args| < 4 then Err(MissingText)
        else
          var t := Localize(db, zone, w);
          PastGuard(t, now);
          if IsPast(t, now) then Err(PastDue)
          else Ok(Plan(w, args[3], t))
  }

  /**
   * A command that carries a valid date and time but no text, such as
   * "/set_reminder 15.10.2024 18:30", passes the guard and ends in the
   * IndexError, whatever the zone and the current time.
   */
  lemma DateAndTimeWithoutTextCrash(ds: string, ts: string, zone: string, db: ZoneDb, now: int)
    requires ' ' !in ds && ' ' !in ts
    requires ParseDateTime(ds, ts).Ok?
    ensures PlanRow("/set_reminder " + ds + " " + ts, zone, db, now) == Err(MissingText)
  {
    CommandOfThree(ds, ts);
    MissingTextOnThree("/set_reminder " + ds + " " + ts, zone, db, now);
  }

  lemma CommandOfThree(ds: string, ts: string)
    requires ' ' !in ds && ' ' !in ts
    ensures ReminderArgs("/set_reminder " + ds + " " + ts) == ["/set_reminder", ds, ts]
  {
    assert "/set_reminder " + ds + " " + ts == "/set_reminder" + [' '] + ds + [' '] + ts;
    SplitOfThree("/set_reminder", ds, ts, ' ', 3);
  }

  lemma MissingTextOnThree(command: string, zone: string, db: ZoneDb, now: int)
    requires |ReminderArgs(command)| == 3
    requires ParseDateTime(ReminderArgs(command)[1], ReminderArgs(command)[2]).Ok?
    ensures PlanRow(command, zone, db, now) == Err(MissingText)
  {
  }

  /** The reply to a refused `/set_reminder`; the IndexError is no reply. */
  function Refused(args: seq<string>, e: Refusal): Response
    requires e.Unparsable? ==> |args| >= 3
  {
    match e
    case TooFewArguments => Reply(FormatText)
    case Unparsable(field) => ParseFailure(args, field)
    case MissingText => Crash
    case PastDue => Reply(PastText)
  }

  /** The scanner's query: `reminder_time <= now`, with `now` not
      truncated. */
  function Selected(now: int): (selected: Row -> bool)
    ensures forall r: Row :: selected(r) ==> IsDue(r.dueAt, now)
    ensures forall r: Row :: r.dueAt % 60 == 0 && IsDue(r.dueAt, now) ==> selected(r)
  {
    ComparisonWithNow(now);
    (r: Row) => r.dueAt <= now
  }

  /** Every selected row is sent; there is no second test. */
  function Always(): Row -> bool
  {
    (r: Row) => true
  }

  /** `MSG.format(username, text)`: a missing username prints "None". */
  function Notice(r: Row): Message
  {
    Message(r.user, NoticeText(Shown(r.username), r.text))
  }

  function Notices(rs: seq<Row>): (ms: seq<Message>)
    ensures |ms| == |rs|
    ensures forall i :: 0 <= i < |rs| ==> ms[i] == Notice(rs[i])
  {
    if rs == [] then [] else Notices(rs[..|rs| - 1]) + [Notice(rs[|rs| - 1])]
  }

  /** The rows one pass at `now` sends and deletes: the selected ones up
      to the first failed send. */
  function Pass(rows: seq<Row>, now: int, sends: Row -> bool): (d: seq<Row>)
    ensures forall r :: r in d ==> r in rows && r.dueAt <= now && sends(r)
  {
    Delivered(Select(rows, Selected(now)), Always(), sends)
  }

  /** Whether one pass at `now` ends at a failed send. */
  predicate Aborts(rows: seq<Row>, now: int, sends: Row -> bool)
  {
    var cands := Select(rows, Selected(now));
    StopAt(cands, Always(), sends) < |cands|
  }

  /** For whole-minute instants the query's plain comparison with an
      untruncated now is minute-level due-ness, the test the two-table
      version arrives at through the owner's zone. */
  lemma SelectedIsMinuteDue(r: Row, now: int)
    requires r.dueAt % 60 == 0
    ensures Selected(now)(r) <==> IsDue(r.dueAt, now)
  {
    WholeMinuteDue(r.dueAt, now);
  }

  /** A pass that completes sends every selected row, in table order. */
  lemma CompletePassSendsSelected(rows: seq<Row>, now: int, sends: Row -> bool)
    requires !Aborts(rows, now, sends)
    ensures Pass(rows, now, sends) == Select(rows, Selected(now))
  {
    var cands := Select(rows, Selected(now));
    CompletePassLeavesNoDue(rows, cands, Always(), sends);
    assert Select(cands, Always()) == cands by {
      SelectAll(cands);
    }
  }

  lemma {:induction false} SelectAll(xs: seq<Row>)
    ensures Select(xs, Always()) == xs
    decreases |xs|
  {
    if xs != [] {
      SelectAll(xs[1..]);
      assert xs == [xs[0]] + xs[1..];
    }
  }

  /** Rows the query does not select stay; so do the failing selected row
      and every later one when a send fails. */
  lemma PassLeavesRest(rows: seq<Row>, now: int, sends: Row -> bool)
    requires Increasing(rows, IdOf)
    ensures forall r :: r in rows && now < r.dueAt ==> r in Without(rows, Pass(rows, now, sends))
    ensures var cands := Select(rows, Selected(now));
            var k := StopAt(cands, Always(), sends);
            forall j :: k <= j < |cands| ==> cands[j] in Without(rows, Pass(rows, now, sends))
  {
    var cands := Select(rows, Selected(now));
    SelectIncreasing(rows, Selected(now), IdOf);
    IncreasingDistinct(cands, IdOf);
    AbortKeepsRest(cands, Always(), sends);
  }

  /** At most once: after a pass that ran to the end, a second pass at
      the same instant over the table it left sends nothing. */
  lemma SecondPassSendsNothing(rows: seq<Row>, now: int, sends: Row -> bool, sends2: Row -> bool)
    requires !Aborts(rows, now, sends)
    ensures Pass(Without(rows, Pass(rows, now, sends)), now, sends2) == []
  {
    var left := Without(rows, Pass(rows, now, sends));
    CompletePassSendsSelected(rows, now, sends);
    SelectNothing(left, Selected(now));
    assert Select(left, Selected(now))[..0] == [];
  }

  /** The table and its id counter, in the process whose zone is `zone`. */
  class Table {
    const zones: ZoneDb
    const zone: string
    var rows: seq<Row>
    var nextId: int

    /** The process zone can be loaded, ids grow in table order and stay
        below the counter, and every row was read in the process zone at
        a whole minute. */
    ghost predicate Valid()
      reads this
    {
      && zone in zones.known
      && Increasing(rows, IdOf)
      && (forall r :: r in rows ==> r.id < nextId && r.dueAt % 60 == 0 && r.zone == zone)
    }

    constructor (zones: ZoneDb, zone: string)
      requires zone in zones.known
      ensures Valid()
      ensures this.zones == zones && this.zone == zone
      ensures rows == [] && nextId == 1
    {
      this.zones := zones;
      this.zone := zone;
      rows := [];
      nextId := 1;
    }

    /**
     * `/set_reminder <date> <time> <text>`: the wall time is read in the
     * process zone; an accepted reminder is appended as one row with the
     * sender's id and username and that zone; every refusal writes
     * nothing.
     */
    method SetReminder(from: Sender, command: string, now: int) returns (reply: Response)
      requires Valid()
      modifies this
      ensures Valid()
      ensures match PlanRow(command, zone, zones, now)
              case Ok(p) =>
                && rows == old(rows) + [Row(old(nextId), from.id, from.username, p.text, p.dueAt, zone)]
                && nextId == old(nextId) + 1
                && reply == Reply(ConfirmationText(p.wall, zone, p.text))
              case Err(e) =>
                && rows == old(rows)
                && nextId == old(nextId)
                && reply == Refused(ReminderArgs(command), e)
    {
      var plan := PlanRow(command, zone, zones, now);
      match plan
      case Ok(p) =>
        var r := Row(nextId, from.id, from.username, p.text, p.dueAt, zone);
        IncreasingSnoc(rows, r, IdOf);
        rows := rows + [r];
        nextId := nextId + 1;
        reply := Reply(ConfirmationText(p.wall, zone, p.text));
      case Err(e) =>
        reply := Refused(ReminderArgs(command), e);
    }

    /**
     * One pass of `check_reminders` at instant `now`; `sends(r)` says
     * whether sending `r`'s notice succeeds. The rows the query selects
     * are sent in table order and each is deleted after its send; the
     * first failed send ends the pass (`aborted`).
     */
    method ScanOnce(now: int, sends: Row -> bool) returns (outbox: seq<Message>, aborted: bool)
      requires Valid()
      modifies this
      ensures Valid()
      ensures nextId == old(nextId)
      ensures rows == Without(old(rows), Pass(old(rows), now, sends))
      ensures outbox == Notices(Pass(old(rows), now, sends))
      ensures aborted == Aborts(old(rows), now, sends)
    {
      ghost var before := rows;
      var cands := Select(rows, Selected(now));
      outbox, aborted := SendSelected(cands, sends);
      assert Valid() by {
        WithoutIncreasing(before, Pass(before, now, sends), IdOf);
      }
    }

    /** The loop of the pass: each candidate is sent, then deleted; a
        failed send ends the loop. The notices go out in the order of
        `sent`. */
    method SendSelected(cands: seq<Row>, sends: Row -> bool) returns (outbox: seq<Message>, aborted: bool)
      modifies this`rows
      ensures rows == Without(old(rows), Delivered(cands, Always(), sends))
      ensures outbox == Notices(Delivered(cands, Always(), sends))
      ensures aborted == (StopAt(cands, Always(), sends) < |cands|)
    {
      ghost var before := rows;
      ghost var k := StopAt(cands, Always(), sends);
      var sent: seq<Row> := [];
      aborted := false;
      WithoutNothing(before);
      var i := 0;
      while i < |cands|
        invariant 0 <= i <= k
        invariant sent == Select(cands[..i], Always())
        invariant rows == Without(before, sent)
      {
        var c := cands[i];
        if !sends(c) {
          aborted := true;
          break;
        }
        rows := Without(rows, [c]);
        assert rows == Without(before, sent + [c]) by {
          WithoutTwice(before, sent, [c]);
        }
        sent := sent + [c];
        assert sent == Select(cands[..i + 1], Always()) by {
          SelectStep(cands, i, Always());
        }
        PassesOver(cands, Always(), sends, i);
        i := i + 1;
      }
      assert sent == Delivered(cands, Always(), sends) by {
        assert i == k;
      }
      outbox := Notices(sent);
    }
  }
}
