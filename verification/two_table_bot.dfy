/**
 * The version of the bot with a users table and a reminders table (g.py).
 * A user row holds a display name and a time zone; a reminder row holds
 * its owner, its text and its due instant in UTC. `/start` and
 * `/set_timezone` write user rows, `/set_reminder` appends reminder rows,
 * and the scanner walks the reminders that have an owner, sending and
 * deleting the due ones.
 */
module TwoTableBot {
  import opened Wrappers
  import opened Tokens
  import opened Calendar
  import opened Strptime
  import opened Zones
  import opened Sweep
  import opened Chat

  datatype User = User(name: string, zone: string)

  datatype Reminder = Reminder(id: int, owner: int, text: string, dueAt: int)

  function IdOf(r: Reminder): int
  {
    r.id
  }

  const TimezoneUsage := "Пример: /set_timezone Europe/Moscow"
  const UnknownZone := "Неверный часовой пояс."
  const ReminderUsage := "Пример: /set_reminder 15.10.2024 18:30 текст"
  const PastText := "Дата и время не могут быть меньше текущих."

  function Greeting(name: string): string
  {
    "Привет, " + name + ", я твой бот-напоминалка. \n"
    + "Используй /set_reminder, чтобы создать напоминание. \n"
    + "Используй /set_timezone, чтобы установить свой часовой пояс."
  }

  function ZoneSet(tz: string): string
  {
    "Часовой пояс установлен: " + tz
  }

  /** `/set_timezone` splits once: the zone is everything after the first
      space, spaces included. */
  function TimezoneArgs(command: string): (args: seq<string>)
    ensures 1 <= |args| <= 2
    ensures |args| == 1 <==> ' ' !in command
    ensures |args| == 2 ==> ' ' !in args[0] && command == args[0] + " " + args[1]
  {
    var r := Split(command, ' ', 1);
    if |r| == 2 then
      JoinStep(r, ' ');
      assert Join(r[1..], ' ') == r[1];
      r
    else r
  }

  /** The zone `/set_reminder` reads: the user's own, or the default when
      the user has no row. */
  function ZoneOf(users: map<int, User>, defaultZone: string, id: int): string
  {
    if id in users then users[id].zone else defaultZone
  }

  /** Loading that zone never fails: the default can be loaded and every
      stored zone was checked when `/set_timezone` wrote it. */
  lemma ZoneOfLoads(users: map<int, User>, defaultZone: string, id: int, db: ZoneDb)
    requires defaultZone in db.known
    requires forall i :: i in users ==> users[i].zone in db.known
    ensures ZoneOf(users, defaultZone, id) in db.known
  {
  }

  /**
   * What `/set_reminder` decides before it writes: the usage reply when
   * the split gives fewer than four pieces, the parse failure of the date
   * (checked first) or of the time, the refusal of an instant before the
   * current minute, and otherwise the reminder to store.
   */
  function PlanReminder(command: string, zone: string, db: ZoneDb, now: int): (r: Result<Plan, Refusal>)
    ensures r == Err(TooFewArguments) <==> |ReminderArgs(command)| < 4
    ensures r.Ok? <==>
              var args := ReminderArgs(command);
              && |args| == 4
              && ParseDateTime(args[1], args[2]).Ok?
              && !IsPast(Localize(db, zone, ParseDateTime(args[1], args[2]).value), now)
    ensures r.Ok? ==>
              var args := ReminderArgs(command);
              && |args| == 4
              && ParseDateTime(args[1], args[2]) == Ok(r.value.wall)
              && r.value.text == args[3]
              && r.value.dueAt == Localize(db, zone, r.value.wall)
              && now < r.value.dueAt + 60
    ensures r.Err? && r.error.Unparsable? ==>
              var args := ReminderArgs(command);
              |args| == 4 && ParseDateTime(args[1], args[2]) == Err(r.error.field)
    ensures var args := ReminderArgs(command);
            |args| == 4 && ParseDateTime(args[1], args[2]).Err? ==> r.Err? && r.error.Unparsable?
    ensures r == Err(PastDue) <==>
              var args := ReminderArgs(command);
              && |args| == 4
              && ParseDateTime(args[1], args[2]).Ok?
              && IsPast(Localize(db, zone, ParseDateTime(args[1], args[2]).value), now)
    ensures r != Err(MissingText)
  {
    var args := ReminderArgs(command);
    if |args| < 4 then Err(TooFewArguments)
    else match ParseDateTime(args[1], args[2])
      case Err(e) => Err(Unparsable(e))
      case Ok(w) =>
        var t := Localize(db, zone, w);
        PastGuard(t, now);
        if IsPast(t, now) then Err(PastDue)
        else Ok(Plan(w, args[3], t))
  }

  /** A command with a date and a time but no text gets the usage reply:
      the split then gives three pieces. */
  lemma DateAndTimeWithoutTextRefused(ds: string, ts: string, zone: string, db: ZoneDb, now: int)
    requires ' ' !in ds && ' ' !in ts
    ensures PlanReminder("/set_reminder " + ds + " " + ts, zone, db, now) == Err(TooFewArguments)
  {
    assert "/set_reminder " + ds + " " + ts == "/set_reminder" + [' '] + ds + [' '] + ts;
    SplitOfThree("/set_reminder", ds, ts, ' ', 3);
  }

  /** The reply to a refused `/set_reminder`: every refusal is a ValueError
      the handler turns into a reply. */
  function Refused(args: seq<string>, e: Refusal): Response
    requires e.Unparsable? ==> |args| >= 3
  {
    match e
    case TooFewArguments => Reply(ReminderUsage)
    case Unparsable(field) => ParseFailure(args, field)
    case PastDue => Reply(PastText)
    case MissingText => Crash
  }

  /** The join of the scanner's query: a reminder is read only while its
      owner has a user row. */
  function HasOwner(users: map<int, User>): Reminder -> bool
  {
    (r: Reminder) => r.owner in users
  }

  /**
   * The scanner's test: the due instant shown in the owner's zone with
   * its seconds dropped is not after now (already truncated to the
   * minute) shown in the same zone. Aware datetimes compare as instants,
   * so this is a comparison of instants after a local truncation.
   */
  function DueFor(users: map<int, User>, db: ZoneDb, nowMinute: int): (due: Reminder -> bool)
    ensures forall r: Reminder :: due(r) ==> r.owner in users && r.dueAt < nowMinute + 60
    ensures forall r: Reminder :: r.owner in users && r.dueAt <= nowMinute ==> due(r)
  {
    LocalClockBounds(nowMinute);
    (r: Reminder) =>
      && r.owner in users
      && DueByLocalClock(r.dueAt, nowMinute, db.instantOffset(users[r.owner].zone, r.dueAt) * 60)
  }

  function Notice(users: map<int, User>, r: Reminder): Message
    requires r.owner in users
  {
    Message(r.owner, NoticeText(users[r.owner].name, r.text))
  }

  /** The messages sent for `rs`, in order. */
  function Notices(users: map<int, User>, rs: seq<Reminder>): (ms: seq<Message>)
    requires forall r :: r in rs ==> r.owner in users
    ensures |ms| == |rs|
    ensures forall i :: 0 <= i < |rs| ==> ms[i] == Notice(users, rs[i])
  {
    if rs == [] then []
    else Notices(users, rs[..|rs| - 1]) + [Notice(users, rs[|rs| - 1])]
  }

  /** The reminders one pass at `now` sends and deletes: the due ones
      among those with an owner, up to the first failed send. Each of
      them has an owner, is in the table and is due. */
  function Pass(users: map<int, User>, db: ZoneDb, rows: seq<Reminder>, now: int,
                sends: Reminder -> bool): (d: seq<Reminder>)
    ensures forall r :: r in d ==> r in rows && r.owner in users && IsDue(r.dueAt, now) && sends(r)
  {
    ScannerTestIsMinuteDue(users, db, now);
    Delivered(Select(rows, HasOwner(users)), DueFor(users, db, FloorMinute(now)), sends)
  }

  /** Whether one pass at `now` ends at a failed send. */
  predicate Aborts(users: map<int, User>, db: ZoneDb, rows: seq<Reminder>, now: int,
                   sends: Reminder -> bool)
  {
    var cands := Select(rows, HasOwner(users));
    StopAt(cands, DueFor(users, db, FloorMinute(now)), sends) < |cands|
  }

  /** The owner's zone plays no part in due-ness: whole-minute offsets
      commute with truncation to the minute, so the scanner's test is
      "the reminder's minute has begun". */
  lemma DueForIsMinuteDue(users: map<int, User>, db: ZoneDb, now: int, r: Reminder)
    ensures DueFor(users, db, FloorMinute(now))(r) <==> r.owner in users && IsDue(r.dueAt, now)
  {
    if r.owner in users {
      DueIgnoresOffset(r.dueAt, now, db.instantOffset(users[r.owner].zone, r.dueAt) * 60);
    }
  }

  lemma ScannerTestIsMinuteDue(users: map<int, User>, db: ZoneDb, now: int)
    ensures forall r :: DueFor(users, db, FloorMinute(now))(r) ==> IsDue(r.dueAt, now)
  {
    forall r | DueFor(users, db, FloorMinute(now))(r)
      ensures IsDue(r.dueAt, now)
    {
      DueForIsMinuteDue(users, db, now, r);
    }
  }

  /** Changing a user's zone does not change which reminders are due. */
  lemma RezoningKeepsDue(users: map<int, User>, db: ZoneDb, now: int, id: int, tz: string, r: Reminder)
    requires id in users
    ensures DueFor(users[id := users[id].(zone := tz)], db, FloorMinute(now))(r)
            == DueFor(users, db, FloorMinute(now))(r)
  {
    DueForIsMinuteDue(users, db, now, r);
    DueForIsMinuteDue(users[id := users[id].(zone := tz)], db, now, r);
  }

  /** Deleting only what it delivered, a pass leaves every reminder that
      is not due; one that ends at a failed send also leaves the failing
      reminder and every later candidate in the table. */
  lemma AbortLeavesRest(users: map<int, User>, db: ZoneDb, rows: seq<Reminder>,
                        now: int, sends: Reminder -> bool)
    requires Increasing(rows, IdOf)
    ensures var cands := Select(rows, HasOwner(users));
            var k := StopAt(cands, DueFor(users, db, FloorMinute(now)), sends);
            forall j :: k <= j < |cands| ==> cands[j] in Without(rows, Pass(users, db, rows, now, sends))
    ensures forall r :: r in rows && !IsDue(r.dueAt, now) ==> r in Without(rows, Pass(users, db, rows, now, sends))
  {
    var cands := Select(rows, HasOwner(users));
    var due := DueFor(users, db, FloorMinute(now));
    SelectIncreasing(rows, HasOwner(users), IdOf);
    IncreasingDistinct(cands, IdOf);
    AbortKeepsRest(cands, due, sends);
  }

  /**
   * At least once: the reminder whose send failed is still in the table
   * with its owner, and it is due at every later instant, so any later
   * pass offers it again (the scanner's task itself ends with the
   * exception; a restarted process runs the next pass).
   */
  lemma FailedReminderStaysDue(users: map<int, User>, db: ZoneDb, rows: seq<Reminder>,
                               now: int, later: int, sends: Reminder -> bool)
    requires Increasing(rows, IdOf)
    requires now <= later
    requires Aborts(users, db, rows, now, sends)
    ensures var cands := Select(rows, HasOwner(users));
            var c := cands[StopAt(cands, DueFor(users, db, FloorMinute(now)), sends)];
            var left := Without(rows, Pass(users, db, rows, now, sends));
            && c in Select(left, HasOwner(users))
            && DueFor(users, db, FloorMinute(later))(c)
  {
    var cands := Select(rows, HasOwner(users));
    var k := StopAt(cands, DueFor(users, db, FloorMinute(now)), sends);
    var c := cands[k];
    AbortLeavesRest(users, db, rows, now, sends);
    assert c in cands;
    DueForIsMinuteDue(users, db, now, c);
    DueStaysDue(c.dueAt, now, later);
    DueForIsMinuteDue(users, db, later, c);
  }

  /**
   * At most once per minute: after a pass that ran to the end, a second
   * pass in the same minute over the table it left sends nothing,
   * whatever its sends do.
   */
  lemma SecondPassSendsNothing(users: map<int, User>, db: ZoneDb, rows: seq<Reminder>,
                               now: int, sends: Reminder -> bool, sends2: Reminder -> bool)
    requires !Aborts(users, db, rows, now, sends)
    ensures Pass(users, db, Without(rows, Pass(users, db, rows, now, sends)), now, sends2) == []
  {
    var cands := Select(rows, HasOwner(users));
    var due := DueFor(users, db, FloorMinute(now));
    var left := Without(rows, Pass(users, db, rows, now, sends));
    CompletePassLeavesNoDue(rows, cands, due, sends);
    var cands2 := Select(left, HasOwner(users));
    var k := StopAt(cands2, due, sends2);
    forall x | x in cands2[..k] ensures !due(x) {
      assert x in cands2;
      assert x in left && x in cands;
    }
    SelectNothing(cands2[..k], due);
  }

  /** The two tables and the reminder id counter. */
  class Store {
    const zones: ZoneDb
    const defaultZone: string
    var users: map<int, User>
    var reminders: seq<Reminder>
    var nextId: int

    /** Every stored zone can be loaded, reminder ids grow in table order
        and stay below the counter, and every due instant is a whole
        minute. */
    ghost predicate Valid()
      reads this
    {
      && defaultZone in zones.known
      && (forall id :: id in users ==> users[id].zone in zones.known)
      && Increasing(reminders, IdOf)
      && (forall r :: r in reminders ==> r.id < nextId && r.dueAt % 60 == 0)
    }

    constructor (zones: ZoneDb, defaultZone: string)
      requires defaultZone in zones.known
      ensures Valid()
      ensures this.zones == zones && this.defaultZone == defaultZone
      ensures users == map[] && reminders == [] && nextId == 1
    {
      this.zones := zones;
      this.defaultZone := defaultZone;
      users := map[];
      reminders := [];
      nextId := 1;
    }

    /** `/start`: greet by first name and create the user with the default
        zone unless a row exists, which is left as it is. */
    method Start(from: Sender) returns (reply: Response)
      requires Valid()
      modifies this
      ensures Valid()
      ensures reply == Reply(Greeting(from.firstName))
      ensures from.id in old(users) ==> users == old(users)
      ensures from.id !in old(users) ==>
                users == old(users)[from.id := User(from.firstName, defaultZone)]
      ensures reminders == old(reminders) && nextId == old(nextId)
    {
      if from.id !in users {
        users := users[from.id := User(from.firstName, defaultZone)];
      }
      reply := Reply(Greeting(from.firstName));
    }

    /**
     * `/set_timezone <zone>`: a missing argument or an unknown zone is
     * answered and changes nothing; otherwise an existing user gets the
     * zone and a new user is created with the Telegram username, which
     * the table does not accept when it is absent: the insert raises
     * and the handler ends without a reply or a write.
     */
    method SetTimezone(from: Sender, command: string) returns (reply: Response)
      requires Valid()
      modifies this
      ensures Valid()
      ensures reminders == old(reminders) && nextId == old(nextId)
      ensures var args := TimezoneArgs(command);
              if |args| < 2 then reply == Reply(TimezoneUsage) && users == old(users)
              else if !IsKnownZone(zones, args[1]) then reply == Reply(UnknownZone) && users == old(users)
              else if from.id in old(users) then
                && reply == Reply(ZoneSet(args[1]))
                && users == old(users)[from.id := old(users)[from.id].(zone := args[1])]
              else if from.username.None? then reply == Crash && users == old(users)
              else
                && reply == Reply(ZoneSet(args[1]))
                && users == old(users)[from.id := User(from.username.value, args[1])]
    {
      var args := TimezoneArgs(command);
      if |args| < 2 {
        return Reply(TimezoneUsage);
      }
      var tz := args[1];
      if !IsKnownZone(zones, tz) {
        return Reply(UnknownZone);
      }
      if from.id in users {
        users := users[from.id := users[from.id].(zone := tz)];
      } else if from.username.None? {
        return Crash;
      } else {
        users := users[from.id := User(from.username.value, tz)];
      }
      reply := Reply(ZoneSet(tz));
    }

    /**
     * `/set_reminder <date> <time> <text>`: the wall time is read in the
     * user's zone (the default when the user has no row) and stored as a
     * UTC instant with a fresh id; every refusal is answered and writes
     * nothing.
     */
    method SetReminder(from: Sender, command: string, now: int) returns (reply: Response)
      requires Valid()
      modifies this
      ensures Valid()
      ensures users == old(users)
      ensures var zone := ZoneOf(old(users), defaultZone, from.id);
              match PlanReminder(command, zone, zones, now)
              case Ok(p) =>
                && reminders == old(reminders) + [Reminder(old(nextId), from.id, p.text, p.dueAt)]
                && nextId == old(nextId) + 1
                && reply == Reply(ConfirmationText(p.wall, zone, p.text))
              case Err(e) =>
                && reminders == old(reminders)
                && nextId == old(nextId)
                && reply == Refused(ReminderArgs(command), e)
    {
      var zone := ZoneOf(users, defaultZone, from.id);
      var plan := PlanReminder(command, zone, zones, now);
      match plan
      case Ok(p) =>
        var r := Reminder(nextId, from.id, p.text, p.dueAt);
        IncreasingSnoc(reminders, r, IdOf);
        reminders := reminders + [r];
        nextId := nextId + 1;
        reply := Reply(ConfirmationText(p.wall, zone, p.text));
      case Err(e) =>
        reply := Refused(ReminderArgs(command), e);
    }

    /**
     * One pass of `check_reminders` at instant `now`; `sends(r)` says
     * whether sending `r`'s notice succeeds. The pass walks the reminders
     * that have an owner in table order, sends each due one and deletes
     * it; the first failed send ends the pass (`aborted`).
     */
    method ScanOnce(now: int, sends: Reminder -> bool) returns (outbox: seq<Message>, aborted: bool)
      requires Valid()
      modifies this
      ensures Valid()
      ensures users == old(users) && nextId == old(nextId)
      ensures reminders == Without(old(reminders), Pass(users, zones, old(reminders), now, sends))
      ensures outbox == Notices(users, Pass(users, zones, old(reminders), now, sends))
      ensures aborted == Aborts(users, zones, old(reminders), now, sends)
    {
      var u := users;
      var cands := Select(reminders, HasOwner(u));
      ghost var rows := reminders;
      outbox, aborted := SendDue(cands, DueFor(u, zones, FloorMinute(now)), sends, u);
      assert Valid() by {
        WithoutIncreasing(rows, Pass(u, zones, rows, now, sends), IdOf);
      }
    }

    /** The loop of the pass over `cands`: each due candidate is sent,
        then deleted from the table; a failed send ends the loop. The
        notices go out in the order of `sent`. */
    method SendDue(cands: seq<Reminder>, due: Reminder -> bool, sends: Reminder -> bool,
                   u: map<int, User>) returns (outbox: seq<Message>, aborted: bool)
      requires forall r :: r in cands ==> r.owner in u
      modifies this`reminders
      ensures reminders == Without(old(reminders), Delivered(cands, due, sends))
      ensures outbox == Notices(u, Delivered(cands, due, sends))
      ensures aborted == (StopAt(cands, due, sends) < |cands|)
    {
      ghost var rows := reminders;
      ghost var k := StopAt(cands, due, sends);
      var sent: seq<Reminder> := [];
      aborted := false;
      WithoutNothing(rows);
      var i := 0;
      while i < |cands|
        invariant 0 <= i <= k
        invariant sent == Select(cands[..i], due)
        invariant reminders == Without(rows, sent)
      {
        var c := cands[i];
        if due(c) {
          if !sends(c) {
            aborted := true;
            break;
          }
          reminders := Without(reminders, [c]);
          assert reminders == Without(rows, sent + [c]) by {
            WithoutTwice(rows, sent, [c]);
          }
          sent := sent + [c];
        }
        assert sent == Select(cands[..i + 1], due) by {
          SelectStep(cands, i, due);
        }
        PassesOver(cands, due, sends, i);
        i := i + 1;
      }
      assert sent == Delivered(cands, due, sends) by {
        assert i == k;
      }
      outbox := Notices(u, sent);
    }
  }
}
