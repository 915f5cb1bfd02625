/**
 * Time zones and instants. Instants are whole seconds since
 * 0001-01-01 00:00 UTC; sub-second parts are dropped (every comparison the
 * bot makes is against a whole-minute instant, so they never matter).
 *
 * The IANA database behind pytz is not modelled: a ZoneDb says which
 * identifiers exist and, as uninterpreted functions, the offset (whole
 * minutes, as pytz rounds them) that `localize` picks for a wall-clock
 * minute and the offset `astimezone` uses at an instant.
 */
module Zones {
  import opened Calendar

  datatype ZoneDb = ZoneDb(
    known: set<string>,
    wallOffset: (string, int) -> int,
    instantOffset: (string, int) -> int)

  /** `validate_timezone(tz)` returns normally (otherwise: ValueError). */
  predicate IsKnownZone(db: ZoneDb, tz: string)
  {
    tz in db.known
  }

  /** `pytz.timezone(zone).localize(w).astimezone(pytz.utc)`. */
  function Localize(db: ZoneDb, zone: string, w: Wall): (t: int)
    requires ValidWall(w)
    ensures t % 60 == 0
  {
    (WallMinutes(w) - db.wallOffset(zone, WallMinutes(w))) * 60
  }

  /** The zone's wall clock at instant `t`, in seconds since its own
      0001-01-01 00:00: `t.astimezone(zone)` read as a naive value. */
  function LocalSeconds(db: ZoneDb, zone: string, t: int): int
  {
    t + db.instantOffset(zone, t) * 60
  }

  /** Read back in the same zone, the instant shows the wall-clock minute
      it was made from, whenever the database gives the instant the offset
      it gave the wall time (everywhere except in a DST gap). */
  lemma LocalizeRoundTrip(db: ZoneDb, zone: string, w: Wall)
    requires ValidWall(w)
    requires db.instantOffset(zone, Localize(db, zone, w)) == db.wallOffset(zone, WallMinutes(w))
    ensures LocalSeconds(db, zone, Localize(db, zone, w)) == WallMinutes(w) * 60
  {
  }

  /** `.replace(second=0, microsecond=0)` */
  function FloorMinute(t: int): (r: int)
    ensures r % 60 == 0 && r <= t < r + 60
  {
    t - t % 60
  }

  lemma FloorUnique(t: int, r: int)
    requires r % 60 == 0 && r <= t < r + 60
    ensures FloorMinute(t) == r
  {
    var f := FloorMinute(t);
    assert r == 60 * (r / 60) && f == 60 * (f / 60);
    assert r / 60 == f / 60;
  }

  lemma FloorMonotone(a: int, b: int)
    requires a <= b
    ensures FloorMinute(a) <= FloorMinute(b)
  {
    var fa, fb := FloorMinute(a), FloorMinute(b);
    assert fa == 60 * (fa / 60) && fb == 60 * (fb / 60);
  }

  /** Shifting by whole minutes commutes with truncation. */
  lemma FloorShift(t: int, shift: int)
    requires shift % 60 == 0
    ensures FloorMinute(t + shift) == FloorMinute(t) + shift
  {
    var f := FloorMinute(t);
    assert (f + shift) % 60 == 0 by {
      assert f == 60 * (f / 60) && shift == 60 * (shift / 60);
      assert f + shift == 60 * (f / 60 + shift / 60);
    }
    FloorUnique(t + shift, f + shift);
  }

  /** The guard of `set_reminder`: the instant is strictly before the
      current minute (now with seconds and microseconds dropped). */
  predicate IsPast(t: int, now: int)
    ensures IsPast(t, now) ==> t < now
    ensures t + 60 <= now ==> IsPast(t, now)
  {
    t < FloorMinute(now)
  }

  /** A whole-minute instant is refused exactly when its minute is over:
      the current minute itself is still accepted. */
  lemma PastGuard(t: int, now: int)
    requires t % 60 == 0
    ensures !IsPast(t, now) <==> now < t + 60
  {
    var f := FloorMinute(now);
    assert t == 60 * (t / 60) && f == 60 * (f / 60);
  }

  /** Minute-level due-ness: the reminder's minute has begun. */
  predicate IsDue(dueAt: int, now: int)
  {
    FloorMinute(dueAt) <= FloorMinute(now)
  }

  /** Due-ness as the scanner with a users table computes it: the due
      instant seen in the owner's zone (offset `offsetSeconds` there),
      seconds dropped, compared as an aware datetime, that is as an
      instant, with now truncated to the minute. */
  predicate DueByLocalClock(dueAt: int, nowMinute: int, offsetSeconds: int)
    ensures dueAt <= nowMinute ==> DueByLocalClock(dueAt, nowMinute, offsetSeconds)
    ensures DueByLocalClock(dueAt, nowMinute, offsetSeconds) ==> dueAt < nowMinute + 60
  {
    FloorMinute(dueAt + offsetSeconds) - offsetSeconds <= nowMinute
  }

  /** The bounds of DueByLocalClock, for every instant and offset. */
  lemma LocalClockBounds(nowMinute: int)
    ensures forall d, o :: d <= nowMinute ==> DueByLocalClock(d, nowMinute, o)
    ensures forall d, o :: DueByLocalClock(d, nowMinute, o) ==> d < nowMinute + 60
  {
  }

  /** The owner's zone does not matter: when the offset or the due instant
      is a whole number of minutes, the local-clock check is the
      minute-level one. */
  lemma DueIgnoresOffset(dueAt: int, now: int, offsetSeconds: int)
    requires offsetSeconds % 60 == 0 || dueAt % 60 == 0
    ensures DueByLocalClock(dueAt, FloorMinute(now), offsetSeconds) <==> IsDue(dueAt, now)
  {
    var n := FloorMinute(now);
    if offsetSeconds % 60 == 0 {
      FloorShift(dueAt, offsetSeconds);
    } else {
      FloorShift(offsetSeconds, dueAt);
      FloorUnique(dueAt, dueAt);
      var x := FloorMinute(dueAt + offsetSeconds) - offsetSeconds;
      assert dueAt - 60 < x <= dueAt;
      assert dueAt == 60 * (dueAt / 60) && n == 60 * (n / 60);
    }
  }

  /** Plain comparison with now, as the single-table scanner's query does,
      agrees with minute-level due-ness for whole-minute instants. */
  lemma WholeMinuteDue(dueAt: int, now: int)
    requires dueAt % 60 == 0
    ensures dueAt <= now <==> IsDue(dueAt, now)
  {
    FloorUnique(dueAt, dueAt);
    var n := FloorMinute(now);
    assert dueAt == 60 * (dueAt / 60) && n == 60 * (n / 60);
  }

  /** What `<= now` with an untruncated now selects: only due instants,
      and every due instant that is a whole minute. */
  lemma ComparisonWithNow(now: int)
    ensures forall t :: t <= now ==> IsDue(t, now)
    ensures forall t :: t % 60 == 0 && IsDue(t, now) ==> t <= now
  {
    forall t | t <= now
      ensures IsDue(t, now)
    {
      FloorMonotone(t, now);
    }
    forall t | t % 60 == 0 && IsDue(t, now)
      ensures t <= now
    {
      WholeMinuteDue(t, now);
    }
  }

  /** Once due, always due: a reminder left in place stays due later on. */
  lemma DueStaysDue(dueAt: int, now: int, later: int)
    requires IsDue(dueAt, now) && now <= later
    ensures IsDue(dueAt, later)
  {
    FloorMonotone(now, later);
  }
}
