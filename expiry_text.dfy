/**
 * How server.js compares session expiries as written. `/api/auth` stores
 * `expires_at` as `Date.prototype.toISOString()` text ("YYYY-MM-DDTHH:MM:SS.mmmZ"),
 * while `authenticate`, `/api/session/validate` and the startup purge compare
 * it, as text, with `datetime('now')` ("YYYY-MM-DD HH:MM:SS"). The two formats
 * part at the eleventh character, 'T' against ' ', so on the expiry's own
 * calendar day the comparison is decided by that character and not by the
 * time. The rest of the model compares instants (Sessions.IsLive).
 */
module ExpiryText {
  import opened Text

  /** A UTC calendar instant with millisecond precision. */
  datatype DateTime = DateTime(year: int, month: int, day: int, hour: int, minute: int, second: int, millis: int)

  predicate WellFormed(d: DateTime) {
    && 0 <= d.year <= 9999 && 1 <= d.month <= 12 && 1 <= d.day <= 31
    && 0 <= d.hour <= 23 && 0 <= d.minute <= 59 && 0 <= d.second <= 59 && 0 <= d.millis <= 999
  }

  /** `a` is strictly earlier than `b`. */
  predicate Before(a: DateTime, b: DateTime) {
    if a.year != b.year then a.year < b.year
    else if a.month != b.month then a.month < b.month
    else if a.day != b.day then a.day < b.day
    else if a.hour != b.hour then a.hour < b.hour
    else if a.minute != b.minute then a.minute < b.minute
    else if a.second != b.second then a.second < b.second
    else a.millis < b.millis
  }

  /** The last `width` decimal digits of `n`, zero-padded. */
  function Digits(n: nat, width: nat): (s: string)
    ensures |s| == width
    ensures forall k :: 0 <= k < |s| ==> '0' <= s[k] <= '9'
  {
    if width == 0 then [] else Digits(n / 10, width - 1) + [('0' as int + n % 10) as char]
  }

  function DatePart(d: DateTime): (s: string)
    requires WellFormed(d)
    ensures |s| == 10
  {
    Digits(d.year, 4) + "-" + Digits(d.month, 2) + "-" + Digits(d.day, 2)
  }

  function ClockPart(d: DateTime): (s: string)
    requires WellFormed(d)
    ensures |s| == 8
  {
    Digits(d.hour, 2) + ":" + Digits(d.minute, 2) + ":" + Digits(d.second, 2)
  }

  /** `toISOString()`: the text `/api/auth` stores in `expires_at`. */
  function IsoText(d: DateTime): (s: string)
    requires WellFormed(d)
    ensures |s| == 24 && s[..10] == DatePart(d) && s[10] == 'T'
  {
    DatePart(d) + "T" + ClockPart(d) + "." + Digits(d.millis, 3) + "Z"
  }

  /** `datetime('now')`. */
  function SqlText(d: DateTime): (s: string)
    requires WellFormed(d)
    ensures |s| == 19 && s[..10] == DatePart(d) && s[10] == ' '
  {
    DatePart(d) + " " + ClockPart(d)
  }

  /** As written: the stored expiry text sorts after the current time's text (BINARY collation). */
  predicate LiveAsWritten(expiry: DateTime, now: DateTime)
    requires WellFormed(expiry) && WellFormed(now)
  {
    StrLt(SqlText(now), IsoText(expiry))
  }

  /** As written, the startup purge deletes a row whose expiry text sorts at or before the current time's text. */
  predicate PurgedAsWritten(expiry: DateTime, now: DateTime)
    requires WellFormed(expiry) && WellFormed(now)
  {
    StrLe(IsoText(expiry), SqlText(now))
  }

  /** As intended: the session is live while `now` is before its expiry. */
  predicate LiveAsIntended(expiry: DateTime, now: DateTime) {
    Before(now, expiry)
  }

  /**
   * On the calendar day of its expiry a session is accepted as written at
   * every time of day, before or after the expiry, and the purge keeps it.
   */
  lemma SameDayLiveAsWritten(expiry: DateTime, now: DateTime)
    requires WellFormed(expiry) && WellFormed(now)
    requires expiry.year == now.year && expiry.month == now.month && expiry.day == now.day
    ensures LiveAsWritten(expiry, now)
    ensures !PurgedAsWritten(expiry, now)
  {
    var p := DatePart(now);
    var iso := IsoText(expiry);
    var sql := SqlText(now);
    assert DatePart(expiry) == p;
    assert iso == p + iso[10..] && sql == p + sql[10..];
    StrLeCommonPrefix(p, sql[10..], iso[10..]);
    assert StrLe(sql[10..], iso[10..]) by {
      assert sql[10..][0] == ' ' && iso[10..][0] == 'T';
    }
    assert sql[10] != iso[10];
    if StrLe(iso, sql) {
      StrLeAntisymmetric(iso, sql);
    }
  }

  /** The intended test rejects a session once its expiry has passed. */
  lemma IntendedRejectsExpired(expiry: DateTime, now: DateTime)
    requires Before(expiry, now)
    ensures !LiveAsIntended(expiry, now)
  {
  }

  /**
   * A session that expired at 10:00 UTC on 14 March 2027 is still accepted,
   * and survives the startup purge, at 23:59 that day.
   */
  lemma ExpiredSessionAcceptedAsWritten()
    ensures var expiry := DateTime(2027, 3, 14, 10, 0, 0, 0);
      var now := DateTime(2027, 3, 14, 23, 59, 0, 0);
      && Before(expiry, now) && !LiveAsIntended(expiry, now)
      && LiveAsWritten(expiry, now) && !PurgedAsWritten(expiry, now)
  {
    SameDayLiveAsWritten(DateTime(2027, 3, 14, 10, 0, 0, 0), DateTime(2027, 3, 14, 23, 59, 0, 0));
  }
}
