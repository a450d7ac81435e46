/** internal/store/session_store.go: login sessions, keyed by a random token.

    A token is 32 bytes from the system's random source, written as 64
    lowercase hexadecimal characters. The random bytes and the current
    instant are parameters. Instants are whole seconds on one clock. */
module SessionStore {
  import opened Common
  import opened Text
  import opened Digits
  import opened Utils

  type Byte = b: int | 0 <= b < 256

  /** The bytes `crypto/rand.Read` fills a token with. */
  type Entropy = s: seq<Byte> | |s| == 32 witness seq(32, _ => 0)

  /** A point in time, in seconds. */
  type Instant = int

  predicate IsLowerHex(c: char) {
    '0' <= c <= '9' || 'a' <= c <= 'f'
  }

  /** The lowercase digit for a nibble. */
  function HexDigit(v: nat): (c: char)
    requires v < 16
    ensures IsLowerHex(c)
  {
    if v < 10 then ('0' as int + v) as char else ('a' as int + v - 10) as char
  }

  /** `hex.EncodeToString`: two lowercase digits per byte, high nibble first. */
  function HexEncode(bytes: seq<Byte>): (s: string)
    ensures |s| == 2 * |bytes|
    ensures forall i :: 0 <= i < |s| ==> IsLowerHex(s[i])
  {
    if bytes == [] then []
    else [HexDigit(bytes[0] / 16), HexDigit(bytes[0] % 16)] + HexEncode(bytes[1..])
  }

  /** The value of one hexadecimal digit in either case, as `hex.DecodeString`
      reads it. */
  function HexValue(c: char): (r: Option<nat>)
    ensures r.Some? ==> r.value < 16
  {
    if '0' <= c <= '9' then Some(c as int - '0' as int)
    else if 'a' <= c <= 'f' then Some(c as int - 'a' as int + 10)
    else if 'A' <= c <= 'F' then Some(c as int - 'A' as int + 10)
    else None
  }

  /** `hex.DecodeString`: fails on an odd length or a non-hexadecimal
      character. */
  function HexDecode(s: string): (r: Option<seq<Byte>>)
    ensures r.Some? ==> |s| == 2 * |r.value|
    decreases |s|
  {
    if s == [] then Some([])
    else if |s| == 1 then None
    else
      var hi :- HexValue(s[0]);
      var lo :- HexValue(s[1]);
      var rest :- HexDecode(s[2..]);
      Some([hi * 16 + lo] + rest)
  }

  /** A token decodes back to the bytes it was made from. */
  lemma {:induction false} HexRoundTrip(bytes: seq<Byte>)
    ensures HexDecode(HexEncode(bytes)) == Some(bytes)
  {
    if bytes != [] {
      var b := bytes[0];
      var s := HexEncode(bytes);
      assert HexValue(s[0]) == Some(b / 16);
      assert HexValue(s[1]) == Some(b % 16);
      assert s[2..] == HexEncode(bytes[1..]);
      HexRoundTrip(bytes[1..]);
      assert bytes == [b] + bytes[1..];
    }
  }

  /** `generateToken`: fails when the random source does; otherwise 64
      lowercase hexadecimal characters that encode the 32 random bytes. */
  function GenerateToken(random: Option<Entropy>): (r: Option<string>)
    ensures r.Some? <==> random.Some?
    ensures r.Some? ==> |r.value| == 64 && HexDecode(r.value) == Some(random.value)
    ensures r.Some? ==> forall i :: 0 <= i < |r.value| ==> IsLowerHex(r.value[i])
  {
    match random
    case None => None
    case Some(bytes) =>
      HexRoundTrip(bytes);
      Some(HexEncode(bytes))
  }

  /** The `store.Session` struct. */
  datatype Session = Session(token: string, userId: int, expiresAt: Instant)

  /** A row of `sessions`, keyed by its token. */
  datatype SessionRow = SessionRow(userId: int, expiresAt: Instant)

  datatype SessionError = NoEntropy | Db(cause: DbError)

  /** A session is live strictly before its expiry instant. */
  predicate Live(expiresAt: Instant, now: Instant) {
    now < expiresAt
  }

  /** The rows of `sessions` behind `Sqlite3SessionStore`. */
  class SessionTable {
    var rows: map<string, SessionRow>

    constructor ()
      ensures rows == map[]
    {
      rows := map[];
    }

    /** `GetSession` with the expiry compared as instants: the session when
        its token is stored and it has not expired, `Ok(None)` otherwise. */
    function GetSession(token: string, now: Instant, fault: bool): (r: Result<Option<Session>, DbError>)
      reads this
      ensures fault <==> r.Err?
      ensures r.Ok? ==> (r.value.Some? <==> token in rows && Live(rows[token].expiresAt, now))
      ensures r.Ok? && r.value.Some? ==>
        r.value.value.token == token && SessionRow(r.value.value.userId, r.value.value.expiresAt) == rows[token]
    {
      if fault then Err(Faulted)
      else if token in rows && now < rows[token].expiresAt then
        Ok(Some(Session(token, rows[token].userId, rows[token].expiresAt)))
      else Ok(None)
    }

    /** `CreateSession`: a fresh token for `userId` that expires `expiresIn`
        after `now`, stored and returned; reading it back before then finds
        it. The token is the table's key, so a token already in use fails. */
    method CreateSession(userId: int, expiresIn: int, now: Instant, random: Option<Entropy>, fault: bool)
      returns (r: Result<Session, SessionError>)
      modifies this
      ensures random.None? ==> r == Err(NoEntropy)
      ensures random.Some? && fault ==> r == Err(Db(Faulted))
      ensures r.Err? ==> rows == old(rows)
      ensures random.Some? && !fault && GenerateToken(random).value in old(rows) ==> r == Err(Db(UniqueViolation))
      ensures random.Some? && !fault && GenerateToken(random).value !in old(rows) ==>
        && r == Ok(Session(GenerateToken(random).value, userId, now + expiresIn))
        && rows == old(rows)[GenerateToken(random).value := SessionRow(userId, now + expiresIn)]
      ensures r.Ok? ==> forall t :: now <= t < now + expiresIn ==> GetSession(r.value.token, t, false) == Ok(Some(r.value))
      ensures r.Ok? ==> GetSession(r.value.token, now + expiresIn, false) == Ok(None)
    {
      var token := GenerateToken(random);
      if token.None? {
        return Err(NoEntropy);
      }
      var expiresAt := now + expiresIn;
      if fault {
        return Err(Db(Faulted));
      }
      if token.value in rows {
        return Err(Db(UniqueViolation));
      }
      rows := rows[token.value := SessionRow(userId, expiresAt)];
      r := Ok(Session(token.value, userId, expiresAt));
    }

    /** `DeleteSession`: the token no longer finds a session; every other
        token finds what it found before. Deleting a missing token succeeds. */
    method DeleteSession(token: string, fault: bool) returns (r: Outcome<DbError>)
      modifies this
      ensures fault <==> r.Fail?
      ensures fault ==> rows == old(rows)
      ensures !fault ==> rows == old(rows) - {token}
      ensures !fault ==> forall now :: GetSession(token, now, false) == Ok(None)
      ensures forall t, now :: t != token ==> GetSession(t, now, false) == old(GetSession(t, now, false))
    {
      if fault {
        return Fail(Faulted);
      }
      rows := rows - {token};
      r := Pass;
    }

    /** `DeleteUserSessions`: no token finds a session of `userId` any more;
        every other user's sessions stay. */
    method DeleteUserSessions(userId: int, fault: bool) returns (r: Outcome<DbError>)
      modifies this
      ensures fault <==> r.Fail?
      ensures fault ==> rows == old(rows)
      ensures !fault ==> rows == map t | t in old(rows) && old(rows)[t].userId != userId :: old(rows)[t]
      ensures !fault ==> forall t, now ::
        GetSession(t, now, false) == if old(GetSession(t, now, false)) == Ok(None) || old(GetSession(t, now, false)).value.value.userId == userId
                                     then Ok(None) else old(GetSession(t, now, false))
    {
      if fault {
        return Fail(Faulted);
      }
      rows := map t | t in rows && rows[t].userId != userId :: rows[t];
      r := Pass;
    }
  }

  // ------------------------------------------- the expiry test as written

  datatype TimeOfDay = TimeOfDay(hour: nat, minute: nat, second: nat)

  function SecondsOf(t: TimeOfDay): nat {
    3600 * t.hour + 60 * t.minute + t.second
  }

  function DayText(d: Date): string {
    PadInt(d.year, 4) + "-" + PadInt(d.month, 2) + "-" + PadInt(d.day, 2)
  }

  function ClockText(t: TimeOfDay): string {
    PadInt(t.hour, 2) + ":" + PadInt(t.minute, 2) + ":" + PadInt(t.second, 2)
  }

  /** `expiresAt.Format(time.RFC3339)` for a UTC instant: what `CreateSession`
      stores in `expires_at`. */
  function Rfc3339Utc(d: Date, t: TimeOfDay): (r: string)
    ensures |r| > |DayText(d)| && r[..|DayText(d)|] == DayText(d)
    ensures r[|DayText(d)|] == 'T' && r[|r| - 1] == 'Z'
  {
    DayText(d) + ("T" + ClockText(t) + "Z")
  }

  /** SQLite's `datetime('now')`. */
  function SqliteDateTime(d: Date, t: TimeOfDay): (r: string)
    ensures |r| > |DayText(d)| && r[..|DayText(d)|] == DayText(d)
    ensures r[|DayText(d)|] == ' '
  {
    DayText(d) + (" " + ClockText(t))
  }

  /** `expires_at > datetime('now')` as written: a comparison of the two texts.
      When both start with the same ten-character date, the stored text wins
      at its `T`, whatever the times after it say. */
  function LiveAsWritten(storedExpiry: string, sqliteNow: string): (live: bool)
    ensures && |storedExpiry| > 10 && |sqliteNow| > 10
            && storedExpiry[..10] == sqliteNow[..10]
            && storedExpiry[10] == 'T' && sqliteNow[10] == ' '
            ==> live
  {
    if |storedExpiry| > 10 && |sqliteNow| > 10 && storedExpiry[..10] == sqliteNow[..10] then
      assert storedExpiry == storedExpiry[..10] + storedExpiry[10..];
      assert sqliteNow == sqliteNow[..10] + sqliteNow[10..];
      LessEqConcat(storedExpiry[..10], sqliteNow[..10], storedExpiry[10..], sqliteNow[10..]);
      !LessEq(storedExpiry, sqliteNow)
    else
      !LessEq(storedExpiry, sqliteNow)
  }

  /** The discrepancy: a session that expired earlier on the same UTC day is
      still found by the text comparison, while by instants it has expired. */
  lemma ExpiredSameDayStillLive(d: Date, expiry: TimeOfDay, now: TimeOfDay, dayStart: Instant)
    requires ValidDate(d) && expiry.hour < 24 && expiry.minute < 60 && expiry.second < 60
    requires SecondsOf(expiry) < SecondsOf(now)
    ensures LiveAsWritten(Rfc3339Utc(d, expiry), SqliteDateTime(d, now))
    ensures !Live(dayStart + SecondsOf(expiry), dayStart + SecondsOf(now))
  {
    var day := DayText(d);
    PadIntFixed(d.year, 4);
    PadIntFixed(d.month, 2);
    PadIntFixed(d.day, 2);
    assert |day| == 10;
    assert Rfc3339Utc(d, expiry)[..10] == day && SqliteDateTime(d, now)[..10] == day;
    assert Rfc3339Utc(d, expiry)[10] == 'T' && SqliteDateTime(d, now)[10] == ' ';
  }
}
