/**
 * The back end's per-day attempt counter. The state file holds
 * `{"date": <ISO day>, "used": <int>}`; a read starts the day over when the
 * file is missing, unreadable, not an object, or from another day. Recording
 * an attempt adds one without any cap; the limit only shapes `remaining`.
 * The file, the lock and the clock are outside the model: the loaded JSON and
 * today's date are inputs, and the state that would be written is an output.
 */
module DailyAttempts {
  import opened Wrappers
  import opened JsonValue

  const DefaultDailyAttemptLimit := 10

  datatype AttemptState = AttemptState(date: string, used: int)

  datatype DailyAttemptStats = DailyAttemptStats(date: string, used: int, limit: int, remaining: int)

  /** What a call reports, and the document it writes back to the file. */
  datatype Outcome = Outcome(stats: DailyAttemptStats, written: Stored)

  /** `isinstance(v, int)` holds for Python booleans too; the number is what `int(v)` gives. */
  function PyIntValue(v: Json): Option<int> {
    match v
    case JInt(i) => Some(i)
    case JBool(b) => Some(if b then 1 else 0)
    case _ => None
  }

  /** A stored `used` value `_read_state` keeps: a non-negative Python int. */
  predicate Accepted(v: Json) {
    PyIntValue(v).Some? && PyIntValue(v).value >= 0
  }

  /** The JSON document `_write_state` stores for a state. */
  function Encode(s: AttemptState): Stored {
    Parsed(JObj(map["date" := JStr(s.date), "used" := JInt(s.used)]))
  }

  /** The state stored for `today`, if the stored date is today's. */
  predicate StoredForDay(stored: Stored, today: string) {
    && stored.Parsed? && stored.value.JObj?
    && "date" in stored.value.fields && stored.value.fields["date"] == JStr(today)
  }

  /** `_read_state`: the day's state, starting over on a new day or bad data. */
  function ReadState(stored: Stored, today: string): (s: AttemptState)
    ensures s.date == today
    ensures s.used >= 0
    ensures !StoredForDay(stored, today) ==> s.used == 0
    ensures StoredForDay(stored, today) && "used" !in stored.value.fields ==> s.used == 0
    ensures StoredForDay(stored, today) && "used" in stored.value.fields ==>
      var v := PyIntValue(stored.value.fields["used"]);
      s.used == (if v.Some? && v.value >= 0 then v.value else 0)
  {
    match stored
    case Missing => AttemptState(today, 0)
    case Unparsable => AttemptState(today, 0)
    case Parsed(data) =>
      if !data.JObj? then AttemptState(today, 0)
      else
        var storedDate := Get(data.fields, "date");
        var used := Get(data.fields, "used").GetOr(JInt(0));
        if !(storedDate.Some? && storedDate.value.JStr?) || storedDate.value.s != today then
          AttemptState(today, 0)
        else
          match PyIntValue(used)
          case None => AttemptState(today, 0)
          case Some(n) => if n < 0 then AttemptState(today, 0) else AttemptState(today, n)
  }

  /**
   * The `used` value `_read_state` keeps: the stored JSON value itself when it
   * is a non-negative Python int (a boolean included), otherwise `0`.
   */
  function KeptUsed(stored: Stored, today: string): (v: Json)
    ensures PyIntValue(v) == Some(ReadState(stored, today).used)
    ensures StoredForDay(stored, today) && "used" in stored.value.fields && Accepted(stored.value.fields["used"]) ==>
      v == stored.value.fields["used"]
  {
    if StoredForDay(stored, today) && "used" in stored.value.fields then
      var used := stored.value.fields["used"];
      match PyIntValue(used)
      case Some(n) => if n < 0 then JInt(0) else used
      case None => JInt(0)
    else JInt(0)
  }

  /** `_format_stats`: what is left is the limit minus what was used, never below zero. */
  function FormatStats(state: AttemptState, limit: int): (r: DailyAttemptStats)
    ensures r.date == state.date && r.used == state.used && r.limit == limit
    ensures r.remaining >= 0
    ensures state.used <= limit ==> r.remaining == limit - state.used
    ensures state.used >= limit ==> r.remaining == 0
    ensures limit >= 0 && state.used >= 0 ==> r.remaining <= limit
  {
    DailyAttemptStats(state.date, state.used, limit, if limit - state.used > 0 then limit - state.used else 0)
  }

  /**
   * `get_daily_attempt_stats`: reports the day's state and writes back
   * `{"date": today, "used": <the kept value>}`, so a stored `true` stays `true`.
   */
  function GetDailyAttemptStats(stored: Stored, today: string, limit: int): (r: Outcome)
    ensures ReadState(r.written, today) == ReadState(stored, today)
    ensures r.written.Parsed? && r.written.value.JObj? && r.written.value.fields.Keys == {"date", "used"}
    ensures r.written.value.fields["date"] == JStr(today)
    ensures StoredForDay(stored, today) && "used" in stored.value.fields && Accepted(stored.value.fields["used"]) ==>
      r.written.value.fields["used"] == stored.value.fields["used"]
    ensures r.stats.used == ReadState(stored, today).used
    ensures r.stats.date == today && r.stats.limit == limit
  {
    var state := ReadState(stored, today);
    Outcome(FormatStats(state, limit), Parsed(JObj(map["date" := JStr(today), "used" := KeptUsed(stored, today)])))
  }

  /** `record_daily_attempt`: one more attempt today, even past the limit. */
  function RecordDailyAttempt(stored: Stored, today: string, limit: int): (r: Outcome)
    ensures r.written == Encode(AttemptState(today, ReadState(stored, today).used + 1))
    ensures r.stats.used == ReadState(stored, today).used + 1
    ensures r.stats.remaining == if limit > r.stats.used then limit - r.stats.used else 0
  {
    var state := ReadState(stored, today);
    var next := AttemptState(state.date, state.used + 1);
    Outcome(FormatStats(next, limit), Encode(next))
  }

  /** Reading back a written state on the same day gives that state. */
  lemma ReadAfterWrite(s: AttemptState)
    requires s.used >= 0
    ensures ReadState(Encode(s), s.date) == s
  {
  }

  /** A state written on another day reads as a fresh day. */
  lemma NewDayStartsOver(s: AttemptState, today: string)
    requires s.date != today
    ensures ReadState(Encode(s), today) == AttemptState(today, 0)
  {
  }

  /** The file after `n` recorded attempts, each call reading what the previous one wrote. */
  function RecordMany(stored: Stored, today: string, limit: int, n: nat): Stored
    decreases n
  {
    if n == 0 then stored
    else RecordMany(RecordDailyAttempt(stored, today, limit).written, today, limit, n - 1)
  }

  /** From a day with `used` attempts, `n` more leave `used + n`, with no cap at the limit. */
  lemma {:induction false} AttemptsAreNotCapped(stored: Stored, today: string, limit: int, used: nat, n: nat)
    requires ReadState(stored, today).used == used
    ensures ReadState(RecordMany(stored, today, limit, n), today) == AttemptState(today, used + n)
    decreases n
  {
    if n > 0 {
      ReadAfterWrite(AttemptState(today, used + 1));
      AttemptsAreNotCapped(RecordDailyAttempt(stored, today, limit).written, today, limit, used + 1, n - 1);
    }
  }

  /** Each recorded attempt lowers what a stats call reports as remaining by one, down to zero. */
  lemma RecordLowersRemaining(stored: Stored, today: string, limit: int)
    ensures var before := GetDailyAttemptStats(stored, today, limit).stats.remaining;
      RecordDailyAttempt(stored, today, limit).stats.remaining == if before > 0 then before - 1 else 0
  {
  }
}
