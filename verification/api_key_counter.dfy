/**
 * The browser-side daily generation counter used when the user supplies an
 * OpenAI key. The counter lives in local storage as `{"date", "count"}`
 * (any other fields of today's stored object are carried along);
 * JavaScript numbers are modelled as reals, and the configured limit is a
 * parameter (the build-time setting is outside the model).
 */
module ApiKeyCounter {
  import opened Wrappers
  import opened JsonValue

  /**
   * A counter, with the other fields of the stored object it was read from:
   * `{...counter, count}` writes those back unchanged.
   */
  datatype Counter = Counter(date: string, count: real, extra: map<string, Json>) {
    /** The other fields leave out the two the counter names. */
    predicate Valid() {
      "date" !in extra && "count" !in extra
    }
  }

  /** The fields of a stored object other than `date` and `count`. */
  function Extra(fields: map<string, Json>): (r: map<string, Json>)
    ensures "date" !in r && "count" !in r
    ensures forall k :: k in fields && k != "date" && k != "count" <==> k in r
    ensures forall k :: k in r ==> r[k] == fields[k]
  {
    map k | k in fields && k != "date" && k != "count" :: fields[k]
  }

  /** What `tryConsumeApiKeyGeneration` answers, and what it stores (if anything). */
  datatype Consumed = Consumed(ok: bool, written: Option<Counter>)

  /** JavaScript's `typeof x === "number"`, with the number's value. */
  function JsNumber(v: Json): Option<real> {
    match v
    case JInt(i) => Some(i as real)
    case JFloat(f) => Some(f)
    case _ => None
  }

  /** What `setCounter` stores for a counter: its other fields, then its date and count. */
  function Encode(c: Counter): Stored {
    Parsed(JObj(c.extra["date" := JStr(c.date)]["count" := JFloat(c.count)]))
  }

  /** `parseCounter`: a counter only for an object with a string date and a numeric count. */
  function ParseCounter(stored: Stored): (r: Option<Counter>)
    ensures !stored.Parsed? ==> r.None?
    ensures r.Some? <==>
      && stored.Parsed? && stored.value.JObj?
      && "date" in stored.value.fields && stored.value.fields["date"].JStr?
      && "count" in stored.value.fields && JsNumber(stored.value.fields["count"]).Some?
    ensures r.Some? ==>
      && r.value.date == stored.value.fields["date"].s
      && Some(r.value.count) == JsNumber(stored.value.fields["count"])
      && r.value.Valid()
      && forall k :: k in stored.value.fields && k != "date" && k != "count" ==>
           k in r.value.extra && r.value.extra[k] == stored.value.fields[k]
  {
    match stored
    case Parsed(JObj(fields)) =>
      if "date" in fields && fields["date"].JStr? && "count" in fields then
        match JsNumber(fields["count"])
        case Some(n) => Some(Counter(fields["date"].s, n, Extra(fields)))
        case None => None
      else None
    case _ => None
  }

  /** `getCounter`: today's counter, or a zero counter for today when none is stored for today. */
  function GetCounter(stored: Stored, today: string): (c: Counter)
    ensures c.date == today && c.Valid()
    ensures var p := ParseCounter(stored);
      c.count == if p.Some? && p.value.date == today then p.value.count else 0.0
    ensures var p := ParseCounter(stored);
      c.extra == if p.Some? && p.value.date == today then p.value.extra else map[]
  {
    var p := ParseCounter(stored);
    if p.None? || p.value.date != today then Counter(today, 0.0, map[]) else p.value
  }

  /** `getApiKeyGenerationsRemaining`. */
  function Remaining(stored: Stored, today: string, limit: real): (r: real)
    ensures r >= 0.0
    ensures r >= limit - GetCounter(stored, today).count
    ensures r == 0.0 || r == limit - GetCounter(stored, today).count
  {
    var c := GetCounter(stored, today);
    if limit - c.count > 0.0 then limit - c.count else 0.0
  }

  /** `tryConsumeApiKeyGeneration`: refuses without writing once the day's count reached the limit. */
  function TryConsume(stored: Stored, today: string, limit: real): (r: Consumed)
    ensures r.ok <==> GetCounter(stored, today).count < limit
    ensures !r.ok ==> r.written.None?
    ensures r.ok ==> r.written.Some? && r.written.value.date == today
    ensures r.ok ==> r.written.value.count == GetCounter(stored, today).count + 1.0
    ensures r.ok ==> r.written.value.extra == GetCounter(stored, today).extra
  {
    var c := GetCounter(stored, today);
    if c.count >= limit then Consumed(false, None)
    else Consumed(true, Some(c.(count := c.count + 1.0)))
  }

  /** The storage after a consume: the new counter, or what was there before. */
  function After(stored: Stored, today: string, limit: real): Stored {
    var r := TryConsume(stored, today, limit);
    if r.written.Some? then Encode(r.written.value) else stored
  }

  /** A stored counter reads back as itself on its own day, other fields included. */
  lemma ReadAfterWrite(c: Counter)
    requires c.Valid()
    ensures GetCounter(Encode(c), c.date) == c
  {
    var fields := c.extra["date" := JStr(c.date)]["count" := JFloat(c.count)];
    assert Extra(fields) == c.extra;
  }

  /** A successful consume on today's stored counter rewrites only its count. */
  lemma ConsumeKeepsOtherFields(stored: Stored, today: string, limit: real)
    requires ParseCounter(stored).Some? && ParseCounter(stored).value.date == today
    requires TryConsume(stored, today, limit).ok
    ensures var after := After(stored, today, limit);
      && after.Parsed? && after.value.JObj?
      && after.value.fields.Keys == stored.value.fields.Keys
      && forall k :: k in stored.value.fields && k != "count" ==> after.value.fields[k] == stored.value.fields[k]
  {
  }

  /** A consume succeeds exactly when some generations remain, and then uses up one of them. */
  lemma ConsumeUsesOneRemaining(stored: Stored, today: string, limit: real)
    ensures TryConsume(stored, today, limit).ok <==> Remaining(stored, today, limit) > 0.0
    ensures var before := Remaining(stored, today, limit);
      Remaining(After(stored, today, limit), today, limit) ==
        if before > 1.0 then before - 1.0 else 0.0
  {
    var r := TryConsume(stored, today, limit);
    if r.ok {
      ReadAfterWrite(r.written.value);
    }
  }

  /** The number of successful consumes among `n` calls in a row, each reading what the last wrote. */
  function Successes(stored: Stored, today: string, limit: real, n: nat): nat
    decreases n
  {
    if n == 0 then 0
    else
      (if TryConsume(stored, today, limit).ok then 1 else 0) +
      Successes(After(stored, today, limit), today, limit, n - 1)
  }

  /** Starting from a day with `used` consumes, `n` calls succeed `min(n, limit - used)` times. */
  lemma {:induction false} SuccessesFrom(stored: Stored, today: string, limit: nat, used: nat, n: nat)
    requires GetCounter(stored, today).count == used as real
    requires used <= limit
    ensures Successes(stored, today, limit as real, n) == if n < limit - used then n else limit - used
    decreases n
  {
    if n > 0 {
      var r := TryConsume(stored, today, limit as real);
      if r.ok {
        ReadAfterWrite(r.written.value);
        SuccessesFrom(After(stored, today, limit as real), today, limit, used + 1, n - 1);
      } else {
        SuccessesFrom(After(stored, today, limit as real), today, limit, used, n - 1);
      }
    }
  }

  /** On a fresh day at most `limit` consecutive consumes succeed, and exactly that many when asked. */
  lemma AtMostLimitPerDay(stored: Stored, today: string, limit: nat, n: nat)
    requires GetCounter(stored, today).count == 0.0
    ensures Successes(stored, today, limit as real, n) <= limit
    ensures n >= limit ==> Successes(stored, today, limit as real, n) == limit
    ensures n <= limit ==> Successes(stored, today, limit as real, n) == n
  {
    SuccessesFrom(stored, today, limit, 0, n);
  }
}
