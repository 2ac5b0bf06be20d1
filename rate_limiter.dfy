/**
 * The per-client daily rate limiter (src/main.py:63-89): a middleware that
 * reads the client's record, runs the wrapped handler, and then either
 * records the request or replaces the handler's answer by a 429.
 */
module RateLimiter {
  import opened Wrappers
  import opened RateRecord
  import Calendar
  import opened Students
  import opened Handlers

  /** `MAX_API_CALLS_PER_DAY` (src/main.py:21). */
  const MaxApiCallsPerDay: nat := 100

  /** The rejection (src/main.py:87). */
  const TooManyRequests := Response(429, PlainText("Too many requests today"))

  /** What the limiter decides for one request: the record to write, or rejection. */
  datatype Verdict = Admit(next: Record) | Reject

  /** `redis_instance.get(key)`, on the store's contents. */
  function Stored(entries: map<string, string>, key: string): Option<string> {
    if key in entries then Some(entries[key]) else None
  }

  /** The value stored for `key`, if any, is one the limiter can read back. */
  predicate Readable(entries: map<string, string>, key: string) {
    key in entries ==> Parse(entries[key]).Some?
  }

  /** A stored value is a record counting between 1 and one past the cap. */
  predicate InRange(raw: string) {
    Parse(raw).Some? && 1 <= Parse(raw).value.count <= MaxApiCallsPerDay + 1
  }

  /** The invariant the limiter keeps on the whole counter store. */
  predicate Tracked(entries: map<string, string>) {
    forall k :: k in entries ==> InRange(entries[k])
  }

  /** The decision of src/main.py:74-87, on the value read before the handler ran. */
  function Judge(stored: Option<string>, today: string): Verdict
    requires stored.Some? ==> Parse(stored.value).Some?
  {
    match stored
    case None => Admit(Record(today, 1))
    case Some(raw) =>
      var prior := Parse(raw).value;
      if prior.day != today then Admit(Record(today, 1))
      else if prior.count <= MaxApiCallsPerDay then Admit(Record(today, prior.count + 1))
      else Reject
  }

  /**
   * The counter store after one request: the decided record written under
   * `key`, or the store as it was on rejection. Every other key is untouched.
   */
  function Limit(entries: map<string, string>, key: string, today: string): (r: map<string, string>)
    requires Readable(entries, key) && ':' !in today
    ensures Readable(r, key) && key in r
    ensures forall k :: k != key ==> Stored(r, k) == Stored(entries, k)
  {
    match Judge(Stored(entries, key), today)
    case Admit(next) =>
      RoundTrip(next);
      entries[key := Format(next)]
    case Reject => entries
  }

  /** The answer sent back: the handler's own, or the rejection. */
  function Respond(v: Verdict, handled: Response): Response {
    if v.Admit? then handled else TooManyRequests
  }

  /** The whole service after one request: the answer, the counter store and the collection. */
  datatype Served = Served(response: Response, counters: map<string, string>, docs: seq<Document>)

  /**
   * One request through the middleware: the record is read first, the handler
   * then runs whatever the outcome, and the decision uses the record read before.
   */
  function Serve(counters: map<string, string>, docs: seq<Document>, client: string, today: string, req: Request): Served
    requires Readable(counters, client) && ':' !in today
  {
    var handled := Route(docs, req);
    Served(Respond(Judge(Stored(counters, client), today), handled.response), Limit(counters, client, today), handled.docs)
  }

  // ---------------------------------------------------------------------------
  // One request

  /**
   * The four outcomes of one request: first write of `today:1`, reset to
   * `today:1` on a new day, `today:count+1` up to the cap, and rejection with
   * the store unchanged. Each written string reads back as the record it encodes.
   */
  lemma StepOutcomes(entries: map<string, string>, key: string, today: string)
    requires Readable(entries, key) && ':' !in today
    ensures var v, r := Judge(Stored(entries, key), today), Limit(entries, key, today);
      && (key !in entries ==>
            && v.Admit? && r == entries[key := Format(Record(today, 1))]
            && Parse(r[key]) == Some(Record(today, 1)))
      && (key in entries && Parse(entries[key]).value.day != today ==>
            && v.Admit? && r == entries[key := Format(Record(today, 1))]
            && Parse(r[key]) == Some(Record(today, 1)))
      && (key in entries && Parse(entries[key]).value.day == today && Parse(entries[key]).value.count <= MaxApiCallsPerDay ==>
            && v.Admit? && r == entries[key := Format(Record(today, Parse(entries[key]).value.count + 1))]
            && Parse(r[key]) == Some(Record(today, Parse(entries[key]).value.count + 1)))
      && (key in entries && Parse(entries[key]).value.day == today && Parse(entries[key]).value.count > MaxApiCallsPerDay ==>
            v.Reject? && r == entries)
  {
    match Judge(Stored(entries, key), today)
    case Admit(next) => RoundTrip(next);
    case Reject =>
  }

  /** An admitted request gets the handler's answer unchanged; a rejected one gets the 429. */
  lemma ServeResponse(counters: map<string, string>, docs: seq<Document>, client: string, today: string, req: Request)
    requires Readable(counters, client) && ':' !in today
    ensures var s := Serve(counters, docs, client, today, req);
      && (Judge(Stored(counters, client), today).Admit? ==> s.response == Route(docs, req).response)
      && (Judge(Stored(counters, client), today).Reject? ==>
            s.response == Response(429, PlainText("Too many requests today")) && s.counters == counters)
      && s.docs == Route(docs, req).docs
  {
  }

  /** Every request keeps every stored count between 1 and one past the cap. */
  lemma LimitPreservesTracked(entries: map<string, string>, key: string, today: string)
    requires Tracked(entries) && ':' !in today
    ensures Tracked(Limit(entries, key, today))
  {
    var r := Limit(entries, key, today);
    StepOutcomes(entries, key, today);
    forall k | k in r ensures InRange(r[k]) {
      if k != key {
        assert Stored(r, k) == Stored(entries, k);
      }
    }
  }

  /** Under the invariant, a request is rejected exactly when today's count already stands at cap + 1. */
  lemma RejectExactlyAtCap(entries: map<string, string>, key: string, today: string)
    requires Tracked(entries) && ':' !in today
    ensures Judge(Stored(entries, key), today).Reject? <==>
      key in entries && Parse(entries[key]) == Some(Record(today, MaxApiCallsPerDay + 1))
  {
    if key in entries {
      assert InRange(entries[key]);
    }
  }

  // ---------------------------------------------------------------------------
  // Many requests from one client on one day

  /** The counter store after `n` requests from `key`, all on `today`. */
  function Burst(entries: map<string, string>, key: string, today: string, n: nat): (r: map<string, string>)
    requires Readable(entries, key) && ':' !in today
    ensures Readable(r, key)
    decreases n
  {
    if n == 0 then entries else Limit(Burst(entries, key, today, n - 1), key, today)
  }

  /** Whether the `n`-th of those requests (counting from 1) is admitted. */
  predicate AdmittedAt(entries: map<string, string>, key: string, today: string, n: nat)
    requires Readable(entries, key) && ':' !in today && n >= 1
  {
    Judge(Stored(Burst(entries, key, today, n - 1), key), today).Admit?
  }

  function Min(a: nat, b: nat): nat {
    if a <= b then a else b
  }

  /**
   * For a client with no record, after `n` requests the store holds
   * `today:min(n, cap + 1)`, and the `n`-th request is admitted exactly when
   * `n <= cap + 1`.
   */
  lemma {:induction false} FreshClientBurst(entries: map<string, string>, key: string, today: string, n: nat)
    requires key !in entries && ':' !in today && n >= 1
    ensures key in Burst(entries, key, today, n)
    ensures Burst(entries, key, today, n)[key] == Format(Record(today, Min(n, MaxApiCallsPerDay + 1)))
    ensures AdmittedAt(entries, key, today, n) <==> n <= MaxApiCallsPerDay + 1
    decreases n
  {
    if n > 1 {
      FreshClientBurst(entries, key, today, n - 1);
      var m := Min(n - 1, MaxApiCallsPerDay + 1);
      var before := Burst(entries, key, today, n - 1);
      assert Parse(before[key]) == Some(Record(today, m)) by {
        RoundTrip(Record(today, m));
      }
      assert Burst(entries, key, today, n) == Limit(before, key, today);
      if n - 1 <= MaxApiCallsPerDay {
        assert Judge(Stored(before, key), today) == Admit(Record(today, n));
      } else {
        assert Judge(Stored(before, key), today) == Reject;
      }
    }
  }

  /**
   * With the cap of 100: for a fresh client on one day, requests 1 to 101 are
   * admitted and every request from the 102nd on is rejected.
   */
  lemma ExactBoundary(entries: map<string, string>, key: string, today: string)
    requires key !in entries && ':' !in today
    ensures forall n :: 1 <= n <= 101 ==> AdmittedAt(entries, key, today, n)
    ensures forall n :: n >= 102 ==> !AdmittedAt(entries, key, today, n)
    ensures Burst(entries, key, today, 101)[key] == Format(Record(today, 101))
  {
    forall n | 1 <= n
      ensures AdmittedAt(entries, key, today, n) <==> n <= 101
    {
      FreshClientBurst(entries, key, today, n);
    }
    FreshClientBurst(entries, key, today, 101);
  }

  /**
   * The handler runs before the quota is checked: a delete sent by a client
   * already at the cap is answered with 429, yet the document is gone.
   */
  lemma RejectedDeleteStillDeletes(counters: map<string, string>, docs: seq<Document>, client: string, today: string, id: Id)
    requires ':' !in today && UniqueIds(docs) && id in Ids(docs)
    requires client in counters && counters[client] == Format(Record(today, MaxApiCallsPerDay + 1))
    ensures Readable(counters, client)
    ensures var s := Serve(counters, docs, client, today, DeleteStudent(id));
      && s.response == TooManyRequests
      && s.counters == counters
      && Lookup(s.docs, id).None?
  {
    RoundTrip(Record(today, MaxApiCallsPerDay + 1));
    RemoveExactlyOne(docs, id, id);
  }

  // ---------------------------------------------------------------------------
  // The counter store and the middleware, changing state in place

  /** The counter store: a key to string cache offering `get` and `set`. */
  class CounterStore {
    var entries: map<string, string>

    constructor (initial: map<string, string>)
      ensures entries == initial
    {
      entries := initial;
    }

    /** `get(key)`. */
    function Get(key: string): (r: Option<string>)
      reads this
      ensures r.Some? <==> key in entries
      ensures r.Some? ==> r.value == entries[key]
    {
      Stored(entries, key)
    }

    /** `set(key, value)`. */
    method Set(key: string, value: string)
      modifies this
      ensures entries == old(entries)[key := value]
    {
      entries := entries[key := value];
    }
  }

  /**
   * `rate_limiter` (src/main.py:63-89): read the client's record, run the
   * handler, then record the request or answer 429. The calendar day comes
   * from the `date` parameter in place of the clock.
   */
  method RateLimit(counters: CounterStore, coll: StudentCollection, client: string, date: Calendar.Date, req: Request)
    returns (resp: Response)
    requires Calendar.Valid(date)
    requires Tracked(counters.entries) && coll.Valid()
    modifies counters, coll
    ensures Tracked(counters.entries) && coll.Valid()
    ensures Served(resp, counters.entries, coll.docs)
         == Serve(old(counters.entries), old(coll.docs), client, Calendar.DayString(date), req)
  {
    var today := Calendar.DayString(date);
    ghost var before := counters.entries;
    assert Readable(before, client) by {
      if client in before {
        assert InRange(before[client]);
      }
    }
    LimitPreservesTracked(before, client, today);
    var res := counters.Get(client);
    var response := CallNext(coll, req);
    if res.None? {
      counters.Set(client, Format(Record(today, 1)));
      return response;
    }
    var prior := Parse(res.value).value;
    if prior.day != today {
      counters.Set(client, Format(Record(today, 1)));
    } else if prior.count <= MaxApiCallsPerDay {
      counters.Set(client, Format(Record(today, prior.count + 1)));
    } else {
      return TooManyRequests;
    }
    return response;
  }
}
