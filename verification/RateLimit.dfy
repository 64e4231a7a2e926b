/**
 The token bucket that caps chat turns per user.  Floats are modelled as reals and the
 monotonic clock as an argument.
 */
module RateLimit {
  import opened Prelude

  datatype Bucket = Bucket(tokens: real, updated: real)
  datatype Call = Call(now: real, cost: real)
  datatype Request = Request(key: int, call: Call)
  datatype Settings = Settings(capacity: real, rate: real)

  predicate Sensible(s: Settings) { s.capacity >= 0.0 && s.rate >= 0.0 }

  function Min(x: real, y: real): real { if x <= y then x else y }

  /** What flows into a bucket in the time elapsed. */
  function Inflow(s: Settings, elapsed: real): (r: real)
    ensures elapsed >= 0.0 && s.rate >= 0.0 ==> r >= 0.0
  {
    elapsed * s.rate
  }

  /** The bucket as a call at `now` finds it: new, or refilled for the time elapsed. */
  function Refilled(s: Settings, b: Option<Bucket>, now: real): Bucket {
    match b
    case None => Bucket(s.capacity, now)
    case Some(b) => Bucket(Min(s.capacity, b.tokens + Inflow(s, now - b.updated)), now)
  }

  predicate Grants(s: Settings, b: Option<Bucket>, c: Call) {
    Refilled(s, b, c.now).tokens >= c.cost
  }

  function After(s: Settings, b: Option<Bucket>, c: Call): (r: Bucket)
    ensures Fits(s, b) && Follows(b, c) && Sensible(s) ==> Fits(s, Some(r)) && r.updated == c.now
  {
    var filled := Refilled(s, b, c.now);
    if filled.tokens >= c.cost then filled.(tokens := filled.tokens - c.cost) else filled
  }

  function Wait(s: Settings, b: Option<Bucket>, c: Call): real {
    if Grants(s, b, c) then 0.0
    else if s.rate != 0.0 then (c.cost - Refilled(s, b, c.now).tokens) / s.rate
    else 60.0
  }

  /** A user's first call finds a full bucket. */
  lemma FirstCall(s: Settings, c: Call)
    ensures Grants(s, None, c) <==> c.cost <= s.capacity
    ensures After(s, None, c) == Bucket(if c.cost <= s.capacity then s.capacity - c.cost else s.capacity, c.now)
  {
  }

  /** A later one finds what was left and what flowed in, up to the capacity. */
  lemma LaterCall(s: Settings, b: Bucket, c: Call)
    ensures var flowed := b.tokens + (c.now - b.updated) * s.rate;
      var tokens := if flowed <= s.capacity then flowed else s.capacity;
      && (Grants(s, Some(b), c) <==> c.cost <= tokens)
      && After(s, Some(b), c) == Bucket(if c.cost <= tokens then tokens - c.cost else tokens, c.now)
  {
  }

  lemma TimesBack(x: real, y: real)
    requires y != 0.0
    ensures x / y * y == x
  {
  }

  /** A granted call reports no wait, a refused one the time in which the deficit flows in. */
  lemma WaitIs(s: Settings, b: Option<Bucket>, c: Call)
    ensures Grants(s, b, c) ==> Wait(s, b, c) == 0.0
    ensures !Grants(s, b, c) && s.rate == 0.0 ==> Wait(s, b, c) == 60.0
    ensures !Grants(s, b, c) && s.rate != 0.0 ==> Wait(s, b, c) * s.rate == c.cost - After(s, b, c).tokens
  {
    if !Grants(s, b, c) && s.rate != 0.0 {
      TimesBack(c.cost - After(s, b, c).tokens, s.rate);
    }
  }

  /** Tokens stay within 0 and the capacity. */
  predicate Fits(s: Settings, b: Option<Bucket>) {
    b.Some? ==> 0.0 <= b.value.tokens <= s.capacity
  }

  predicate Follows(b: Option<Bucket>, c: Call) {
    c.cost >= 0.0 && (b.Some? ==> b.value.updated <= c.now)
  }

  /** Calls with costs that are not negative, at times that do not decrease. */
  predicate Timely(b: Option<Bucket>, calls: seq<Call>) {
    && (forall i | 0 <= i < |calls| :: Follows(b, calls[i]))
    && (forall i, j | 0 <= i < j < |calls| :: calls[i].now <= calls[j].now)
  }

  /** The cost granted to the calls that fall between two moments. */
  function GrantedIn(s: Settings, b: Option<Bucket>, calls: seq<Call>, from: real, to: real): real
    decreases |calls|
  {
    if calls == [] then 0.0
    else
      (if Grants(s, b, calls[0]) && from <= calls[0].now <= to then calls[0].cost else 0.0)
      + GrantedIn(s, Some(After(s, b, calls[0])), calls[1..], from, to)
  }

  function AfterAll(s: Settings, b: Option<Bucket>, calls: seq<Call>): Option<Bucket> {
    if calls == [] then b else Some(After(s, AfterAll(s, b, calls[..|calls| - 1]), calls[|calls| - 1]))
  }

  lemma TimelyTail(s: Settings, b: Option<Bucket>, calls: seq<Call>)
    requires Timely(b, calls) && calls != []
    ensures Timely(Some(After(s, b, calls[0])), calls[1..])
  {
    assert forall i | 0 <= i < |calls[1..]| :: calls[1..][i] == calls[i + 1];
  }

  lemma InflowAdds(s: Settings, x: real, y: real)
    ensures Inflow(s, x + y) == Inflow(s, x) + Inflow(s, y)
  {
  }

  /** What a bucket can still grant up to a moment: its tokens and what flows in until then. */
  lemma {:induction false} GrantedFromNow(s: Settings, b: Bucket, calls: seq<Call>, from: real, to: real)
    requires Sensible(s) && Fits(s, Some(b)) && Timely(Some(b), calls) && b.updated <= to
    ensures GrantedIn(s, Some(b), calls, from, to) <= b.tokens + Inflow(s, to - b.updated)
    decreases |calls|
  {
    if calls != [] {
      var c := calls[0];
      if c.now <= to {
        var next := After(s, Some(b), c);
        assert forall i | 0 <= i < |calls[1..]| :: calls[1..][i] == calls[i + 1];
        GrantedFromNow(s, next, calls[1..], from, to);
        InflowAdds(s, c.now - b.updated, to - c.now);
        assert c.now - b.updated + (to - c.now) == to - b.updated;
      } else {
        NothingAfter(s, Some(b), calls, from, to);
      }
    }
  }

  lemma {:induction false} NothingAfter(s: Settings, b: Option<Bucket>, calls: seq<Call>, from: real, to: real)
    requires forall i | 0 <= i < |calls| :: to < calls[i].now
    ensures GrantedIn(s, b, calls, from, to) == 0.0
    decreases |calls|
  {
    if calls != [] {
      assert forall i | 0 <= i < |calls[1..]| :: calls[1..][i] == calls[i + 1];
      NothingAfter(s, Some(After(s, b, calls[0])), calls[1..], from, to);
    }
  }

  /** However the calls fall, a window grants at most the capacity and what flows in during it. */
  lemma {:induction false} WindowBound(s: Settings, b: Option<Bucket>, calls: seq<Call>, from: real, to: real)
    requires Sensible(s) && Fits(s, b) && Timely(b, calls) && from <= to
    ensures GrantedIn(s, b, calls, from, to) <= s.capacity + Inflow(s, to - from)
    decreases |calls|
  {
    if calls != [] {
      var c := calls[0];
      var next := After(s, b, c);
      assert forall i | 0 <= i < |calls[1..]| :: calls[1..][i] == calls[i + 1];
      if c.now < from {
        WindowBound(s, Some(next), calls[1..], from, to);
      } else if c.now <= to {
        GrantedFromNow(s, next, calls[1..], from, to);
        InflowAdds(s, to - c.now, c.now - from);
        assert to - c.now + (c.now - from) == to - from;
      } else {
        NothingAfter(s, b, calls, from, to);
      }
    }
  }

  /** Nothing granted: the bucket only fills. */
  lemma {:induction false} OnlyFills(s: Settings, b: Bucket, calls: seq<Call>, t: real)
    requires Sensible(s) && Fits(s, Some(b)) && Timely(Some(b), calls)
    requires forall i | 0 <= i < |calls| :: calls[i].now <= t && !Grants(s, AfterAll(s, Some(b), calls[..i]), calls[i])
    requires b.updated <= t
    ensures Refilled(s, AfterAll(s, Some(b), calls), t).tokens == Refilled(s, Some(b), t).tokens
    decreases |calls|
  {
    hide Refilled, Inflow, Grants, After, AfterAll;
    if calls == [] {
      NoCalls(s, b);
    } else {
      var n := |calls| - 1;
      var c, rest := calls[n], calls[..n];
      OneCallLess(s, b, calls, t);
      OnlyFills(s, b, rest, c.now);
      RefusedOnlyFills(s, AfterAll(s, Some(b), rest), c, b);
      FillsTwice(s, b, c.now, t);
    }
  }

  lemma NoCalls(s: Settings, b: Bucket)
    ensures AfterAll(s, Some(b), []) == Some(b)
  {
  }

  lemma OneCallLess(s: Settings, b: Bucket, calls: seq<Call>, t: real)
    requires calls != [] && Timely(Some(b), calls)
    requires forall i | 0 <= i < |calls| :: calls[i].now <= t && !Grants(s, AfterAll(s, Some(b), calls[..i]), calls[i])
    ensures var n := |calls| - 1; var c, rest := calls[n], calls[..n];
      && AfterAll(s, Some(b), calls) == Some(After(s, AfterAll(s, Some(b), rest), c)) && !Grants(s, AfterAll(s, Some(b), rest), c)
      && b.updated <= c.now <= t && Timely(Some(b), rest)
      && forall i | 0 <= i < |rest| :: rest[i].now <= c.now && !Grants(s, AfterAll(s, Some(b), rest[..i]), rest[i])
  {
    hide Refilled, Inflow, Grants, After;
    var rest := calls[..|calls| - 1];
    forall i | 0 <= i < |rest| ensures !Grants(s, AfterAll(s, Some(b), rest[..i]), rest[i]) {
      assert rest[..i] == calls[..i];
    }
  }

  lemma RefusedOnlyFills(s: Settings, before: Option<Bucket>, c: Call, b: Bucket)
    requires !Grants(s, before, c) && Refilled(s, before, c.now).tokens == Refilled(s, Some(b), c.now).tokens
    ensures After(s, before, c) == Refilled(s, Some(b), c.now)
  {
  }

  lemma FillsTwice(s: Settings, b: Bucket, now: real, t: real)
    requires Sensible(s) && Fits(s, Some(b)) && b.updated <= now <= t
    ensures Refilled(s, Some(Refilled(s, Some(b), now)), t) == Refilled(s, Some(b), t)
  {
    InflowAdds(s, now - b.updated, t - now);
    assert now - b.updated + (t - now) == t - b.updated;
  }

  /** When a bucket left alone can grant a cost it refused. */
  lemma WaitIsExact(s: Settings, left: Bucket, cost: real, t: real)
    requires Sensible(s) && 0.0 <= left.tokens < cost && left.tokens <= s.capacity && left.updated <= t
    ensures Refilled(s, Some(left), t).tokens >= cost
      <==> cost <= s.capacity && s.rate > 0.0 && t >= left.updated + (cost - left.tokens) / s.rate
  {
    if s.rate > 0.0 {
      var w := (cost - left.tokens) / s.rate;
      assert Inflow(s, w) == cost - left.tokens;
      InflowAdds(s, w, t - left.updated - w);
      assert w + (t - left.updated - w) == t - left.updated;
      if t < left.updated + w {
        InflowNegative(s, t - left.updated - w);
      }
    }
  }

  lemma InflowNegative(s: Settings, elapsed: real)
    requires s.rate > 0.0 && elapsed < 0.0
    ensures Inflow(s, elapsed) < 0.0
  {
  }

  /**
   The wait reported with a refusal is exact: whatever else is refused meanwhile, the same cost is
   granted at a later moment if and only if the wait is over, the cost fits into the bucket at all
   and the bucket is being refilled.
   */
  lemma RetryIsExact(s: Settings, b: Option<Bucket>, refused: Call, meanwhile: seq<Call>, t: real)
    requires Sensible(s) && Fits(s, b) && Follows(b, refused) && !Grants(s, b, refused)
    requires var left := Some(After(s, b, refused));
      && Timely(left, meanwhile) && refused.now <= t
      && forall i | 0 <= i < |meanwhile| :: meanwhile[i].now <= t && !Grants(s, AfterAll(s, left, meanwhile[..i]), meanwhile[i])
    ensures Grants(s, AfterAll(s, Some(After(s, b, refused)), meanwhile), Call(t, refused.cost))
      <==> refused.cost <= s.capacity && s.rate > 0.0 && t >= refused.now + Wait(s, b, refused)
  {
    var left := After(s, b, refused);
    OnlyFills(s, left, meanwhile, t);
    WaitIsExact(s, left, refused.cost, t);
  }

  class RateLimiter {
    const settings: Settings
    var buckets: map<int, Bucket>

    constructor (capacity: real, refillPerSecond: real)
      ensures settings == Settings(capacity, refillPerSecond) && buckets == map[]
    {
      settings, buckets := Settings(capacity, refillPerSecond), map[];
    }

    method TryAcquire(key: int, cost: real, now: real) returns (allowed: bool, retryAfter: real)
      modifies this
      ensures allowed == Grants(settings, Lookup(old(buckets), key), Call(now, cost))
      ensures retryAfter == Wait(settings, Lookup(old(buckets), key), Call(now, cost))
      ensures buckets == old(buckets)[key := After(settings, Lookup(old(buckets), key), Call(now, cost))]
    {
      var b;
      if key !in buckets {
        b := Bucket(settings.capacity, now);
      } else {
        b := buckets[key];
        var elapsed := now - b.updated;
        b := Bucket(Min(settings.capacity, b.tokens + Inflow(settings, elapsed)), now);
      }
      if b.tokens >= cost {
        b := b.(tokens := b.tokens - cost);
        buckets := buckets[key := b];
        return true, 0.0;
      }
      buckets := buckets[key := b];
      var deficit := cost - b.tokens;
      retryAfter := if settings.rate != 0.0 then deficit / settings.rate else 60.0;
      return false, retryAfter;
    }

    /**
     Serve any mix of requests of any users, and add up what one user is granted in one window:
     never more than the capacity and what flows in during the window.
     */
    method Serve(requests: seq<Request>, key: int, from: real, to: real) returns (granted: real)
      requires Sensible(settings) && from <= to && Fits(settings, Lookup(buckets, key))
      requires Timely(Lookup(buckets, key), Of(requests, key))
      modifies this
      ensures granted == GrantedIn(settings, Lookup(old(buckets), key), Of(requests, key), from, to)
      ensures granted <= settings.capacity + Inflow(settings, to - from)
      ensures Fits(settings, Lookup(buckets, key))
    {
      ghost var start := Lookup(buckets, key);
      granted := 0.0;
      for i := 0 to |requests|
        invariant Fits(settings, Lookup(buckets, key))
        invariant Timely(Lookup(buckets, key), Of(requests[i..], key))
        invariant GrantedIn(settings, start, Of(requests, key), from, to)
                  == granted + GrantedIn(settings, Lookup(buckets, key), Of(requests[i..], key), from, to)
      {
        var Request(k, c) := requests[i];
        ghost var calls := Of(requests[i..], key);
        assert requests[i..][1..] == requests[i + 1..];
        assert calls == if k == key then [c] + Of(requests[i + 1..], key) else Of(requests[i + 1..], key);
        if k == key {
          TimelyTail(settings, Lookup(buckets, key), calls);
          assert calls[0] == c && calls[1..] == Of(requests[i + 1..], key);
        }
        var allowed, _ := TryAcquire(k, c.cost, c.now);
        if allowed && k == key && from <= c.now <= to {
          granted := granted + c.cost;
        }
      }
      WindowBound(settings, start, Of(requests, key), from, to);
    }
  }

  /** The calls of one user. */
  function Of(requests: seq<Request>, key: int): seq<Call> {
    if requests == [] then []
    else (if requests[0].key == key then [requests[0].call] else []) + Of(requests[1..], key)
  }
}
