/** What a limiter lets through: a counter that only grows is set against a limit that the
    age of the counter stretches. */
module LimiterRate {

  /** Conversion to an integer, towards zero. */
  function Trunc(x: real): (n: int)
    ensures x >= 0.0 ==> n as real <= x < n as real + 1.0
    ensures x < 0.0 ==> n as real - 1.0 < x <= n as real
  {
    if x >= 0.0 then x.Floor else -((-x).Floor)
  }

  function CurrentValue(limit: int, interval: int, count: int, age: int): (v: nat)
    requires interval > 0
  {
    var realcount := Trunc(count as real - limit as real * (age as real / interval as real));
    if realcount < 0 then 0 else realcount
  }

  /** What is left of a count: the count less the limit's share for its age, cut to a whole
      number, and nothing when that is under one. */
  lemma CurrentValueIs(limit: int, interval: int, count: int, age: int)
    requires interval > 0
    ensures var x, v := count as real - limit as real * (age as real / interval as real),
                        CurrentValue(limit, interval, count, age);
      (v == 0 <==> x < 1.0) && (v > 0 ==> v as real <= x < v as real + 1.0)
  {
    var x := count as real - limit as real * (age as real / interval as real);
    var n := Trunc(x);
    if x >= 1.0 {
      assert n as real > 0.0;
    } else if x >= 0.0 {
      assert n as real < 1.0;
    } else {
      assert n as real < 1.0;
    }
  }

  predicate WithinLimit(limit: int, interval: int, count: int, age: int)
    requires interval > 0
  {
    CurrentValue(limit, interval, count, age) <= limit
  }

  /** How many may have passed before the limit breaks, at a given age. */
  function Bound(limit: int, interval: int, age: int): real
    requires interval > 0
  {
    limit as real + 1.0 + limit as real * (age as real / interval as real)
  }

  /** The check passes exactly while the count is under the bound. */
  lemma WithinLimitIff(limit: int, interval: int, count: int, age: int)
    requires interval > 0 && limit >= 0
    ensures WithinLimit(limit, interval, count, age) <==> count as real < Bound(limit, interval, age)
  {
    var x := count as real - limit as real * (age as real / interval as real);
    var n := Trunc(x);
    if x >= 0.0 {
      assert n <= limit <==> n as real <= limit as real;
      assert n <= limit <==> x < limit as real + 1.0;
    } else {
      assert n <= 0;
    }
  }

  lemma BoundGrows(limit: int, interval: int, age: int, later: int)
    requires interval > 0 && limit >= 0 && age <= later
    ensures Bound(limit, interval, age) <= Bound(limit, interval, later)
  {
    var q, r := age as real / interval as real, later as real / interval as real;
    assert q <= r by { Quotients(age as real, later as real, interval as real); }
    Products(limit as real, q, r);
  }

  lemma Quotients(a: real, b: real, d: real)
    requires a <= b && d > 0.0
    ensures a / d <= b / d
  {
  }

  lemma Products(l: real, q: real, r: real)
    requires l >= 0.0 && q <= r
    ensures l * q <= l * r
  {
  }

  /** Workers use one counter: a request that comes to a limit-break adds one to it and,
      some time later, reads it; other conditions may add to it too. */
  datatype Event = Add(request: nat) | Look(request: nat, age: int) | Other(increment: nat)

  datatype Use = Use(count: int, waiting: set<nat>, looked: nat, passed: nat)

  function After(limit: int, interval: int, u: Use, e: Event): Use
    requires interval > 0
  {
    match e
    case Add(r) => u.(count := u.count + 1, waiting := u.waiting + {r})
    case Look(r, age) =>
      u.(waiting := u.waiting - {r}, looked := u.looked + 1,
         passed := u.passed + if WithinLimit(limit, interval, u.count, age) then 1 else 0)
    case Other(n) => u.(count := u.count + n)
  }

  function Uses(limit: int, interval: int, events: seq<Event>): Use
    requires interval > 0
  {
    if events == [] then Use(0, {}, 0, 0)
    else After(limit, interval, Uses(limit, interval, events[..|events| - 1]), events[|events| - 1])
  }

  /** A request adds once before it looks, and looks once; nothing happens after `age`. */
  ghost predicate Possible(limit: int, interval: int, events: seq<Event>, age: int)
    requires interval > 0
  {
    events == [] ||
    var before, e := events[..|events| - 1], events[|events| - 1];
    var u := Uses(limit, interval, before);
    && Possible(limit, interval, before, age)
    && (e.Add? ==> e.request !in u.waiting)
    && (e.Look? ==> e.request in u.waiting && e.age <= age)
  }

  /** However the requests' additions and looks interleave, fewer pass in the first `age`
      seconds than the limit, one more, and the limit's share for that time. */
  lemma {:induction false} RateBound(limit: int, interval: int, events: seq<Event>, age: int)
    requires interval > 0 && limit >= 0 && age >= 0 && Possible(limit, interval, events, age)
    ensures var u := Uses(limit, interval, events);
      && u.passed <= u.looked && u.looked + |u.waiting| <= u.count
      && u.passed as real < Bound(limit, interval, age)
  {
    if events == [] {
      Products(limit as real, 0.0, age as real / interval as real);
    } else {
      var before, e := events[..|events| - 1], events[|events| - 1];
      RateBound(limit, interval, before, age);
      var u, v := Uses(limit, interval, before), Uses(limit, interval, events);
      if e.Look? {
        assert |u.waiting - {e.request}| == |u.waiting| - 1;
        if WithinLimit(limit, interval, u.count, e.age) {
          WithinLimitIff(limit, interval, u.count, e.age);
          BoundGrows(limit, interval, e.age, age);
          assert v.passed as real <= u.count as real;
        }
      }
    }
  }

  /** The bound is met at every age: any number under it passes, all at that moment. */
  lemma {:induction false} BurstPasses(limit: int, interval: int, age: nat, n: nat)
    requires interval > 0 && limit >= 0 && n as real < Bound(limit, interval, age)
    ensures var u := Uses(limit, interval, Burst(n, age));
      u == Use(n, {}, n, n) && Possible(limit, interval, Burst(n, age), age)
  {
    if n > 0 {
      BurstPasses(limit, interval, age, n - 1);
      var b, a := Burst(n - 1, age), Burst(n - 1, age) + [Add(0)];
      assert a[..|a| - 1] == b;
      assert Burst(n, age)[..|Burst(n, age)| - 1] == a;
      var u := Uses(limit, interval, a);
      assert u == Use(n, {0}, n - 1, n - 1);
      WithinLimitIff(limit, interval, n, age);
      assert u.waiting - {0} == {};
    }
  }

  function Burst(n: nat, age: nat): seq<Event> {
    if n == 0 then [] else Burst(n - 1, age) + [Add(0), Look(0, age)]
  }

  /** So a number of requests can pass by a given age if and only if it is under the bound. */
  lemma RateIff(limit: int, interval: int, age: nat, n: nat)
    requires interval > 0 && limit >= 0
    ensures n as real < Bound(limit, interval, age) <==>
      exists events :: Possible(limit, interval, events, age) && Uses(limit, interval, events).passed == n
  {
    if n as real < Bound(limit, interval, age) {
      BurstPasses(limit, interval, age, n);
    }
    forall events | Possible(limit, interval, events, age) && Uses(limit, interval, events).passed == n
      ensures n as real < Bound(limit, interval, age)
    {
      RateBound(limit, interval, events, age);
    }
  }
}
