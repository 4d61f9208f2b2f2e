/** The unique-visitor counter of internal/controllers/metrics.go. Redis is
    modelled as an object holding the set `site:visit_users` and the
    counter `site:visit_count`; each Redis command is one atomic step whose
    failure is given as a parameter. A missing client (RedisClient == nil)
    is a null reference. */
module Metrics {
  import opened Common

  /** The session's user_id. */
  type UserId = nat

  /** The two keys the counter uses. */
  datatype Store = Store(visitors: set<UserId>, count: int)

  /** The outcome of each of the three commands one request may issue. */
  datatype Faults = Faults(get: Outcome, sadd: Outcome, incr: Outcome)

  const NoFaults := Faults(Pass, Pass, Pass)

  /** The `data` field of the replies. */
  datatype VisitData = NoData | ErrorText(text: string) | CountField(count: int)

  /** The reply and the new store of one IncrementVisit request:
      `connected` is RedisClient != nil, `user` the session's user_id. */
  function Visit(connected: bool, user: Option<UserId>, f: Faults, s: Store): (Store, Reply<VisitData>)
  {
    if !connected then (s, ReturnError(500, "Redis not initialised", NoData))
    else
      var current := if f.get.Fail? then 0 else s.count;
      if user.None? then (s, ReturnSuccess(200, "not logged in, not counted", CountField(current), current))
      else if f.sadd.Fail? then (s, ReturnError(500, "writing the unique visitor set failed", ErrorText(f.sadd.reason)))
      else
        var added := s.(visitors := s.visitors + {user.value});
        if user.value !in s.visitors then
          if f.incr.Fail? then (added, ReturnError(500, "visit count failed", ErrorText(f.incr.reason)))
          else (added.(count := s.count + 1), ReturnSuccess(200, "count +1", CountField(s.count + 1), s.count + 1))
        else (added, ReturnSuccess(200, "already counted", CountField(current), current))
  }

  /** The counter returned by a successful reply. */
  function Returned(r: Reply<VisitData>): int
  {
    if r.body.Success? && r.body.data.CountField? then r.body.data.count else -1
  }

  /** The Redis client: the two keys as fields. */
  class RedisClient {
    var visitors: set<UserId>
    var count: int

    /** InitRedis: SetNX puts 0 in the fresh counter key. */
    constructor ()
      ensures visitors == {} && count == 0
    {
      visitors := {};
      count := 0;
    }

    /** GET site:visit_count, read with Int64(). */
    method Get(fault: Outcome) returns (r: Result<int>)
      ensures r == if fault.Fail? then Err(fault.reason) else Ok(count)
    {
      if fault.Fail? {
        return Err(fault.reason);
      }
      r := Ok(count);
    }

    /** SADD site:visit_users id: reports whether `id` is new. */
    method SAdd(id: UserId, fault: Outcome) returns (r: Result<bool>)
      modifies this`visitors
      ensures fault.Fail? ==> r == Err(fault.reason) && visitors == old(visitors)
      ensures fault.Pass? ==> r == Ok(id !in old(visitors)) && visitors == old(visitors) + {id}
    {
      if fault.Fail? {
        return Err(fault.reason);
      }
      r := Ok(id !in visitors);
      visitors := visitors + {id};
    }

    /** INCR site:visit_count: returns the incremented value. */
    method Incr(fault: Outcome) returns (r: Result<int>)
      modifies this`count
      ensures fault.Fail? ==> r == Err(fault.reason) && count == old(count)
      ensures fault.Pass? ==> r == Ok(old(count) + 1) && count == old(count) + 1
    {
      if fault.Fail? {
        return Err(fault.reason);
      }
      count := count + 1;
      r := Ok(count);
    }
  }

  /** Metrics.IncrementVisit: command by command. */
  method IncrementVisit(client: RedisClient?, user: Option<UserId>, f: Faults) returns (reply: Reply<VisitData>)
    modifies client
    ensures client == null ==> reply == Visit(false, user, f, Store({}, 0)).1
    ensures client != null ==>
      (Store(client.visitors, client.count), reply) == Visit(true, user, f, old(Store(client.visitors, client.count)))
  {
    if client == null {
      return ReturnError(500, "Redis not initialised", NoData);
    }
    var got := client.Get(f.get);
    var currentCount := if got.Ok? then got.value else 0;
    if user.None? {
      return ReturnSuccess(200, "not logged in, not counted", CountField(currentCount), currentCount);
    }
    var added := client.SAdd(user.value, f.sadd);
    if added.Err? {
      return ReturnError(500, "writing the unique visitor set failed", ErrorText(added.reason));
    }
    if added.value {
      var newCount := client.Incr(f.incr);
      if newCount.Err? {
        return ReturnError(500, "visit count failed", ErrorText(newCount.reason));
      }
      return ReturnSuccess(200, "count +1", CountField(newCount.value), newCount.value);
    }
    reply := ReturnSuccess(200, "already counted", CountField(currentCount), currentCount);
  }

  /** Without a client the request fails with 500 and touches nothing. */
  lemma NoClientFails(user: Option<UserId>, f: Faults, s: Store)
    ensures Visit(false, user, f, s).0 == s
    ensures Visit(false, user, f, s).1.status == 500 && Visit(false, user, f, s).1.body.code == 500
  {
  }

  /** An anonymous visit changes nothing and always succeeds; it returns
      the current count, or 0 when the GET fails. */
  lemma AnonymousChangesNothing(f: Faults, s: Store)
    ensures Visit(true, None, f, s).0 == s
    ensures Visit(true, None, f, s).1.status == 200
    ensures f.get.Pass? ==> Returned(Visit(true, None, f, s).1) == s.count
    ensures f.get.Fail? ==> Returned(Visit(true, None, f, s).1) == 0
  {
  }

  /** Without faults, the counter goes up exactly when SADD reports a new
      member, and the reply carries the counter's new value. */
  lemma IncrementIffNew(u: UserId, s: Store)
    ensures var (s', r) := Visit(true, Some(u), NoFaults, s);
      && s'.visitors == s.visitors + {u}
      && s'.count == (if u !in s.visitors then s.count + 1 else s.count)
      && r.status == 200 && Returned(r) == s'.count
  {
  }

  /** A repeat visit changes nothing, whatever else fails, and (when GET
      succeeds) returns the count read before SADD. */
  lemma RepeatVisitChangesNothing(u: UserId, f: Faults, s: Store)
    requires u in s.visitors
    ensures Visit(true, Some(u), f, s).0 == s
    ensures f.get.Pass? && f.sadd.Pass? ==> Returned(Visit(true, Some(u), f, s).1) == s.count
  {
    assert s.visitors + {u} == s.visitors;
  }

  /** A failed SADD is an error and changes nothing. */
  lemma SAddFailureChangesNothing(u: UserId, f: Faults, s: Store)
    requires f.sadd.Fail?
    ensures Visit(true, Some(u), f, s).0 == s
    ensures Visit(true, Some(u), f, s).1.status == 500
  {
  }

  /** A run of requests against one store. */
  datatype Request = Request(user: Option<UserId>, faults: Faults)

  function Run(s: Store, reqs: seq<Request>): Store
    decreases |reqs|
  {
    if reqs == [] then s
    else Run(Visit(true, reqs[0].user, reqs[0].faults, s).0, reqs[1..])
  }

  predicate FaultFree(reqs: seq<Request>)
  {
    forall i :: 0 <= i < |reqs| ==> reqs[i].faults == NoFaults
  }

  /** Starting from the state SetNX creates (or any state where the counter
      equals the set's size), fault-free visits keep counter == |set|. */
  lemma {:induction false} FaultFreeRunCountsVisitors(s: Store, reqs: seq<Request>)
    requires s.count == |s.visitors|
    requires FaultFree(reqs)
    ensures Run(s, reqs).count == |Run(s, reqs).visitors|
    decreases |reqs|
  {
    if reqs != [] {
      var s' := Visit(true, reqs[0].user, reqs[0].faults, s).0;
      if reqs[0].user.Some? && reqs[0].user.value !in s.visitors {
        assert |s.visitors + {reqs[0].user.value}| == |s.visitors| + 1;
      } else if reqs[0].user.Some? {
        assert s.visitors + {reqs[0].user.value} == s.visitors;
      }
      assert FaultFree(reqs[1..]) by {
        forall i | 0 <= i < |reqs| - 1 ensures reqs[1..][i].faults == NoFaults {
          assert reqs[1..][i] == reqs[i + 1];
        }
      }
      FaultFreeRunCountsVisitors(s', reqs[1..]);
    }
  }

  /** Whatever fails, the counter never exceeds the set's size, and the
      number of uncounted visitors never goes down: an undercount is never
      repaired. */
  lemma {:induction false} UndercountIsPermanent(s: Store, reqs: seq<Request>)
    requires s.count <= |s.visitors|
    ensures Run(s, reqs).count <= |Run(s, reqs).visitors|
    ensures |Run(s, reqs).visitors| - Run(s, reqs).count >= |s.visitors| - s.count
    ensures s.visitors <= Run(s, reqs).visitors
    decreases |reqs|
  {
    if reqs != [] {
      var s' := Visit(true, reqs[0].user, reqs[0].faults, s).0;
      if reqs[0].user.Some? && reqs[0].user.value !in s.visitors {
        assert |s.visitors + {reqs[0].user.value}| == |s.visitors| + 1;
      } else if reqs[0].user.Some? {
        assert s.visitors + {reqs[0].user.value} == s.visitors;
      }
      UndercountIsPermanent(s', reqs[1..]);
    }
  }

  /** The partial failure: SADD admits a new visitor and INCR then fails.
      The visitor is in the set but not counted, and no later visit by it,
      whatever its faults, changes the store again. */
  lemma PartialFailureLosesVisit(u: UserId, reason: string, s: Store, later: Faults)
    requires u !in s.visitors
    ensures var s' := Visit(true, Some(u), Faults(Pass, Pass, Fail(reason)), s).0;
      && u in s'.visitors && s'.count == s.count
      && |s'.visitors| == |s.visitors| + 1
      && Visit(true, Some(u), later, s').0 == s'
  {
    var s' := Visit(true, Some(u), Faults(Pass, Pass, Fail(reason)), s).0;
    RepeatVisitChangesNothing(u, later, s');
  }

  /** Visits by u1, u1, u2 from the initial state return 1, 1, 2. */
  lemma ScenarioU1U1U2(u1: UserId, u2: UserId)
    requires u1 != u2
    ensures var (s1, r1) := Visit(true, Some(u1), NoFaults, Store({}, 0));
      var (s2, r2) := Visit(true, Some(u1), NoFaults, s1);
      var (s3, r3) := Visit(true, Some(u2), NoFaults, s2);
      Returned(r1) == 1 && Returned(r2) == 1 && Returned(r3) == 2 && s3 == Store({u1, u2}, 2)
  {
    var (s1, r1) := Visit(true, Some(u1), NoFaults, Store({}, 0));
    assert s1 == Store({u1}, 1);
    var (s2, r2) := Visit(true, Some(u1), NoFaults, s1);
    assert {u1} + {u1} == {u1};
    assert s2 == s1;
  }

  /** The same scenario run against the client object. */
  method ScenarioOnClient(u1: UserId, u2: UserId) returns (c1: int, c2: int, c3: int)
    requires u1 != u2
    ensures c1 == 1 && c2 == 1 && c3 == 2
  {
    var client := new RedisClient();
    var r := IncrementVisit(client, Some(u1), NoFaults);
    c1 := Returned(r);
    r := IncrementVisit(client, Some(u1), NoFaults);
    c2 := Returned(r);
    r := IncrementVisit(client, Some(u2), NoFaults);
    c3 := Returned(r);
    ScenarioU1U1U2(u1, u2);
  }
}
