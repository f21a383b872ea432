/** The cached call counters: telemetry (20 a day per user, 5 per address) and log ingestion (50000 per address). Calls
    are taken one after the other, as the code reads and writes the counter in two steps. */
module RateLimit {
  import opened Text

  /** The life of a counter, in seconds, renewed by every admitted call. */
  const TTL: real := 86400.0

  datatype Slot = Slot(count: nat, expires: real)

  type Slots = map<string, Slot>

  /** `cache.get(key, 0)`. */
  function Current(slots: Slots, key: string, now: real): nat {
    if key in slots && now < slots[key].expires then slots[key].count else 0
  }

  function Charge(slots: Slots, key: string, limit: nat, now: real): Slots {
    if Current(slots, key, now) >= limit then slots
    else slots[key := Slot(Current(slots, key, now) + 1, now + TTL)]
  }

  class Limiter {
    var slots: Slots

    constructor ()
      ensures slots == map[]
    {
      slots := map[];
    }

    method CheckRateLimit(user: Option<string>, address: string, now: real) returns (admitted: bool)
      modifies this
      ensures var key := if user.Some? then "rl_telemetry_user_" + user.value else "rl_telemetry_anon_" + address;
              var limit := if user.Some? then 20 else 5;
              && admitted == (Current(old(slots), key, now) < limit)
              && slots == Charge(old(slots), key, limit, now)
    {
      var key, limit;
      if user.Some? {
        key, limit := "rl_telemetry_user_" + user.value, 20;
      } else {
        key, limit := "rl_telemetry_anon_" + address, 5;
      }
      admitted := Spend(key, limit, now);
    }

    /** The counter of `create_audit_logs` and `create_forensic_logs`. */
    method CheckIngest(prefix: string, address: string, now: real) returns (admitted: bool)
      modifies this
      ensures admitted == (Current(old(slots), prefix + address, now) < 50000)
      ensures slots == Charge(old(slots), prefix + address, 50000, now)
    {
      admitted := Spend(prefix + address, 50000, now);
    }

    method Spend(key: string, limit: nat, now: real) returns (admitted: bool)
      modifies this
      ensures admitted == (Current(old(slots), key, now) < limit)
      ensures slots == Charge(old(slots), key, limit, now)
    {
      var current := if key in slots && now < slots[key].expires then slots[key].count else 0;
      if current >= limit {
        return false;
      }
      slots := slots[key := Slot(current + 1, now + TTL)];
      return true;
    }
  }

  // ---------------------------------------------------------------- runs

  datatype Call = Call(key: string, at: real)

  /** The cache after the first `n` calls; every key has its own limit. */
  function After(calls: seq<Call>, limit: string -> nat, n: nat): Slots
    requires n <= |calls|
  {
    if n == 0 then map[]
    else Charge(After(calls, limit, n - 1), calls[n - 1].key, limit(calls[n - 1].key), calls[n - 1].at)
  }

  predicate Admitted(calls: seq<Call>, limit: string -> nat, n: nat)
    requires n < |calls|
  {
    Current(After(calls, limit, n), calls[n].key, calls[n].at) < limit(calls[n].key)
  }

  ghost predicate Chronological(calls: seq<Call>) {
    forall i, j :: 0 <= i <= j < |calls| ==> calls[i].at <= calls[j].at
  }

  predicate Hit(calls: seq<Call>, limit: string -> nat, key: string, m: nat)
    requires m < |calls|
  {
    calls[m].key == key && Admitted(calls, limit, m)
  }

  /** How many of the calls `i`, ..., `n - 1` were admitted on `key`. */
  function Hits(calls: seq<Call>, limit: string -> nat, key: string, i: nat, n: nat): nat
    requires i <= n <= |calls|
  {
    if i == n then 0
    else Hits(calls, limit, key, i, n - 1) + if Hit(calls, limit, key, n - 1) then 1 else 0
  }

  lemma {:induction false} WithinLimit(calls: seq<Call>, limit: string -> nat, key: string, n: nat)
    requires n <= |calls|
    ensures key in After(calls, limit, n) ==> After(calls, limit, n)[key].count <= limit(key)
  {
    if n > 0 {
      WithinLimit(calls, limit, key, n - 1);
    }
  }

  /** The counter outlives every admitted call by a day. */
  lemma {:induction false} Renewed(calls: seq<Call>, limit: string -> nat, key: string, m: nat, n: nat)
    requires Chronological(calls) && m < n <= |calls| && Hit(calls, limit, key, m)
    ensures key in After(calls, limit, n) && calls[m].at + 86400.0 <= After(calls, limit, n)[key].expires
    decreases n
  {
    if m < n - 1 {
      Renewed(calls, limit, key, m, n - 1);
    }
  }

  /** From call `i` on, no admitted call on `key` came a full day after the one before it. */
  ghost predicate Busy(calls: seq<Call>, limit: string -> nat, key: string, i: nat, n: nat)
    requires n <= |calls|
  {
    forall m :: i <= m < n && Hits(calls, limit, key, i, m) > 0 && Hit(calls, limit, key, m) ==>
      Recent(calls, limit, key, i, m)
  }

  /** Some call from `i` on was admitted less than a day before call `m`. */
  ghost predicate Recent(calls: seq<Call>, limit: string -> nat, key: string, i: nat, m: nat)
    requires m < |calls|
  {
    exists m' :: i <= m' < m && Hit(calls, limit, key, m') && calls[m].at < calls[m'].at + 86400.0
  }

  lemma {:induction false} RecentAlive(calls: seq<Call>, limit: string -> nat, key: string, i: nat, m: nat)
    requires Chronological(calls) && m < |calls| && Recent(calls, limit, key, i, m)
    ensures key in After(calls, limit, m) && calls[m].at < After(calls, limit, m)[key].expires
  {
    var m' :| i <= m' < m && Hit(calls, limit, key, m') && calls[m].at < calls[m'].at + 86400.0;
    Renewed(calls, limit, key, m', m);
  }

  lemma BusyBefore(calls: seq<Call>, limit: string -> nat, key: string, i: nat, n: nat)
    requires i < n <= |calls| && Busy(calls, limit, key, i, n)
    ensures Busy(calls, limit, key, i, n - 1)
    ensures Hits(calls, limit, key, i, n - 1) > 0 && Hit(calls, limit, key, n - 1) ==>
              Recent(calls, limit, key, i, n - 1)
  {
  }

  /** The counter holds at least the admitted calls of the busy stretch. */
  ghost predicate Counted(calls: seq<Call>, limit: string -> nat, key: string, i: nat, n: nat)
    requires i <= n <= |calls|
  {
    Hits(calls, limit, key, i, n) > 0 ==>
      key in After(calls, limit, n) && Hits(calls, limit, key, i, n) <= After(calls, limit, n)[key].count
  }

  lemma CountedStep(calls: seq<Call>, limit: string -> nat, key: string, i: nat, n: nat)
    requires Chronological(calls) && i < n <= |calls| && Counted(calls, limit, key, i, n - 1)
    requires Hits(calls, limit, key, i, n - 1) > 0 && Hit(calls, limit, key, n - 1) ==>
               Recent(calls, limit, key, i, n - 1)
    ensures Counted(calls, limit, key, i, n)
  {
    if Hits(calls, limit, key, i, n - 1) > 0 && Hit(calls, limit, key, n - 1) {
      RecentAlive(calls, limit, key, i, n - 1);
    }
  }

  lemma {:induction false} BusyCounted(calls: seq<Call>, limit: string -> nat, key: string, i: nat, n: nat)
    requires Chronological(calls) && i <= n <= |calls| && Busy(calls, limit, key, i, n)
    ensures Counted(calls, limit, key, i, n)
    decreases n
  {
    if i < n {
      BusyBefore(calls, limit, key, i, n);
      BusyCounted(calls, limit, key, i, n - 1);
      CountedStep(calls, limit, key, i, n);
    }
  }

  /** A caller that never pauses for a day is admitted at most `limit` times, however long it keeps calling. */
  lemma BusyBound(calls: seq<Call>, limit: string -> nat, key: string, i: nat, n: nat)
    requires Chronological(calls) && i <= n <= |calls| && Busy(calls, limit, key, i, n)
    ensures Hits(calls, limit, key, i, n) <= limit(key)
  {
    BusyCounted(calls, limit, key, i, n);
    WithinLimit(calls, limit, key, n);
  }

  lemma {:induction false} SomeHit(calls: seq<Call>, limit: string -> nat, key: string, i: nat, n: nat) returns (m: nat)
    requires i <= n <= |calls| && Hits(calls, limit, key, i, n) > 0
    ensures i <= m < n && Hit(calls, limit, key, m)
  {
    if Hit(calls, limit, key, n - 1) {
      m := n - 1;
    } else {
      m := SomeHit(calls, limit, key, i, n - 1);
    }
  }

  /** Any window shorter than a day holds at most `limit` admitted calls, although rejected calls renew nothing. */
  lemma WindowBound(calls: seq<Call>, limit: string -> nat, key: string, i: nat, n: nat)
    requires Chronological(calls) && i < n <= |calls| && calls[n - 1].at < calls[i].at + 86400.0
    ensures Hits(calls, limit, key, i, n) <= limit(key)
  {
    forall m | i <= m < n && Hits(calls, limit, key, i, m) > 0 && Hit(calls, limit, key, m)
      ensures Recent(calls, limit, key, i, m)
    {
      var m' := SomeHit(calls, limit, key, i, m);
      assert calls[m].at <= calls[n - 1].at && calls[i].at <= calls[m'].at;
    }
    BusyBound(calls, limit, key, i, n);
  }

  /** The counter never outlives the newest admitted call by more than a day. */
  lemma {:induction false} NotRenewedOtherwise(calls: seq<Call>, limit: string -> nat, key: string, n: nat, t: real)
    requires n <= |calls|
    requires forall m :: 0 <= m < n && Hit(calls, limit, key, m) ==> calls[m].at + 86400.0 <= t
    ensures key in After(calls, limit, n) ==> After(calls, limit, n)[key].expires <= t
  {
    if n > 0 {
      NotRenewedOtherwise(calls, limit, key, n - 1, t);
      assert Charge(After(calls, limit, n - 1), calls[n - 1].key, limit(calls[n - 1].key), calls[n - 1].at)
        == After(calls, limit, n);
    }
  }

  /** A day without an admitted call clears the counter: the next call is admitted, whatever was rejected meanwhile. */
  lemma QuietDayAdmits(calls: seq<Call>, limit: string -> nat, n: nat)
    requires n < |calls| && limit(calls[n].key) > 0
    requires forall m :: 0 <= m < n && Hit(calls, limit, calls[n].key, m) ==> calls[m].at + 86400.0 <= calls[n].at
    ensures Admitted(calls, limit, n)
  {
    NotRenewedOtherwise(calls, limit, calls[n].key, n, calls[n].at);
  }

  /** The bound is met: as long as fewer than `limit` calls were admitted in all, every call is admitted. */
  lemma {:induction false} LimitReachable(calls: seq<Call>, limit: string -> nat, key: string, n: nat)
    requires n <= |calls|
    ensures key in After(calls, limit, n) ==> After(calls, limit, n)[key].count <= Hits(calls, limit, key, 0, n)
    ensures n < |calls| && calls[n].key == key && Hits(calls, limit, key, 0, n) < limit(key)
            ==> Admitted(calls, limit, n)
  {
    if n > 0 {
      LimitReachable(calls, limit, key, n - 1);
    }
  }
}
