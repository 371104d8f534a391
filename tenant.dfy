// Multi-tenancy (pkg/tenant/manager.go): a manager of tenants keyed by
// namespace, each tenant with a quota, usage counters and a per-second query
// rate limit. The clock is a parameter `now` (nanoseconds since the epoch) of
// the operations that read it.
module Tenancy {
  import opened Wrappers
  import opened Strconv
  import opened SearchFilter

  const SECOND: int := 1_000_000_000

  const INT64_MIN: int := -0x8000_0000_0000_0000
  const INT64_MAX: int := 0x7FFF_FFFF_FFFF_FFFF

  predicate InInt64(n: int)
  {
    INT64_MIN <= n <= INT64_MAX
  }

  /** Go's int64 arithmetic: the result taken modulo 2^64 into [-2^63, 2^63). */
  function Wrap64(n: int): (r: int)
    ensures InInt64(r)
    ensures InInt64(n) ==> r == n
    ensures n > INT64_MAX && n <= 2 * INT64_MAX + 1 ==> r == n - 2 * (INT64_MAX + 1)
  {
    (n - INT64_MIN) % 0x1_0000_0000_0000_0000 + INT64_MIN
  }

  /** Resource limits; a limit of zero or below means no limit. */
  datatype Quota = Quota(maxVectors: int, maxStorageBytes: int, maxDimensions: int, rateLimitQps: int)

  datatype Usage = Usage(vectorCount: int, storageBytes: int, dimensions: int, lastQueryTime: int, queryCount: int)

  /** DefaultQuota: a million vectors, 10 GiB, 2048 dimensions, 1000 queries per second. */
  function DefaultQuota(): Quota
  {
    Quota(1_000_000, 10 * 1024 * 1024 * 1024, 2048, 1000)
  }

  /** UnlimitedQuota: every limit -1. */
  function UnlimitedQuota(): Quota
  {
    Quota(-1, -1, -1, -1)
  }

  /**
   * CheckVectorQuota: adding `count` vectors fails exactly when there is a
   * vector limit and the int64 sum of the count in use and `count` is above it.
   */
  function VectorQuota(q: Quota, u: Usage, count: int): (r: Outcome)
    ensures r.Fail? <==> q.maxVectors > 0 && Wrap64(u.vectorCount + count) > q.maxVectors
    ensures InInt64(u.vectorCount + count) ==> (r.Fail? <==> q.maxVectors > 0 && u.vectorCount + count > q.maxVectors)
  {
    if q.maxVectors > 0 && Wrap64(u.vectorCount + count) > q.maxVectors then
      Fail("vector quota exceeded: current=" + IntToString(u.vectorCount) + ", requested=" + IntToString(count) +
           ", max=" + IntToString(q.maxVectors))
    else Pass
  }

  /** CheckStorageQuota: the same for bytes of storage. */
  function StorageQuota(q: Quota, u: Usage, bytes: int): (r: Outcome)
    ensures r.Fail? <==> q.maxStorageBytes > 0 && Wrap64(u.storageBytes + bytes) > q.maxStorageBytes
    ensures InInt64(u.storageBytes + bytes) ==>
      (r.Fail? <==> q.maxStorageBytes > 0 && u.storageBytes + bytes > q.maxStorageBytes)
  {
    if q.maxStorageBytes > 0 && Wrap64(u.storageBytes + bytes) > q.maxStorageBytes then
      Fail("storage quota exceeded: current=" + IntToString(u.storageBytes) + ", requested=" + IntToString(bytes) +
           ", max=" + IntToString(q.maxStorageBytes))
    else Pass
  }

  /** CheckDimensionQuota: a dimension fails exactly when there is a dimension limit and it is above it. */
  function DimensionQuota(q: Quota, dimensions: int): (r: Outcome)
    ensures r.Fail? <==> q.maxDimensions > 0 && dimensions > q.maxDimensions
  {
    if q.maxDimensions > 0 && dimensions > q.maxDimensions then
      Fail("dimension quota exceeded: requested=" + IntToString(dimensions) + ", max=" + IntToString(q.maxDimensions))
    else Pass
  }

  /** IsOverQuota: some positive limit is strictly exceeded by the usage. */
  function OverQuota(q: Quota, u: Usage): (r: bool)
    ensures r <==> (q.maxVectors > 0 && u.vectorCount > q.maxVectors) ||
                   (q.maxStorageBytes > 0 && u.storageBytes > q.maxStorageBytes)
  {
    if q.maxVectors > 0 && u.vectorCount > q.maxVectors then true
    else q.maxStorageBytes > 0 && u.storageBytes > q.maxStorageBytes
  }

  /** A tenant whose usage is within its limits passes the check for adding nothing. */
  lemma WithinQuotaAddsNothing(q: Quota, u: Usage)
    requires InInt64(u.vectorCount) && InInt64(u.storageBytes)
    requires !OverQuota(q, u)
    ensures VectorQuota(q, u, 0) == Pass && StorageQuota(q, u, 0) == Pass
  {
  }

  /**
   * The sum wraps: with one vector in use, asking for 2^63 - 1 more passes a
   * limit of ten, because the int64 sum is -2^63.
   */
  lemma VectorQuotaWraps()
    ensures VectorQuota(Quota(10, 0, 0, 0), Usage(1, 0, 0, 0, 0), INT64_MAX) == Pass
  {
    assert Wrap64(1 + INT64_MAX) == INT64_MIN;
  }

  /** An unlimited quota never refuses and is never exceeded. */
  lemma UnlimitedNeverRefuses(u: Usage, count: int, bytes: int, dimensions: int)
    ensures VectorQuota(UnlimitedQuota(), u, count) == Pass && StorageQuota(UnlimitedQuota(), u, bytes) == Pass
    ensures DimensionQuota(UnlimitedQuota(), dimensions) == Pass && !OverQuota(UnlimitedQuota(), u)
  {
  }

  /**
   * CheckRateLimit on the usage: no limit passes without counting; within a
   * second of the window start the query counts unless the limit is reached;
   * otherwise a new window starts at `now` with this query as its first.
   */
  function RateStep(u: Usage, qps: int, now: int): (Outcome, Usage)
  {
    if qps <= 0 then (Pass, u)
    else if now - u.lastQueryTime < SECOND then
      if u.queryCount >= qps then
        (Fail("rate limit exceeded: " + IntToString(u.queryCount) + " queries per second (max: " + IntToString(qps) + ")"), u)
      else (Pass, u.(queryCount := u.queryCount + 1))
    else (Pass, u.(queryCount := 1, lastQueryTime := now))
  }

  /**
   * With a limit, a check is refused exactly when the window is still open
   * and full, a refusal changes nothing, the count never goes above the
   * limit, and only the two rate fields ever change.
   */
  lemma RateStepBounded(u: Usage, qps: int, now: int)
    requires qps > 0 && u.queryCount <= qps
    ensures RateStep(u, qps, now).0.Fail? <==> now - u.lastQueryTime < SECOND && u.queryCount >= qps
    ensures RateStep(u, qps, now).0.Fail? ==> RateStep(u, qps, now).1 == u
    ensures RateStep(u, qps, now).1.queryCount <= qps
    ensures RateStep(u, qps, now).1.(queryCount := u.queryCount, lastQueryTime := u.lastQueryTime) == u
  {
  }

  /** The outcome of each of a run of rate checks at the given times, and the usage after them. */
  function RateRun(u: Usage, qps: int, times: seq<int>): (seq<Outcome>, Usage)
    decreases |times|
  {
    if times == [] then ([], u)
    else
      var (r, u') := RateStep(u, qps, times[0]);
      var (rs, u'') := RateRun(u', qps, times[1..]);
      ([r] + rs, u'')
  }

  function PassCount(rs: seq<Outcome>): nat
  {
    if rs == [] then 0 else (if rs[0].Pass? then 1 else 0) + PassCount(rs[1..])
  }

  /**
   * Within one window (every check less than a second after its start) at
   * most `qps` queries in all pass: the ones already counted and the new ones.
   */
  lemma {:induction false} RateRunWithinWindow(u: Usage, qps: int, times: seq<int>)
    requires qps > 0 && 0 <= u.queryCount <= qps
    requires forall i :: 0 <= i < |times| ==> times[i] - u.lastQueryTime < SECOND
    ensures u.queryCount + PassCount(RateRun(u, qps, times).0) <= qps
    ensures RateRun(u, qps, times).1.lastQueryTime == u.lastQueryTime
    decreases |times|
  {
    if times != [] {
      var (r, u') := RateStep(u, qps, times[0]);
      assert forall i :: 0 <= i < |times[1..]| ==> times[1..][i] == times[i + 1];
      RateRunWithinWindow(u', qps, times[1..]);
    }
  }

  /** A tenant: a namespace with its quota, usage, activity flag and metadata. */
  class Tenant {
    const id: string
    const name: string
    const namespace: string
    var quota: Quota
    var usage: Usage
    const createdAt: int
    var updatedAt: int
    var isActive: bool
    var metadata: Metadata

    /** A new tenant: active, with zero usage and empty metadata; its id is "tenant_<namespace>_<now>". */
    constructor (namespace: string, quota: Quota, now: int)
      ensures this.namespace == namespace && name == namespace && this.quota == quota
      ensures id == "tenant_" + namespace + "_" + IntToString(now)
      ensures usage == Usage(0, 0, 0, 0, 0) && isActive && metadata == map[]
      ensures createdAt == now && updatedAt == now
    {
      id := "tenant_" + namespace + "_" + IntToString(now);
      name := namespace;
      this.namespace := namespace;
      this.quota := quota;
      usage := Usage(0, 0, 0, 0, 0);
      createdAt := now;
      updatedAt := now;
      isActive := true;
      metadata := map[];
    }

    /** CheckVectorQuota: refused exactly when a vector limit is set and the int64 sum of the count and `count` is above it. */
    function CheckVectorQuota(count: int): (r: Outcome)
      reads this
      ensures r.Fail? <==> quota.maxVectors > 0 && Wrap64(usage.vectorCount + count) > quota.maxVectors
      ensures InInt64(usage.vectorCount + count) ==>
        (r.Fail? <==> quota.maxVectors > 0 && usage.vectorCount + count > quota.maxVectors)
    {
      VectorQuota(quota, usage, count)
    }

    /** CheckStorageQuota: the same for bytes of storage. */
    function CheckStorageQuota(bytes: int): (r: Outcome)
      reads this
      ensures r.Fail? <==> quota.maxStorageBytes > 0 && Wrap64(usage.storageBytes + bytes) > quota.maxStorageBytes
      ensures InInt64(usage.storageBytes + bytes) ==>
        (r.Fail? <==> quota.maxStorageBytes > 0 && usage.storageBytes + bytes > quota.maxStorageBytes)
    {
      StorageQuota(quota, usage, bytes)
    }

    /** CheckDimensionQuota: refused exactly when a dimension limit is set and `dimensions` is above it. */
    function CheckDimensionQuota(dimensions: int): (r: Outcome)
      reads this
      ensures r.Fail? <==> quota.maxDimensions > 0 && dimensions > quota.maxDimensions
    {
      DimensionQuota(quota, dimensions)
    }

    /** IsOverQuota: the vector count or the storage is above its limit; the dimension limit plays no part. */
    function IsOverQuota(): (r: bool)
      reads this
      ensures r <==> (quota.maxVectors > 0 && usage.vectorCount > quota.maxVectors) ||
                     (quota.maxStorageBytes > 0 && usage.storageBytes > quota.maxStorageBytes)
    {
      OverQuota(quota, usage)
    }

    /** CheckRateLimit: one rate step on the usage. */
    method CheckRateLimit(now: int) returns (r: Outcome)
      modifies this`usage
      ensures (r, usage) == RateStep(old(usage), quota.rateLimitQps, now)
    {
      if quota.rateLimitQps <= 0 {
        return Pass;
      }
      var u := usage;
      if now - u.lastQueryTime < SECOND {
        if u.queryCount >= quota.rateLimitQps {
          return Fail("rate limit exceeded: " + IntToString(u.queryCount) + " queries per second (max: " +
                      IntToString(quota.rateLimitQps) + ")");
        }
      } else {
        u := u.(queryCount := 0, lastQueryTime := now);
      }
      usage := u.(queryCount := u.queryCount + 1);
      r := Pass;
    }

    /** IncrementVectorCount adds `count`, in int64 arithmetic. */
    method IncrementVectorCount(count: int, now: int)
      modifies this`usage, this`updatedAt
      ensures usage == old(usage).(vectorCount := Wrap64(old(usage.vectorCount) + count)) && updatedAt == now
    {
      usage := usage.(vectorCount := Wrap64(usage.vectorCount + count));
      updatedAt := now;
    }

    /** DecrementVectorCount subtracts `count` in int64 arithmetic, stopping at zero. */
    method DecrementVectorCount(count: int, now: int)
      modifies this`usage, this`updatedAt
      ensures usage == old(usage).(vectorCount := Clamp(Wrap64(old(usage.vectorCount) - count))) && updatedAt == now
    {
      var vc := Wrap64(usage.vectorCount - count);
      if vc < 0 {
        vc := 0;
      }
      usage := usage.(vectorCount := vc);
      updatedAt := now;
    }

    method UpdateStorageBytes(bytes: int, now: int)
      modifies this`usage, this`updatedAt
      ensures usage == old(usage).(storageBytes := bytes) && updatedAt == now
    {
      usage := usage.(storageBytes := bytes);
      updatedAt := now;
    }

    method SetDimensions(dimensions: int)
      modifies this`usage
      ensures usage == old(usage).(dimensions := dimensions)
    {
      usage := usage.(dimensions := dimensions);
    }

    /** GetUsagePercentage: the share of each positive limit in use, in percent. */
    function UsagePercentage(): (r: map<string, real>)
      reads this
      ensures "vectors" in r <==> quota.maxVectors > 0
      ensures "storage" in r <==> quota.maxStorageBytes > 0
      ensures quota.maxVectors > 0 && 0 <= usage.vectorCount <= quota.maxVectors ==> 0.0 <= r["vectors"] <= 100.0
    {
      var v := if quota.maxVectors > 0 then map["vectors" := Percent(usage.vectorCount, quota.maxVectors)] else map[];
      if quota.maxStorageBytes > 0 then v["storage" := Percent(usage.storageBytes, quota.maxStorageBytes)] else v
    }

    method SetActive(active: bool, now: int)
      modifies this`isActive, this`updatedAt
      ensures isActive == active && updatedAt == now
    {
      isActive := active;
      updatedAt := now;
    }

    /** GetMetadata: the value stored under `key`, and nothing for a key never set. */
    function GetMetadata(key: string): (r: Option<Value>)
      reads this
      ensures r.Some? <==> key in metadata
      ensures r.Some? ==> r.value == metadata[key]
    {
      if key in metadata then Some(metadata[key]) else None
    }

    method SetMetadata(key: string, value: Value, now: int)
      modifies this`metadata, this`updatedAt
      ensures metadata == old(metadata)[key := value] && updatedAt == now
      ensures GetMetadata(key) == Some(value) && forall k :: k != key ==> GetMetadata(k) == old(GetMetadata(k))
    {
      metadata := metadata[key := value];
      updatedAt := now;
    }
  }

  /** Subtraction stopped at zero. */
  function Clamp(n: int): (r: int)
    ensures r >= 0 && (n >= 0 ==> r == n) && (n < 0 ==> r == 0)
  {
    if n < 0 then 0 else n
  }

  /** used / limit * 100 over the reals; between 0 and 100 while the usage is within the limit. */
  function Percent(used: int, limit: int): (r: real)
    requires limit > 0
    ensures 0 <= used <= limit ==> 0.0 <= r <= 100.0
  {
    PercentBounds(used, limit);
    used as real / limit as real * 100.0
  }

  lemma PercentBounds(used: int, limit: int)
    requires limit > 0
    ensures 0 <= used <= limit ==> 0.0 <= used as real / limit as real <= 1.0
  {
    if 0 <= used <= limit {
      var q := used as real / limit as real;
      assert q * limit as real == used as real;
      assert (1.0 - q) * limit as real == limit as real - used as real;
    }
  }

  /** The tenant manager: tenants by namespace. */
  class Manager {
    var tenants: map<string, Tenant>

    /** Every tenant is filed under its own namespace. */
    ghost predicate Valid()
      reads this
    {
      forall ns :: ns in tenants ==> tenants[ns].namespace == ns
    }

    constructor ()
      ensures Valid() && tenants == map[]
    {
      tenants := map[];
    }

    /** CreateTenant: an error for a namespace in use, otherwise a new active tenant with zero usage filed under it. */
    method CreateTenant(namespace: string, quota: Quota, now: int) returns (r: Result<Tenant>)
      requires Valid()
      modifies this
      ensures Valid()
      ensures namespace in old(tenants) ==>
        r == Err("tenant with namespace '" + namespace + "' already exists") && tenants == old(tenants)
      ensures namespace !in old(tenants) ==>
        r.Ok? && fresh(r.value) && tenants == old(tenants)[namespace := r.value] &&
        r.value.namespace == namespace && r.value.quota == quota && r.value.isActive &&
        r.value.usage == Usage(0, 0, 0, 0, 0)
    {
      if namespace in tenants {
        return Err("tenant with namespace '" + namespace + "' already exists");
      }
      var t := new Tenant(namespace, quota, now);
      tenants := tenants[namespace := t];
      r := Ok(t);
    }

    /** GetTenant: the tenant of a namespace, or an error. */
    method GetTenant(namespace: string) returns (r: Result<Tenant>)
      ensures namespace in tenants ==> r == Ok(tenants[namespace])
      ensures namespace !in tenants ==> r == Err("tenant with namespace '" + namespace + "' not found")
    {
      if namespace !in tenants {
        return Err("tenant with namespace '" + namespace + "' not found");
      }
      r := Ok(tenants[namespace]);
    }

    /** DeleteTenant: removes exactly that namespace, or errs when it is absent. */
    method DeleteTenant(namespace: string) returns (r: Outcome)
      requires Valid()
      modifies this
      ensures Valid()
      ensures namespace in old(tenants) ==> r == Pass && tenants == old(tenants) - {namespace}
      ensures namespace !in old(tenants) ==>
        r == Fail("tenant with namespace '" + namespace + "' not found") && tenants == old(tenants)
    {
      if namespace !in tenants {
        return Fail("tenant with namespace '" + namespace + "' not found");
      }
      tenants := tenants - {namespace};
      r := Pass;
    }

    /** ListTenants: every tenant once, in some order. */
    method ListTenants() returns (r: seq<Tenant>)
      requires Valid()
      ensures |r| == |tenants| && (forall t :: t in r <==> t in tenants.Values)
      ensures forall i, j :: 0 <= i < j < |r| ==> r[i] != r[j]
    {
      var names := KeyList(tenants.Keys);
      r := [];
      while |r| < |names|
        invariant |r| <= |names| && forall i :: 0 <= i < |r| ==> r[i] == tenants[names[i]]
      {
        r := r + [tenants[names[|r|]]];
      }
      forall i, j | 0 <= i < j < |r|
        ensures r[i] != r[j]
      {
        assert r[i].namespace == names[i] && r[j].namespace == names[j];
      }
    }

    /** The keys of the map in some order, each once (the order of Go's map iteration is left open). */
    static method KeyList(keys: set<string>) returns (s: seq<string>)
      ensures |s| == |keys| && (forall x :: x in s <==> x in keys)
      ensures forall i, j :: 0 <= i < j < |s| ==> s[i] != s[j]
    {
      s := [];
      var left := keys;
      while left != {}
        invariant left <= keys && |s| + |left| == |keys|
        invariant forall x :: x in s <==> x in keys && x !in left
        invariant forall i, j :: 0 <= i < j < |s| ==> s[i] != s[j]
        decreases |left|
      {
        var x :| x in left;
        s := s + [x];
        left := left - {x};
      }
    }

    /** UpdateQuota: replaces the quota of an existing tenant and touches nothing else. */
    method UpdateQuota(namespace: string, quota: Quota, now: int) returns (r: Outcome)
      modifies if namespace in tenants then {tenants[namespace]} else {}
      ensures namespace in tenants ==>
        r == Pass && tenants[namespace].quota == quota && tenants[namespace].updatedAt == now &&
        tenants[namespace].usage == old(tenants[namespace].usage) &&
        tenants[namespace].isActive == old(tenants[namespace].isActive) &&
        tenants[namespace].metadata == old(tenants[namespace].metadata)
      ensures tenants == old(tenants)
      ensures namespace !in tenants ==> r == Fail("tenant with namespace '" + namespace + "' not found")
    {
      if namespace !in tenants {
        return Fail("tenant with namespace '" + namespace + "' not found");
      }
      var t := tenants[namespace];
      t.quota := quota;
      t.updatedAt := now;
      r := Pass;
    }
  }
}
