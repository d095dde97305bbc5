/** Creating a ledger: the policies and topologies it is created with. */
module Creation {

  import opened Common
  import opened Fabric
  import opened Evidence
  import opened Lineage
  import opened Lifecycle
  import Validation

  const MAX_WINDOW_NANOS: int := 366 * 24 * 3600 * 1_000_000_000
  const MAX_BATCH_RECORDS: nat := 200_000
  const MAX_RETAINED: nat := 20_000_000
  const MAX_CORRECTIONS: nat := 256

  predicate LimitsOk(p: Policy) {
    && 0 < p.maxBatchRecords <= MAX_BATCH_RECORDS
    && 0 < p.maxCorrections <= MAX_CORRECTIONS
    && MIN_WINDOW_NANOS <= p.maxPeriodSpan <= MAX_WINDOW_NANOS
    && 0 < p.maxRetained <= MAX_RETAINED
  }

  predicate PolicyOk(p: Policy) {
    && 0 <= p.freshness.freshTtl <= p.freshness.staleTtl && 0 <= p.freshness.skewAllowance
    && LimitsOk(p)
  }

  method CheckPolicy(p: Policy) returns (r: Result<(), ErrorCode>)
    ensures r == if PolicyOk(p) then Ok(()) else Err(InvalidArgument)
  {
    if p.freshness.freshTtl < 0 { return Err(InvalidArgument); }
    if p.freshness.staleTtl < p.freshness.freshTtl { return Err(InvalidArgument); }
    if p.freshness.skewAllowance < 0 { return Err(InvalidArgument); }
    if p.maxBatchRecords == 0 || p.maxBatchRecords > MAX_BATCH_RECORDS { return Err(InvalidArgument); }
    if p.maxCorrections == 0 || p.maxCorrections > MAX_CORRECTIONS { return Err(InvalidArgument); }
    if p.maxPeriodSpan < MIN_WINDOW_NANOS || p.maxPeriodSpan > MAX_WINDOW_NANOS { return Err(InvalidArgument); }
    if p.maxRetained == 0 || p.maxRetained > MAX_RETAINED { return Err(InvalidArgument); }
    return Ok(());
  }

  /** A ledger is created exactly for an allowed policy and a valid topology; it starts empty. */
  method Create(policy: Policy, topology: Topology, naming: Naming) returns (r: Result<Ledger, ErrorCode>)
    requires Validation.Assembled(topology)
    ensures r.Ok? <==> PolicyOk(policy) && Validation.IsValid(topology)
    ensures !PolicyOk(policy) ==> r == Err(InvalidArgument)
    ensures r.Ok? ==>
      && fresh(r.value) && r.value.Valid() && r.value.Recorded() == Snapshot(map[], map[], map[], [], {})
      && r.value.policy == policy && r.value.topology == topology && r.value.naming == naming
  {
    var checked := CheckPolicy(policy);
    if checked.Err? {
      return Err(checked.error);
    }
    checked := Validation.CheckAll(topology);
    if checked.Err? {
      return Err(checked.error);
    }
    var ledger := new Ledger(policy, topology, naming);
    return Ok(ledger);
  }
}
