/** The gas limit a miner proposes for the next block. */
module GasLimits {
  const GAS_LIMIT_BOUND_DIVISOR: nat := 1024
  const MIN_GAS_LIMIT: nat := 5000

  /** The limit stays within the consensus bound: it differs from the parent's by less than a 1024th of it,
      and is not below the minimum. */
  predicate WithinBound(parentLimit: nat, limit: int) {
    && -(parentLimit / GAS_LIMIT_BOUND_DIVISOR) < limit - parentLimit < parentLimit / GAS_LIMIT_BOUND_DIVISOR
    && limit >= MIN_GAS_LIMIT
  }

  /** Computes the next limit from the parent's use and limit and from the miner's target.  It meets the
      consensus bound except when a parent limit below 5120 was nearly used up and the target is no higher
      than the raised limit.  Below the target the limit rises as far as it may; otherwise it drifts with the
      parent's use, up if more than two thirds were used and else down, but not below the minimum. */
  method CalcGasLimit(parentUsed: nat, parentLimit: nat, target: nat) returns (limit: int)
    ensures parentUsed <= parentLimit && parentLimit >= MIN_GAS_LIMIT ==>
              (WithinBound(parentLimit, limit) <==> parentLimit >= 5120 || parentUsed < 4779 || target > parentLimit + 4)
    ensures parentUsed <= parentLimit && parentLimit >= MIN_GAS_LIMIT ==> limit >= MIN_GAS_LIMIT
    ensures var room := parentLimit / GAS_LIMIT_BOUND_DIVISOR - 1;
            var drift := parentLimit - room + parentUsed * 3 / 2 / GAS_LIMIT_BOUND_DIVISOR;
            if drift < target && MIN_GAS_LIMIT < target
            then limit <= target && limit <= parentLimit + room && (limit == target || limit == parentLimit + room)
            else limit >= drift && limit >= MIN_GAS_LIMIT && (limit == drift || limit == MIN_GAS_LIMIT)
  {
    var contrib := parentUsed * 3;
    contrib := contrib / 2;
    contrib := contrib / GAS_LIMIT_BOUND_DIVISOR;
    var decay := parentLimit / GAS_LIMIT_BOUND_DIVISOR;
    decay := decay - 1;
    limit := parentLimit - decay;
    limit := limit + contrib;
    limit := if limit > MIN_GAS_LIMIT then limit else MIN_GAS_LIMIT;
    if limit < target {
      limit := parentLimit + decay;
      limit := if limit < target then limit else target;
    }
  }

  /** A parent limit of 5000 that was used up leads out of the bound. */
  method BoundMissed() returns (limit: int)
    ensures !WithinBound(5000, limit)
  {
    limit := CalcGasLimit(5000, 5000, 0);
  }
}
