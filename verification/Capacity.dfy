/** Capacities: rounding to what the backend can represent, normalising a create request, planning
    an expansion, and sizing a clone. All arithmetic is on 64-bit signed integers, as in Go. */
module Capacity {
  import opened Protocols
  import opened Wrappers

  newtype int64 = x: int | -0x8000_0000_0000_0000 <= x <= 0x7FFF_FFFF_FFFF_FFFF
  newtype uint64 = x: int | 0 <= x <= 0xFFFF_FFFF_FFFF_FFFF

  const MIN_VOLUME_SIZE: int64 := 0x4000_0000         // 1 GiB
  const MAX_VOLUME_SIZE: int64 := 0x1_0000_0000_0000  // 256 TiB

  datatype Code = InvalidArgument | OutOfRange | Internal

  datatype Result<T> = Ok(value: T) | Err(code: Code)

  /** A protocol that is not one of the four is `None`. */
  function Alignment(p: Option<Protocol>): int64
    requires p.Some?
  {
    if p.value.IsBlock() then 512 else 1024
  }

  /** Division that truncates toward zero. */
  function Quotient(a: int64, b: int64): int64
    requires b == 512 || b == 1024
  {
    if a >= 0 then a / b
    else
      var magnitude: int := if b == 512 then (0 - a as int) / 512 else (0 - a as int) / 1024;
      (0 - magnitude) as int64
  }

  /** Signed 64-bit arithmetic wraps around. */
  function Wrap(x: int): int64 {
    ((x + 0x8000_0000_0000_0000) % 0x1_0000_0000_0000_0000 - 0x8000_0000_0000_0000) as int64
  }

  /** The first sum can wrap around by one, and the subtraction then wraps it back. */
  function RepresentableCapacity(p: Option<Protocol>, required: int64): Result<int64> {
    if p.None? then Err(InvalidArgument)
    else
      var alignment := Alignment(p);
      if required > 0x7FFF_FFFF_FFFF_FFFF - (alignment - 1) then Err(InvalidArgument)
      else
        var sum := Wrap(Wrap(required as int + alignment as int) as int - 1);
        QuotientFits(sum, alignment);
        Ok(Quotient(sum, alignment) * alignment)
  }

  lemma WrapsBack(required: int64, alignment: int64)
    requires (alignment == 512 || alignment == 1024) && required <= 0x7FFF_FFFF_FFFF_FFFF - (alignment - 1)
    ensures Wrap(Wrap(required as int + alignment as int) as int - 1) as int == required as int + alignment as int - 1
  {
  }

  lemma QuotientFits(a: int64, b: int64)
    requires b == 512 || b == 1024
    ensures -0x8000_0000_0000_0000 <= Quotient(a, b) as int * b as int <= 0x7FFF_FFFF_FFFF_FFFF
    ensures a >= 0 ==> a as int - b as int < Quotient(a, b) as int * b as int <= a as int
  {
  }

  datatype CapacityRange = CapacityRange(required: int64, limit: int64)

  /** What `normalizeCreateCapacity` puts into the request's range. */
  function Normalized(range: Option<CapacityRange>, p: Option<Protocol>): Result<CapacityRange> {
    var r := if range.Some? then range.value else CapacityRange(0, 0);
    if r.required < 0 || r.limit < 0 then Err(InvalidArgument)
    else if r.limit > 0 && r.required > r.limit then Err(InvalidArgument)
    else
      var required := if r.required < MIN_VOLUME_SIZE then MIN_VOLUME_SIZE else r.required;
      if required > MAX_VOLUME_SIZE then Err(OutOfRange)
      else match RepresentableCapacity(p, required)
           case Err(code) => Err(code)
           case Ok(target) =>
             if r.limit > 0 && target > r.limit then Err(OutOfRange) else Ok(CapacityRange(target, r.limit))
  }

  // ----- What normalising means -----

  predicate Aligned(p: Option<Protocol>, size: int64)
    requires p.Some?
  {
    if p.value.ISCSI? || p.value.NVMeOF? then size % 512 == 0 else size % 1024 == 0
  }

  predicate WellFormed(r: CapacityRange) {
    r.required >= 0 && r.limit >= 0 && (r.limit > 0 ==> r.required <= r.limit)
  }

  /** A size that the protocol can represent, within the request and the backend's bounds. */
  predicate Fits(r: CapacityRange, p: Option<Protocol>, size: int64)
    requires p.Some?
  {
    && Aligned(p, size)
    && r.required <= size && MIN_VOLUME_SIZE <= size <= MAX_VOLUME_SIZE
    && (r.limit > 0 ==> size <= r.limit)
  }

  lemma SplitBy512(x: int)
    ensures x / 512 * 512 + x % 512 == x && 0 <= x % 512 < 512 && x / 512 * 512 % 512 == 0
  {
  }

  lemma SplitBy1024(x: int)
    ensures x / 1024 * 1024 + x % 1024 == x && 0 <= x % 1024 < 1024 && x / 1024 * 1024 % 1024 == 0
  {
  }

  lemma Multiples(q: int)
    ensures q * 512 % 512 == 0 && q * 1024 % 1024 == 0
  {
  }

  lemma QuotientSigns(x: int64, a: int64)
    requires a == 512 || a == 1024
    ensures x >= 0 ==> Quotient(x, a) as int == if a == 512 then x as int / 512 else x as int / 1024
    ensures x < 0 ==> Quotient(x, a) as int == if a == 512 then -(-(x as int) / 512) else -(-(x as int) / 1024)
  {
  }

  /** Truncating division, multiplied back: the multiple next to it on the side of zero. */
  lemma Truncates(x: int64, a: int64)
    requires a == 512 || a == 1024
    ensures var m := Quotient(x, a) as int * a as int;
            && m % a as int == 0 && -0x8000_0000_0000_0000 <= m <= 0x7FFF_FFFF_FFFF_FFFF
            && if x >= 0 then m <= x as int < m + a as int else x as int <= m < x as int + a as int
  {
    QuotientSigns(x, a);
    Multiples(Quotient(x, a) as int);
    hide Quotient;
  }

  lemma LastAligned(size: int, a: int)
    requires (a == 512 || a == 1024) && size % a == 0 && size <= 0x7FFF_FFFF_FFFF_FFFF
    ensures size <= 0x7FFF_FFFF_FFFF_FFFF - (a - 1)
  {
    if a == 512 { SplitBy512(size); } else { SplitBy1024(size); }
  }

  /** A size is representable exactly if some aligned size within the integer width covers it; what is
      then taken is the least such size. Of a negative size, which no caller has, the truncation takes
      the least one from `alignment - 1` further up. */
  lemma RepresentableMeaning(p: Option<Protocol>, required: int64)
    ensures var r := RepresentableCapacity(p, required);
            && (r.Ok? <==> p.Some? && exists size: int64 :: size >= required && Aligned(p, size))
            && (r.Err? ==> r.code == InvalidArgument)
            && (r.Ok? ==>
                  var unit := if p == Some(ISCSI) || p == Some(NVMeOF) then 512 else 1024;
                  var least := if required as int > -unit then required as int else required as int + unit - 1;
                  && Aligned(p, r.value) && least <= r.value as int < least + unit
                  && forall size: int64 :: Aligned(p, size) && size as int >= least ==> r.value <= size)
  {
    if p.Some? {
      var a := Alignment(p);
      forall size: int64 | size >= required && Aligned(p, size)
        ensures required <= 0x7FFF_FFFF_FFFF_FFFF - (a - 1)
      {
        LastAligned(size as int, a as int);
      }
      if required <= 0x7FFF_FFFF_FFFF_FFFF - (a - 1) {
        WrapsBack(required, a);
        var sum := Wrap(Wrap(required as int + a as int) as int - 1);
        Truncates(sum, a);
        hide Wrap, Quotient;
        var value := RepresentableCapacity(p, required).value;
        assert value as int == Quotient(sum, a) as int * a as int;
        assert Aligned(p, value) && value >= required;
        forall size: int64 | Aligned(p, size) && size < value ensures size as int + a as int <= value as int {
          AlignedGap(a as int, size as int, value as int);
        }
      }
    }
  }

  lemma RoundsUp(p: Option<Protocol>, required: int64)
    requires p.Some? && 0 <= required <= MAX_VOLUME_SIZE
    ensures RepresentableCapacity(p, required).Ok?
    ensures var size := RepresentableCapacity(p, required).value;
            Aligned(p, size) && required <= size <= MAX_VOLUME_SIZE && size - required < Alignment(p)
  {
    assert Aligned(p, MAX_VOLUME_SIZE);
    RepresentableMeaning(p, required);
  }

  lemma AlignedGap(a: int, small: int, large: int)
    requires (a == 512 || a == 1024) && small % a == 0 && large % a == 0 && small < large
    ensures small + a <= large
  {
  }

  /** Normalising succeeds exactly when the range is well formed, the protocol is known and some
      representable size fits; and then it takes the least such size and leaves the limit alone. What
      cannot fit is out of range, and the rest is an invalid argument. */
  lemma NormalizeMeaning(range: Option<CapacityRange>, p: Option<Protocol>)
    ensures var r := if range.Some? then range.value else CapacityRange(0, 0);
            && (Normalized(range, p).Ok? <==> WellFormed(r) && p.Some? && exists size :: Fits(r, p, size))
            && (Normalized(range, p).Ok? ==>
                  && Normalized(range, p).value.limit == r.limit
                  && Fits(r, p, Normalized(range, p).value.required)
                  && forall size :: Fits(r, p, size) ==> Normalized(range, p).value.required <= size)
            && (Normalized(range, p).Err? ==>
                  Normalized(range, p).code ==
                    if !WellFormed(r) || (p.None? && r.required <= MAX_VOLUME_SIZE) then InvalidArgument
                    else OutOfRange)
  {
    var r := if range.Some? then range.value else CapacityRange(0, 0);
    if WellFormed(r) && p.Some? {
      var required := if r.required < MIN_VOLUME_SIZE then MIN_VOLUME_SIZE else r.required;
      if required <= MAX_VOLUME_SIZE {
        RoundsUp(p, required);
        var target := RepresentableCapacity(p, required).value;
        forall size | Fits(r, p, size) ensures target <= size {
          if size < target { AlignedGap(Alignment(p) as int, size as int, target as int); }
        }
        assert Normalized(range, p).Ok? ==> Fits(r, p, target);
      }
    }
  }

  /** Normalising again changes nothing, for the same protocol or, as a clone does, from the
      default NFS to the protocol of the source. */
  lemma NormalizeIsIdempotent(range: Option<CapacityRange>, p: Option<Protocol>, q: Option<Protocol>)
    requires Normalized(range, p).Ok? && q.Some? && (q == p || p == Some(NFS))
    ensures Normalized(Some(Normalized(range, p).value), q) == Normalized(range, p)
  {
    NormalizeMeaning(range, p);
    var n := Normalized(range, p).value;
    NormalizeMeaning(Some(n), q);
    assert n.required % 1024 == 0 ==> n.required % 512 == 0 by {
      if n.required % 1024 == 0 { HalfAligned(n.required as int); }
    }
    assert Fits(n, q, n.required);
  }

  lemma HalfAligned(x: int)
    requires x % 1024 == 0
    ensures x % 512 == 0
  {
    assert x == (x / 1024) * 1024;
  }

  // ----- Expansion -----

  datatype Plan = Plan(target: int64, alreadySatisfied: bool)

  /** The range check of the RPC. */
  function ValidateExpansionRange(required: int64, limit: int64): Option<Code> {
    if required < 0 || limit < 0 then Some(InvalidArgument)
    else if limit > 0 && required > limit then Some(InvalidArgument)
    else if required == 0 && limit == 0 then Some(InvalidArgument)
    else None
  }

  /** A request asks for something: a size to reach or a limit that it can be under, or both in order. */
  predicate IsExpansionRequest(required: int64, limit: int64) {
    (required > 0 && limit == 0) || (limit > 0 && 0 <= required <= limit)
  }

  lemma ExpansionRangeIff(required: int64, limit: int64)
    ensures ValidateExpansionRange(required, limit) ==
              if IsExpansionRequest(required, limit) then None else Some(InvalidArgument)
  {
  }

  function PlanExpansion(p: Option<Protocol>, current: Option<uint64>, required: int64, limit: int64): Result<Plan> {
    if required > MAX_VOLUME_SIZE then Err(OutOfRange)
    else if p.None? then Err(Internal)
    else if current.Some? && current.value > 0x7FFF_FFFF_FFFF_FFFF then Err(OutOfRange)
    else if current.Some? && limit > 0 && current.value as int > limit as int then Err(OutOfRange)
    else if current.Some? && current.value as int >= required as int then Ok(Plan(current.value as int64, true))
    else if current.None? && required == 0 then Err(InvalidArgument)
    else
      match RepresentableCapacity(p, if required < MIN_VOLUME_SIZE then MIN_VOLUME_SIZE else required)
      case Err(_) => Err(InvalidArgument)
      case Ok(target) => if limit > 0 && target > limit then Err(OutOfRange) else Ok(Plan(target, false))
  }

  /** A plan never shrinks a volume, never exceeds a limit, and grows it to the least size that
      fits; it is refused exactly when no capacity at or above the current one would do. */
  lemma PlanMeaning(p: Option<Protocol>, current: Option<uint64>, required: int64, limit: int64)
    requires IsExpansionRequest(required, limit)
    ensures var plan := PlanExpansion(p, current, required, limit);
            && (plan.Ok? ==>
                  && plan.value.target >= required
                  && (limit > 0 ==> plan.value.target <= limit)
                  && (current.Some? ==> plan.value.target as int >= current.value as int)
                  && (plan.value.alreadySatisfied <==> current.Some? && current.value as int >= required as int)
                  && (plan.value.alreadySatisfied ==> plan.value.target as int == current.value as int)
                  && (!plan.value.alreadySatisfied ==>
                        && p.Some? && Fits(CapacityRange(required, limit), p, plan.value.target)
                        && forall size :: Fits(CapacityRange(required, limit), p, size) ==> plan.value.target <= size))
            && (plan.Ok? <==>
                  && p.Some? && required <= MAX_VOLUME_SIZE
                  && (if current.Some? && current.value as int >= required as int
                      then
                        && current.value <= 0x7FFF_FFFF_FFFF_FFFF
                        && (limit > 0 ==> current.value as int <= limit as int)
                      else
                        && (current.None? ==> required > 0)
                        && exists size :: Fits(CapacityRange(required, limit), p, size)))
            && (plan.Err? ==>
                  plan.code == if required > MAX_VOLUME_SIZE then OutOfRange else if p.None? then Internal
                               else if current.None? && required == 0 then InvalidArgument else OutOfRange)
  {
    if p.Some? && required <= MAX_VOLUME_SIZE {
      var least := if required < MIN_VOLUME_SIZE then MIN_VOLUME_SIZE else required;
      RoundsUp(p, least);
      var target := RepresentableCapacity(p, least).value;
      forall size | Fits(CapacityRange(required, limit), p, size) ensures target <= size {
        if size < target { AlignedGap(Alignment(p) as int, size as int, target as int); }
      }
      if limit == 0 || target <= limit { assert Fits(CapacityRange(required, limit), p, target); }
    }
  }

  /** The capacities of a volume over a run of successful expansions. */
  ghost predicate IsExpansionRun(p: Option<Protocol>, requests: seq<CapacityRange>, capacities: seq<uint64>) {
    && |capacities| == |requests| + 1
    && forall i :: 0 <= i < |requests| ==>
         && IsExpansionRequest(requests[i].required, requests[i].limit)
         && PlanExpansion(p, Some(capacities[i]), requests[i].required, requests[i].limit).Ok?
         && capacities[i + 1] as int ==
            PlanExpansion(p, Some(capacities[i]), requests[i].required, requests[i].limit).value.target as int
  }

  /** Capacity never falls over a run, at the end it satisfies every request of the run, and a
      capacity that differs from the first is representable and within the backend's ceiling. */
  lemma {:induction false} ExpansionsOnlyGrow(p: Option<Protocol>, requests: seq<CapacityRange>,
                                              capacities: seq<uint64>, i: nat, j: nat)
    requires IsExpansionRun(p, requests, capacities) && i <= j < |capacities|
    ensures capacities[i] <= capacities[j]
    ensures i < j ==> capacities[j] as int >= requests[i].required as int
    ensures capacities[j] != capacities[i] ==>
              p.Some? && capacities[j] as int <= MAX_VOLUME_SIZE as int && Aligned(p, capacities[j] as int64)
    decreases j
  {
    if i < j {
      ExpansionsOnlyGrow(p, requests, capacities, i, j - 1);
      var r := requests[j - 1];
      PlanMeaning(p, Some(capacities[j - 1]), r.required, r.limit);
      assert capacities[j - 1 + 1] as int ==
               PlanExpansion(p, Some(capacities[j - 1]), r.required, r.limit).value.target as int;
    }
  }

  // ----- Sizing a clone -----

  /** The size a clone ends up with: `current` is the capacity the backend reports of it, `resized`
      what it reports after the resize to the larger of that and the requested size. */
  function ClonedCapacity(required: int, limit: int, current: Result<Option<uint64>>,
                          resized: Result<Option<uint64>>): Result<int>
  {
    if current.Err? || current.value.None? || current.value.value > 0x7FFF_FFFF_FFFF_FFFF then Err(Internal)
    else
      var currentBytes := current.value.value as int;
      if limit > 0 && currentBytes > limit then Err(OutOfRange)
      else if resized.Err? || (resized.value.Some? && resized.value.value > 0x7FFF_FFFF_FFFF_FFFF) then Err(Internal)
      else
        var size := if resized.value.Some? then resized.value.value as int
                    else if currentBytes < required then required else currentBytes;
        if size < required then Err(Internal)
        else if limit > 0 && size > limit then Err(OutOfRange)
        else Ok(size)
  }

  /** A size is accepted exactly when the clone's own size is reported, is within the integer width and
      the limit, and the resize, if it reports a size, reports one that is too and covers the request;
      and what is too large is told apart from what cannot be established. */
  lemma ClonedCapacityIff(required: int, limit: int, current: Result<Option<uint64>>, resized: Result<Option<uint64>>)
    ensures var r := ClonedCapacity(required, limit, current, resized);
            var reported := current.Ok? && current.value.Some? && current.value.value as int < 0x8000_0000_0000_0000;
            var had := if reported then current.value.value as int else 0;
            var fits := reported && (limit <= 0 || had <= limit);
            var answered := && fits && resized.Ok?
                            && (resized.value.None? || resized.value.value as int < 0x8000_0000_0000_0000);
            var got := if !answered then 0 else if resized.value.Some? then resized.value.value as int
                       else if required > had then required else had;
            && (r.Ok? <==> answered && got >= required && (limit <= 0 || got <= limit))
            && (r.Ok? ==> r.value == got)
            && (r == Err(OutOfRange) <==>
                  (reported && limit > 0 && had > limit) || (answered && got >= required && limit > 0 && got > limit))
            && (r.Err? ==> r.code in {OutOfRange, Internal})
  {
  }

  /** A size that is accepted covers the request, respects the limit, and is what the backend
      reported last, or, if it did not, at least what it had. */
  lemma ClonedCapacityMeaning(required: int, limit: int, current: Result<Option<uint64>>,
                              resized: Result<Option<uint64>>)
    requires ClonedCapacity(required, limit, current, resized).Ok?
    ensures var size := ClonedCapacity(required, limit, current, resized).value;
            && required <= size
            && (limit > 0 ==> size <= limit)
            && (resized.value.Some? ==> size == resized.value.value as int)
            && (resized.value.None? ==> size >= current.value.value as int)
  {
  }

  // ----- Operations on a request -----

  class CreateVolumeRequest {
    var capacityRange: Option<CapacityRange>

    constructor (range: Option<CapacityRange>)
      ensures capacityRange == range
    {
      capacityRange := range;
    }

    method NormalizeCreateCapacity(p: Option<Protocol>) returns (failure: Option<Code>)
      modifies this
      ensures failure ==
                if Normalized(old(capacityRange), p).Ok? then None else Some(Normalized(old(capacityRange), p).code)
      ensures capacityRange ==
                if failure.None? then Some(Normalized(old(capacityRange), p).value) else old(capacityRange)
    {
      var required, limit := MIN_VOLUME_SIZE, 0;
      if capacityRange.Some? {
        var requested := capacityRange.value.required;
        limit := capacityRange.value.limit;
        if requested < 0 || limit < 0 { return Some(InvalidArgument); }
        if limit > 0 && requested > limit { return Some(InvalidArgument); }
        if requested > 0 { required := requested; }
      }
      if required < MIN_VOLUME_SIZE { required := MIN_VOLUME_SIZE; }
      if required > MAX_VOLUME_SIZE { return Some(OutOfRange); }
      var target := RepresentableCapacity(p, required);
      if target.Err? { return Some(target.code); }
      if limit > 0 && target.value > limit { return Some(OutOfRange); }
      capacityRange := Some(CapacityRange(target.value, limit));
      return None;
    }

    /** Sizing a clone, as above. Success means that the request now asks for the very size that is
        returned to be recorded. */
    method EnsureClonedVolumeCapacity(current: Result<Option<uint64>>, resized: Result<Option<uint64>>)
      returns (selected: Result<int64>)
      requires capacityRange.Some?
      modifies this
      ensures var r := old(capacityRange).value;
              var size := ClonedCapacity(r.required as int, r.limit as int, current, resized);
              match size
              case Err(code) => selected == Err(code) && capacityRange == old(capacityRange)
              case Ok(bytes) =>
                && selected.Ok? && selected.value as int == bytes
                && capacityRange == Some(CapacityRange(selected.value, r.limit))
    {
      if current.Err? { return Err(Internal); }
      if current.value.None? || current.value.value > 0x7FFF_FFFF_FFFF_FFFF { return Err(Internal); }
      var currentBytes := current.value.value as int64;
      var target, limit := capacityRange.value.required, capacityRange.value.limit;
      if limit > 0 && currentBytes > limit { return Err(OutOfRange); }
      var size := currentBytes;
      if size < target { size := target; }
      if resized.Err? { return Err(Internal); }
      if resized.value.Some? {
        if resized.value.value > 0x7FFF_FFFF_FFFF_FFFF { return Err(Internal); }
        size := resized.value.value as int64;
      }
      if size < target { return Err(Internal); }
      if limit > 0 && size > limit { return Err(OutOfRange); }
      capacityRange := Some(CapacityRange(size, limit));
      return Ok(size);
    }
  }
}
