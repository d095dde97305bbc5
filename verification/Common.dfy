/** Result types, 64-bit words and checked arithmetic shared by every component. */
module Common {

  datatype Option<+T> = None | Some(value: T)

  datatype Result<+T, +E> = Ok(value: T) | Err(error: E)

  /** The error codes a modelled operation can report. Message texts are not modelled. */
  datatype ErrorCode =
    | ArithmeticOverflow
    | CapacityExceeded
    | ConflictingEvidence
    | ConservationViolation
    | CorrectionLimitReached
    | DuplicateDefinition
    | IncompatibleMeasureKind
    | InvalidArgument
    | MalformedJson
    | MalformedTimestamp
    | MetadataTooLarge
    | ManifestCorrupt
    | ManifestMissing
    | NoSuchRevision
    | OverAttribution
    | OverlappingIncarnations
    | PayloadTooLarge
    | PeriodAlreadyClosed
    | PeriodNotClosed
    | QueueClosed
    | QueueFull
    | ResourceInMultipleScopes
    | SchemaViolation
    | ScopeCycleDetected
    | SegmentCorrupt
    | SegmentMissing
    | StoreFormatMismatch
    | StoreReadOnly
    | TooManyItems
    | UnknownGeneration
    | UnknownPeriod
    | UnknownResource
    | UnknownScope
    | UnknownSource

  const U64_MAX: int := 0xFFFF_FFFF_FFFF_FFFF
  const I64_MAX: int := 0x7FFF_FFFF_FFFF_FFFF
  const I64_MIN: int := -0x8000_0000_0000_0000

  /** Mentioned to bring in a definition that is kept folded under a quantifier. */
  predicate Unfold(now: bool) {
    true
  }

  /** The longest label of any definition, in bytes. */
  const MAX_LABEL: nat := 256

  type U64 = x: int | 0 <= x <= U64_MAX

  type I64 = x: int | I64_MIN <= x <= I64_MAX

  predicate FitsU64(x: int) {
    0 <= x <= U64_MAX
  }

  predicate FitsI64(x: int) {
    I64_MIN <= x <= I64_MAX
  }

  /** The unsigned word a signed one is cast to, and back. */
  function AsUnsigned(x: I64): U64 {
    if x >= 0 then x else x + U64_MAX + 1
  }

  function AsSigned(x: U64): I64 {
    if x <= I64_MAX then x else x - U64_MAX - 1
  }

  /** Unsigned 64-bit addition as the hardware performs it. */
  function WrapAdd(a: U64, b: U64): U64 {
    (a + b) % (U64_MAX + 1)
  }

  function AddChecked(a: U64, b: U64): (r: Option<U64>)
    ensures r.Some? <==> FitsU64(a + b)
    ensures r.Some? ==> r.value == a + b
  {
    if a > U64_MAX - b then None else Some(a + b)
  }

  /** The division guard of mul_checked refuses exactly the products that do not fit. */
  function MulChecked(a: U64, b: U64): (r: Option<U64>)
    ensures r.Some? <==> FitsU64(a * b)
    ensures r.Some? ==> r.value == a * b
  {
    if a == 0 || b == 0 then
      assert a * b == 0;
      Some(0)
    else
      DivisionGuard(a, b);
      if a > U64_MAX / b then None else Some(a * b)
  }

  lemma DivisionGuard(a: int, b: int)
    requires a > 0 && b > 0
    ensures 0 < a * b
    ensures a > U64_MAX / b <==> a * b > U64_MAX
  {
    var q, r := U64_MAX / b, U64_MAX % b;
    assert U64_MAX == q * b + r && 0 <= r < b;
    if a > q {
      assert a * b >= (q + 1) * b == q * b + b;
    } else {
      assert a * b <= q * b;
    }
  }
}
