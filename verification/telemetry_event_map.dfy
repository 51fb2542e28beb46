/**
 * The TelemetryEvent bit-flag set (Source/common/TelemetryEventMap.h): an
 * enumeration over a uint64 whose operators work bit by bit on the
 * underlying value.
 */
module TelemetryEventMap {

  /** The underlying uint64 of the enumeration. */
  type TelemetryEvent = bv64

  const None: TelemetryEvent := 0
  const Execution: TelemetryEvent := 1 << 0
  const Fork: TelemetryEvent := 1 << 1
  const Exit: TelemetryEvent := 1 << 2
  const Close: TelemetryEvent := 1 << 3
  const Rename: TelemetryEvent := 1 << 4
  const Unlink: TelemetryEvent := 1 << 5
  const Link: TelemetryEvent := 1 << 6
  const ExchangeData: TelemetryEvent := 1 << 7
  const Disk: TelemetryEvent := 1 << 8
  const Bundle: TelemetryEvent := 1 << 9
  const Allowlist: TelemetryEvent := 1 << 10
  const FileAccess: TelemetryEvent := 1 << 11
  const CodesigningInvalidated: TelemetryEvent := 1 << 12
  const LoginWindowSession: TelemetryEvent := 1 << 13
  const LoginLogout: TelemetryEvent := 1 << 14
  const ScreenSharing: TelemetryEvent := 1 << 15
  const OpenSSH: TelemetryEvent := 1 << 16
  const Authentication: TelemetryEvent := 1 << 17
  const Clone: TelemetryEvent := 1 << 18
  const Copyfile: TelemetryEvent := 1 << 19
  /** `~0ULL`: every bit set. */
  const Everything: TelemetryEvent := !0

  /** The single-event enumerators, in declaration order (bit 0 to bit 19). */
  const SingleEvents: seq<TelemetryEvent> := [
    Execution, Fork, Exit, Close, Rename, Unlink, Link, ExchangeData, Disk,
    Bundle, Allowlist, FileAccess, CodesigningInvalidated, LoginWindowSession,
    LoginLogout, ScreenSharing, OpenSSH, Authentication, Clone, Copyfile
  ]

  /** Every event of `events` is also in `x`. */
  predicate Includes(x: TelemetryEvent, events: TelemetryEvent) {
    x & events == events
  }

  /**
   * `operator|`: the events of either operand; the smallest flag set that
   * includes both.
   */
  function Or(lhs: TelemetryEvent, rhs: TelemetryEvent): (r: TelemetryEvent)
    ensures r & lhs == lhs && r & rhs == rhs
  {
    lhs | rhs
  }

  /** No flag set that includes both operands is smaller than their `|`. */
  lemma OrIsLeast(lhs: TelemetryEvent, rhs: TelemetryEvent, x: TelemetryEvent)
    requires Includes(x, lhs) && Includes(x, rhs)
    ensures Includes(x, Or(lhs, rhs))
  {
  }

  /** `operator&`: the events common to both operands. */
  function And(lhs: TelemetryEvent, rhs: TelemetryEvent): (r: TelemetryEvent)
    ensures lhs & r == r && rhs & r == r
  {
    lhs & rhs
  }

  /** A flag set is included in the `&` exactly when both operands include it. */
  lemma AndIsMeet(lhs: TelemetryEvent, rhs: TelemetryEvent, e: TelemetryEvent)
    ensures Includes(And(lhs, rhs), e) <==> Includes(lhs, e) && Includes(rhs, e)
  {
    assert Includes(lhs & rhs, e) ==> Includes(lhs, e);
  }

  /**
   * `operator~`: every event the operand does not hold; it shares no event
   * with the operand, and together they make kEverything.
   */
  function Not(rhs: TelemetryEvent): (r: TelemetryEvent)
    ensures r & rhs == None && r | rhs == Everything
  {
    !rhs
  }

  /**
   * `operator|=` assigns `lhs | rhs` to its left operand and returns a
   * reference to it: the stored value and the returned value are one.
   */
  function OrAssign(lhs: TelemetryEvent, rhs: TelemetryEvent): (r: (TelemetryEvent, TelemetryEvent))
    ensures r.0 == r.1 == Or(lhs, rhs)
  {
    var stored := Or(lhs, rhs); (stored, stored)
  }

  /** `operator&=`, likewise for `&`. */
  function AndAssign(lhs: TelemetryEvent, rhs: TelemetryEvent): (r: (TelemetryEvent, TelemetryEvent))
    ensures r.0 == r.1 == And(lhs, rhs)
  {
    var stored := And(lhs, rhs); (stored, stored)
  }

  /** Exactly one bit of `x` is set. */
  predicate IsSingleBit(x: TelemetryEvent) {
    x != 0 && x & (x - 1) == 0
  }

  /** Each enumerator from kExecution to kCopyfile is a single bit. */
  lemma SingleEventIsBit(i: nat)
    requires i < |SingleEvents|
    ensures IsSingleBit(SingleEvents[i])
  {
  }

  /** The enumerators grow strictly with their bit position. */
  lemma SingleEventsIncreasing(i: nat, j: nat)
    requires i < j < |SingleEvents|
    ensures SingleEvents[i] < SingleEvents[j]
  {
  }

  /** Two different single-bit flags share no bit. */
  lemma SingleBitsDisjoint(a: TelemetryEvent, b: TelemetryEvent)
    requires IsSingleBit(a) && IsSingleBit(b) && a != b
    ensures And(a, b) == None
  {
  }

  /** Distinct enumerators are distinct values and share no bit. */
  lemma SingleEventsDisjoint(i: nat, j: nat)
    requires i < |SingleEvents| && j < |SingleEvents| && i != j
    ensures SingleEvents[i] != SingleEvents[j]
    ensures And(SingleEvents[i], SingleEvents[j]) == None
  {
    SingleEventIsBit(i);
    SingleEventIsBit(j);
    if i < j { SingleEventsIncreasing(i, j); } else { SingleEventsIncreasing(j, i); }
    SingleBitsDisjoint(SingleEvents[i], SingleEvents[j]);
  }

  /** kNone and kEverything are the identities of `|` and `&`. */
  lemma Identities(x: TelemetryEvent)
    ensures Or(x, None) == x && And(x, Everything) == x
    ensures Or(x, Everything) == Everything && And(x, None) == None
  {
  }

  /** `~` is an involution that swaps kNone and kEverything. */
  lemma ComplementLaws(x: TelemetryEvent)
    ensures Not(Everything) == None && Not(None) == Everything
    ensures Not(Not(x)) == x
    ensures And(x, Not(x)) == None && Or(x, Not(x)) == Everything
  {
  }
}
