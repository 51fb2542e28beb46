/**
 * Watch-item policy value types (Source/santad/DataLayer/WatchItemPolicy.h):
 * the process matcher, the policy base with its normalising constructor, and
 * the data and process policies with their equality operators.
 */
module WatchItemPolicy {
  import opened Wrappers

  newtype byte = b: int | 0 <= b < 256

  datatype PathType = Prefix | Literal
  datatype RuleType = PathsWithAllowedProcesses | PathsWithDeniedProcesses

  /** Default constructor arguments of every policy. */
  const DefaultPathType: PathType := Literal
  const DefaultAllowReadAccess: bool := false
  const DefaultAuditOnly: bool := true
  const DefaultRuleType: RuleType := PathsWithAllowedProcesses
  const DefaultEnableSilentMode: bool := false
  const DefaultEnableSilentTTYMode: bool := false

  /**
   * An Objective-C `NSString *` argument: `None` is `nil`. Sending `length`
   * to `nil` yields 0, as for the empty string.
   */
  type NSString = Option<string>

  function NSStringLength(s: NSString): nat {
    match s
    case None => 0
    case Some(text) => |text|
  }

  datatype WatchItemProcess = WatchItemProcess(
    binaryPath: string,
    signingId: string,
    teamId: string,
    cdhash: seq<byte>,
    certificateSha256: string,
    platformBinary: Option<bool>)

  /** `std::optional<bool>::value_or`. */
  function ValueOr(o: Option<bool>, default: bool): bool {
    match o
    case None => default
    case Some(b) => b
  }

  /**
   * `WatchItemProcess::operator==`: field by field, with the optional
   * platform_binary compared by presence and by `value_or(false)`. This is
   * exactly structural equality.
   */
  function ProcessEquals(a: WatchItemProcess, b: WatchItemProcess): (r: bool)
    ensures r <==> a == b
  {
    && a.binaryPath == b.binaryPath
    && a.signingId == b.signingId
    && a.teamId == b.teamId
    && a.cdhash == b.cdhash
    && a.certificateSha256 == b.certificateSha256
    && a.platformBinary.Some? == b.platformBinary.Some?
    && ValueOr(a.platformBinary, false) == ValueOr(b.platformBinary, false)
  }

  /** `WatchItemProcess::operator!=`. */
  function ProcessNotEquals(a: WatchItemProcess, b: WatchItemProcess): (r: bool)
    ensures r <==> a != b
  {
    !ProcessEquals(a, b)
  }

  /**
   * `std::vector<WatchItemProcess>::operator==`: equal lengths and
   * element-wise `WatchItemProcess::operator==`.
   */
  function ProcessesEqual(xs: seq<WatchItemProcess>, ys: seq<WatchItemProcess>): (r: bool)
    ensures r <==> xs == ys
  {
    if |xs| != |ys| then false
    else if xs == [] then true
    else ProcessEquals(xs[0], ys[0]) && ProcessesEqual(xs[1..], ys[1..])
  }

  datatype PolicyBase = PolicyBase(
    name: string,
    version: string,
    allowReadAccess: bool,
    auditOnly: bool,
    ruleType: RuleType,
    silent: bool,
    silentTty: bool,
    customMessage: Option<string>,
    eventDetailUrl: Option<string>,
    eventDetailText: Option<string>)

  /**
   * The `WatchItemPolicyBase` constructor. An empty custom message is
   * dropped; the event-detail URL is dropped only for `nil` (an empty string
   * is kept, so a rule can hide the button); the event-detail text is
   * dropped for `nil` and for the empty string.
   */
  function MakePolicyBase(
    n: string, v: string, ara: bool, ao: bool, rt: RuleType, esm: bool, estm: bool,
    cm: string, edu: NSString, edt: NSString): (p: PolicyBase)
    ensures p.name == n && p.version == v
    ensures p.allowReadAccess == ara && p.auditOnly == ao && p.ruleType == rt
    ensures p.silent == esm && p.silentTty == estm
    ensures p.customMessage == None <==> cm == []
    ensures p.customMessage.Some? ==> p.customMessage.value == cm
    ensures p.eventDetailUrl == edu
    ensures p.eventDetailText == None <==> (edt == None || edt == Some([]))
    ensures p.eventDetailText.Some? ==> p.eventDetailText == edt
  {
    PolicyBase(
      n, v, ara, ao, rt, esm, estm,
      if |cm| == 0 then None else Some(cm),
      if edu == None then None else Some(edu.value),
      if NSStringLength(edt) == 0 then None else Some(edt.value))
  }

  /** The constructor called with only a name and a version. */
  function MakeDefaultPolicyBase(n: string, v: string): (p: PolicyBase)
    ensures p.allowReadAccess == false && p.auditOnly == true
    ensures p.ruleType == PathsWithAllowedProcesses
    ensures p.silent == false && p.silentTty == false
    ensures p.customMessage == None && p.eventDetailUrl == None && p.eventDetailText == None
  {
    MakePolicyBase(n, v, DefaultAllowReadAccess, DefaultAuditOnly, DefaultRuleType,
                   DefaultEnableSilentMode, DefaultEnableSilentTTYMode, "", None, None)
  }

  /**
   * A policy object by its dynamic type: a plain `WatchItemPolicyBase`, a
   * `DataWatchItemPolicy` or a `ProcessWatchItemPolicy`. The process
   * policy's prefix tree of paths is not part of this model.
   */
  datatype Policy =
    | Base(base: PolicyBase)
    | Data(base: PolicyBase, path: string, pathType: PathType, processes: seq<WatchItemProcess>)
    | Process(base: PolicyBase, processes: seq<WatchItemProcess>)

  /** `DataWatchItemPolicy`'s constructor with its default arguments. */
  function MakeDefaultDataPolicy(n: string, v: string, p: string): (r: Policy)
    ensures r.Data? && r.path == p && r.pathType == Literal && r.processes == []
    ensures r.base == MakeDefaultPolicyBase(n, v)
  {
    Data(MakeDefaultPolicyBase(n, v), p, DefaultPathType, [])
  }

  /**
   * `WatchItemPolicyBase::operator==`: name, version, allow_read_access,
   * audit_only, rule_type, silent and silent_tty. The custom message and the
   * event-detail URL and text are ignored.
   */
  function BaseEquals(a: PolicyBase, b: PolicyBase): (r: bool)
    ensures r <==> (a.(customMessage := None, eventDetailUrl := None, eventDetailText := None) ==
                    b.(customMessage := None, eventDetailUrl := None, eventDetailText := None))
  {
    && a.name == b.name
    && a.version == b.version
    && a.allowReadAccess == b.allowReadAccess
    && a.auditOnly == b.auditOnly
    && a.ruleType == b.ruleType
    && a.silent == b.silent
    && a.silentTty == b.silentTty
  }

  /**
   * The virtual `operator==` called on `self`: `DataWatchItemPolicy`
   * overrides it (the other object must also be a data policy, and path
   * type, path and processes must match); the base class and
   * `ProcessWatchItemPolicy`, which has no override, compare base fields only.
   */
  function PolicyEquals(self: Policy, other: Policy): (r: bool)
    ensures self.Data? ==>
              (r <==> (&& other.Data?
                       && BaseEquals(self.base, other.base)
                       && self.pathType == other.pathType
                       && self.path == other.path
                       && self.processes == other.processes))
    ensures !self.Data? ==> (r <==> BaseEquals(self.base, other.base))
  {
    match self
    case Data(base, path, pathType, processes) =>
      (match other
       case Data(otherBase, otherPath, otherPathType, otherProcesses) =>
         BaseEquals(base, otherBase) && pathType == otherPathType && path == otherPath
         && ProcessesEqual(processes, otherProcesses)
       case _ => false)
    case _ => BaseEquals(self.base, other.base)
  }

  /**
   * The virtual `operator!=`, always the negation of `operator==`: policies
   * with different base fields always differ, and a data policy differs from
   * every policy of another kind.
   */
  function PolicyNotEquals(self: Policy, other: Policy): (r: bool)
    ensures r <==> !PolicyEquals(self, other)
    ensures !BaseEquals(self.base, other.base) ==> r
    ensures self.Data? && !other.Data? ==> r
  {
    !PolicyEquals(self, other)
  }

  /** Equality is reflexive for every kind of policy. */
  lemma PolicyEqualsReflexive(p: Policy)
    ensures PolicyEquals(p, p)
  {
  }

  /**
   * Because the dispatch is on the left operand only, equality is not
   * symmetric across kinds: a process policy equals a data policy with the
   * same base fields, but not the other way round.
   */
  lemma PolicyEqualsNotSymmetric(base: PolicyBase, path: string)
    ensures PolicyEquals(Process(base, []), Data(base, path, Literal, []))
    ensures !PolicyEquals(Data(base, path, Literal, []), Process(base, []))
  {
  }

  /** Two policies that differ only in their messages compare equal. */
  lemma MessagesIgnored(p: Policy, cm: Option<string>, edu: Option<string>, edt: Option<string>)
    ensures PolicyEquals(p, p.(base := p.base.(customMessage := cm, eventDetailUrl := edu, eventDetailText := edt)))
  {
  }
}
