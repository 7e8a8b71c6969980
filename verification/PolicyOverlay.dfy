/** The embedded scaling policy of a function: validation, defaults, and the admin-only field. */
module PolicyOverlay {
  import opened Common

  /** A policy object with any subset of its keys; `runtimeConfig` may itself lack its only key. */
  datatype Policy = Policy(
    nvidiaReplica: Option<int>, minReplica: Option<int>, maxReplica: Option<int>, standbyPerNode: Option<int>,
    parallel: Option<int>, queueLen: Option<int>, queueTimeout: Option<real>, scaleinTimeout: Option<real>,
    waitRatio: Option<real>, runtimeConfig: Option<Option<bool>>)

  const EMPTY := Policy(None, None, None, None, None, None, None, None, None, None)

  const DEFAULTS := Policy(None, Some(0), Some(1), Some(1), Some(50), Some(100), Some(30.0), Some(1.0), Some(0.1), Some(Some(false)))

  predicate AtLeast(v: Option<int>, minimum: int) {
    v.Some? ==> v.value >= minimum
  }

  predicate NotNegative(v: Option<real>) {
    v.Some? ==> v.value >= 0.0
  }

  /** Without admin rights the backend-managed field is dropped before anything is checked. */
  function Visible(p: Policy, admin: bool): Policy {
    if admin then p else p.(nvidiaReplica := None)
  }

  predicate InRange(p: Policy) {
    && AtLeast(p.nvidiaReplica, 0) && AtLeast(p.minReplica, 0) && AtLeast(p.maxReplica, 0)
    && AtLeast(p.standbyPerNode, 0) && AtLeast(p.parallel, 1) && AtLeast(p.queueLen, 1)
    && NotNegative(p.queueTimeout) && NotNegative(p.scaleinTimeout) && NotNegative(p.waitRatio)
  }

  predicate Ordered(p: Policy) {
    p.minReplica.Some? && p.maxReplica.Some? ==> p.minReplica.value <= p.maxReplica.value
  }

  function Normalize(p: Policy, admin: bool): Result<Policy> {
    var q := Visible(p, admin);
    if InRange(q) && Ordered(q) then Ok(q) else Err
  }

  function Or<T>(a: Option<T>, b: Option<T>): Option<T> {
    if a.Some? then a else b
  }

  /** `below.update(above)`. */
  function Overlay(below: Policy, above: Policy): Policy {
    Policy(Or(above.nvidiaReplica, below.nvidiaReplica), Or(above.minReplica, below.minReplica),
           Or(above.maxReplica, below.maxReplica), Or(above.standbyPerNode, below.standbyPerNode),
           Or(above.parallel, below.parallel), Or(above.queueLen, below.queueLen),
           Or(above.queueTimeout, below.queueTimeout), Or(above.scaleinTimeout, below.scaleinTimeout),
           Or(above.waitRatio, below.waitRatio), Or(above.runtimeConfig, below.runtimeConfig))
  }

  function BuildFull(p: Policy, admin: bool): Result<Policy> {
    match Normalize(p, admin)
    case Err => Err
    case Ok(q) => Normalize(Overlay(DEFAULTS, q), admin)
  }

  predicate Complete(p: Policy) {
    && p.minReplica.Some? && p.maxReplica.Some? && p.standbyPerNode.Some? && p.parallel.Some? && p.queueLen.Some?
    && p.queueTimeout.Some? && p.scaleinTimeout.Some? && p.waitRatio.Some? && p.runtimeConfig.Some?
  }

  /** A built policy is complete, keeps every visible submitted field, and is its own build, with or without admin rights. */
  lemma BuildFullIsFixpoint(p: Policy, admin: bool)
    ensures match BuildFull(p, admin)
            case Err => true
            case Ok(f) =>
              && Complete(f)
              && f == Overlay(DEFAULTS, Visible(p, admin))
              && Normalize(f, true) == Ok(f)
              && BuildFull(f, true) == Ok(f)
              && (!admin ==> f.nvidiaReplica == None && BuildFull(f, false) == Ok(f))
  {
    if BuildFull(p, admin).Ok? {
      var f := BuildFull(p, admin).value;
      CompleteHidesDefaults(f);
    }
  }

  lemma CompleteHidesDefaults(f: Policy)
    requires Complete(f)
    ensures Overlay(DEFAULTS, f) == f && forall below: Policy :: below.nvidiaReplica == None ==> Overlay(below, f) == f
  {
  }

  /** Building is refused exactly when a visible field is out of range or the effective maximum is below the effective minimum. */
  lemma BuildFullFailsIff(p: Policy, admin: bool)
    ensures BuildFull(p, admin).Err? <==>
            var q := Visible(p, admin);
            !InRange(q) || Or(q.maxReplica, Some(1)).value < Or(q.minReplica, Some(0)).value
  {
  }
}
