/** What the package and Kiosk ledgers share: lifecycles, target preflight, the ordering of targets
    by device id, and counting. */
module Ledger {
  import opened Basics

  datatype Lifecycle =
    | Proposed | Accepted | Dispatched | Running | Applied | Failed | Expired | Rejected
    | CancellationRequested | Cancelled
    | OtherLifecycle(text: string)

  datatype Fact = Yes | No | Restrained | Unsure

  /** The capability facts of one target: `Yes` stands for supported, enabled, authorized, reachable
      and current, `No` for the plain opposite, `Restrained` for restricted or unavailable. */
  datatype Facts = Facts(
    support: Fact, enablement: Fact, authorization: Fact, reachability: Fact, freshness: Fact,
    observedAtMs: int, freshUntilMs: int, evaluatedAtMs: int)

  datatype Reason =
    | Ready
    | Unsupported | SupportUnknown
    | Disabled | EnablementUnknown
    | Unauthorized | Restricted | AuthorizationUnknown
    | Disconnected | Unavailable | ReachabilityUnknown
    | FreshnessUnknown | Stale

  datatype Preflight = Preflight(
    deviceId: string, identityRevision: int, facts: Facts, reason: Reason, eligible: bool, sound: bool)

  /** The facts each field may hold. */
  predicate KnownFacts(f: Facts) {
    && f.support != Restrained && f.enablement != Restrained && f.freshness != Restrained
  }

  function ExpectedReason(f: Facts): Reason {
    match f.support
    case No => Unsupported
    case Unsure => SupportUnknown
    case _ =>
      match f.enablement
      case No => Disabled
      case Unsure => EnablementUnknown
      case _ =>
        match f.authorization
        case No => Unauthorized
        case Restrained => Restricted
        case Unsure => AuthorizationUnknown
        case Yes =>
          match f.reachability
          case No => Disconnected
          case Restrained => Unavailable
          case Unsure => ReachabilityUnknown
          case Yes =>
            if f.freshness == Yes && f.evaluatedAtMs <= f.freshUntilMs then Ready
            else if f.freshness == Unsure then FreshnessUnknown
            else Stale
  }

  /** `sound` carries the field checks that no property here depends on. */
  predicate ValidPreflight(p: Preflight, createdAtMs: int, expiresAtMs: int) {
    && p.sound && p.identityRevision > 0 && KnownFacts(p.facts)
    && p.facts.freshUntilMs >= p.facts.observedAtMs && p.facts.evaluatedAtMs >= p.facts.observedAtMs
    && createdAtMs <= p.facts.evaluatedAtMs <= expiresAtMs
    && p.reason == ExpectedReason(p.facts) && p.eligible == (p.reason == Ready)
  }

  /** A target is eligible exactly when every fact is at its best and still fresh when evaluated. */
  lemma EligibleIff(p: Preflight, createdAtMs: int, expiresAtMs: int)
    requires ValidPreflight(p, createdAtMs, expiresAtMs)
    ensures p.eligible <==>
            && p.facts.support == p.facts.enablement == p.facts.authorization == Yes
            && p.facts.reachability == p.facts.freshness == Yes
            && p.facts.evaluatedAtMs <= p.facts.freshUntilMs
  {
  }

  /** What each reason says of the facts: the first of the five that is not at its best decides. */
  predicate Explains(f: Facts, r: Reason) {
    match r
    case Unsupported => f.support == No
    case SupportUnknown => f.support == Unsure
    case Disabled => f.support == Yes && f.enablement == No
    case EnablementUnknown => f.support == Yes && f.enablement == Unsure
    case Unauthorized => f.support == f.enablement == Yes && f.authorization == No
    case Restricted => f.support == f.enablement == Yes && f.authorization == Restrained
    case AuthorizationUnknown => f.support == f.enablement == Yes && f.authorization == Unsure
    case Disconnected => f.support == f.enablement == f.authorization == Yes && f.reachability == No
    case Unavailable => f.support == f.enablement == f.authorization == Yes && f.reachability == Restrained
    case ReachabilityUnknown => f.support == f.enablement == f.authorization == Yes && f.reachability == Unsure
    case FreshnessUnknown =>
      f.support == f.enablement == f.authorization == f.reachability == Yes && f.freshness == Unsure
    case Stale =>
      && f.support == f.enablement == f.authorization == f.reachability == Yes
      && (f.freshness == No || (f.freshness == Yes && f.freshUntilMs < f.evaluatedAtMs))
    case Ready =>
      && f.support == f.enablement == f.authorization == f.reachability == f.freshness == Yes
      && f.evaluatedAtMs <= f.freshUntilMs
  }

  /** Exactly which preflights are accepted. */
  lemma PreflightIff(p: Preflight, createdAtMs: int, expiresAtMs: int)
    ensures ValidPreflight(p, createdAtMs, expiresAtMs) <==>
            && p.sound && 0 < p.identityRevision
            && p.facts.support in {Yes, No, Unsure} && p.facts.enablement in {Yes, No, Unsure}
            && p.facts.freshness in {Yes, No, Unsure}
            && p.facts.observedAtMs <= p.facts.freshUntilMs && p.facts.observedAtMs <= p.facts.evaluatedAtMs
            && createdAtMs <= p.facts.evaluatedAtMs && p.facts.evaluatedAtMs <= expiresAtMs
            && Explains(p.facts, p.reason) && (p.eligible <==> p.reason == Ready)
  {
  }

  // ---------------------------------------------------------------- ordinal order

  predicate OrdinalLess(a: string, b: string) {
    if b == "" then false
    else if a == "" then true
    else a[0] < b[0] || (a[0] == b[0] && OrdinalLess(a[1..], b[1..]))
  }

  /** At the first place where the two texts differ, the earlier one ends or has the lesser character. */
  ghost predicate Precedes(a: string, b: string) {
    exists k :: 0 <= k <= |a| && k < |b| && a[..k] == b[..k] && (k < |a| ==> a[k] < b[k])
  }

  lemma {:induction false} OrdinalIff(a: string, b: string)
    ensures OrdinalLess(a, b) <==> Precedes(a, b)
  {
    if a != "" && b != "" && a[0] == b[0] {
      OrdinalIff(a[1..], b[1..]);
      PrecedesTail(a, b);
    } else {
      PrecedesHead(a, b);
    }
  }

  lemma PrecedesHead(a: string, b: string)
    requires a != "" && b != "" ==> a[0] != b[0]
    ensures Precedes(a, b) <==> b != "" && (a != "" ==> a[0] < b[0])
  {
    forall k | 0 < k <= |a| && k < |b| ensures a[..k] != b[..k] {
      assert a[..k][0] == a[0] && b[..k][0] == b[0];
    }
    assert a[..0] == b[..0];
  }

  lemma PrecedesTail(a: string, b: string)
    requires a != "" && b != "" && a[0] == b[0]
    ensures Precedes(a, b) <==> Precedes(a[1..], b[1..])
  {
    if k :| 0 <= k <= |a| && k < |b| && a[..k] == b[..k] && (k < |a| ==> a[k] < b[k]) {
      assert k > 0;
      assert a[1..][..k - 1] == a[..k][1..] && b[1..][..k - 1] == b[..k][1..];
    }
    if k :| 0 <= k <= |a[1..]| && k < |b[1..]| && a[1..][..k] == b[1..][..k] && (k < |a[1..]| ==> a[1..][k] < b[1..][k]) {
      assert a[..k + 1] == [a[0]] + a[1..][..k] && b[..k + 1] == [b[0]] + b[1..][..k];
    }
  }

  lemma {:induction false} OrdinalTransitive(a: string, b: string, c: string)
    requires OrdinalLess(a, b) && OrdinalLess(b, c)
    ensures OrdinalLess(a, c)
  {
    if a != "" && a[0] == b[0] == c[0] {
      OrdinalTransitive(a[1..], b[1..], c[1..]);
    }
  }

  lemma {:induction false} OrdinalIrreflexive(a: string)
    ensures !OrdinalLess(a, a)
  {
    if a != "" {
      OrdinalIrreflexive(a[1..]);
    }
  }

  predicate Ascending(ids: seq<string>) {
    forall i :: 0 < i < |ids| ==> OrdinalLess(ids[i - 1], ids[i])
  }

  lemma {:induction false} AscendingPairs(ids: seq<string>, i: nat, j: nat)
    requires Ascending(ids) && i < j < |ids|
    ensures OrdinalLess(ids[i], ids[j])
    decreases j
  {
    if i < j - 1 {
      AscendingPairs(ids, i, j - 1);
      OrdinalTransitive(ids[i], ids[j - 1], ids[j]);
    }
  }

  /** Neighbours in order is all in order. */
  lemma AscendingIff(ids: seq<string>)
    ensures Ascending(ids) <==> forall i, j :: 0 <= i < j < |ids| ==> OrdinalLess(ids[i], ids[j])
  {
    if Ascending(ids) {
      forall i, j | 0 <= i < j < |ids| ensures OrdinalLess(ids[i], ids[j]) {
        AscendingPairs(ids, i, j);
      }
    }
  }

  /** Neighbours in order means no device twice. */
  lemma AscendingDistinct(ids: seq<string>)
    requires Ascending(ids)
    ensures Distinct(ids)
  {
    forall i, j | 0 <= i < j < |ids| ensures ids[i] != ids[j] {
      AscendingPairs(ids, i, j);
      OrdinalIrreflexive(ids[i]);
    }
  }

  // ---------------------------------------------------------------- selecting and counting

  function Where<T(!new)>(s: seq<T>, p: T -> bool): (kept: seq<T>)
    ensures forall x :: x in kept <==> x in s && p(x)
  {
    if s == [] then [] else (if p(s[0]) then [s[0]] else []) + Where(s[1..], p)
  }

  function Count<T>(s: seq<T>, p: T -> bool): (n: nat)
    ensures n <= |s|
  {
    if s == [] then 0 else (if p(s[0]) then 1 else 0) + Count(s[1..], p)
  }

  lemma {:induction false} CountAll<T>(s: seq<T>, p: T -> bool)
    ensures Count(s, p) == |s| <==> forall x :: x in s ==> p(x)
  {
    if s != [] {
      CountAll(s[1..], p);
    }
  }

  lemma {:induction false} CountLast<T>(s: seq<T>, p: T -> bool)
    requires s != []
    ensures Count(s, p) == Count(s[..|s| - 1], p) + if p(s[|s| - 1]) then 1 else 0
    decreases |s|
  {
    if |s| > 1 {
      CountLast(s[1..], p);
      assert s[1..][..|s| - 2] == s[..|s| - 1][1..];
    }
  }

  /** The places of the entries that satisfy `p`. */
  ghost function Places<T>(s: seq<T>, p: T -> bool): set<int> { set i | 0 <= i < |s| && p(s[i]) }

  lemma {:induction false} CountPlaces<T>(s: seq<T>, p: T -> bool)
    ensures Count(s, p) == |Places(s, p)|
    decreases |s|
  {
    if s != [] {
      var n := |s| - 1;
      CountLast(s, p);
      CountPlaces(s[..n], p);
      assert Places(s, p) == Places(s[..n], p) + if p(s[n]) then {n} else {};
    }
  }
}
