/**
 * Governed lifecycle of a capability: four independent dimensions and one authorization record,
 * evolved snapshot by snapshot. Times are whole ticks of UTC.
 */
module CapabilityLifecycle {
  import opened Outcomes
  import opened Characters

  datatype Maturity = Concept | Candidate | Validated | Supported | Deprecated | RetiredMaturity
  datatype Operational = Unavailable | Starting | Available | Degraded | Suspended | RetiredOperation
  datatype Evaluation = Unevaluated | Running | Passed | Failed | Inconclusive | Stale
  datatype Epistemic = Unassessed | Hypothesis | Corroborated | Contested | Refuted
  datatype Verdict = Granted | Denied
  datatype Status = NotRequested | Effective | Refused | Expired | Revoked
  datatype Provenance = Issued | Loaded | Verified

  datatype Identity = Identity(capabilityId: string, version: string, digest: Option<string>)

  datatype Decision = Decision(
    decisionId: string, capability: Identity, outcome: Verdict, issuedBy: string, scopes: set<string>,
    decidedAt: int, expiresAt: Option<int>, reason: string,
    revokedAt: Option<int>, revokedBy: Option<string>, revocationReason: string,
    provenance: Provenance, verifiedBy: string)

  datatype LifecycleError =
    | BlankId | BlankIssuer | NoScope | ExpiryNotLater | OnlyGrantedRevocable | RevokedTooEarly | RevokedAfterExpiry
    | RevokerRequired | StrayRevocation | VerifierRequired | StrayVerifier | AlreadyRevoked
    | TimeWentBack | IllegalMaturity | IllegalOperation | IllegalEvaluation | IllegalEpistemic
    | PromotionNeedsPass | AuthorizationInForce
    | WrongCapability | DecisionPostdates | UnevaluatedMaturity | RetireTogether | RetiredWithGrant

  // ---------------------------------------------------------------- text

  function LStrip(s: string): (r: string)
    ensures r == [] || !IsSpace(r[0])
    ensures s != [] && !IsSpace(s[0]) ==> r == s
  {
    if s != [] && IsSpace(s[0]) then LStrip(s[1..]) else s
  }

  function RStrip(s: string): (r: string)
    ensures r == [] || !IsSpace(r[|r| - 1])
    ensures r <= s
    ensures s != [] && !IsSpace(s[|s| - 1]) ==> r == s
  {
    if s != [] && IsSpace(s[|s| - 1]) then RStrip(s[..|s| - 1]) else s
  }

  function Strip(s: string): string {
    RStrip(LStrip(s))
  }

  lemma StripTwice(s: string)
    ensures Strip(Strip(s)) == Strip(s)
  {
    var l, r := LStrip(s), Strip(s);
    if r != [] { assert r[0] == l[0]; }
  }

  predicate AllSpace(s: string) {
    forall c :: c in s ==> IsSpace(c)
  }

  /** `r` is `s` without the whitespace around it. */
  ghost predicate Trims(s: string, r: string) {
    && (exists a, b :: AllSpace(a) && AllSpace(b) && s == a + r + b)
    && (r != "" ==> !IsSpace(r[0]) && !IsSpace(r[|r| - 1]))
  }

  lemma {:induction false} LStripDrops(s: string, a: string, rest: string)
    requires s == a + rest && AllSpace(a)
    ensures LStrip(s) == LStrip(rest)
    decreases |a|
  {
    if a == "" {
      assert s == rest;
    } else {
      assert s[0] == a[0] && a[0] in a && s[1..] == a[1..] + rest;
      LStripDrops(s[1..], a[1..], rest);
    }
  }

  lemma {:induction false} RStripDrops(s: string, rest: string, b: string)
    requires s == rest + b && AllSpace(b)
    ensures RStrip(s) == RStrip(rest)
    decreases |b|
  {
    if b == "" {
      assert s == rest;
    } else {
      assert s[|s| - 1] == b[|b| - 1] && b[|b| - 1] in b && s[..|s| - 1] == rest + b[..|b| - 1];
      RStripDrops(s[..|s| - 1], rest, b[..|b| - 1]);
    }
  }

  lemma {:induction false} LStripped(s: string) returns (a: string)
    ensures AllSpace(a) && s == a + LStrip(s)
  {
    a := "";
    if s != [] && IsSpace(s[0]) {
      a := LStripped(s[1..]);
      a := [s[0]] + a;
    }
  }

  lemma {:induction false} RStripped(s: string) returns (b: string)
    ensures AllSpace(b) && s == RStrip(s) + b
    decreases |s|
  {
    b := "";
    if s != [] && IsSpace(s[|s| - 1]) {
      b := RStripped(s[..|s| - 1]);
      b := b + [s[|s| - 1]];
    }
  }

  lemma {:induction false} SpaceStripsAway(s: string)
    requires AllSpace(s)
    ensures LStrip(s) == ""
  {
    if s != "" {
      assert s[0] in s;
      SpaceStripsAway(s[1..]);
    }
  }

  /** Stripping takes away the whitespace around a text, all of it and nothing else. */
  lemma StripTrims(s: string, r: string)
    ensures Trims(s, r) <==> Strip(s) == r
  {
    if Trims(s, r) {
      var a, b :| AllSpace(a) && AllSpace(b) && s == a + r + b;
      TrimmedIsStripped(s, a, r, b);
    }
    StripIsTrimmed(s);
  }

  lemma TrimmedIsStripped(s: string, a: string, r: string, b: string)
    requires AllSpace(a) && AllSpace(b) && s == a + r + b && (r != "" ==> !IsSpace(r[0]) && !IsSpace(r[|r| - 1]))
    ensures Strip(s) == r
  {
    assert s == a + (r + b);
    LStripDrops(s, a, r + b);
    if r == "" {
      assert r + b == b;
      SpaceStripsAway(b);
    } else {
      assert (r + b)[0] == r[0];
      RStripDrops(r + b, r, b);
    }
  }

  lemma StripIsTrimmed(s: string)
    ensures Trims(s, Strip(s))
  {
    var a := LStripped(s);
    var b := RStripped(LStrip(s));
    assert s == a + Strip(s) + b;
    if Strip(s) != "" { assert Strip(s)[0] == LStrip(s)[0]; }
  }

  predicate Blank(s: string) {
    Strip(s) == ""
  }

  function Normalized(scopes: set<string>): set<string> {
    set s | s in scopes && !Blank(s) :: Strip(s)
  }

  // ---------------------------------------------------------------- authorization decisions

  /** The constructor's checks, in order; `unscoped` says that no scope survives normalization. */
  function DecisionFault(d: Decision, unscoped: bool): Option<LifecycleError> {
    if Blank(d.decisionId) then Some(BlankId)
    else if Blank(d.issuedBy) then Some(BlankIssuer)
    else if unscoped then Some(NoScope)
    else if d.expiresAt.Some? && d.expiresAt.value <= d.decidedAt then Some(ExpiryNotLater)
    else if d.revokedAt.Some? then RevocationFault(d, d.revokedAt.value)
    else if d.revokedBy.Some? || d.revocationReason != "" then Some(StrayRevocation)
    else ProvenanceFault(d)
  }

  function RevocationFault(d: Decision, at: int): Option<LifecycleError> {
    if d.outcome != Granted then Some(OnlyGrantedRevocable)
    else if at < d.decidedAt then Some(RevokedTooEarly)
    else if d.expiresAt.Some? && at >= d.expiresAt.value then Some(RevokedAfterExpiry)
    else if d.revokedBy.None? || Blank(d.revokedBy.value) then Some(RevokerRequired)
    else ProvenanceFault(d)
  }

  function ProvenanceFault(d: Decision): Option<LifecycleError> {
    if d.provenance == Verified && Blank(d.verifiedBy) then Some(VerifierRequired)
    else if d.provenance != Verified && d.verifiedBy != "" then Some(StrayVerifier)
    else None
  }

  /** The record the constructor makes: checked, its scopes normalized. */
  function MakeDecision(d: Decision): (r: Result<Decision, LifecycleError>)
    ensures r.Ok? ==> r.value == d.(scopes := Normalized(d.scopes))
  {
    var fault := DecisionFault(d, Normalized(d.scopes) == {});
    if fault.Some? then Err(fault.value) else Ok(d.(scopes := Normalized(d.scopes)))
  }

  /** A record the constructor accepts and leaves alone. */
  predicate ValidDecision(d: Decision) {
    Normalized(d.scopes) == d.scopes && MakeDecision(d).Ok?
  }

  function StatusAt(d: Decision, at: int): Status {
    if at < d.decidedAt then NotRequested
    else if d.outcome == Denied then Refused
    else if d.revokedAt.Some? && at >= d.revokedAt.value then Revoked
    else if d.expiresAt.Some? && at >= d.expiresAt.value then Expired
    else Effective
  }

  predicate DecisionAllows(d: Decision, scope: string, at: int, trustUnverified: bool) {
    if d.provenance == Loaded && !trustUnverified then false
    else StatusAt(d, at) == Effective && (scope in d.scopes || "*" in d.scopes)
  }

  function MarkVerified(d: Decision, who: string): Result<Decision, LifecycleError> {
    if Blank(who) then Err(VerifierRequired)
    else MakeDecision(d.(provenance := Verified, verifiedBy := Strip(who)))
  }

  function Revoke(d: Decision, who: string, at: int, reason: string): Result<Decision, LifecycleError> {
    if d.outcome != Granted then Err(OnlyGrantedRevocable)
    else if d.revokedAt.Some? then Err(AlreadyRevoked)
    else MakeDecision(d.(revokedAt := Some(at), revokedBy := Some(who), revocationReason := reason))
  }

  /** Loading a persisted record: whatever provenance and verifier the content claims, the result is merely loaded. */
  function LoadDecision(record: Decision): Result<Decision, LifecycleError> {
    MakeDecision(record.(provenance := Loaded, verifiedBy := ""))
  }

  /** Exactly which records the constructor accepts. */
  lemma MadeIff(d: Decision)
    ensures MakeDecision(d).Ok? <==>
      && Strip(d.decisionId) != "" && Strip(d.issuedBy) != "" && (exists s :: s in d.scopes && Strip(s) != "")
      && (d.expiresAt.Some? ==> d.decidedAt < d.expiresAt.value)
      && (match d.revokedAt
          case Some(at) =>
            && d.outcome == Granted && d.decidedAt <= at && (d.expiresAt.Some? ==> at < d.expiresAt.value)
            && d.revokedBy.Some? && Strip(d.revokedBy.value) != ""
          case None => d.revokedBy.None? && d.revocationReason == "")
      && (if d.provenance == Verified then Strip(d.verifiedBy) != "" else d.verifiedBy == "")
  {
    assert Normalized(d.scopes) == {} <==> !exists s :: s in d.scopes && Strip(s) != "" by {
      if s :| s in d.scopes && Strip(s) != "" { assert Strip(s) in Normalized(d.scopes); }
    }
  }

  /** Normalizing scopes twice is normalizing them once. */
  lemma NormalizedTwice(scopes: set<string>)
    ensures Normalized(Normalized(scopes)) == Normalized(scopes)
  {
    forall s | s in scopes && !Blank(s) ensures Strip(Strip(s)) == Strip(s) && !Blank(Strip(s)) { StripTwice(s); }
    forall x | x in Normalized(scopes) ensures x in Normalized(Normalized(scopes)) {
      var s :| s in scopes && !Blank(s) && x == Strip(s);
      assert !Blank(x) && Strip(x) == x;
    }
  }

  lemma FaultIgnoresScopes(d: Decision, scopes: set<string>, unscoped: bool)
    ensures DecisionFault(d.(scopes := scopes), unscoped) == DecisionFault(d, unscoped)
  {
    var e := d.(scopes := scopes);
    assert RevocationFault(e, Or(e.revokedAt, 0)) == RevocationFault(d, Or(d.revokedAt, 0)) by {
      assert ProvenanceFault(e) == ProvenanceFault(d);
    }
  }

  /** What the constructor makes, it accepts and leaves alone. */
  lemma MadeIsValid(d: Decision)
    requires MakeDecision(d).Ok?
    ensures ValidDecision(MakeDecision(d).value)
  {
    var scopes := Normalized(d.scopes);
    NormalizedTwice(d.scopes);
    FaultIgnoresScopes(d, scopes, scopes == {});
  }

  lemma LoadedFault(d: Decision, l: Decision)
    requires DecisionFault(d, false).None? && l == d.(provenance := Loaded, verifiedBy := "")
    ensures DecisionFault(l, false).None?
  {
    assert ProvenanceFault(l).None?;
  }

  /** Persisting and reloading keeps every field but the trust: the reloaded record is unverified and allows nothing. */
  lemma ReloadKeepsAllButTrust(d: Decision, scope: string, at: int)
    requires ValidDecision(d)
    ensures LoadDecision(d) == Ok(d.(provenance := Loaded, verifiedBy := ""))
    ensures !DecisionAllows(LoadDecision(d).value, scope, at, false)
  {
    var l := d.(provenance := Loaded, verifiedBy := "");
    LoadedFault(d, l);
  }

  lemma RevokedWithinForce(d: Decision, at: int, unscoped: bool)
    requires d.revokedAt == Some(at) && DecisionFault(d, unscoped).None?
    ensures d.outcome == Granted && d.decidedAt <= at && (d.expiresAt.Some? ==> at < d.expiresAt.value)
  {
    assert RevocationFault(d, at).None?;
  }

  /** The status of a granted record with a revocation inside its period of force. */
  lemma RevokedStatus(d: Decision, r: Decision, at: int, t: int)
    requires d.outcome == Granted && d.revokedAt.None?
    requires r.outcome == Granted && r.decidedAt == d.decidedAt && r.expiresAt == d.expiresAt && r.revokedAt == Some(at)
    requires d.decidedAt <= at && (d.expiresAt.Some? ==> at < d.expiresAt.value)
    ensures StatusAt(r, t) == if t >= at then Revoked else StatusAt(d, t)
  {
  }

  /** A revocation takes effect from its own time on and changes nothing before it. */
  lemma RevocationTakesEffect(d: Decision, who: string, at: int, reason: string, t: int)
    requires Revoke(d, who, at, reason).Ok?
    ensures ValidDecision(Revoke(d, who, at, reason).value)
    ensures StatusAt(Revoke(d, who, at, reason).value, t) == if t >= at then Revoked else StatusAt(d, t)
  {
    var e := d.(revokedAt := Some(at), revokedBy := Some(who), revocationReason := reason);
    MadeIsValid(e);
    RevokedWithinForce(e, at, Normalized(e.scopes) == {});
    RevokedStatus(d, MakeDecision(e).value, at, t);
  }

  /** Which decisions can be revoked, by whom and when, and what their revoked copies are. */
  lemma RevokesIff(d: Decision, who: string, at: int, reason: string)
    requires ValidDecision(d)
    ensures Revoke(d, who, at, reason).Ok? <==>
      && d.outcome == Granted && d.revokedAt.None? && d.decidedAt <= at
      && (d.expiresAt.Some? ==> at < d.expiresAt.value) && Strip(who) != ""
    ensures Revoke(d, who, at, reason).Ok? ==>
      Revoke(d, who, at, reason).value ==
        d.(revokedAt := Some(at), revokedBy := Some(who), revocationReason := reason)
  {
    MadeIff(d);
    MadeIff(d.(revokedAt := Some(at), revokedBy := Some(who), revocationReason := reason));
  }

  /** Any valid decision can be marked as verified by a named verifier, which changes nothing else about it. */
  lemma MarksIff(d: Decision, who: string)
    requires ValidDecision(d)
    ensures MarkVerified(d, who) ==
      if Strip(who) == "" then Err(VerifierRequired) else Ok(d.(provenance := Verified, verifiedBy := Strip(who)))
  {
    StripTwice(who);
    MadeIff(d);
    MadeIff(d.(provenance := Verified, verifiedBy := Strip(who)));
  }

  // ---------------------------------------------------------------- the transition tables

  predicate MaturityStep(a: Maturity, b: Maturity) {
    match a
    case Concept => b in {Candidate, RetiredMaturity}
    case Candidate => b in {Validated, Deprecated, RetiredMaturity}
    case Validated => b in {Supported, Deprecated, RetiredMaturity}
    case Supported => b in {Deprecated, RetiredMaturity}
    case Deprecated => b in {RetiredMaturity}
    case RetiredMaturity => false
  }

  predicate OperationalStep(a: Operational, b: Operational) {
    match a
    case Unavailable => b in {Starting, Available, RetiredOperation}
    case Starting => b in {Available, Degraded, Suspended, Unavailable, RetiredOperation}
    case Available => b in {Degraded, Suspended, Unavailable, RetiredOperation}
    case Degraded => b in {Available, Suspended, Unavailable, RetiredOperation}
    case Suspended => b in {Starting, Available, Unavailable, RetiredOperation}
    case RetiredOperation => false
  }

  predicate EvaluationStep(a: Evaluation, b: Evaluation) {
    match a
    case Unevaluated => b in {Running}
    case Running => b in {Passed, Failed, Inconclusive}
    case Passed => b in {Running, Stale}
    case Failed => b in {Running}
    case Inconclusive => b in {Running}
    case Stale => b in {Running}
  }

  predicate EpistemicStep(a: Epistemic, b: Epistemic) {
    match a
    case Unassessed => b in {Hypothesis}
    case Hypothesis => b in {Corroborated, Contested, Refuted}
    case Corroborated => b in {Contested, Refuted}
    case Contested => b in {Hypothesis, Corroborated, Refuted}
    case Refuted => b in {Hypothesis, Contested}
  }

  // ---------------------------------------------------------------- snapshots

  datatype Lifecycle = Lifecycle(
    capability: Identity, maturity: Maturity, operational: Operational, evaluation: Evaluation, epistemic: Epistemic,
    authorization: Option<Decision>, revision: nat, updatedAt: int)

  predicate PromotedMaturity(m: Maturity) {
    m == Validated || m == Supported
  }

  /** The snapshot constructor's checks, in order. */
  function MakeLifecycle(l: Lifecycle): (r: Result<Lifecycle, LifecycleError>)
    ensures r.Ok? ==> r.value == l
  {
    if l.authorization.Some? && l.authorization.value.capability != l.capability then Err(WrongCapability)
    else if l.authorization.Some? && l.authorization.value.decidedAt > l.updatedAt then Err(DecisionPostdates)
    else if PromotedMaturity(l.maturity) && l.evaluation == Unevaluated then Err(UnevaluatedMaturity)
    else if (l.maturity == RetiredMaturity) != (l.operational == RetiredOperation) then Err(RetireTogether)
    else if l.maturity == RetiredMaturity && l.authorization.Some?
      && StatusAt(l.authorization.value, l.updatedAt) == Effective then Err(RetiredWithGrant)
    else Ok(l)
  }

  predicate ValidSnapshot(l: Lifecycle) {
    MakeLifecycle(l).Ok?
  }

  /** The default snapshot of a capability. */
  function Fresh(capability: Identity): (l: Lifecycle)
    ensures ValidSnapshot(l)
  {
    Lifecycle(capability, Concept, Unavailable, Unevaluated, Unassessed, None, 0, 0)
  }

  datatype AuthorizationChange = Keep | Set(decision: Option<Decision>)

  datatype Change = Change(
    maturity: Option<Maturity>, operational: Option<Operational>, evaluation: Option<Evaluation>,
    epistemic: Option<Epistemic>, authorization: AuthorizationChange, at: int)

  function Or<T>(o: Option<T>, default: T): T {
    if o.Some? then o.value else default
  }

  /** The next snapshot, after every requested transition has been checked. */
  function Evolve(l: Lifecycle, c: Change): Result<Lifecycle, LifecycleError> {
    var maturity := Or(c.maturity, l.maturity);
    var operational := Or(c.operational, l.operational);
    var evaluation := Or(c.evaluation, l.evaluation);
    var epistemic := Or(c.epistemic, l.epistemic);
    var authorization := if c.authorization.Keep? then l.authorization else c.authorization.decision;
    if c.at < l.updatedAt then Err(TimeWentBack)
    else if maturity != l.maturity && !MaturityStep(l.maturity, maturity) then Err(IllegalMaturity)
    else if operational != l.operational && !OperationalStep(l.operational, operational) then Err(IllegalOperation)
    else if evaluation != l.evaluation && !EvaluationStep(l.evaluation, evaluation) then Err(IllegalEvaluation)
    else if epistemic != l.epistemic && !EpistemicStep(l.epistemic, epistemic) then Err(IllegalEpistemic)
    else if maturity != l.maturity && PromotedMaturity(maturity) && evaluation != Passed then Err(PromotionNeedsPass)
    else if l.authorization.Some? && authorization != l.authorization
      && StatusAt(l.authorization.value, c.at) == Effective then Err(AuthorizationInForce)
    else
      MakeLifecycle(Lifecycle(
        l.capability, maturity, operational, evaluation, epistemic, authorization, l.revision + 1, c.at))
  }

  predicate Allows(l: Lifecycle, scope: string, at: Option<int>) {
    l.authorization.Some? && DecisionAllows(l.authorization.value, scope, Or(at, l.updatedAt), false)
  }

  /** Loading a persisted snapshot. */
  function LoadLifecycle(record: Lifecycle): Result<Lifecycle, LifecycleError> {
    if record.authorization.None? then MakeLifecycle(record)
    else
      var d := LoadDecision(record.authorization.value);
      if d.Err? then Err(d.error) else MakeLifecycle(record.(authorization := Some(d.value)))
  }

  // ---------------------------------------------------------------- runs

  ghost predicate Step(l: Lifecycle, next: Lifecycle) {
    exists c :: Evolve(l, c) == Ok(next)
  }

  /** Any finite history of successful evolutions from a valid snapshot. */
  ghost predicate IsRun(run: seq<Lifecycle>) {
    |run| >= 1 && ValidSnapshot(run[0]) && forall i :: 0 <= i < |run| - 1 ==> Steps(run, i)
  }

  ghost predicate Steps(run: seq<Lifecycle>, i: int)
    requires 0 <= i < |run| - 1
  {
    Step(run[i], run[i + 1])
  }

  lemma {:induction false} RunStaysValid(run: seq<Lifecycle>, i: nat)
    requires IsRun(run) && i < |run|
    ensures ValidSnapshot(run[i])
  {
    if i > 0 { assert Steps(run, i - 1); }
  }

  /** Revision counts the steps and time never goes back. */
  lemma {:induction false} RevisionAndTime(run: seq<Lifecycle>, i: nat, j: nat)
    requires IsRun(run) && i <= j < |run|
    ensures run[j].revision == run[i].revision + (j - i) && run[i].updatedAt <= run[j].updatedAt
    ensures run[j].capability == run[i].capability
    decreases j
  {
    if i < j {
      RevisionAndTime(run, i, j - 1);
      assert Steps(run, j - 1);
    }
  }

  /** Persisting and reloading a snapshot keeps everything but the trust in its decision. */
  lemma SnapshotReloads(l: Lifecycle)
    requires ValidSnapshot(l) && (l.authorization.Some? ==> ValidDecision(l.authorization.value))
    ensures LoadLifecycle(l) == Ok(
      if l.authorization.None? then l
      else l.(authorization := Some(l.authorization.value.(provenance := Loaded, verifiedBy := ""))))
  {
    if l.authorization.Some? {
      var d := l.authorization.value;
      ReloadKeepsAllButTrust(d, "", 0);
      SameStanding(l, d, d.(provenance := Loaded, verifiedBy := ""));
    }
  }

  /** A decision that differs only in its trust leaves a snapshot as valid as it was. */
  lemma SameStanding(l: Lifecycle, d: Decision, x: Decision)
    requires ValidSnapshot(l) && l.authorization == Some(d)
    requires x == d.(provenance := x.provenance, verifiedBy := x.verifiedBy)
    ensures MakeLifecycle(l.(authorization := Some(x))).Ok?
  {
    assert StatusAt(x, l.updatedAt) == StatusAt(d, l.updatedAt);
  }

  // ---------------------------------------------------------------- maturity

  function Rank(m: Maturity): nat {
    match m
    case Concept => 0 case Candidate => 1 case Validated => 2
    case Supported => 3 case Deprecated => 4 case RetiredMaturity => 5
  }

  /** How many steps of the run up to `j` changed the maturity. */
  function MaturityChanges(run: seq<Lifecycle>, j: nat): nat
    requires j < |run|
  {
    if j == 0 then 0 else MaturityChanges(run, j - 1) + (if run[j].maturity != run[j - 1].maturity then 1 else 0)
  }

  /** Maturity never moves backwards, and changes at most five times. */
  lemma {:induction false} MaturityOnlyAdvances(run: seq<Lifecycle>, i: nat, j: nat)
    requires IsRun(run) && i <= j < |run|
    ensures Rank(run[i].maturity) <= Rank(run[j].maturity)
    ensures MaturityChanges(run, j) <= MaturityChanges(run, i) + (Rank(run[j].maturity) - Rank(run[i].maturity))
    ensures MaturityChanges(run, j) <= 5
    decreases j, i
  {
    if i < j {
      MaturityOnlyAdvances(run, i, j - 1);
      MaturityOnlyAdvances(run, 0, j - 1);
      assert Steps(run, j - 1);
    } else if i > 0 {
      MaturityOnlyAdvances(run, 0, j);
    }
  }

  /** Retirement is absorbing, in maturity and operation together. */
  lemma {:induction false} RetirementAbsorbs(run: seq<Lifecycle>, i: nat, j: nat)
    requires IsRun(run) && i <= j < |run|
    requires run[i].maturity == RetiredMaturity || run[i].operational == RetiredOperation
    ensures run[j].maturity == RetiredMaturity && run[j].operational == RetiredOperation
    decreases j
  {
    RunStaysValid(run, j);
    if i < j {
      RetirementAbsorbs(run, i, j - 1);
      assert Steps(run, j - 1);
    }
  }

  /** A promoted maturity was earned: unless the run began with it, the snapshot that took it on had passed its
      evaluation. */
  lemma {:induction false} PromotionWasEarned(run: seq<Lifecycle>, j: nat) returns (i: nat)
    requires IsRun(run) && j < |run| && PromotedMaturity(run[j].maturity) && run[0].maturity != run[j].maturity
    ensures i <= j && run[i].maturity == run[j].maturity && run[i].evaluation == Passed
    ensures i > 0 && run[i - 1].maturity != run[j].maturity
    ensures forall k :: i <= k <= j ==> run[k].maturity == run[j].maturity
    decreases j
  {
    assert Steps(run, j - 1);
    if run[j - 1].maturity == run[j].maturity {
      i := PromotionWasEarned(run, j - 1);
    } else {
      i := j;
    }
  }

  /** A history that begins with the default snapshot: its revision is its length, and a promoted snapshot looks back on
      the pass it was promoted with and the evaluation that passed. */
  lemma EarnedFromTheStart(run: seq<Lifecycle>, capability: Identity, j: nat) returns (passed: nat, running: nat)
    requires IsRun(run) && j < |run| && run[0] == Fresh(capability) && PromotedMaturity(run[j].maturity)
    ensures running < passed <= j && run[running].evaluation == Running && run[passed].evaluation == Passed
    ensures run[passed].maturity == run[j].maturity && run[passed - 1].maturity != run[j].maturity
    ensures run[j].revision == j && run[j].capability == capability
  {
    passed := PromotionWasEarned(run, j);
    running := PassWasRunning(run, passed);
    RevisionAndTime(run, 0, j);
  }

  /** A pass is the outcome of an evaluation that was running in the snapshot just before it. */
  lemma {:induction false} PassWasRunning(run: seq<Lifecycle>, j: nat) returns (i: nat)
    requires IsRun(run) && j < |run| && run[j].evaluation == Passed && run[0].evaluation != Passed
    ensures i < j && run[i].evaluation == Running
    ensures forall k :: i < k <= j ==> run[k].evaluation == Passed
    decreases j
  {
    assert Steps(run, j - 1);
    if run[j - 1].evaluation == Passed {
      i := PassWasRunning(run, j - 1);
    } else {
      i := j - 1;
    }
  }

  /** Support is reached only from validation: unless the run began supported, the snapshot before was validated. */
  lemma {:induction false} SupportedWasValidated(run: seq<Lifecycle>, j: nat) returns (i: nat)
    requires IsRun(run) && j < |run| && run[j].maturity == Supported && run[0].maturity != Supported
    ensures i < j && run[i].maturity == Validated && forall k :: i < k <= j ==> run[k].maturity == Supported
    decreases j
  {
    assert Steps(run, j - 1);
    if run[j - 1].maturity == Supported { i := SupportedWasValidated(run, j - 1); } else { i := j - 1; }
  }

  /** A refuted claim is corroborated again only after it was a hypothesis or contested. */
  lemma {:induction false} RefutedComesBackInDoubt(run: seq<Lifecycle>, i: nat, j: nat) returns (k: nat)
    requires IsRun(run) && i < j < |run| && run[i].epistemic == Refuted && run[j].epistemic == Corroborated
    ensures i < k < j && (run[k].epistemic == Hypothesis || run[k].epistemic == Contested)
    decreases j
  {
    assert Steps(run, j - 1);
    if run[j - 1].epistemic == Corroborated { k := RefutedComesBackInDoubt(run, i, j - 1); } else { k := j - 1; }
  }

  /** Which single steps change each dimension: maturity goes one rank up, to deprecation from candidacy on, or into
      retirement; service may start, be available, be troubled once it serves, be lost and retire; an evaluation runs,
      ends and goes stale; a standing begins as a hypothesis, and refutation is left only into doubt. */
  lemma TablesMean()
    ensures forall a, b :: MaturityStep(a, b) <==>
      a != RetiredMaturity && (b == RetiredMaturity || (b == Deprecated && 1 <= Rank(a) <= 3)
        || (Rank(b) <= 3 && Rank(b) == Rank(a) + 1))
    ensures forall a, b :: OperationalStep(a, b) <==>
      a != RetiredOperation && a != b && match b
        case RetiredOperation | Unavailable | Available => true
        case Starting => a == Unavailable || a == Suspended
        case Degraded => a == Starting || a == Available
        case Suspended => a == Starting || a == Available || a == Degraded
    ensures forall a, b :: EvaluationStep(a, b) <==> match b
        case Unevaluated => false
        case Running => a != Running
        case Passed | Failed | Inconclusive => a == Running
        case Stale => a == Passed
    ensures forall a, b :: EpistemicStep(a, b) <==> a != b && match b
        case Unassessed => false
        case Hypothesis => a != Corroborated
        case Corroborated => a == Hypothesis || a == Contested
        case Contested => a != Unassessed
        case Refuted => a != Unassessed
  {
  }

  /** Exactly which steps a snapshot can take, and what the next one is. */
  lemma EvolvesIff(l: Lifecycle, c: Change, next: Lifecycle)
    requires ValidSnapshot(l)
    ensures Evolve(l, c) == Ok(next) <==>
      && next == Lifecycle(
           l.capability, Or(c.maturity, l.maturity), Or(c.operational, l.operational), Or(c.evaluation, l.evaluation),
           Or(c.epistemic, l.epistemic), if c.authorization.Keep? then l.authorization else c.authorization.decision,
           l.revision + 1, c.at)
      && l.updatedAt <= next.updatedAt
      && (next.maturity == l.maturity || MaturityStep(l.maturity, next.maturity))
      && (next.operational == l.operational || OperationalStep(l.operational, next.operational))
      && (next.evaluation == l.evaluation || EvaluationStep(l.evaluation, next.evaluation))
      && (next.epistemic == l.epistemic || EpistemicStep(l.epistemic, next.epistemic))
      && (next.maturity != l.maturity && (next.maturity == Validated || next.maturity == Supported) ==>
            next.evaluation == Passed)
      && (next.maturity == RetiredMaturity <==> next.operational == RetiredOperation)
      && (l.authorization.Some? && InForce(l.authorization.value, c.at) ==> next.authorization == l.authorization)
      && (next.authorization.Some? ==>
            && next.authorization.value.capability == l.capability && next.authorization.value.decidedAt <= c.at
            && (next.maturity == RetiredMaturity ==> !InForce(next.authorization.value, c.at)))
  {
    if l.authorization.Some? { InForceUntilEnd(l.authorization.value, c.at); }
    if c.authorization.Set? && c.authorization.decision.Some? { InForceUntilEnd(c.authorization.decision.value, c.at); }
  }

  /** From an unassessed start, every other standing goes back to a hypothesis, and nothing is ever unassessed again. */
  lemma {:induction false} StandingBeganAsHypothesis(run: seq<Lifecycle>, j: nat) returns (i: nat)
    requires IsRun(run) && j < |run| && run[0].epistemic == Unassessed && run[j].epistemic != Unassessed
    ensures 0 < i <= j && run[i].epistemic == Hypothesis && run[i - 1].epistemic == Unassessed
    ensures forall k :: i <= k <= j ==> run[k].epistemic != Unassessed
    decreases j
  {
    assert Steps(run, j - 1);
    if run[j - 1].epistemic == Unassessed {
      i := j;
    } else {
      i := StandingBeganAsHypothesis(run, j - 1);
    }
  }

  /** From an unavailable start, service is degraded or suspended only after it was starting or available. */
  lemma {:induction false} TroubleFollowsService(run: seq<Lifecycle>, j: nat) returns (i: nat)
    requires IsRun(run) && j < |run| && run[0].operational == Unavailable
    requires run[j].operational == Degraded || run[j].operational == Suspended
    ensures i < j && (run[i].operational == Starting || run[i].operational == Available)
    ensures forall k :: i < k <= j ==> run[k].operational == Degraded || run[k].operational == Suspended
    decreases j
  {
    assert Steps(run, j - 1);
    if run[j - 1].operational == Degraded || run[j - 1].operational == Suspended {
      i := TroubleFollowsService(run, j - 1);
    } else {
      i := j - 1;
    }
  }

  /** The constructor's "unevaluated" check never fires on an evolution of a valid snapshot. */
  lemma UnevaluatedCheckNeverFires(l: Lifecycle, c: Change)
    requires ValidSnapshot(l)
    ensures Evolve(l, c) != Err(UnevaluatedMaturity)
  {
  }

  // ---------------------------------------------------------------- authorization along a run

  /** A grant with nothing to end it: no expiry and no recorded revocation. */
  predicate Endless(d: Decision) {
    d.outcome == Granted && d.expiresAt.None? && d.revokedAt.None?
  }

  /** An authorization in force at the step's time is neither replaced nor cleared by the step. */
  lemma EffectiveAuthorizationIsFrozen(l: Lifecycle, c: Change)
    requires l.authorization.Some? && StatusAt(l.authorization.value, c.at) == Effective && Evolve(l, c).Ok?
    ensures Evolve(l, c).value.authorization == l.authorization
  {
  }

  /** When a grant stops being in force: at its revocation or its expiry, whichever comes first. */
  function End(d: Decision): Option<int> {
    if d.revokedAt.None? then d.expiresAt
    else if d.expiresAt.None? || d.revokedAt.value <= d.expiresAt.value then d.revokedAt
    else d.expiresAt
  }

  predicate EndedBy(d: Decision, t: int) {
    End(d).Some? && End(d).value <= t
  }

  predicate InForce(d: Decision, t: int) {
    d.outcome == Granted && d.decidedAt <= t && !EndedBy(d, t)
  }

  /** A decision is in force from the time it was made until it ends, if it is a grant, and never otherwise. */
  lemma InForceUntilEnd(d: Decision, t: int)
    ensures StatusAt(d, t) == Effective <==> InForce(d, t)
  {
  }

  /** What is allowed, exactly: a scope that the decision names, or every scope when it names "*", while the grant is in
      force, unless the decision is merely loaded and the caller does not take it on trust. */
  lemma AllowsIff(d: Decision, scope: string, at: int, trustUnverified: bool)
    ensures DecisionAllows(d, scope, at, trustUnverified) <==>
      && d.outcome == Granted && d.decidedAt <= at && !EndedBy(d, at)
      && (scope in d.scopes || "*" in d.scopes)
      && (d.provenance == Loaded ==> trustUnverified)
  {
    InForceUntilEnd(d, at);
  }

  /** The same of the record that the constructor makes, in terms of the scopes it was given: surrounding whitespace
      does not matter, and a blank scope names nothing. */
  lemma MadeAllowsIff(d: Decision, scope: string, at: int, trustUnverified: bool)
    requires MakeDecision(d).Ok?
    ensures DecisionAllows(MakeDecision(d).value, scope, at, trustUnverified) <==>
      && d.outcome == Granted && d.decidedAt <= at && !EndedBy(d, at)
      && (exists s :: s in d.scopes && (Trims(s, scope) || Trims(s, "*")) && Strip(s) != "")
      && (d.provenance == Loaded ==> trustUnverified)
  {
    AllowsIff(MakeDecision(d).value, scope, at, trustUnverified);
    NormalizedIff(d.scopes, scope);
    NormalizedIff(d.scopes, "*");
  }

  /** The scopes of a record, in terms of those it was given. */
  lemma NormalizedIff(scopes: set<string>, x: string)
    ensures x in Normalized(scopes) <==> exists s :: s in scopes && Trims(s, x) && Strip(s) != ""
  {
    forall s ensures Trims(s, x) <==> Strip(s) == x { StripTrims(s, x); }
  }

  /** A grant held in a snapshot is the authorization of every later snapshot up to the grant's end. */
  lemma {:induction false} InForceGrantStays(run: seq<Lifecycle>, i: nat, j: nat, d: Decision)
    requires IsRun(run) && i <= j < |run| && run[i].authorization == Some(d)
    requires d.outcome == Granted && !EndedBy(d, run[j].updatedAt)
    ensures run[j].authorization == Some(d)
    decreases j
  {
    if i < j {
      RevisionAndTime(run, j - 1, j);
      InForceGrantStays(run, i, j - 1, d);
      RunStaysValid(run, j - 1);
      assert Steps(run, j - 1);
      var c :| Evolve(run[j - 1], c) == Ok(run[j]);
      InForceUntilEnd(d, c.at);
      EffectiveAuthorizationIsFrozen(run[j - 1], c);
    }
  }

  /** An endless grant, once installed, is the authorization of every later snapshot. */
  lemma EndlessGrantStays(run: seq<Lifecycle>, i: nat, j: nat)
    requires IsRun(run) && i <= j < |run| && run[i].authorization.Some? && Endless(run[i].authorization.value)
    ensures run[j].authorization == run[i].authorization
  {
    InForceGrantStays(run, i, j, run[i].authorization.value);
  }

  /** Some run from `l` holds the decision `x` in a snapshot of time `t`. */
  ghost predicate CanInstallAt(l: Lifecycle, x: Decision, t: int) {
    exists run: seq<Lifecycle> ::
      IsRun(run) && run[0] == l && run[|run| - 1].updatedAt == t && run[|run| - 1].authorization == Some(x)
  }

  ghost predicate CanInstall(l: Lifecycle, x: Decision) {
    exists t :: CanInstallAt(l, x, t)
  }

  /** Another decision takes the place of a grant only once the grant has ended. */
  lemma ReplacedOnlyAfterItsEnd(l: Lifecycle, d: Decision, x: Decision, t: int)
    requires ValidSnapshot(l) && l.authorization == Some(d) && d.outcome == Granted && x != d
    requires CanInstallAt(l, x, t)
    ensures l.updatedAt <= t && EndedBy(d, t)
  {
    var run: seq<Lifecycle> :|
      IsRun(run) && run[0] == l && run[|run| - 1].updatedAt == t && run[|run| - 1].authorization == Some(x);
    RevisionAndTime(run, 0, |run| - 1);
    if !EndedBy(d, t) { InForceGrantStays(run, 0, |run| - 1, d); }
  }

  /** A decision about the same capability, itself no longer in force, can be installed once the held one is out of
      force. */
  lemma InstalledWhenQuiet(l: Lifecycle, d: Decision, x: Decision, t: int)
    requires ValidSnapshot(l) && l.authorization == Some(d) && l.updatedAt <= t
    requires x.capability == l.capability && x.decidedAt <= l.updatedAt
    requires StatusAt(d, t) != Effective && StatusAt(x, t) != Effective
    ensures CanInstallAt(l, x, t)
  {
    var c := Change(None, None, None, None, Set(Some(x)), t);
    assert Evolve(l, c).Ok?;
    var run := [l, Evolve(l, c).value];
    assert Steps(run, 0) by { assert Step(run[0], run[1]); }
    assert IsRun(run) && run[0] == l && run[|run| - 1].updatedAt == t && run[|run| - 1].authorization == Some(x);
  }

  /** What a revoked copy has in common with the decision it copies, and what it adds. */
  lemma RevokedCopyFields(d: Decision, who: string, at: int, reason: string)
    requires Revoke(d, who, at, reason).Ok?
    ensures var r := Revoke(d, who, at, reason).value;
      d.outcome == Granted && d.revokedAt.None? && r.outcome == Granted && r.capability == d.capability
      && r.decidedAt == d.decidedAt && r.expiresAt == d.expiresAt && r.revokedAt == Some(at)
    ensures d.expiresAt.Some? ==> at < d.expiresAt.value
  {
    var e := d.(revokedAt := Some(at), revokedBy := Some(who), revocationReason := reason);
    RevokedWithinForce(e, at, Normalized(e.scopes) == {});
  }

  /** The revoked copy of a held grant can be installed at a time exactly when the grant has expired by then. */
  lemma RevokedCopyInstallable(l: Lifecycle, d: Decision, who: string, at: int, reason: string, r: Decision, t: int)
    requires ValidSnapshot(l) && l.authorization == Some(d) && Revoke(d, who, at, reason) == Ok(r)
    ensures CanInstallAt(l, r, t) <==> l.updatedAt <= t && d.expiresAt.Some? && d.expiresAt.value <= t
  {
    RevokedCopyFields(d, who, at, reason);
    if CanInstallAt(l, r, t) {
      ReplacedOnlyAfterItsEnd(l, d, r, t);
    } else if l.updatedAt <= t && d.expiresAt.Some? && d.expiresAt.value <= t {
      InForceUntilEnd(d, t);
      InForceUntilEnd(r, t);
      InstalledWhenQuiet(l, d, r, t);
    }
  }

  /** So a held grant can ever be revoked exactly when it has an expiry. */
  lemma RevocableIffItExpires(l: Lifecycle, d: Decision, who: string, at: int, reason: string, r: Decision)
    requires ValidSnapshot(l) && l.authorization == Some(d) && Revoke(d, who, at, reason) == Ok(r)
    ensures CanInstall(l, r) <==> !Endless(d)
  {
    RevokedCopyFields(d, who, at, reason);
    forall t ensures CanInstallAt(l, r, t) ==> !Endless(d) {
      RevokedCopyInstallable(l, d, who, at, reason, r, t);
    }
    if !Endless(d) {
      var t := if d.expiresAt.value < l.updatedAt then l.updatedAt else d.expiresAt.value;
      RevokedCopyInstallable(l, d, who, at, reason, r, t);
    }
  }

  /** And revoking it through a run never takes anything away: from the time the revoked copy is installed, the grant
      itself would allow nothing either. */
  lemma RevocationComesTooLate(
    l: Lifecycle, d: Decision, who: string, at: int, reason: string, r: Decision, t: int, scope: string, later: int,
    trust: bool)
    requires ValidSnapshot(l) && l.authorization == Some(d) && Revoke(d, who, at, reason) == Ok(r)
    requires CanInstallAt(l, r, t) && t <= later
    ensures !DecisionAllows(d, scope, later, trust)
  {
    RevokedCopyFields(d, who, at, reason);
    ReplacedOnlyAfterItsEnd(l, d, r, t);
    InForceUntilEnd(d, later);
  }

  /** What a verified copy has in common with the decision it copies. */
  lemma VerifiedCopyFields(d: Decision, who: string)
    requires MarkVerified(d, who).Ok?
    ensures var v := MarkVerified(d, who).value;
      v.outcome == d.outcome && v.capability == d.capability && v.decidedAt == d.decidedAt
      && v.expiresAt == d.expiresAt && v.revokedAt == d.revokedAt
  {
  }

  /** A newly verified copy of a held grant can be installed at a time exactly when the grant has ended by then. */
  lemma VerifiedCopyInstallable(l: Lifecycle, d: Decision, who: string, v: Decision, t: int)
    requires ValidSnapshot(l) && l.authorization == Some(d) && d.outcome == Granted
    requires MarkVerified(d, who) == Ok(v) && v != d
    ensures CanInstallAt(l, v, t) <==> l.updatedAt <= t && EndedBy(d, t)
  {
    VerifiedCopyFields(d, who);
    if CanInstallAt(l, v, t) {
      ReplacedOnlyAfterItsEnd(l, d, v, t);
    } else if l.updatedAt <= t && EndedBy(d, t) {
      InForceUntilEnd(d, t);
      InForceUntilEnd(v, t);
      InstalledWhenQuiet(l, d, v, t);
    }
  }

  /** A loaded endless grant therefore allows nothing, now or ever after. */
  lemma LoadedGrantNeverAllows(record: Lifecycle, run: seq<Lifecycle>, j: nat, scope: string, at: Option<int>)
    requires IsRun(run) && j < |run| && LoadLifecycle(record) == Ok(run[0])
    requires record.authorization.Some? && Endless(record.authorization.value)
    ensures !Allows(run[j], scope, at)
  {
    EndlessGrantStays(run, 0, j);
  }

  ghost predicate CanRetire(l: Lifecycle) {
    exists run: seq<Lifecycle> :: IsRun(run) && run[0] == l && run[|run| - 1].maturity == RetiredMaturity
  }

  /** From a valid snapshot, retirement is reachable exactly when no endless grant stands in the way (or it is already
      there). */
  lemma RetirementReachable(l: Lifecycle)
    requires ValidSnapshot(l)
    ensures CanRetire(l) <==> !(l.authorization.Some? && Endless(l.authorization.value))
  {
    if l.authorization.Some? && Endless(l.authorization.value) {
      forall run: seq<Lifecycle> | IsRun(run) && run[0] == l ensures run[|run| - 1].maturity != RetiredMaturity {
        EndlessGrantBlocksRetirement(run, 0, |run| - 1);
      }
    } else {
      var run := RetiringRun(l);
      assert IsRun(run) && run[0] == l && run[|run| - 1].maturity == RetiredMaturity;
    }
  }

  lemma EndlessGrantBlocksRetirement(run: seq<Lifecycle>, i: nat, j: nat)
    requires IsRun(run) && i <= j < |run| && run[i].authorization.Some? && Endless(run[i].authorization.value)
    ensures run[j].maturity != RetiredMaturity && run[j].operational != RetiredOperation
  {
    EndlessGrantStays(run, i, j);
    RunStaysValid(run, j);
  }

  /** A time by which the snapshot's authorization, if any, is no longer in force. */
  function QuietTime(l: Lifecycle): int {
    if l.authorization.None? then l.updatedAt
    else
      var d := l.authorization.value;
      var t := Or(d.revokedAt, Or(d.expiresAt, l.updatedAt));
      if t < l.updatedAt then l.updatedAt else t
  }

  lemma RetiringRun(l: Lifecycle) returns (run: seq<Lifecycle>)
    requires ValidSnapshot(l) && !(l.authorization.Some? && Endless(l.authorization.value))
    ensures IsRun(run) && run[0] == l && run[|run| - 1].maturity == RetiredMaturity
  {
    if l.maturity == RetiredMaturity {
      run := [l];
    } else {
      var c := Change(Some(RetiredMaturity), Some(RetiredOperation), None, None, Keep, QuietTime(l));
      assert Evolve(l, c).Ok?;
      run := [l, Evolve(l, c).value];
      assert Steps(run, 0) by { assert Step(run[0], run[1]); }
    }
  }
}
