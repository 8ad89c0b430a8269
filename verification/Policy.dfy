/**
 Autonomy policy and the operation registry (agent/policy.go, agent/registry.go).
 */
module Policy {
  import opened Wrappers
  import opened Sanitize

  type Args = Option<JsonMap>   // None is the nil map
  type Scope = string

  datatype AutonomyLevel = Observe | Assist | Maintain | Autonomous | UnknownLevel(text: string)

  function Rank(level: AutonomyLevel): Option<nat> {
    match level
    case Observe => Some(0)
    case Assist => Some(1)
    case Maintain => Some(2)
    case Autonomous => Some(3)
    case UnknownLevel(_) => None
  }

  const RISK_READ: nat := 0
  const RISK_ELEVATED: nat := 2
  const RISK_DESTRUCTIVE: nat := 3

  const MAX_OPERATION_ARGS_BYTES: nat := 64 * 1024

  /** The host-side validator: the size of the JSON encoding and the compiled schema. */
  datatype ArgumentValidator = ArgumentValidator(encodedSize: Args -> nat, accepts: Args -> bool)

  datatype OperationSpec = OperationSpec(
    name: string,
    contractVersion: int,
    description: string,
    scopes: seq<Scope>,
    risk: nat,
    autonomousAt: AutonomyLevel,
    requiresApproval: bool,
    argsSchema: string,
    argsSchemaIsObject: bool,
    resultSchemaIsJson: bool,
    argsProperties: Option<set<string>>,
    sensitiveArgs: seq<string>,
    validator: Option<ArgumentValidator>)
  {
    predicate ValidArgs(args: Args) {
      validator.Some?
      && validator.value.encodedSize(args) <= MAX_OPERATION_ARGS_BYTES
      && validator.value.accepts(args)
    }

    /** A registered read that needs nobody's approval. */
    predicate PlainRead() {
      risk == RISK_READ && !requiresApproval
    }
  }

  type Registry = map<string, OperationSpec>

  datatype PolicyConfig = PolicyConfig(level: AutonomyLevel, scopes: map<Scope, bool>) {
    predicate Enabled(scope: Scope) {
      scope in scopes && scopes[scope]
    }
  }

  datatype Decision = ObserveOnly | ProposalOnly | ApprovalRequired | Allow | Deny

  datatype Reason =
    | UnknownOperation(operation: string)
    | UnknownAutonomyLevel
    | IncompleteEntry
    | InvalidRisk
    | MissingScope(scope: Scope)
    | ObserveNeverExecutes
    | AssistNeverExecutes
    | NeedsOwnerApproval
    | InvalidThreshold
    | AutonomyRequired(level: AutonomyLevel)
    | PolicyPermits
    | ArgumentsDoNotMatch

  datatype PolicyResult = PolicyResult(decision: Decision, reason: Reason)

  datatype Proposal = Proposal(operation: string, args: Args)

  /** The first scope of the list that the policy does not grant. */
  function FirstMissingScope(policy: PolicyConfig, scopes: seq<Scope>): (missing: Option<Scope>)
    ensures missing.None? <==> forall s :: s in scopes ==> policy.Enabled(s)
    ensures missing.Some? ==> missing.value in scopes && !policy.Enabled(missing.value)
  {
    if scopes == [] then None
    else if !policy.Enabled(scopes[0]) then Some(scopes[0])
    else FirstMissingScope(policy, scopes[1..])
  }

  predicate OperationScopesEnabled(policy: PolicyConfig, spec: OperationSpec) {
    forall s :: s in spec.scopes ==> policy.Enabled(s)
  }

  function Evaluate(policy: PolicyConfig, spec: OperationSpec): PolicyResult {
    if Rank(policy.level).None? then PolicyResult(Deny, UnknownAutonomyLevel)
    else if spec.name == "" || spec.scopes == [] then PolicyResult(Deny, IncompleteEntry)
    else if spec.risk > RISK_DESTRUCTIVE then PolicyResult(Deny, InvalidRisk)
    else
      var missing := FirstMissingScope(policy, spec.scopes);
      if missing.Some? then PolicyResult(Deny, MissingScope(missing.value))
      else if policy.level == Observe then PolicyResult(ObserveOnly, ObserveNeverExecutes)
      else if policy.level == Assist then PolicyResult(ProposalOnly, AssistNeverExecutes)
      else if spec.risk >= RISK_ELEVATED || spec.requiresApproval then
        PolicyResult(ApprovalRequired, NeedsOwnerApproval)
      else
        var threshold := Rank(spec.autonomousAt);
        if threshold.None? then PolicyResult(Deny, InvalidThreshold)
        else if Rank(policy.level).value < threshold.value then
          PolicyResult(ApprovalRequired, AutonomyRequired(spec.autonomousAt))
        else PolicyResult(Allow, PolicyPermits)
  }

  function EvaluateProposal(policy: PolicyConfig, registry: Registry, proposal: Proposal): PolicyResult {
    if proposal.operation !in registry then PolicyResult(Deny, UnknownOperation(proposal.operation))
    else Evaluate(policy, registry[proposal.operation])
  }

  predicate SpecValid(name: string, spec: OperationSpec) {
    name != "" && spec.name == name && spec.scopes != [] && spec.contractVersion >= 1
    && spec.risk <= RISK_DESTRUCTIVE
    && Rank(spec.autonomousAt).Some?
    && spec.validator.Some?
    && spec.argsSchemaIsObject
    && spec.resultSchemaIsJson
  }

  predicate RegistryValid(registry: Registry) {
    registry != map[] && forall name | name in registry :: SpecValid(name, registry[name])
  }

  /** On a validated registry and a known level, the planner is shown exactly what policy does not deny. */
  lemma ShownExactlyWhenNotDenied(policy: PolicyConfig, registry: Registry, proposal: Proposal)
    requires RegistryValid(registry) && Rank(policy.level).Some?
    ensures EvaluateProposal(policy, registry, proposal).decision != Deny
       <==> proposal.operation in registry && OperationScopesEnabled(policy, registry[proposal.operation])
  {
    if proposal.operation in registry {
      assert SpecValid(proposal.operation, registry[proposal.operation]);
    }
  }

  /** Every execution-bearing decision comes from level maintain or autonomous with all scopes granted;
      execution without approval is confined to registered operations below the elevated risk class. */
  lemma ExecutionNeedsScopesAndLevel(policy: PolicyConfig, registry: Registry, proposal: Proposal)
    requires EvaluateProposal(policy, registry, proposal).decision in {Allow, ApprovalRequired}
    ensures proposal.operation in registry
    ensures OperationScopesEnabled(policy, registry[proposal.operation])
    ensures policy.level in {Maintain, Autonomous}
    ensures EvaluateProposal(policy, registry, proposal).decision == Allow ==>
      registry[proposal.operation].risk < RISK_ELEVATED && !registry[proposal.operation].requiresApproval
  {
  }

  /** What policy answers on a validated registry, all cases: what it needs to allow a proposal, to ask for
      approval, to keep it a plan or an observation; everything else is denied. */
  lemma DecisionsAreDetermined(policy: PolicyConfig, registry: Registry, proposal: Proposal)
    requires RegistryValid(registry)
    ensures var decision := EvaluateProposal(policy, registry, proposal).decision;
      var permitted := proposal.operation in registry && OperationScopesEnabled(policy, registry[proposal.operation]);
      (decision == ObserveOnly <==> permitted && policy.level == Observe)
      && (decision == ProposalOnly <==> permitted && policy.level == Assist)
      && (decision == Allow <==>
            permitted && policy.level in {Maintain, Autonomous}
            && registry[proposal.operation].risk < RISK_ELEVATED && !registry[proposal.operation].requiresApproval
            && (registry[proposal.operation].autonomousAt == Autonomous ==> policy.level == Autonomous))
      && (decision == ApprovalRequired <==> permitted && policy.level in {Maintain, Autonomous} && decision != Allow)
  {
    if proposal.operation in registry {
      assert SpecValid(proposal.operation, registry[proposal.operation]);
    }
  }

  /** More autonomy never turns a permitted operation into one that needs approval. */
  lemma AutonomyIsMonotone(low: AutonomyLevel, high: AutonomyLevel, scopes: map<Scope, bool>, spec: OperationSpec)
    requires Rank(low).Some? && Rank(high).Some? && Rank(low).value <= Rank(high).value
    requires Evaluate(PolicyConfig(low, scopes), spec).decision == Allow
    ensures Evaluate(PolicyConfig(high, scopes), spec).decision == Allow
  {
    assert forall s :: PolicyConfig(low, scopes).Enabled(s) == PolicyConfig(high, scopes).Enabled(s);
  }
}
