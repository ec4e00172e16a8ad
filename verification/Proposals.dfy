/** Proposals: what the agent wants to do, and the rules a proposal must meet. */
module Proposals {
  import opened Prelude
  import opened Tasks

  datatype ProposalRisk = Low | Medium | High | Critical

  function Rank(r: ProposalRisk): nat {
    match r case Low => 0 case Medium => 1 case High => 2 case Critical => 3
  }

  predicate RequiresConsent(r: ProposalRisk) {
    r != ProposalRisk.Low
  }

  function ToTaskRisk(r: ProposalRisk): TaskRisk {
    match r
    case Low => TaskRisk.Low
    case Medium => TaskRisk.Medium
    case High => TaskRisk.High
    case Critical => TaskRisk.Critical
  }

  datatype Proposal = Proposal(
    id: string,
    kind: TaskKind,
    title: string,
    description: string,
    risk: ProposalRisk,
    reasoning: string,
    evidence: seq<string>,
    timestamp: nat,
    target: Option<string>,
    arguments: Option<Arguments>)

  datatype ProposalError =
    | EmptyId
    | IncompleteDescription
    | UnknownEvidence(proposal: string, missing: string)
    | RiskTooLowForKind(kind: TaskKind, risk: ProposalRisk)

  function MinRisk(k: TaskKind): ProposalRisk {
    match k
    case Notify | DisplayControl => ProposalRisk.Low
    case ProposeUpdate | ProposeInstall | SecurityControl | PowerControl | Custom => ProposalRisk.High
    case _ => ProposalRisk.Medium
  }

  /** The least risk a proposal may claim is its kind's default risk, except for power control. */
  lemma MinRiskIsDefaultIff(k: TaskKind)
    ensures ToTaskRisk(MinRisk(k)) == DefaultRisk(k) <==> k != PowerControl
    ensures MinRisk(PowerControl) == ProposalRisk.High && DefaultRisk(PowerControl) == TaskRisk.Critical
  {
  }

  /** The first piece of evidence that is not among the observations. */
  function FirstUnknown(evidence: seq<string>, observations: set<string>): Option<string> {
    if evidence == [] then None
    else if evidence[0] !in observations then Some(evidence[0])
    else FirstUnknown(evidence[1..], observations)
  }

  /** `observations` are the ids of the known observations. */
  function ProposalIssue(p: Proposal, observations: set<string>): Option<ProposalError> {
    if p.id == "" then Some(EmptyId)
    else if p.title == "" || p.description == "" || p.reasoning == "" then Some(IncompleteDescription)
    else match FirstUnknown(p.evidence, observations)
      case Some(ev) => Some(UnknownEvidence(p.id, ev))
      case None => if Rank(p.risk) < Rank(MinRisk(p.kind)) then Some(RiskTooLowForKind(p.kind, p.risk)) else None
  }

  lemma {:induction false} AllKnown(evidence: seq<string>, observations: set<string>)
    ensures FirstUnknown(evidence, observations).None? <==> forall e :: e in evidence ==> e in observations
  {
    if evidence != [] {
      AllKnown(evidence[1..], observations);
      assert evidence == [evidence[0]] + evidence[1..];
    }
  }

  /** What a valid proposal is, independent of the order of the checks. */
  lemma ValidIff(p: Proposal, observations: set<string>)
    ensures ProposalIssue(p, observations).None? <==>
              && p.id != "" && p.title != "" && p.description != "" && p.reasoning != ""
              && (forall e :: e in p.evidence ==> e in observations)
              && (p.kind in {ProposeUpdate, ProposeInstall, SecurityControl, PowerControl, Custom} ==>
                    p.risk == ProposalRisk.High || p.risk == ProposalRisk.Critical)
              && (p.kind in {RestartService, ProposeCleanup, ProposeSecurityScan, DeviceControl} ==> p.risk != ProposalRisk.Low)
  {
    AllKnown(p.evidence, observations);
  }

  /** Which issue is reported, in the order of the checks. */
  lemma IssueIff(p: Proposal, observations: set<string>)
    ensures var e := ProposalIssue(p, observations);
            && (e == Some(EmptyId) <==> p.id == "")
            && (e == Some(IncompleteDescription) <==> p.id != "" && (p.title == "" || p.description == "" || p.reasoning == ""))
            && (e.Some? && e.value.UnknownEvidence? <==>
                  && p.id != "" && p.title != "" && p.description != "" && p.reasoning != ""
                  && exists ev :: ev in p.evidence && ev !in observations)
            && (e.Some? && e.value.UnknownEvidence? ==>
                  e.value.proposal == p.id && e.value.missing in p.evidence && e.value.missing !in observations)
            && (e.Some? && e.value.RiskTooLowForKind? ==> e == Some(RiskTooLowForKind(p.kind, p.risk)))
  {
    AllKnown(p.evidence, observations);
    UnknownIsEvidence(p.evidence, observations);
  }

  lemma {:induction false} UnknownIsEvidence(evidence: seq<string>, observations: set<string>)
    ensures FirstUnknown(evidence, observations).Some? ==>
              FirstUnknown(evidence, observations).value in evidence && FirstUnknown(evidence, observations).value !in observations
  {
    if evidence != [] && evidence[0] in observations {
      UnknownIsEvidence(evidence[1..], observations);
    }
  }

  method ValidateProposal(p: Proposal, observations: set<string>) returns (r: Result<(), ProposalError>)
    ensures match ProposalIssue(p, observations) case Some(e) => r == Err(e) case None => r == Ok(())
  {
    if p.id == "" { return Err(EmptyId); }
    if p.title == "" || p.description == "" || p.reasoning == "" { return Err(IncompleteDescription); }
    for i := 0 to |p.evidence|
      invariant FirstUnknown(p.evidence, observations) == FirstUnknown(p.evidence[i..], observations)
    {
      assert p.evidence[i..][1..] == p.evidence[i + 1..];
      if p.evidence[i] !in observations { return Err(UnknownEvidence(p.id, p.evidence[i])); }
    }
    if Rank(p.risk) < Rank(MinRisk(p.kind)) { return Err(RiskTooLowForKind(p.kind, p.risk)); }
    r := Ok(());
  }

  /** The valid drafts, in order. */
  function Valid(drafts: seq<Proposal>, observations: set<string>): seq<Proposal> {
    if drafts == [] then [] else
    var rest := Valid(drafts[..|drafts| - 1], observations);
    var d := drafts[|drafts| - 1];
    if ProposalIssue(d, observations).None? then rest + [d] else rest
  }

  /** What is wrong with the others, in order. */
  function Issues(drafts: seq<Proposal>, observations: set<string>): seq<ProposalError> {
    if drafts == [] then [] else
    var rest := Issues(drafts[..|drafts| - 1], observations);
    match ProposalIssue(drafts[|drafts| - 1], observations)
    case Some(e) => rest + [e]
    case None => rest
  }

  lemma {:induction false} ValidMembers(drafts: seq<Proposal>, observations: set<string>, p: Proposal)
    ensures p in Valid(drafts, observations) <==> p in drafts && ProposalIssue(p, observations).None?
  {
    if drafts != [] {
      var n := |drafts| - 1;
      ValidMembers(drafts[..n], observations, p);
      assert drafts == drafts[..n] + [drafts[n]];
    }
  }

  /** Every draft ends up accepted or rejected. */
  method ProposeFromObservations(drafts: seq<Proposal>, observations: set<string>)
    returns (accepted: seq<Proposal>, rejected: seq<ProposalError>)
    ensures accepted == Valid(drafts, observations) && rejected == Issues(drafts, observations)
    ensures |accepted| + |rejected| == |drafts|
  {
    accepted, rejected := [], [];
    for i := 0 to |drafts|
      invariant accepted == Valid(drafts[..i], observations) && rejected == Issues(drafts[..i], observations)
      invariant |accepted| + |rejected| == i
    {
      assert drafts[..i + 1][..i] == drafts[..i];
      var verdict := ValidateProposal(drafts[i], observations);
      match verdict {
        case Ok(_) => accepted := accepted + [drafts[i]];
        case Err(e) => rejected := rejected + [e];
      }
    }
    assert drafts[..|drafts|] == drafts;
  }

  /** A proposal becomes a task unless a text is missing; the task says the same and depends on nothing. */
  lemma TaskSaysTheSame(p: Proposal, id: TaskId)
    ensures ProposalToTask(p, id).Some? <==> id != "" && p.title != "" && p.description != ""
    ensures ProposalToTask(p, id).Some? ==>
              var t := ProposalToTask(p, id).value;
              && t.id == id && t.kind == p.kind && t.title == p.title && t.description == p.description
              && t.dependsOn == [] && t.target == p.target && t.arguments == p.arguments
              && (t.risk == TaskRisk.Low <==> p.risk == ProposalRisk.Low) && (t.risk == TaskRisk.Medium <==> p.risk == ProposalRisk.Medium)
              && (t.risk == TaskRisk.High <==> p.risk == ProposalRisk.High)
  {
  }

  function ProposalToTask(p: Proposal, id: TaskId): Option<AgentTask> {
    match NewTask(id, p.kind, p.title, p.description)
    case None => None
    case Some(t) => Some(t.(risk := ToTaskRisk(p.risk), target := p.target, arguments := p.arguments))
  }
}
