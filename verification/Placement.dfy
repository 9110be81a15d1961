/**
 Placement evidence: the loops that validate a scheduler explanation, proved to accept
 exactly the consistent decisions, and the binding of a decision to one job and one
 span of time.
 */
module Placement {
  import opened Text
  import opened Utf8
  import opened Uuids
  import opened Jobs
  import JobReader
  import JsonReader
  import opened Sums

  type i64 = n: int | -0x8000_0000_0000_0000 <= n < 0x8000_0000_0000_0000

  const MAX_CANDIDATES := 256
  const MAX_EVIDENCE_ITEMS := 64
  const MAX_TEXT_BYTES := 256
  const MAX_SAFE_JSON := 9_007_199_254_740_991

  datatype ScoreComponent = ScoreComponent(key: string, value: i64, detail: string)

  datatype RejectionCode =
    | Disabled | Offline | Draining | StaleNode | ManualNodeRequired | ManualNodeMismatch | WrongOs
    | WrongArchitecture | MissingCapability | InsufficientCpu | InsufficientMemory | InsufficientDisk
    | GpuRequired | GpuUnavailable | GpuVendorMismatch | InsufficientVram | ExclusiveGpuUnavailable
    | PolicyJobKindDenied | BatteryDisallowed | CpuLimitExceeded | CpuEwmaLimitExceeded
    | MemoryLimitExceeded | TemperatureLimitExceeded | SlotLimitReached | ContainmentLimitReached

  datatype Rejection = Rejection(code: RejectionCode, detail: string)

  datatype Candidate = Candidate(
    nodeId: Uuid,
    nodeName: string,
    eligible: bool,
    score: Option<i64>,
    components: seq<ScoreComponent>,
    rejections: seq<Rejection>)

  datatype Explanation = Explanation(policy: PlacementPolicy, selected: Option<Uuid>, candidates: seq<Candidate>)

  datatype Decision = Decision(nodeId: Uuid, score: i64, explanation: Explanation)

  datatype Error =
    | UnsupportedApiVersion | NilPlanId | NilJobId | NilDecisionNodeId | InvalidJobDigest
    | NegativeFleetRevision | FleetRevisionExceedsSafeInteger
    | NegativeNodeRevision | NodeRevisionExceedsSafeInteger
    | NegativePolicyRevision | PolicyRevisionExceedsSafeInteger
    | DecisionScoreOutOfRange | CandidateScoreOutOfRange | ScoreComponentValueOutOfRange
    | InvalidTimeRange | CreatedTooFarInFuture | Expired
    | ExpectedJobInvalid | ExpectedJobIdMismatch | ExpectedJobDigestMismatch | ExpectedPolicyMismatch
    | ExpectedPreferredNodeMismatch | ExplanationSelectedNodeMismatch | CandidateCountOutOfRange
    | CandidateNilNodeId | CandidateNameInvalid | DuplicateCandidateNodeId | EligibleCandidateMissingScore
    | EligibleCandidateScoreComponentsOutOfRange | EligibleCandidateHasRejections
    | IneligibleCandidateHasScore | IneligibleCandidateHasScoreComponents
    | IneligibleCandidateRejectionsOutOfRange | ScoreComponentKeyInvalid | ScoreComponentDetailInvalid
    | DuplicateScoreComponentKey | ScoreComponentSumOverflow | ScoreComponentSumOutOfRange
    | ScoreComponentSumMismatch | RejectionDetailInvalid | DuplicateRejectionCode
    | SelectedCandidateCountMismatch | SelectedCandidateIneligible | DecisionScoreMismatch

  predicate ValidText(s: string) {
    !Blank(s) && ByteLength(s) <= MAX_TEXT_BYTES && !HasControl(s)
  }

  /** Text in evidence: something visible, at most 256 bytes, no control character. */
  lemma ValidTextExact(s: string)
    ensures ValidText(s) <==>
      && (exists c :: c in s && !IsWhitespace(c)) && |Utf8.Encode(s)| <= 256 && (forall c :: c in s ==> !IsControl(c))
  {
  }

  predicate Safe(n: int) {
    -MAX_SAFE_JSON <= n <= MAX_SAFE_JSON
  }

  // ---------------------------------------------------------------- what a consistent decision is

  function Total(components: seq<ScoreComponent>): int {
    if components == [] then 0 else Total(components[..|components| - 1]) + components[|components| - 1].value
  }

  predicate ConsistentComponents(cs: seq<ScoreComponent>) {
    && (forall i :: 0 <= i < |cs| ==> ValidText(cs[i].key) && ValidText(cs[i].detail) && Safe(cs[i].value))
    && (forall i, j :: 0 <= i < j < |cs| ==> cs[i].key != cs[j].key)
    && (forall n :: 0 <= n <= |cs| ==> Safe(Total(cs[..n])))
  }

  predicate ConsistentEligible(c: Candidate) {
    && c.score.Some? && Safe(c.score.value)
    && 1 <= |c.components| <= 64 && c.rejections == []
    && ConsistentComponents(c.components)
    && Total(c.components) == c.score.value
  }

  predicate ConsistentRejections(rs: seq<Rejection>) {
    && (forall i :: 0 <= i < |rs| ==> ValidText(rs[i].detail))
    && (forall i, j :: 0 <= i < j < |rs| ==> rs[i].code != rs[j].code)
  }

  predicate ConsistentIneligible(c: Candidate) {
    && c.score.None? && c.components == []
    && 1 <= |c.rejections| <= 64
    && ConsistentRejections(c.rejections)
  }

  predicate ConsistentCandidate(c: Candidate) {
    && c.nodeId != NIL && ValidText(c.nodeName)
    && (if c.eligible then ConsistentEligible(c) else ConsistentIneligible(c))
  }

  predicate DistinctNodes(cs: seq<Candidate>) {
    DistinctUpTo(cs, |cs|)
  }

  predicate DistinctUpTo(cs: seq<Candidate>, n: nat)
    requires n <= |cs|
  {
    forall i, j :: 0 <= i < j < n ==> cs[i].nodeId != cs[j].nodeId
  }

  /** The candidate the decision names. */
  predicate SelectedAt(d: Decision, i: int) {
    && 0 <= i < |d.explanation.candidates|
    && d.explanation.candidates[i].nodeId == d.nodeId
    && d.explanation.candidates[i].eligible
    && d.explanation.candidates[i].score == Some(d.score)
  }

  /** The decision is the eligible candidate of that id and score, among distinct valid candidates. */
  predicate Consistent(d: Decision) {
    && d.explanation.selected == Some(d.nodeId)
    && 1 <= |d.explanation.candidates| <= 256
    && (forall i :: 0 <= i < |d.explanation.candidates| ==> ConsistentCandidate(d.explanation.candidates[i]))
    && DistinctNodes(d.explanation.candidates)
    && exists i :: 0 <= i < |d.explanation.candidates| && SelectedAt(d, i)
  }

  // ---------------------------------------------------------------- what an error says is wrong

  ghost predicate ComponentsDefect(cs: seq<ScoreComponent>, e: Error) {
    match e
    case ScoreComponentKeyInvalid => exists i :: 0 <= i < |cs| && !ValidText(cs[i].key)
    case ScoreComponentDetailInvalid => exists i :: 0 <= i < |cs| && !ValidText(cs[i].detail)
    case DuplicateScoreComponentKey => exists i, j :: 0 <= i < j < |cs| && cs[i].key == cs[j].key
    case ScoreComponentValueOutOfRange => exists i :: 0 <= i < |cs| && !Safe(cs[i].value)
    case ScoreComponentSumOutOfRange => exists n :: 0 <= n <= |cs| && !Safe(Total(cs[..n]))
    case _ => false
  }

  ghost predicate EligibleDefect(c: Candidate, e: Error) {
    match e
    case EligibleCandidateMissingScore => c.score.None?
    case CandidateScoreOutOfRange => c.score.Some? && !Safe(c.score.value)
    case EligibleCandidateScoreComponentsOutOfRange => c.components == [] || |c.components| > 64
    case EligibleCandidateHasRejections => c.rejections != []
    case ScoreComponentSumMismatch => c.score.Some? && Total(c.components) != c.score.value
    case _ => ComponentsDefect(c.components, e)
  }

  ghost predicate IneligibleDefect(c: Candidate, e: Error) {
    var rs := c.rejections;
    match e
    case IneligibleCandidateHasScore => c.score.Some?
    case IneligibleCandidateHasScoreComponents => c.components != []
    case IneligibleCandidateRejectionsOutOfRange => rs == [] || |rs| > 64
    case RejectionDetailInvalid => exists i :: 0 <= i < |rs| && !ValidText(rs[i].detail)
    case DuplicateRejectionCode => exists i, j :: 0 <= i < j < |rs| && rs[i].code == rs[j].code
    case _ => false
  }

  ghost predicate CandidateDefect(c: Candidate, e: Error) {
    if c.eligible then EligibleDefect(c, e) else IneligibleDefect(c, e)
  }

  ghost predicate ListDefect(d: Decision, e: Error) {
    var cs := d.explanation.candidates;
    match e
    case ExplanationSelectedNodeMismatch => d.explanation.selected != Some(d.nodeId)
    case CandidateCountOutOfRange => cs == [] || |cs| > 256
    case CandidateNilNodeId => exists i :: 0 <= i < |cs| && cs[i].nodeId == NIL
    case CandidateNameInvalid => exists i :: 0 <= i < |cs| && !ValidText(cs[i].nodeName)
    case DuplicateCandidateNodeId => exists i, j :: 0 <= i < j < |cs| && cs[i].nodeId == cs[j].nodeId
    case SelectedCandidateCountMismatch => forall i :: 0 <= i < |cs| ==> cs[i].nodeId != d.nodeId
    case SelectedCandidateIneligible => exists i :: 0 <= i < |cs| && cs[i].nodeId == d.nodeId && !cs[i].eligible
    case DecisionScoreMismatch => exists i :: 0 <= i < |cs| && cs[i].nodeId == d.nodeId && cs[i].score != Some(d.score)
    case _ => false
  }

  ghost predicate ExplanationDefect(d: Decision, e: Error) {
    || ListDefect(d, e)
    || exists i :: 0 <= i < |d.explanation.candidates| && CandidateDefect(d.explanation.candidates[i], e)
  }

  // ---------------------------------------------------------------- the validators

  /** Accepts exactly the consistent eligible candidates; its checked addition cannot overflow. */
  method ValidateEligible(c: Candidate) returns (r: Option<Error>)
    ensures r.None? <==> ConsistentEligible(c)
    ensures r.Some? ==> EligibleDefect(c, r.value)
  {
    hide ValidText, ConsistentComponents, ComponentsDefect;
    if c.score.None? {
      return Some(EligibleCandidateMissingScore);
    }
    var score := c.score.value;
    if !Safe(score) {
      return Some(CandidateScoreOutOfRange);
    }
    if c.components == [] || |c.components| > MAX_EVIDENCE_ITEMS {
      return Some(EligibleCandidateScoreComponentsOutOfRange);
    }
    if c.rejections != [] {
      return Some(EligibleCandidateHasRejections);
    }
    var checked, sum := CheckComponents(c.components);
    if checked.Some? {
      ComponentErrors(c, checked.value);
      return checked;
    }
    if sum != score {
      return Some(ScoreComponentSumMismatch);
    }
    return None;
  }

  lemma ComponentErrors(c: Candidate, e: Error)
    requires ComponentsDefect(c.components, e)
    ensures EligibleDefect(c, e)
  {
  }

  /** One component on its own has the defect. */
  ghost predicate DefectiveComponent(c: ScoreComponent, e: Error) {
    || (e == ScoreComponentKeyInvalid && !ValidText(c.key))
    || (e == ScoreComponentDetailInvalid && !ValidText(c.detail))
    || (e == ScoreComponentValueOutOfRange && !Safe(c.value))
  }

  lemma DefectiveAt(cs: seq<ScoreComponent>, i: nat, e: Error)
    requires i < |cs| && DefectiveComponent(cs[i], e)
    ensures ComponentsDefect(cs, e) && !ConsistentComponents(cs)
  {
    hide ValidText;
  }

  lemma RepeatedKey(cs: seq<ScoreComponent>, j: nat, i: nat)
    requires j < i < |cs| && cs[j].key == cs[i].key
    ensures ComponentsDefect(cs, DuplicateScoreComponentKey) && !ConsistentComponents(cs)
  {
    hide ValidText;
  }

  lemma SumLeaves(cs: seq<ScoreComponent>, n: nat)
    requires n <= |cs| && !Safe(Total(cs[..n]))
    ensures ComponentsDefect(cs, ScoreComponentSumOutOfRange) && !ConsistentComponents(cs)
  {
    hide ValidText;
  }

  lemma NoComponents(cs: seq<ScoreComponent>)
    ensures ConsistentComponents(cs[..0]) && Total(cs[..0]) == 0
  {
  }

  lemma TotalExtends(cs: seq<ScoreComponent>, i: nat)
    requires i < |cs|
    ensures Total(cs[..i + 1]) == Total(cs[..i]) + cs[i].value
  {
    assert cs[..i + 1][..i] == cs[..i];
  }

  /** The loop over the components: their defect, or their sum. */
  method CheckComponents(cs: seq<ScoreComponent>) returns (r: Option<Error>, sum: int)
    ensures r.None? <==> ConsistentComponents(cs)
    ensures r.None? ==> sum == Total(cs)
    ensures r.Some? ==> ComponentsDefect(cs, r.value)
  {
    hide ValidText, ConsistentComponents, ComponentsDefect, Total;
    var keys: set<string> := {};
    sum := 0;
    NoComponents(cs);
    for i := 0 to |cs|
      invariant ConsistentComponents(cs[..i])
      invariant forall k :: k in keys <==> exists j :: 0 <= j < i && cs[j].key == k
      invariant sum == Total(cs[..i]) && Safe(sum)
    {
      var component := cs[i];
      TotalExtends(cs, i);
      if !ValidText(component.key) {
        DefectiveAt(cs, i, ScoreComponentKeyInvalid);
        return Some(ScoreComponentKeyInvalid), sum;
      }
      if !ValidText(component.detail) {
        DefectiveAt(cs, i, ScoreComponentDetailInvalid);
        return Some(ScoreComponentDetailInvalid), sum;
      }
      if component.key in keys {
        ghost var j :| 0 <= j < i && cs[j].key == component.key;
        RepeatedKey(cs, j, i);
        return Some(DuplicateScoreComponentKey), sum;
      }
      keys := keys + {component.key};
      if !Safe(component.value) {
        DefectiveAt(cs, i, ScoreComponentValueOutOfRange);
        return Some(ScoreComponentValueOutOfRange), sum;
      }
      if !(-0x8000_0000_0000_0000 <= sum + component.value < 0x8000_0000_0000_0000) {
        assert false;
        return Some(ScoreComponentSumOverflow), sum;
      }
      sum := sum + component.value;
      if !Safe(sum) {
        SumLeaves(cs, i + 1);
        return Some(ScoreComponentSumOutOfRange), sum;
      }
      ComponentsExtend(cs, i);
    }
    assert cs[..|cs|] == cs;
    return None, sum;
  }

  lemma ComponentsExtend(cs: seq<ScoreComponent>, i: nat)
    requires i < |cs| && ConsistentComponents(cs[..i])
    requires ValidText(cs[i].key) && ValidText(cs[i].detail) && Safe(cs[i].value)
    requires forall j :: 0 <= j < i ==> cs[j].key != cs[i].key
    requires Safe(Total(cs[..i + 1]))
    ensures ConsistentComponents(cs[..i + 1])
  {
    hide ValidText;
    var shorter, longer := cs[..i], cs[..i + 1];
    assert forall j :: 0 <= j < i ==> longer[j] == shorter[j];
    forall n | 0 <= n <= |longer|
      ensures Safe(Total(longer[..n]))
    {
      if n <= i {
        assert longer[..n] == shorter[..n];
      } else {
        assert longer[..n] == longer;
      }
    }
  }

  lemma RejectionsExtend(rs: seq<Rejection>, i: nat)
    requires i < |rs| && ConsistentRejections(rs[..i])
    requires ValidText(rs[i].detail)
    requires forall j :: 0 <= j < i ==> rs[j].code != rs[i].code
    ensures ConsistentRejections(rs[..i + 1])
  {
    hide ValidText;
    var shorter, longer := rs[..i], rs[..i + 1];
    assert forall j :: 0 <= j < i ==> longer[j] == shorter[j];
  }

  /** Accepts exactly the consistent ineligible candidates. */
  method ValidateIneligible(c: Candidate) returns (r: Option<Error>)
    ensures r.None? <==> ConsistentIneligible(c)
    ensures r.Some? ==> IneligibleDefect(c, r.value)
  {
    hide ValidText;
    if c.score.Some? {
      return Some(IneligibleCandidateHasScore);
    }
    if c.components != [] {
      return Some(IneligibleCandidateHasScoreComponents);
    }
    if c.rejections == [] || |c.rejections| > MAX_EVIDENCE_ITEMS {
      return Some(IneligibleCandidateRejectionsOutOfRange);
    }
    var rs := c.rejections;
    var codes: set<RejectionCode> := {};
    for i := 0 to |rs|
      invariant ConsistentRejections(rs[..i])
      invariant forall k :: k in codes <==> exists j :: 0 <= j < i && rs[j].code == k
    {
      if !ValidText(rs[i].detail) {
        return Some(RejectionDetailInvalid);
      }
      if rs[i].code in codes {
        return Some(DuplicateRejectionCode);
      }
      RejectionsExtend(rs, i);
      codes := codes + {rs[i].code};
    }
    assert rs[..|rs|] == rs;
    return None;
  }

  /**
   Accepts exactly the consistent decisions. The second-selection error inside the loop
   cannot occur: the count mismatch is reported only when no candidate is the selected node.
   */
  method ValidateExplanation(d: Decision) returns (r: Option<Error>)
    ensures r.None? <==> Consistent(d)
    ensures r.Some? ==> ExplanationDefect(d, r.value) && r.value != ScoreComponentSumOverflow
  {
    hide ValidText, ConsistentEligible, ConsistentIneligible, CandidateDefect, ExplanationDefect, Consistent;
    hide EligibleDefect, IneligibleDefect;
    var cs := d.explanation.candidates;
    if d.explanation.selected != Some(d.nodeId) {
      WholeDefect(d, ExplanationSelectedNodeMismatch);
      return Some(ExplanationSelectedNodeMismatch);
    }
    if cs == [] || |cs| > MAX_CANDIDATES {
      WholeDefect(d, CandidateCountOutOfRange);
      return Some(CandidateCountOutOfRange);
    }
    var nodeIds: set<Uuid> := {};
    var selected: Option<Candidate> := None;
    ghost var at: nat := 0;
    for i := 0 to |cs|
      invariant forall j :: 0 <= j < i ==> ConsistentCandidate(cs[j])
      invariant DistinctUpTo(cs, i)
      invariant forall k :: k in nodeIds <==> exists j :: 0 <= j < i && cs[j].nodeId == k
      invariant selected.None? ==> forall j :: 0 <= j < i ==> cs[j].nodeId != d.nodeId
      invariant selected.Some? ==> at < i && cs[at] == selected.value && cs[at].nodeId == d.nodeId
    {
      var candidate := cs[i];
      if candidate.nodeId == NIL {
        DefectAt(d, i, CandidateNilNodeId);
        return Some(CandidateNilNodeId);
      }
      if !ValidText(candidate.nodeName) {
        DefectAt(d, i, CandidateNameInvalid);
        return Some(CandidateNameInvalid);
      }
      if candidate.nodeId in nodeIds {
        ghost var j :| 0 <= j < i && cs[j].nodeId == candidate.nodeId;
        RepeatedNode(d, j, i);
        return Some(DuplicateCandidateNodeId);
      }
      nodeIds := nodeIds + {candidate.nodeId};
      var verdict: Option<Error>;
      if candidate.eligible {
        verdict := ValidateEligible(candidate);
      } else {
        verdict := ValidateIneligible(candidate);
      }
      if verdict.Some? {
        CandidateErrors(d, i, verdict.value);
        return verdict;
      }
      if candidate.nodeId == d.nodeId {
        if selected.Some? {
          assert false;
          return Some(SelectedCandidateCountMismatch);
        }
        selected := Some(candidate);
        at := i;
      }
    }
    if selected.None? {
      WholeDefect(d, SelectedCandidateCountMismatch);
      return Some(SelectedCandidateCountMismatch);
    }
    if !selected.value.eligible {
      DefectAt(d, at, SelectedCandidateIneligible);
      return Some(SelectedCandidateIneligible);
    }
    if selected.value.score != Some(d.score) {
      DefectAt(d, at, DecisionScoreMismatch);
      return Some(DecisionScoreMismatch);
    }
    ConsistentSelection(d, at);
    return None;
  }

  lemma ConsistentSelection(d: Decision, at: nat)
    requires d.explanation.selected == Some(d.nodeId) && 1 <= |d.explanation.candidates| <= 256
    requires forall j :: 0 <= j < |d.explanation.candidates| ==> ConsistentCandidate(d.explanation.candidates[j])
    requires DistinctNodes(d.explanation.candidates) && SelectedAt(d, at)
    ensures Consistent(d)
  {
    hide ConsistentCandidate, DistinctNodes;
  }

  lemma WholeDefect(d: Decision, e: Error)
    requires || (e == ExplanationSelectedNodeMismatch && d.explanation.selected != Some(d.nodeId))
             || (e == CandidateCountOutOfRange && !(1 <= |d.explanation.candidates| <= 256))
             || (e == SelectedCandidateCountMismatch &&
                   forall i :: 0 <= i < |d.explanation.candidates| ==> d.explanation.candidates[i].nodeId != d.nodeId)
    ensures ExplanationDefect(d, e) && !Consistent(d)
  {
    hide ConsistentCandidate, DistinctNodes, CandidateDefect;
  }

  lemma DefectAt(d: Decision, i: nat, e: Error)
    requires i < |d.explanation.candidates|
    requires var c := d.explanation.candidates[i];
             || (e == CandidateNilNodeId && c.nodeId == NIL)
             || (e == CandidateNameInvalid && !ValidText(c.nodeName))
             || (e == SelectedCandidateIneligible && c.nodeId == d.nodeId && !c.eligible)
             || (e == DecisionScoreMismatch && c.nodeId == d.nodeId && c.score != Some(d.score))
    ensures ExplanationDefect(d, e) && !Consistent(d)
  {
    assert ListDefect(d, e) by {
      hide ValidText, Consistent;
    }
    hide ValidText, ConsistentEligible, ConsistentIneligible, ListDefect, CandidateDefect;
    var cs := d.explanation.candidates;
    if Consistent(d) {
      assert ConsistentCandidate(cs[i]);
      OnlySelected(cs, i, d.nodeId);
    }
  }

  lemma RepeatedNode(d: Decision, j: nat, i: nat)
    requires j < i < |d.explanation.candidates|
    requires d.explanation.candidates[j].nodeId == d.explanation.candidates[i].nodeId
    ensures ExplanationDefect(d, DuplicateCandidateNodeId) && !Consistent(d)
  {
    hide ConsistentCandidate, CandidateDefect;
  }

  /** A candidate's own defect is a defect of the explanation. */
  lemma CandidateErrors(d: Decision, i: nat, e: Error)
    requires i < |d.explanation.candidates|
    requires var c := d.explanation.candidates[i];
      if c.eligible then EligibleDefect(c, e) && !ConsistentEligible(c)
      else IneligibleDefect(c, e) && !ConsistentIneligible(c)
    ensures ExplanationDefect(d, e) && !Consistent(d) && e != ScoreComponentSumOverflow
  {
    hide ValidText, ConsistentEligible, ConsistentIneligible, DistinctNodes, ListDefect;
    NoOverflow(d.explanation.candidates[i], e);
    hide EligibleDefect, IneligibleDefect;
    assert CandidateDefect(d.explanation.candidates[i], e);
    assert !ConsistentCandidate(d.explanation.candidates[i]);
  }

  lemma NoOverflow(c: Candidate, e: Error)
    requires EligibleDefect(c, e) || IneligibleDefect(c, e)
    ensures e != ScoreComponentSumOverflow
  {
    hide ValidText;
  }

  lemma OnlySelected(cs: seq<Candidate>, at: nat, node: Uuid)
    requires at < |cs| && DistinctNodes(cs) && cs[at].nodeId == node
    ensures forall i :: 0 <= i < |cs| && cs[i].nodeId == node ==> i == at
  {
  }

  // ---------------------------------------------------------------- how long a rejection list can be

  function Rank(code: RejectionCode): (n: nat)
    ensures n < 25
  {
    match code
    case Disabled => 0 case Offline => 1 case Draining => 2 case StaleNode => 3 case ManualNodeRequired => 4
    case ManualNodeMismatch => 5 case WrongOs => 6 case WrongArchitecture => 7 case MissingCapability => 8
    case InsufficientCpu => 9 case InsufficientMemory => 10 case InsufficientDisk => 11 case GpuRequired => 12
    case GpuUnavailable => 13 case GpuVendorMismatch => 14 case InsufficientVram => 15
    case ExclusiveGpuUnavailable => 16 case PolicyJobKindDenied => 17 case BatteryDisallowed => 18
    case CpuLimitExceeded => 19 case CpuEwmaLimitExceeded => 20 case MemoryLimitExceeded => 21
    case TemperatureLimitExceeded => 22 case SlotLimitReached => 23 case ContainmentLimitReached => 24
  }

  /** An accepted rejection list has at most one entry per code, so at most 25, well below the item limit. */
  lemma RejectionsAtMost25(c: Candidate)
    requires ConsistentIneligible(c)
    ensures |c.rejections| <= 25
  {
    var ranks := seq(|c.rejections|, i requires 0 <= i < |c.rejections| => Rank(c.rejections[i].code));
    forall i, j | 0 <= i < j < |ranks|
      ensures ranks[i] != ranks[j]
    {
      RankInjective(c.rejections[i].code, c.rejections[j].code);
    }
    Pigeonhole(ranks, 25);
  }

  lemma RankInjective(a: RejectionCode, b: RejectionCode)
    ensures Rank(a) == Rank(b) ==> a == b
  {
  }

  // ---------------------------------------------------------------- binding a decision to a job

  const BINDING_API_VERSION: string := "cyc.dev/placement-plan-binding/v1"

  /** Instants and spans are counted in nanoseconds. */
  const MAX_CLOCK_SKEW: int := 30_000_000_000

  datatype Binding = Binding(
    apiVersion: string,
    planId: Uuid,
    jobId: Uuid,
    jobDigest: string,
    createdAt: int,
    expiresAt: int,
    fleetRevision: i64,
    nodeRevision: i64,
    policyRevision: i64,
    decision: Decision)

  predicate LowercaseSha256(s: string) {
    |s| == 64 && forall i :: 0 <= i < |s| ==> '0' <= s[i] <= '9' || 'a' <= s[i] <= 'f'
  }

  lemma DigestExact(s: string)
    ensures LowercaseSha256(s) <==> |s| == 64 && forall i :: 0 <= i < |s| ==> JsonReader.HexValue(s[i]).Some?
  {
  }

  /** What the binding claims apart from the clock and the job. */
  ghost predicate WellFormed(b: Binding) {
    && b.apiVersion == BINDING_API_VERSION && b.planId != NIL && b.jobId != NIL && b.decision.nodeId != NIL
    && LowercaseSha256(b.jobDigest)
    && 0 <= b.fleetRevision <= MAX_SAFE_JSON && 0 <= b.nodeRevision <= MAX_SAFE_JSON
        && 0 <= b.policyRevision <= MAX_SAFE_JSON
    && Safe(b.decision.score) && b.createdAt < b.expiresAt
    && Consistent(b.decision)
  }

  ghost predicate BindsJob(b: Binding, job: JobSpec, jobValid: JobSpec -> bool, sha256Hex: seq<byte> -> string) {
    && jobValid(job) && b.jobId == job.id
    && b.jobDigest == sha256Hex(CanonicalBytes(job))
    && b.decision.explanation.policy == job.placementPolicy
    && (job.preferredNodeId.Some? ==> job.preferredNodeId.value == b.decision.nodeId)
  }

  predicate InTime(b: Binding, now: int) {
    b.createdAt - 30_000_000_000 <= now < b.expiresAt
  }

  ghost predicate JobDefect(b: Binding, job: JobSpec, jobValid: JobSpec -> bool, sha256Hex: seq<byte> -> string,
      e: Error) {
    match e
    case ExpectedJobInvalid => !jobValid(job)
    case ExpectedJobIdMismatch => b.jobId != job.id
    case ExpectedJobDigestMismatch => b.jobDigest != sha256Hex(CanonicalBytes(job))
    case ExpectedPolicyMismatch => b.decision.explanation.policy != job.placementPolicy
    case ExpectedPreferredNodeMismatch =>
      job.preferredNodeId.Some? && job.preferredNodeId.value != b.decision.nodeId
    case _ => false
  }

  ghost predicate BindingDefect(b: Binding, now: Option<int>, e: Error) {
    match e
    case UnsupportedApiVersion => b.apiVersion != "cyc.dev/placement-plan-binding/v1"
    case NilPlanId => b.planId == NIL
    case NilJobId => b.jobId == NIL
    case NilDecisionNodeId => b.decision.nodeId == NIL
    case InvalidJobDigest => !LowercaseSha256(b.jobDigest)
    case NegativeFleetRevision => b.fleetRevision < 0
    case FleetRevisionExceedsSafeInteger => b.fleetRevision > 9_007_199_254_740_991
    case NegativeNodeRevision => b.nodeRevision < 0
    case NodeRevisionExceedsSafeInteger => b.nodeRevision > 9_007_199_254_740_991
    case NegativePolicyRevision => b.policyRevision < 0
    case PolicyRevisionExceedsSafeInteger => b.policyRevision > 9_007_199_254_740_991
    case DecisionScoreOutOfRange => !Safe(b.decision.score)
    case InvalidTimeRange => b.createdAt >= b.expiresAt
    case CreatedTooFarInFuture => now.Some? && now.value < b.createdAt - 30_000_000_000
    case Expired => now.Some? && now.value >= b.expiresAt
    case _ => false
  }

  /**
   The whole validator accepts exactly the well-formed bindings whose job matches, if one
   is expected, and at exactly the instants from thirty seconds before creation up to but
   excluding expiry, if a clock is given.
   */
  method ValidateBinding(b: Binding, expected: Option<JobSpec>, now: Option<int>,
                         jobValid: JobSpec -> bool, sha256Hex: seq<byte> -> string) returns (r: Option<Error>)
    ensures r.None? <==>
              && WellFormed(b)
              && (expected.Some? ==> BindsJob(b, expected.value, jobValid, sha256Hex))
              && (now.Some? ==> InTime(b, now.value))
    ensures r.Some? ==>
              || BindingDefect(b, now, r.value)
              || (expected.Some? && JobDefect(b, expected.value, jobValid, sha256Hex, r.value))
              || ExplanationDefect(b.decision, r.value)
  {
    hide WellFormed, Consistent, BindsJob, JobDefect, ExplanationDefect;
    r := CheckHeader(b);
    if r.Some? {
      HeaderDecides(b, now, r.value);
      return;
    }
    if now.Some? {
      if b.createdAt > now.value + MAX_CLOCK_SKEW {
        return Some(CreatedTooFarInFuture);
      }
      if b.expiresAt <= now.value {
        return Some(Expired);
      }
    }
    if expected.Some? {
      r := CheckJob(b, expected.value, jobValid, sha256Hex);
      if r.Some? {
        return;
      }
    }
    r := ValidateExplanation(b.decision);
    WellFormedParts(b);
  }

  /** The checks of the binding on its own, before the clock. */
  ghost predicate GoodHeader(b: Binding) {
    && b.apiVersion == BINDING_API_VERSION && b.planId != NIL && b.jobId != NIL && b.decision.nodeId != NIL
    && LowercaseSha256(b.jobDigest)
    && 0 <= b.fleetRevision <= MAX_SAFE_JSON && 0 <= b.nodeRevision <= MAX_SAFE_JSON
    && 0 <= b.policyRevision <= MAX_SAFE_JSON
    && Safe(b.decision.score) && b.createdAt < b.expiresAt
  }

  lemma WellFormedParts(b: Binding)
    ensures WellFormed(b) <==> GoodHeader(b) && Consistent(b.decision)
  {
    hide Consistent;
  }

  ghost predicate HeaderDefect(b: Binding, e: Error) {
    BindingDefect(b, None, e)
  }

  lemma HeaderDecides(b: Binding, now: Option<int>, e: Error)
    requires !GoodHeader(b) && HeaderDefect(b, e)
    ensures !WellFormed(b) && BindingDefect(b, now, e)
  {
    hide Consistent;
  }

  method CheckHeader(b: Binding) returns (r: Option<Error>)
    ensures r.None? <==> GoodHeader(b)
    ensures r.Some? ==> HeaderDefect(b, r.value)
  {
    if b.apiVersion != BINDING_API_VERSION {
      return Some(UnsupportedApiVersion);
    }
    if b.planId == NIL {
      return Some(NilPlanId);
    }
    if b.jobId == NIL {
      return Some(NilJobId);
    }
    if b.decision.nodeId == NIL {
      return Some(NilDecisionNodeId);
    }
    if !LowercaseSha256(b.jobDigest) {
      return Some(InvalidJobDigest);
    }
    if b.fleetRevision < 0 {
      return Some(NegativeFleetRevision);
    }
    if b.fleetRevision > MAX_SAFE_JSON {
      return Some(FleetRevisionExceedsSafeInteger);
    }
    if b.nodeRevision < 0 {
      return Some(NegativeNodeRevision);
    }
    if b.nodeRevision > MAX_SAFE_JSON {
      return Some(NodeRevisionExceedsSafeInteger);
    }
    if b.policyRevision < 0 {
      return Some(NegativePolicyRevision);
    }
    if b.policyRevision > MAX_SAFE_JSON {
      return Some(PolicyRevisionExceedsSafeInteger);
    }
    if !Safe(b.decision.score) {
      return Some(DecisionScoreOutOfRange);
    }
    if b.createdAt >= b.expiresAt {
      return Some(InvalidTimeRange);
    }
    return None;
  }

  method CheckJob(b: Binding, job: JobSpec, jobValid: JobSpec -> bool, sha256Hex: seq<byte> -> string)
    returns (r: Option<Error>)
    ensures r.None? <==> BindsJob(b, job, jobValid, sha256Hex)
    ensures r.Some? ==> JobDefect(b, job, jobValid, sha256Hex, r.value)
  {
    hide CanonicalBytes;
    if !jobValid(job) {
      return Some(ExpectedJobInvalid);
    }
    if b.jobId != job.id {
      return Some(ExpectedJobIdMismatch);
    }
    var digest := CanonicalJobDigest(job, sha256Hex);
    if b.jobDigest != digest {
      return Some(ExpectedJobDigestMismatch);
    }
    if b.decision.explanation.policy != job.placementPolicy {
      return Some(ExpectedPolicyMismatch);
    }
    if job.preferredNodeId.Some? && job.preferredNodeId.value != b.decision.nodeId {
      return Some(ExpectedPreferredNodeMismatch);
    }
    return None;
  }

  ghost predicate Injective(hash: seq<byte> -> string) {
    forall x, y :: hash(x) == hash(y) ==> x == y
  }

  /** With a collision-free hash a binding fits one job only, up to normalization. */
  lemma BindingFitsOneJob(b: Binding, a: JobSpec, c: JobSpec, jobValid: JobSpec -> bool, sha256Hex: seq<byte> -> string)
    requires Injective(sha256Hex)
    requires BindsJob(b, a, jobValid, sha256Hex)
    ensures BindsJob(b, c, jobValid, sha256Hex) ==> Normalize(a) == Normalize(c)
    ensures Normalize(a) == Normalize(c) && jobValid(c) ==> BindsJob(b, c, jobValid, sha256Hex)
  {
    JobReader.BytesIdentifyNormalForm(a, c);
  }
}
