/** The policy-filter state used when policy filtering is turned off
    (`DisabledState`). It keeps nothing: every pod and container update is
    accepted and forgotten, no policy can be installed, the only removal that
    succeeds is that of the reserved "no filter" policy, and every lookup comes
    back empty.

    Each operation returns the error it reports, `None` standing for a nil
    error. Argument types this state never inspects (label selectors, pod
    labels, container information) are type parameters. */
module PolicyFilterDisabled {
  import opened Wrappers

  type PolicyID = nat
  type PodID = string
  type CgroupID = nat
  type StateID = nat

  /** A namespace id record. Its definition is not part of this model; one
      number stands in for its fields, which the disabled state never reads. */
  datatype NSID = NSID(id: nat)

  /** The policy id that stands for "no policy filter". */
  const NoFilterPolicyID: PolicyID := 0

  /** The one error this state reports. */
  datatype StateError = PolicyFilterIsDisabled

  /** The disabled state holds no data. */
  datatype Disabled = Disabled

  /** `DisabledState`: the state handed out when policy filtering is off. It
      refuses every policy removal but the reserved one's, and knows no
      namespace. */
  function DisabledState(): (s: Disabled)
    ensures forall polID: PolicyID :: DelPolicy(s, polID).None? <==> polID == NoFilterPolicyID
    ensures forall id: StateID :: GetNsId(s, id) == (None, false)
  {
    Disabled
  }

  /** Installing a policy always fails, whatever the policy. */
  function AddPolicy<Selector>(s: Disabled, polID: PolicyID, namespace: string,
                               podSelector: Option<Selector>, containerSelector: Option<Selector>): (err: Option<StateError>)
    ensures err == Some(PolicyFilterIsDisabled)
  {
    Some(PolicyFilterIsDisabled)
  }

  /** Removing a policy succeeds exactly for the "no filter" policy. */
  function DelPolicy(s: Disabled, polID: PolicyID): (err: Option<StateError>)
    ensures err.None? <==> polID == NoFilterPolicyID
    ensures err.Some? ==> err.value == PolicyFilterIsDisabled
  {
    if polID == NoFilterPolicyID then None else Some(PolicyFilterIsDisabled)
  }

  function AddPodContainer<Labels, Info>(s: Disabled, podID: PodID, namespace: string, workload: string, kind: string,
                                         podLabels: Labels, containerID: string, cgID: CgroupID,
                                         containerInfo: Info): (err: Option<StateError>)
    ensures err.None?
  {
    None
  }

  function UpdatePod<Labels, Info>(s: Disabled, podID: PodID, namespace: string, workload: string, kind: string,
                                   podLabels: Labels, containerIDs: seq<string>,
                                   containerInfo: seq<Info>): (err: Option<StateError>)
    ensures err.None?
  {
    None
  }

  function DelPodContainer(s: Disabled, podID: PodID, containerID: string): (err: Option<StateError>)
    ensures err.None?
  {
    None
  }

  function DelPod(s: Disabled, podID: PodID): (err: Option<StateError>)
    ensures err.None?
  {
    None
  }

  function Close(s: Disabled): (err: Option<StateError>)
    ensures err.None?
  {
    None
  }

  /** No state id maps to a namespace. */
  function GetNsId(s: Disabled, stateID: StateID): (r: (Option<NSID>, bool))
    ensures r.0.None? && !r.1
  {
    (None, false)
  }

  /** No namespace maps to a state id; the id reported alongside is zero. */
  function GetIdNs(s: Disabled, id: NSID): (r: (StateID, bool))
    ensures r == (0, false)
  {
    (0, false)
  }

  /** One call on the state, with the arguments the disabled state's answer can
      depend on. */
  datatype Op<Selector, Labels, Info> =
    | AddPolicyOp(polID: PolicyID, namespace: string, podSelector: Option<Selector>, containerSelector: Option<Selector>)
    | DelPolicyOp(polID: PolicyID)
    | AddPodContainerOp(podID: PodID, namespace: string, workload: string, kind: string, podLabels: Labels,
                        containerID: string, cgID: CgroupID, containerInfo: Info)
    | UpdatePodOp(podID: PodID, namespace: string, workload: string, kind: string, podLabels: Labels,
                  containerIDs: seq<string>, containerInfos: seq<Info>)
    | DelPodContainerOp(podID: PodID, containerID: string)
    | DelPodOp(podID: PodID)
    | CloseOp

  function Apply<Selector, Labels, Info>(s: Disabled, op: Op<Selector, Labels, Info>): Option<StateError> {
    match op
    case AddPolicyOp(id, ns, ps, cs) => AddPolicy(s, id, ns, ps, cs)
    case DelPolicyOp(id) => DelPolicy(s, id)
    case AddPodContainerOp(p, ns, w, k, l, c, cg, info) => AddPodContainer(s, p, ns, w, k, l, c, cg, info)
    case UpdatePodOp(p, ns, w, k, l, cs, infos) => UpdatePod(s, p, ns, w, k, l, cs, infos)
    case DelPodContainerOp(p, c) => DelPodContainer(s, p, c)
    case DelPodOp(p) => DelPod(s, p)
    case CloseOp => Close(s)
  }

  /** The calls the disabled state refuses: installing any policy, and removing
      any policy other than the reserved one. */
  predicate Refused<Selector, Labels, Info>(op: Op<Selector, Labels, Info>) {
    op.AddPolicyOp? || (op.DelPolicyOp? && op.polID != NoFilterPolicyID)
  }

  /** The errors of a run of calls, in order. Since the state holds nothing,
      every call sees the same state. */
  function Run<Selector, Labels, Info>(s: Disabled, ops: seq<Op<Selector, Labels, Info>>): (errs: seq<Option<StateError>>)
    ensures |errs| == |ops|
  {
    if ops == [] then [] else [Apply(s, ops[0])] + Run(s, ops[1..])
  }

  /** On the disabled state, whatever calls came before, each call fails exactly
      when it is refused, and then with the "disabled" error. */
  lemma {:induction false} RunFailsExactlyOnRefused<Selector, Labels, Info>(ops: seq<Op<Selector, Labels, Info>>)
    ensures var errs := Run(DisabledState(), ops);
            forall k :: 0 <= k < |ops| ==>
              (errs[k].Some? <==> Refused(ops[k])) &&
              (errs[k].Some? ==> errs[k].value == PolicyFilterIsDisabled)
  {
    RunFailsExactlyOnRefusedFrom(DisabledState(), ops);
  }

  lemma {:induction false} RunFailsExactlyOnRefusedFrom<Selector, Labels, Info>(s: Disabled, ops: seq<Op<Selector, Labels, Info>>)
    ensures var errs := Run(s, ops);
            forall k :: 0 <= k < |ops| ==>
              (errs[k].Some? <==> Refused(ops[k])) &&
              (errs[k].Some? ==> errs[k].value == PolicyFilterIsDisabled)
  {
    if ops != [] {
      RunFailsExactlyOnRefusedFrom(s, ops[1..]);
      var errs := Run(s, ops);
      assert errs[0] == Apply(s, ops[0]);
      forall k | 1 <= k < |ops|
        ensures errs[k] == Run(s, ops[1..])[k - 1] && ops[k] == ops[1..][k - 1]
      {
      }
    }
  }
}
