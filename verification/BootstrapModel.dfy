/**
 The objects of the cluster bootstrap workflow and the pure decisions of its reconciler: which CSRs
 it touches, what they are for, when the slot is expired, and the status mutation that consumes it.
 */
module BootstrapModel {
  import opened Wrappers
  import opened Text

  const CSR_CN_PREFIX := "kapro-cluster:"
  const CSR_ORGANIZATION := "kapro:cluster-controllers"
  const CSR_SIGNER := "kubernetes.io/kube-apiserver-client"
  const CLIENT_AUTH := "client auth"

  /** The cluster a reconcile is keyed on, the namespace of its bootstrap ServiceAccount, and whether the
      cluster's name can be a label value. */
  datatype Config = Config(cluster: string, podNamespace: string, nameIsLabel: bool) {
    function CommonName(): string { CSR_CN_PREFIX + cluster }
    function BootstrapUser(): string { "system:serviceaccount:" + podNamespace + ":kapro-bootstrap-" + cluster }
  }

  /** A parsed PKCS#10 request. */
  datatype CertRequest = CertRequest(commonName: string, organizations: seq<string>, hasSubjectAltNames: bool)

  datatype CsrSpec = CsrSpec(signer: string, request: Option<CertRequest>, usages: seq<string>, username: string)

  /** A CSR: its immutable spec, its cluster label, and the two conditions an approver can append. */
  datatype Csr = Csr(spec: CsrSpec, clusterLabel: string, approved: bool, denied: bool) {
    predicate Final() { approved || denied }
  }

  /** `status.bootstrap`; a nil struct is the unused slot. */
  datatype Slot = Slot(used: bool, bound: string, kubeconfig: string)

  datatype Cluster = Cluster(
    deleting: bool, suspended: bool, hasBootstrap: bool, finalizer: bool,
    expiresAt: Option<int>, slot: Slot, otherFields: nat)

  /** The strict allowlist: signer, subject prefix, organization, no alternative names, client auth only. */
  predicate IsKaproCsr(spec: CsrSpec) {
    && spec.signer == CSR_SIGNER
    && spec.request.Some?
    && HasPrefix(spec.request.value.commonName, CSR_CN_PREFIX)
    && spec.request.value.organizations == [CSR_ORGANIZATION]
    && !spec.request.value.hasSubjectAltNames
    && spec.usages == [CLIENT_AUTH]
  }

  /** What `listCSRsForCluster` returns: CSRs labelled for this cluster (only when its name can be a label
      value) and those not labelled at all. */
  predicate Listable(cfg: Config, csr: Csr) {
    csr.clusterLabel == "" || (cfg.nameIsLabel && csr.clusterLabel == cfg.cluster)
  }

  datatype Purpose = NoPurpose | Bootstrap | Renewal | RenewalBeforeRegistration

  function Classify(cfg: Config, spec: CsrSpec, used: bool): Purpose {
    if !IsKaproCsr(spec) || spec.request.value.commonName != cfg.CommonName() then NoPurpose
    else if spec.username == cfg.BootstrapUser() then Bootstrap
    else if spec.username == cfg.CommonName() then (if used then Renewal else RenewalBeforeRegistration)
    else NoPurpose
  }

  /** Bootstrap and renewal are told apart by the identity that submitted the CSR, never by the slot. */
  lemma ClassifyBySubmitter(cfg: Config, spec: CsrSpec, before: bool, after: bool)
    ensures Classify(cfg, spec, before) == Bootstrap <==> Classify(cfg, spec, after) == Bootstrap
    ensures Classify(cfg, spec, before) == Renewal ==> before && Classify(cfg, spec, true) == Renewal
    ensures Classify(cfg, spec, before) == RenewalBeforeRegistration ==> !before && Classify(cfg, spec, true) == Renewal
  {
  }

  /** The request is for the client identity of this cluster and for nothing else. */
  predicate AsksIdentity(cluster: string, spec: CsrSpec) {
    && spec.signer == "kubernetes.io/kube-apiserver-client" && spec.usages == ["client auth"]
    && spec.request.Some?
    && spec.request.value.commonName == "kapro-cluster:" + cluster
    && spec.request.value.organizations == ["kapro:cluster-controllers"]
    && !spec.request.value.hasSubjectAltNames
  }

  /** Submitted by the cluster's bootstrap ServiceAccount. */
  predicate FromBootstrapAccount(cfg: Config, spec: CsrSpec) {
    spec.username == "system:serviceaccount:" + cfg.podNamespace + ":kapro-bootstrap-" + cfg.cluster
  }

  /** Submitted by the cluster itself, with a certificate issued earlier. */
  predicate FromCluster(cfg: Config, spec: CsrSpec) { spec.username == "kapro-cluster:" + cfg.cluster }

  /** Asks for this cluster's identity, in the name of its bootstrap ServiceAccount or of the cluster itself. */
  predicate Ours(cfg: Config, spec: CsrSpec) {
    AsksIdentity(cfg.cluster, spec) && (FromBootstrapAccount(cfg, spec) || FromCluster(cfg, spec))
  }

  /** What each purpose means, in the fields of the CSR: every other CSR has none. */
  lemma PurposeIff(cfg: Config, spec: CsrSpec, used: bool)
    ensures Classify(cfg, spec, used) == Bootstrap
            <==> AsksIdentity(cfg.cluster, spec) && FromBootstrapAccount(cfg, spec)
    ensures Classify(cfg, spec, used) == Renewal
            <==> AsksIdentity(cfg.cluster, spec) && FromCluster(cfg, spec) && used
    ensures Classify(cfg, spec, used) == RenewalBeforeRegistration
            <==> AsksIdentity(cfg.cluster, spec) && FromCluster(cfg, spec) && !used
    ensures Classify(cfg, spec, used) == NoPurpose
            <==> !(AsksIdentity(cfg.cluster, spec) && (FromBootstrapAccount(cfg, spec) || FromCluster(cfg, spec)))
  {
    var cn := CSR_CN_PREFIX + cfg.cluster;
    assert cn[..|CSR_CN_PREFIX|] == CSR_CN_PREFIX;
    assert cn[0] == 'k' && cfg.BootstrapUser()[0] == 's';
  }

  /** Past its deadline and not yet consumed. */
  predicate Expired(c: Cluster, now: int) {
    !c.slot.used && c.expiresAt.Some? && now > c.expiresAt.value
  }

  /** The mutation `markBootstrapUsed` applies to a copy of the Cluster; None when a different CSR
      already holds the slot. */
  function MarkUsed(c: Cluster, csr: string): Option<Cluster> {
    if c.slot.used && c.slot.bound != "" && c.slot.bound != csr then None
    else Some(c.(slot := c.slot.(used := true, bound := csr)))
  }

  type Csrs = map<string, Csr>

  /** The slot is bound to a bootstrap CSR that is still pending: the crash window. */
  predicate Interrupted(cfg: Config, slot: Slot, csrs: Csrs) {
    && slot.used && slot.bound != "" && slot.bound in csrs && !csrs[slot.bound].Final()
    && AsksIdentity(cfg.cluster, csrs[slot.bound].spec) && FromBootstrapAccount(cfg, csrs[slot.bound].spec)
  }
}
