/**
 Stamping pods (xstateful_set_utils.go): identity, storage and revision of a pod are written into the pod object in
 place, and the checks identityMatches and storageMatches read them back.
 */
module Identity {
  import opened Prelude
  import Names
  import Pods
  import Reconcile

  const POD_NAME_LABEL := "xstatefulset.x-k8s.io/pod-name"
  const POD_INDEX_LABEL := "apps.x-k8s.io/pod-index"
  const REVISION_LABEL := "controller-revision-hash"

  datatype VolumeSource = ClaimSource(claimName: string) | OtherSource(description: string)

  datatype Volume = Volume(name: string, source: VolumeSource)

  /** The parts of a pod template that stamping touches. */
  datatype Template = Template(labels: map<string, string>, volumes: seq<Volume>)

  function Label(labels: map<string, string>, key: string): string {
    if key in labels then labels[key] else ""
  }

  /** The volumes by name; of several with one name the last stays. */
  function ByName(volumes: seq<Volume>): map<string, Volume> {
    if volumes == [] then map[]
    else ByName(volumes[..|volumes| - 1])[volumes[|volumes| - 1].name := volumes[|volumes| - 1]]
  }

  /** The volumes that no claim template of the set replaces, in order. */
  function Foreign(volumes: seq<Volume>, templates: seq<string>): seq<Volume> {
    if volumes == [] then []
    else
      var v := volumes[|volumes| - 1];
      Foreign(volumes[..|volumes| - 1], templates) + if v.name in templates then [] else [v]
  }

  function ClaimVolume(sts: Reconcile.StatefulSet, template: string, ordinal: int): Volume {
    Volume(template, ClaimSource(Names.ClaimName(template, sts.name, ordinal)))
  }

  /** The labels of a template with those of the pod's identity. */
  function Identified(labels: map<string, string>, name: string, ordinal: int): map<string, string> {
    labels[POD_NAME_LABEL := name][POD_INDEX_LABEL := Names.Format(ordinal)]
  }

  /** storageMatches: every claim template has a volume, and that volume uses the pod's own claim. */
  predicate StorageOk(sts: Reconcile.StatefulSet, name: string, volumes: seq<Volume>) {
    var ordinal := Names.Ordinal(name);
    && ordinal >= 0
    && forall t :: t in sts.claimTemplates ==> Lookup(ByName(volumes), t) == Some(ClaimVolume(sts, t, ordinal))
  }

  lemma LabelsDiffer()
    ensures POD_NAME_LABEL != POD_INDEX_LABEL && POD_NAME_LABEL != REVISION_LABEL && POD_INDEX_LABEL != REVISION_LABEL
  {
    assert POD_NAME_LABEL[0] == 'x' && POD_INDEX_LABEL[0] == 'a' && REVISION_LABEL[0] == 'c';
  }

  /** A pod object under construction or repair. */
  class PodObject {
    var name: string
    var namespace: string
    var labels: map<string, string>
    var volumes: seq<Volume>
    var hostname: string
    var subdomain: string

    /** GetPodFromTemplate: labels and volumes of the template, no name yet. */
    constructor FromTemplate(template: Template)
      ensures name == "" && labels == template.labels && volumes == template.volumes
    {
      name, namespace, hostname, subdomain := "", "", "", "";
      labels, volumes := template.labels, template.volumes;
    }

    /** What a sync sees of a pod that has not been created. */
    function Snapshot(): Pods.Pod
      reads this
    {
      Pods.Pod(name, Pods.Uncreated, [], false, Label(labels, REVISION_LABEL))
    }

    predicate IdentityMatches(sts: Reconcile.StatefulSet)
      reads this
    {
      var ordinal := Names.Ordinal(name);
      && ordinal >= 0
      && Names.Parent(name) == sts.name
      && name == Names.PodName(sts.name, ordinal)
      && namespace == sts.namespace
      && Label(labels, POD_NAME_LABEL) == name
    }

    method UpdateIdentity(sts: Reconcile.StatefulSet)
      modifies this`name, this`namespace, this`labels
      ensures name == Names.PodName(sts.name, Names.Ordinal(old(name)))
      ensures namespace == sts.namespace
      ensures labels == Identified(old(labels), name, Names.Ordinal(old(name)))
      ensures old(IdentityMatches(sts)) <==>
              && Names.Ordinal(old(name)) >= 0 && Names.Parent(old(name)) == sts.name
              && name == old(name) && namespace == old(namespace)
              && Label(labels, POD_NAME_LABEL) == Label(old(labels), POD_NAME_LABEL)
    {
      LabelsDiffer();
      var ordinal := Names.Ordinal(name);
      name := Names.PodName(sts.name, ordinal);
      namespace := sts.namespace;
      labels := labels[POD_NAME_LABEL := name];
      labels := labels[POD_INDEX_LABEL := Names.Format(ordinal)];
    }

    method InitIdentity(sts: Reconcile.StatefulSet)
      modifies this`name, this`namespace, this`labels, this`hostname, this`subdomain
      ensures name == Names.PodName(sts.name, Names.Ordinal(old(name)))
      ensures namespace == sts.namespace
      ensures labels == Identified(old(labels), name, Names.Ordinal(old(name)))
      ensures hostname == name && subdomain == sts.serviceName
    {
      UpdateIdentity(sts);
      hostname := name;
      subdomain := sts.serviceName;
    }

    /** The two loops of storageMatches. */
    method StorageMatches(sts: Reconcile.StatefulSet) returns (ok: bool)
      ensures ok == StorageOk(sts, name, volumes)
      ensures ok ==> Names.Ordinal(name) >= 0
      ensures ok ==> forall t :: t in sts.claimTemplates ==>
                Volume(t, ClaimSource(t + "-" + sts.name + "-" + Names.Format(Names.Ordinal(name)))) in volumes
    {
      var ordinal := Names.Ordinal(name);
      if ordinal < 0 {
        return false;
      }
      var byName: map<string, Volume> := map[];
      for i := 0 to |volumes|
        invariant byName == ByName(volumes[..i])
      {
        assert volumes[..i + 1][..i] == volumes[..i];
        byName := byName[volumes[i].name := volumes[i]];
      }
      assert volumes[..|volumes|] == volumes;
      for i := 0 to |sts.claimTemplates|
        invariant forall j :: 0 <= j < i ==>
                    Lookup(byName, sts.claimTemplates[j]) == Some(ClaimVolume(sts, sts.claimTemplates[j], ordinal))
      {
        var t := sts.claimTemplates[i];
        if t !in byName || !byName[t].source.ClaimSource?
           || byName[t].source.claimName != Names.ClaimName(t, sts.name, ordinal) {
          assert t in sts.claimTemplates;
          assert Lookup(ByName(volumes), t) != Some(ClaimVolume(sts, t, ordinal));
          return false;
        }
        ByNameNames(volumes, t);
      }
      forall t | t in sts.claimTemplates
        ensures ClaimVolume(sts, t, ordinal) in volumes
      {
        ByNameNames(volumes, t);
      }
      return true;
    }

    /**
     updateStorage: one claim volume per template name, in no particular order because they come out of a map, then
     the foreign volumes as they were.
     */
    method UpdateStorage(sts: Reconcile.StatefulSet)
      modifies this`volumes
      ensures Foreign(volumes, sts.claimTemplates) == Foreign(old(volumes), sts.claimTemplates)
      ensures Names.Ordinal(name) >= 0 ==> StorageOk(sts, name, volumes)
      ensures |volumes| == |set t | t in sts.claimTemplates| + |Foreign(old(volumes), sts.claimTemplates)|
    {
      var ordinal := Names.Ordinal(name);
      var claims := set t | t in sts.claimTemplates;
      var pending := claims;
      var added: seq<Volume> := [];
      while pending != {}
        invariant pending <= claims && |added| + |pending| == |claims|
        invariant forall v :: v in added ==> v.name in claims && v == ClaimVolume(sts, v.name, ordinal)
        invariant forall t :: t in claims ==> t in pending || ClaimVolume(sts, t, ordinal) in added
        decreases |pending|
      {
        var t :| t in pending;
        added := added + [ClaimVolume(sts, t, ordinal)];
        pending := pending - {t};
      }
      var kept: seq<Volume> := [];
      for i := 0 to |volumes|
        invariant kept == Foreign(volumes[..i], sts.claimTemplates)
      {
        assert volumes[..i + 1][..i] == volumes[..i];
        if volumes[i].name !in claims {
          kept := kept + [volumes[i]];
        }
      }
      assert volumes[..|volumes|] == volumes;
      Assembled(sts, ordinal, volumes, added, kept);
      volumes := added + kept;
    }

    method SetPodRevision(revision: string)
      modifies this`labels
      ensures labels == old(labels)[REVISION_LABEL := revision]
      ensures Label(labels, POD_NAME_LABEL) == Label(old(labels), POD_NAME_LABEL)
    {
      assert REVISION_LABEL[0] != POD_NAME_LABEL[0];
      labels := labels[REVISION_LABEL := revision];
    }
  }

  method NewStatefulSetPod(sts: Reconcile.StatefulSet, template: Template, ordinal: nat) returns (pod: PodObject)
    requires ordinal <= Names.MAX_ORDINAL
    ensures fresh(pod)
    ensures pod.name == Names.PodName(sts.name, ordinal)
    ensures pod.IdentityMatches(sts) <==> Names.NoNewline(sts.name)
    ensures StorageOk(sts, pod.name, pod.volumes)
    ensures forall t :: t in sts.claimTemplates ==> Volume(t, ClaimSource(t + "-" + pod.name)) in pod.volumes
    ensures Foreign(pod.volumes, sts.claimTemplates) == Foreign(template.volumes, sts.claimTemplates)
    ensures pod.labels == Identified(template.labels, pod.name, ordinal)
    ensures pod.namespace == sts.namespace && pod.hostname == pod.name && pod.subdomain == sts.serviceName
  {
    pod := new PodObject.FromTemplate(template);
    pod.name := Names.PodName(sts.name, ordinal);
    Names.ParsePrinted(sts.name, ordinal);
    hide Names.Ordinal;
    hide Names.Parent;
    hide Names.PodName;
    hide StorageOk;
    hide Foreign;
    pod.InitIdentity(sts);
    pod.UpdateStorage(sts);
    OwnClaims(sts, ordinal, pod.volumes);
  }

  /** Storage that matches has the pod's own claims among its volumes. */
  lemma OwnClaims(sts: Reconcile.StatefulSet, ordinal: nat, volumes: seq<Volume>)
    requires ordinal <= Names.MAX_ORDINAL && StorageOk(sts, Names.PodName(sts.name, ordinal), volumes)
    ensures forall t :: t in sts.claimTemplates ==>
              Volume(t, ClaimSource(t + "-" + Names.PodName(sts.name, ordinal))) in volumes
  {
    Names.ParsePrinted(sts.name, ordinal);
    hide Names.Ordinal;
    hide Names.PodName;
    hide Names.ClaimName;
    hide ByName;
    forall t | t in sts.claimTemplates
      ensures Volume(t, ClaimSource(t + "-" + Names.PodName(sts.name, ordinal))) in volumes
    {
      ByNameNames(volumes, t);
      Names.ClaimNameOfPod(t, sts.name, ordinal);
    }
  }

  /** Whether a new pod belongs to the current revision: a partition decides, or else the count of a plain rollout. */
  predicate IsKeptCurrent(sts: Reconcile.StatefulSet, currentReplicas: int, ordinal: int) {
    match sts.strategy.rollingUpdate
    case Some(block) => ordinal < sts.start + block.partition
    case None => sts.strategy.kind == Reconcile.RollingUpdateType && ordinal < sts.start + currentReplicas
  }

  /**
   newVersionedStatefulSetPod: what a sync sees of the stamped pod is Reconcile.Stamped, and the pod passes both
   checks, so it is never updated again for its own sake. Label and content belong together: a pod labelled with the
   current revision has the labels and foreign volumes of the current template, and likewise for the update revision.
   */
  method NewVersionedStatefulSetPod(t: Reconcile.Target, current: Template, update: Template, ordinal: nat)
    returns (pod: PodObject)
    requires ordinal <= Names.MAX_ORDINAL
    ensures fresh(pod)
    ensures pod.Snapshot() == Reconcile.Stamped(t, ordinal)
    ensures pod.IdentityMatches(t.sts) <==> Names.NoNewline(t.sts.name)
    ensures StorageOk(t.sts, pod.name, pod.volumes)
    ensures var kept := IsKeptCurrent(t.sts, t.currentReplicas, ordinal);
            var template, revision := if kept then current else update, if kept then t.current else t.update;
            && pod.labels == Identified(template.labels, pod.name, ordinal)[REVISION_LABEL := revision]
            && Foreign(pod.volumes, t.sts.claimTemplates) == Foreign(template.volumes, t.sts.claimTemplates)
    ensures pod.hostname == pod.name && pod.subdomain == t.sts.serviceName
  {
    var template, revision := update, t.update;
    if Reconcile.StampsCurrent(t, ordinal) {
      template, revision := current, t.current;
    }
    pod := NewStatefulSetPod(t.sts, template, ordinal);
    pod.SetPodRevision(revision);
  }

  /** Claim volumes first, then the foreign volumes of old: what that makes. */
  lemma Assembled(sts: Reconcile.StatefulSet, ordinal: int, before: seq<Volume>, added: seq<Volume>, kept: seq<Volume>)
    requires kept == Foreign(before, sts.claimTemplates)
    requires forall v :: v in added ==> v.name in sts.claimTemplates && v == ClaimVolume(sts, v.name, ordinal)
    requires forall t :: t in sts.claimTemplates ==> ClaimVolume(sts, t, ordinal) in added
    ensures Foreign(added + kept, sts.claimTemplates) == kept
    ensures forall t :: t in sts.claimTemplates ==>
              Lookup(ByName(added + kept), t) == Some(ClaimVolume(sts, t, ordinal))
  {
    ForeignNames(before, sts.claimTemplates);
    AllForeign(kept, sts.claimTemplates);
    NothingForeign(added, sts.claimTemplates);
    ForeignConcat(added, kept, sts.claimTemplates);
    forall t | t in sts.claimTemplates
      ensures Lookup(ByName(added + kept), t) == Some(ClaimVolume(sts, t, ordinal))
    {
      ByNameUnique(added + kept, ClaimVolume(sts, t, ordinal));
    }
  }

  lemma {:induction false} ByNameNames(volumes: seq<Volume>, t: string)
    ensures t in ByName(volumes) ==> ByName(volumes)[t].name == t && ByName(volumes)[t] in volumes
  {
    if volumes != [] {
      ByNameNames(volumes[..|volumes| - 1], t);
      assert volumes == volumes[..|volumes| - 1] + [volumes[|volumes| - 1]];
    }
  }

  /** If all volumes of a name agree, that is what the name maps to. */
  lemma {:induction false} ByNameUnique(volumes: seq<Volume>, v: Volume)
    requires forall w :: w in volumes && w.name == v.name ==> w == v
    ensures v in volumes ==> Lookup(ByName(volumes), v.name) == Some(v)
  {
    if volumes != [] {
      var front := volumes[..|volumes| - 1];
      ByNameUnique(front, v);
      assert volumes == front + [volumes[|volumes| - 1]];
    }
  }

  lemma {:induction false} ForeignConcat(a: seq<Volume>, b: seq<Volume>, templates: seq<string>)
    ensures Foreign(a + b, templates) == Foreign(a, templates) + Foreign(b, templates)
  {
    if b == [] {
      assert a + b == a;
    } else {
      ForeignConcat(a, b[..|b| - 1], templates);
      assert (a + b)[..|a + b| - 1] == a + b[..|b| - 1];
    }
  }

  lemma {:induction false} NothingForeign(volumes: seq<Volume>, templates: seq<string>)
    requires forall v :: v in volumes ==> v.name in templates
    ensures Foreign(volumes, templates) == []
  {
    if volumes != [] {
      NothingForeign(volumes[..|volumes| - 1], templates);
    }
  }

  lemma {:induction false} ForeignNames(volumes: seq<Volume>, templates: seq<string>)
    ensures forall v :: v in Foreign(volumes, templates) ==> v.name !in templates
  {
    if volumes != [] {
      ForeignNames(volumes[..|volumes| - 1], templates);
    }
  }

  lemma {:induction false} AllForeign(volumes: seq<Volume>, templates: seq<string>)
    requires forall i :: 0 <= i < |volumes| ==> volumes[i].name !in templates
    ensures Foreign(volumes, templates) == volumes
  {
    if volumes != [] {
      var front, last := volumes[..|volumes| - 1], volumes[|volumes| - 1];
      AllForeign(front, templates);
      assert Foreign(volumes, templates) == front + [last];
    }
  }
}
