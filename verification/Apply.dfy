/**
 Reconciling the runner Deployment: the fields Kurama manages are overwritten in place,
 everything else in the object belongs to others. Field values that are only copied are
 strings, and "" stands for an unset one.
 */
module Apply {
  import opened Results

  const SECRET_HEADERS_VOLUME := "request-secrets"

  /** Containers and volumes are lists of named elements. */
  datatype Named<T> = Named(name: string, body: T)

  datatype ContainerSecurity = ContainerSecurity(
    privileged: string, allowEscalation: string, readOnlyRoot: string, capabilities: string, other: string)

  datatype ContainerBody = ContainerBody(
    image: string, command: string, args: string, env: string, volumeMounts: string, ports: string,
    resources: string, security: Option<ContainerSecurity>,
    startupProbe: string, livenessProbe: string, readinessProbe: string, other: string)

  datatype ConfigMapSource = ConfigMapSource(reference: string, items: string, isOptional: string, defaultMode: string)

  datatype VolumeSource = ConfigMapVolume(source: ConfigMapSource) | OtherVolume(text: string)

  datatype PodSecurity = PodSecurity(runAsNonRoot: string, seccomp: string, other: string)

  type Labels = Option<map<string, string>>

  datatype Metadata = Metadata(labels: Labels, annotations: Labels)

  datatype Rollout = Rollout(replicas: string, revisionHistoryLimit: string, progressDeadline: string, strategy: string)

  datatype PodSettings = PodSettings(imagePullSecrets: string, automountToken: string, serviceLinks: string)

  datatype Spec = Spec(
    metadata: Metadata, rollout: Rollout, template: Metadata, pod: PodSettings, security: Option<PodSecurity>,
    containers: seq<Named<ContainerBody>>, volumes: seq<Named<VolumeSource>>, other: string)

  // ---- lists of named elements ----

  /** The position of the first element with a name, the length if there is none. */
  function First<T>(list: seq<Named<T>>, name: string): (i: nat)
    ensures i <= |list|
    ensures forall j :: 0 <= j < i ==> list[j].name != name
    ensures i < |list| ==> list[i].name == name
  {
    if list == [] || list[0].name == name then 0 else 1 + First(list[1..], name)
  }

  lemma {:induction false} FirstUnique<T>(list: seq<Named<T>>, name: string, i: nat)
    requires i < |list| && list[i].name == name
    requires forall j :: 0 <= j < i ==> list[j].name != name
    ensures First(list, name) == i
  {
  }

  function Upsert<T>(list: seq<Named<T>>, desired: Named<T>, merge: (T, T) -> T): seq<Named<T>> {
    var i := First(list, desired.name);
    if i < |list| then list[i := Named(desired.name, merge(list[i].body, desired.body))] else list + [desired]
  }

  function RemoveFirst<T>(list: seq<Named<T>>, name: string): seq<Named<T>> {
    var i := First(list, name);
    if i < |list| then list[..i] + list[i + 1..] else list
  }

  /** The elements whose names are outside a set, in order. */
  function Foreign<T>(list: seq<Named<T>>, names: set<string>): seq<Named<T>> {
    if list == [] then []
    else (if list[0].name in names then [] else [list[0]]) + Foreign(list[1..], names)
  }

  function Count<T>(list: seq<Named<T>>, name: string): nat {
    if list == [] then 0 else (if list[0].name == name then 1 else 0) + Count(list[1..], name)
  }

  lemma {:induction false} ForeignConcat<T>(a: seq<Named<T>>, b: seq<Named<T>>, names: set<string>)
    ensures Foreign(a + b, names) == Foreign(a, names) + Foreign(b, names)
  {
    if a == [] {
      assert a + b == b;
    } else {
      assert (a + b)[1..] == a[1..] + b;
      ForeignConcat(a[1..], b, names);
    }
  }

  lemma {:induction false} CountConcat<T>(a: seq<Named<T>>, b: seq<Named<T>>, name: string)
    ensures Count(a + b, name) == Count(a, name) + Count(b, name)
  {
    if a == [] {
      assert a + b == b;
    } else {
      assert (a + b)[1..] == a[1..] + b;
      CountConcat(a[1..], b, name);
    }
  }

  lemma {:induction false} CountZero<T>(list: seq<Named<T>>, name: string)
    ensures Count(list, name) == 0 <==> First(list, name) == |list|
  {
    if list != [] {
      CountZero(list[1..], name);
    }
  }

  lemma ForeignMiddle<T>(a: seq<Named<T>>, x: Named<T>, b: seq<Named<T>>, names: set<string>)
    ensures Foreign(a + [x] + b, names) ==
            Foreign(a, names) + (if x.name in names then [] else [x]) + Foreign(b, names)
  {
    ForeignConcat(a + [x], b, names);
    ForeignConcat(a, [x], names);
  }

  lemma CountMiddle<T>(a: seq<Named<T>>, x: Named<T>, b: seq<Named<T>>, name: string)
    ensures Count(a + [x] + b, name) == Count(a, name) + (if x.name == name then 1 else 0) + Count(b, name)
  {
    CountConcat(a + [x], b, name);
    CountConcat(a, [x], name);
  }

  lemma SplitAt<T>(list: seq<T>, i: nat, x: T)
    requires i < |list|
    ensures list == list[..i] + [list[i]] + list[i + 1..]
    ensures list[i := x] == list[..i] + [x] + list[i + 1..]
  {
  }

  /** Upserting an element of the set leaves the foreign elements alone, in order. */
  lemma UpsertFrames<T>(list: seq<Named<T>>, d: Named<T>, merge: (T, T) -> T, names: set<string>)
    requires d.name in names
    ensures Foreign(Upsert(list, d, merge), names) == Foreign(list, names)
  {
    var i := First(list, d.name);
    if i < |list| {
      var x := Named(d.name, merge(list[i].body, d.body));
      SplitAt(list, i, x);
      ForeignMiddle(list[..i], list[i], list[i + 1..], names);
      ForeignMiddle(list[..i], x, list[i + 1..], names);
    } else {
      ForeignConcat(list, [d], names);
    }
  }

  lemma UpsertCount<T>(list: seq<Named<T>>, d: Named<T>, merge: (T, T) -> T, name: string)
    ensures Count(Upsert(list, d, merge), name) ==
            if name == d.name then Max(Count(list, name), 1) else Count(list, name)
  {
    var i := First(list, d.name);
    CountZero(list, d.name);
    if i < |list| {
      var x := Named(d.name, merge(list[i].body, d.body));
      SplitAt(list, i, x);
      CountMiddle(list[..i], list[i], list[i + 1..], name);
      CountMiddle(list[..i], x, list[i + 1..], name);
    } else {
      CountConcat(list, [d], name);
    }
  }

  lemma RemoveFrames<T>(list: seq<Named<T>>, removed: string, names: set<string>)
    requires removed in names
    ensures Foreign(RemoveFirst(list, removed), names) == Foreign(list, names)
  {
    var i := First(list, removed);
    if i < |list| {
      SplitAt(list, i, list[i]);
      ForeignMiddle(list[..i], list[i], list[i + 1..], names);
      ForeignConcat(list[..i], list[i + 1..], names);
    }
  }

  lemma RemoveCount<T>(list: seq<Named<T>>, name: string)
    ensures Count(RemoveFirst(list, name), name) == Max(Count(list, name) - 1, 0)
  {
    var i := First(list, name);
    CountZero(list, name);
    if i < |list| {
      SplitAt(list, i, list[i]);
      CountMiddle(list[..i], list[i], list[i + 1..], name);
      CountConcat(list[..i], list[i + 1..], name);
    }
  }

  lemma {:induction false} RemoveFixed<T>(list: seq<Named<T>>, name: string)
    ensures RemoveFirst(list, name) == list <==> Count(list, name) == 0
  {
    CountZero(list, name);
    var i := First(list, name);
    if i < |list| {
      assert |RemoveFirst(list, name)| == |list| - 1;
    }
  }

  /** One removal is enough exactly when the name occurs at most once. */
  lemma {:induction false} RemoveTwice<T>(list: seq<Named<T>>, name: string)
    ensures RemoveFirst(RemoveFirst(list, name), name) == RemoveFirst(list, name) <==> Count(list, name) <= 1
  {
    RemoveFixed(RemoveFirst(list, name), name);
    RemoveCount(list, name);
  }

  /** The element an upsert leaves under the desired name. */
  lemma UpsertFinds<T>(list: seq<Named<T>>, d: Named<T>, merge: (T, T) -> T)
    ensures var after, i := Upsert(list, d, merge), First(list, d.name);
            && i < |after| && First(after, d.name) == i
            && after[i] == Named(d.name, if i < |list| then merge(list[i].body, d.body) else d.body)
  {
    var after, i := Upsert(list, d, merge), First(list, d.name);
    FirstUnique(after, d.name, i);
  }

  /** An upsert that changes nothing: the desired element is there already. */
  ghost predicate Settled<T>(list: seq<Named<T>>, d: Named<T>, merge: (T, T) -> T) {
    var i := First(list, d.name);
    i < |list| && merge(list[i].body, d.body) == list[i].body
  }

  lemma SettledIsFixed<T>(list: seq<Named<T>>, d: Named<T>, merge: (T, T) -> T)
    ensures Settled(list, d, merge) ==> Upsert(list, d, merge) == list
  {
  }

  // ---- field merges ----

  function MergeLabels(target: Labels, desired: Labels): Labels {
    if desired.None? || desired.value == map[] then target
    else if target.None? then desired
    else Some(target.value + desired.value)
  }

  /** Map keys nobody desires keep their values, desired keys get theirs, nothing else appears. */
  predicate LabelsFramed(before: Labels, desired: Labels, after: Labels) {
    var wanted := if desired.Some? then desired.value else map[];
    var had := if before.Some? then before.value else map[];
    var has := if after.Some? then after.value else map[];
    && has.Keys == had.Keys + wanted.Keys
    && (forall key :: key in wanted ==> has[key] == wanted[key])
    && (forall key :: key in had && key !in wanted ==> has[key] == had[key])
    && (after.None? <==> before.None? && wanted == map[])
  }

  lemma LabelsMergeFrames(before: Labels, desired: Labels)
    ensures LabelsFramed(before, desired, MergeLabels(before, desired))
  {
    if desired.Some? && desired.value != map[] && before.Some? {
      var has := before.value + desired.value;
      assert MergeLabels(before, desired) == Some(has);
    }
  }

  function MergeMetadata(target: Metadata, desired: Metadata): Metadata {
    Metadata(MergeLabels(target.labels, desired.labels), MergeLabels(target.annotations, desired.annotations))
  }

  function MergeContainerSecurity(e: Option<ContainerSecurity>, d: Option<ContainerSecurity>): Option<ContainerSecurity> {
    if d.None? then e
    else Some(ContainerSecurity(d.value.privileged, d.value.allowEscalation, d.value.readOnlyRoot, d.value.capabilities,
                                if e.None? then "" else e.value.other))
  }

  function MergePodSecurity(e: Option<PodSecurity>, d: Option<PodSecurity>): Option<PodSecurity> {
    if d.None? then e
    else Some(PodSecurity(d.value.runAsNonRoot, d.value.seccomp, if e.None? then "" else e.value.other))
  }

  /** Every managed field of the container is the desired one; the rest stays. */
  function MergeContainer(e: ContainerBody, d: ContainerBody): ContainerBody {
    d.(security := MergeContainerSecurity(e.security, d.security), other := e.other)
  }

  /** The API server's default mode is kept when both sides are config maps. */
  function MergeScenarioSource(e: VolumeSource, d: VolumeSource): VolumeSource {
    if e.ConfigMapVolume? && d.ConfigMapVolume?
    then ConfigMapVolume(d.source.(defaultMode := e.source.defaultMode)) else d
  }

  function ReplaceSource(e: VolumeSource, d: VolumeSource): VolumeSource {
    d
  }

  predicate SecretDesired(d: seq<Named<VolumeSource>>) {
    First(d, SECRET_HEADERS_VOLUME) < |d|
  }

  function ApplySecretVolume(volumes: seq<Named<VolumeSource>>, d: seq<Named<VolumeSource>>): seq<Named<VolumeSource>> {
    var i := First(d, SECRET_HEADERS_VOLUME);
    if i < |d| then Upsert(volumes, d[i], ReplaceSource) else RemoveFirst(volumes, SECRET_HEADERS_VOLUME)
  }

  /** The desired object built by the controller has a container and a volume. */
  predicate Usable(d: Spec) {
    d.containers != [] && d.volumes != []
  }

  function Applied(e: Spec, d: Spec): Spec
    requires Usable(d)
  {
    Spec(
      MergeMetadata(e.metadata, d.metadata), d.rollout, MergeMetadata(e.template, d.template), d.pod,
      MergePodSecurity(e.security, d.security),
      Upsert(e.containers, d.containers[0], MergeContainer),
      ApplySecretVolume(Upsert(e.volumes, d.volumes[0], MergeScenarioSource), d.volumes),
      e.other)
  }

  // ---- the object the controller patches in place ----

  /** The values of the keys already copied. */
  function Copied(desired: map<string, string>, rest: set<string>): (m: map<string, string>)
    ensures m.Keys == desired.Keys - rest
    ensures rest == {} ==> m == desired
  {
    map key | key in desired.Keys - rest :: desired[key]
  }

  lemma CopyOne(before: map<string, string>, desired: map<string, string>, rest: set<string>, key: string)
    requires key in rest && rest <= desired.Keys
    ensures (before + Copied(desired, rest))[key := desired[key]] == before + Copied(desired, rest - {key})
  {
  }

  lemma CopyAll(target: Labels, desired: Labels)
    requires desired.Some? && |desired.value| != 0
    ensures Some((if target.None? then map[] else target.value) + Copied(desired.value, {})) == MergeLabels(target, desired)
  {
    assert map[] + desired.value == desired.value;
  }

  method SetManagedMapValues(target: Labels, desired: Labels) returns (merged: Labels)
    ensures merged == MergeLabels(target, desired)
    ensures LabelsFramed(target, desired, merged)
  {
    LabelsMergeFrames(target, desired);
    if desired.None? || |desired.value| == 0 {
      return target;
    }
    var before := if target.None? then map[] else target.value;
    var values, rest := before, desired.value.Keys;
    while rest != {}
      invariant rest <= desired.value.Keys
      invariant values == before + Copied(desired.value, rest)
      decreases rest
    {
      var key :| key in rest;
      CopyOne(before, desired.value, rest, key);
      values := values[key := desired.value[key]];
      rest := rest - {key};
    }
    CopyAll(target, desired);
    return Some(values);
  }

  class Deployment {
    var metadata: Metadata
    var rollout: Rollout
    var template: Metadata
    var pod: PodSettings
    var security: Option<PodSecurity>
    var containers: seq<Named<ContainerBody>>
    var volumes: seq<Named<VolumeSource>>
    var other: string

    constructor (s: Spec)
      ensures View() == s
    {
      metadata, rollout, template, pod := s.metadata, s.rollout, s.template, s.pod;
      security, containers, volumes, other := s.security, s.containers, s.volumes, s.other;
    }

    function View(): Spec
      reads this
    {
      Spec(metadata, rollout, template, pod, security, containers, volumes, other)
    }

    method ApplyRunnerContainer(desired: Named<ContainerBody>)
      modifies this`containers
      ensures containers == Upsert(old(containers), desired, MergeContainer)
    {
      for i := 0 to |containers|
        invariant forall j :: 0 <= j < i ==> containers[j].name != desired.name
        invariant containers == old(containers)
      {
        if containers[i].name != desired.name {
          continue;
        }
        FirstUnique(containers, desired.name, i);
        var body, d := containers[i].body, desired.body;
        body := body.(image := d.image, command := d.command, args := d.args, env := d.env);
        body := body.(volumeMounts := d.volumeMounts, ports := d.ports, resources := d.resources);
        if d.security.Some? {
          var s := if body.security.None? then ContainerSecurity("", "", "", "", "") else body.security.value;
          s := s.(privileged := d.security.value.privileged, allowEscalation := d.security.value.allowEscalation);
          s := s.(readOnlyRoot := d.security.value.readOnlyRoot, capabilities := d.security.value.capabilities);
          body := body.(security := Some(s));
        }
        body := body.(startupProbe := d.startupProbe, livenessProbe := d.livenessProbe, readinessProbe := d.readinessProbe);
        containers := containers[i := Named(containers[i].name, body)];
        return;
      }
      containers := containers + [desired];
    }

    method ApplyScenarioVolume(desired: Named<VolumeSource>)
      modifies this`volumes
      ensures volumes == Upsert(old(volumes), desired, MergeScenarioSource)
    {
      for i := 0 to |volumes|
        invariant forall j :: 0 <= j < i ==> volumes[j].name != desired.name
        invariant volumes == old(volumes)
      {
        if volumes[i].name != desired.name {
          continue;
        }
        FirstUnique(volumes, desired.name, i);
        if !volumes[i].body.ConfigMapVolume? || !desired.body.ConfigMapVolume? {
          volumes := volumes[i := Named(volumes[i].name, desired.body)];
          return;
        }
        var source, d := volumes[i].body.source, desired.body.source;
        source := source.(reference := d.reference, items := d.items, isOptional := d.isOptional);
        volumes := volumes[i := Named(volumes[i].name, ConfigMapVolume(source))];
        return;
      }
      volumes := volumes + [desired];
    }

    method ApplySecretHeaderVolume(desiredVolumes: seq<Named<VolumeSource>>)
      modifies this`volumes
      ensures volumes == ApplySecretVolume(old(volumes), desiredVolumes)
    {
      var desired: Option<Named<VolumeSource>> := None;
      for i := 0 to |desiredVolumes|
        invariant forall j :: 0 <= j < i ==> desiredVolumes[j].name != SECRET_HEADERS_VOLUME
        invariant desired.None?
      {
        if desiredVolumes[i].name == SECRET_HEADERS_VOLUME {
          FirstUnique(desiredVolumes, SECRET_HEADERS_VOLUME, i);
          desired := Some(desiredVolumes[i]);
          break;
        }
      }
      for i := 0 to |volumes|
        invariant forall j :: 0 <= j < i ==> volumes[j].name != SECRET_HEADERS_VOLUME
        invariant volumes == old(volumes)
      {
        if volumes[i].name != SECRET_HEADERS_VOLUME {
          continue;
        }
        FirstUnique(volumes, SECRET_HEADERS_VOLUME, i);
        if desired.None? {
          volumes := volumes[..i] + volumes[i + 1..];
          return;
        }
        volumes := volumes[i := Named(volumes[i].name, desired.value.body)];
        return;
      }
      if desired.Some? {
        volumes := volumes + [desired.value];
      }
    }

    method ApplyPodSecurity(desired: Option<PodSecurity>)
      modifies this`security
      ensures security == MergePodSecurity(old(security), desired)
      ensures desired.None? ==> security == old(security)
      ensures desired.Some? ==>
                security == Some(PodSecurity(desired.value.runAsNonRoot, desired.value.seccomp,
                                             if old(security).None? then "" else old(security).value.other))
    {
      if desired.None? {
        return;
      }
      var s := if security.None? then PodSecurity("", "", "") else security.value;
      security := Some(s.(runAsNonRoot := desired.value.runAsNonRoot, seccomp := desired.value.seccomp));
    }

    method ApplyMetadata(desired: Spec)
      modifies this`metadata, this`template
      ensures metadata == MergeMetadata(old(metadata), desired.metadata)
      ensures template == MergeMetadata(old(template), desired.template)
    {
      var labels := SetManagedMapValues(metadata.labels, desired.metadata.labels);
      var annotations := SetManagedMapValues(metadata.annotations, desired.metadata.annotations);
      metadata := Metadata(labels, annotations);
      labels := SetManagedMapValues(template.labels, desired.template.labels);
      annotations := SetManagedMapValues(template.annotations, desired.template.annotations);
      template := Metadata(labels, annotations);
    }

    method ApplyPodLists(desired: Spec)
      requires Usable(desired)
      modifies this`security, this`containers, this`volumes
      ensures security == MergePodSecurity(old(security), desired.security)
      ensures containers == Upsert(old(containers), desired.containers[0], MergeContainer)
      ensures volumes == ApplySecretVolume(Upsert(old(volumes), desired.volumes[0], MergeScenarioSource), desired.volumes)
    {
      ApplyPodSecurity(desired.security);
      ApplyRunnerContainer(desired.containers[0]);
      ApplyScenarioVolume(desired.volumes[0]);
      ApplySecretHeaderVolume(desired.volumes);
    }

    method ApplyManagedFields(desired: Spec)
      requires Usable(desired)
      modifies this
      ensures View() == Applied(old(View()), desired)
      ensures rollout == desired.rollout && pod == desired.pod && other == old(other)
      ensures desired.security.None? ==> security == old(security)
      ensures desired.security.Some? ==>
                security == Some(PodSecurity(desired.security.value.runAsNonRoot, desired.security.value.seccomp,
                                             if old(security).None? then "" else old(security).value.other))
    {
      ApplyMetadata(desired);
      rollout := desired.rollout;
      pod := desired.pod;
      ApplyPodLists(desired);
    }
  }

  // ---- convergence ----

  /** After one application the scenario volume and the runner container are settled. */
  lemma ContainerSettles(list: seq<Named<ContainerBody>>, d: Named<ContainerBody>)
    ensures Settled(Upsert(list, d, MergeContainer), d, MergeContainer)
  {
    UpsertFinds(list, d, MergeContainer);
  }

  lemma ScenarioVolumeSettles(list: seq<Named<VolumeSource>>, d: Named<VolumeSource>)
    ensures Settled(Upsert(list, d, MergeScenarioSource), d, MergeScenarioSource)
  {
    UpsertFinds(list, d, MergeScenarioSource);
  }

  /** Changes under one name leave the first element with another name as it is. */
  lemma FirstAfterUpsert<T>(list: seq<Named<T>>, d: Named<T>, merge: (T, T) -> T, name: string)
    requires name != d.name && First(list, name) < |list|
    ensures var after, k := Upsert(list, d, merge), First(list, name);
            First(after, name) == k < |after| && after[k] == list[k]
  {
    FirstUnique(Upsert(list, d, merge), name, First(list, name));
  }

  lemma FirstAfterRemove<T>(list: seq<Named<T>>, removed: string, name: string)
    requires name != removed && First(list, name) < |list|
    ensures var after := RemoveFirst(list, removed);
            First(after, name) < |after| && after[First(after, name)] == list[First(list, name)]
  {
    var after, k, i := RemoveFirst(list, removed), First(list, name), First(list, removed);
    if i < |list| {
      assert forall j :: 0 <= j < |after| ==> after[j] == list[if j < i then j else j + 1];
      FirstUnique(after, name, if i < k then k - 1 else k);
    }
  }

  lemma VolumesSettle(list: seq<Named<VolumeSource>>, d: seq<Named<VolumeSource>>)
    requires d != []
    ensures Settled(ApplySecretVolume(Upsert(list, d[0], MergeScenarioSource), d), d[0], MergeScenarioSource)
    ensures SecretDesired(d) ==>
              Settled(ApplySecretVolume(Upsert(list, d[0], MergeScenarioSource), d),
                      d[First(d, SECRET_HEADERS_VOLUME)], ReplaceSource)
  {
    var merged := Upsert(list, d[0], MergeScenarioSource);
    var i := First(d, SECRET_HEADERS_VOLUME);
    ScenarioVolumeSettles(list, d[0]);
    if i < |d| {
      UpsertFinds(merged, d[i], ReplaceSource);
      if d[0].name != SECRET_HEADERS_VOLUME {
        FirstAfterUpsert(merged, d[i], ReplaceSource, d[0].name);
      }
    } else {
      FirstAfterRemove(merged, SECRET_HEADERS_VOLUME, d[0].name);
    }
  }

  /**
   The volumes converge in one pass exactly when the secret volume is desired or the object
   did not carry it more than once; Kubernetes' unique volume names guarantee the latter.
   */
  lemma VolumesConverge(list: seq<Named<VolumeSource>>, d: seq<Named<VolumeSource>>)
    requires d != []
    ensures var once := ApplySecretVolume(Upsert(list, d[0], MergeScenarioSource), d);
            ApplySecretVolume(Upsert(once, d[0], MergeScenarioSource), d) == once <==>
            SecretDesired(d) || Count(list, SECRET_HEADERS_VOLUME) <= 1
  {
    var merged := Upsert(list, d[0], MergeScenarioSource);
    var once := ApplySecretVolume(merged, d);
    VolumesSettle(list, d);
    SettledIsFixed(once, d[0], MergeScenarioSource);
    if SecretDesired(d) {
      SettledIsFixed(once, d[First(d, SECRET_HEADERS_VOLUME)], ReplaceSource);
    } else {
      UpsertCount(list, d[0], MergeScenarioSource, SECRET_HEADERS_VOLUME);
      RemoveTwice(merged, SECRET_HEADERS_VOLUME);
    }
  }

  lemma LabelsConverge(target: Labels, desired: Labels)
    ensures MergeLabels(MergeLabels(target, desired), desired) == MergeLabels(target, desired)
  {
    if desired.Some? && target.Some? {
      assert (target.value + desired.value) + desired.value == target.value + desired.value;
    }
    if desired.Some? {
      assert desired.value + desired.value == desired.value;
    }
  }

  /** Convergence: applying the same desired Deployment twice equals applying it once. */
  lemma ApplyConverges(e: Spec, d: Spec)
    requires Usable(d)
    ensures Applied(Applied(e, d), d) == Applied(e, d) <==>
            SecretDesired(d.volumes) || Count(e.volumes, SECRET_HEADERS_VOLUME) <= 1
  {
    VolumesConverge(e.volumes, d.volumes);
    ContainerSettles(e.containers, d.containers[0]);
    SettledIsFixed(Upsert(e.containers, d.containers[0], MergeContainer), d.containers[0], MergeContainer);
    LabelsConverge(e.metadata.labels, d.metadata.labels);
    LabelsConverge(e.metadata.annotations, d.metadata.annotations);
    LabelsConverge(e.template.labels, d.template.labels);
    LabelsConverge(e.template.annotations, d.template.annotations);
  }

  /** The secret volume ends up present exactly when desired, and once, iff it was not there too often. */
  lemma SecretVolumeExact(list: seq<Named<VolumeSource>>, d: seq<Named<VolumeSource>>)
    requires d != []
    ensures var after := ApplySecretVolume(Upsert(list, d[0], MergeScenarioSource), d);
            Count(after, SECRET_HEADERS_VOLUME) == (if SecretDesired(d) then 1 else 0) <==>
            Count(list, SECRET_HEADERS_VOLUME) <= 1
  {
    var merged, i := Upsert(list, d[0], MergeScenarioSource), First(d, SECRET_HEADERS_VOLUME);
    UpsertCount(list, d[0], MergeScenarioSource, SECRET_HEADERS_VOLUME);
    if i < |d| {
      UpsertCount(merged, d[i], ReplaceSource, SECRET_HEADERS_VOLUME);
    } else {
      RemoveCount(merged, SECRET_HEADERS_VOLUME);
    }
  }

  // ---- what the API server sends back ----

  predicate SameNames<T>(a: seq<Named<T>>, b: seq<Named<T>>) {
    |a| == |b| && forall i :: 0 <= i < |a| ==> a[i].name == b[i].name
  }

  lemma {:induction false} FirstSameNames<T>(a: seq<Named<T>>, b: seq<Named<T>>, name: string)
    requires SameNames(a, b)
    ensures First(a, name) == First(b, name)
  {
    if a != [] {
      FirstSameNames(a[1..], b[1..], name);
    }
  }

  predicate ContainerDefaulted(sent: ContainerBody, stored: ContainerBody) {
    && stored == sent.(security := stored.security, other := stored.other)
    && (sent.security.Some? ==>
          stored.security.Some? && stored.security.value == sent.security.value.(other := stored.security.value.other))
  }

  predicate SourceDefaulted(sent: VolumeSource, stored: VolumeSource) {
    if sent.ConfigMapVolume? then
      stored.ConfigMapVolume? && stored.source == sent.source.(defaultMode := stored.source.defaultMode)
    else stored == sent
  }

  /** The server may fill in fields Kurama does not manage, and the default mode of config maps. */
  predicate ServerDefaulted(sent: Spec, stored: Spec) {
    && stored == sent.(security := stored.security, containers := stored.containers,
                       volumes := stored.volumes, other := stored.other)
    && (sent.security.Some? ==>
          stored.security.Some? && stored.security.value == sent.security.value.(other := stored.security.value.other))
    && SameNames(sent.containers, stored.containers)
    && (forall i :: 0 <= i < |sent.containers| ==> ContainerDefaulted(sent.containers[i].body, stored.containers[i].body))
    && SameNames(sent.volumes, stored.volumes)
    && (forall i :: 0 <= i < |sent.volumes| ==> SourceDefaulted(sent.volumes[i].body, stored.volumes[i].body))
  }

  /** The secret volume names its mode itself, and is no config map. */
  predicate SecretIsExplicit(d: seq<Named<VolumeSource>>) {
    SecretDesired(d) ==> !d[First(d, SECRET_HEADERS_VOLUME)].body.ConfigMapVolume?
  }

  lemma ContainersStaySettled(sent: seq<Named<ContainerBody>>, stored: seq<Named<ContainerBody>>, d: Named<ContainerBody>)
    requires Settled(sent, d, MergeContainer) && SameNames(sent, stored)
    requires forall i :: 0 <= i < |sent| ==> ContainerDefaulted(sent[i].body, stored[i].body)
    ensures Upsert(stored, d, MergeContainer) == stored
  {
    FirstSameNames(sent, stored, d.name);
    SettledIsFixed(stored, d, MergeContainer);
  }

  lemma VolumesStaySettled(list: seq<Named<VolumeSource>>, d: seq<Named<VolumeSource>>, stored: seq<Named<VolumeSource>>)
    requires d != [] && SecretIsExplicit(d)
    requires SecretDesired(d) || Count(list, SECRET_HEADERS_VOLUME) <= 1
    requires var sent := ApplySecretVolume(Upsert(list, d[0], MergeScenarioSource), d);
             && SameNames(sent, stored)
             && forall i :: 0 <= i < |sent| ==> SourceDefaulted(sent[i].body, stored[i].body)
    ensures ApplySecretVolume(Upsert(stored, d[0], MergeScenarioSource), d) == stored
  {
    var sent, j := ApplySecretVolume(Upsert(list, d[0], MergeScenarioSource), d), First(d, SECRET_HEADERS_VOLUME);
    VolumesSettle(list, d);
    FirstSameNames(sent, stored, d[0].name);
    FirstSameNames(sent, stored, SECRET_HEADERS_VOLUME);
    SettledIsFixed(stored, d[0], MergeScenarioSource);
    if j < |d| {
      SettledIsFixed(stored, d[j], ReplaceSource);
    } else {
      SecretVolumeExact(list, d);
      CountZero(sent, SECRET_HEADERS_VOLUME);
    }
  }

  /**
   Convergence with the server in the loop: whatever it fills in after one application among
   the fields it may default, applying the same desired Deployment again changes nothing.
   */
  lemma DefaultsAreKept(e: Spec, d: Spec, stored: Spec)
    requires Usable(d) && SecretIsExplicit(d.volumes)
    requires SecretDesired(d.volumes) || Count(e.volumes, SECRET_HEADERS_VOLUME) <= 1
    requires ServerDefaulted(Applied(e, d), stored)
    ensures Applied(stored, d) == stored
  {
    ContainerSettles(e.containers, d.containers[0]);
    ContainersStaySettled(Applied(e, d).containers, stored.containers, d.containers[0]);
    VolumesStaySettled(e.volumes, d.volumes, stored.volumes);
    LabelsConverge(e.metadata.labels, d.metadata.labels);
    LabelsConverge(e.metadata.annotations, d.metadata.annotations);
    LabelsConverge(e.template.labels, d.template.labels);
    LabelsConverge(e.template.annotations, d.template.annotations);
  }

  lemma LabelsOnThemselves(labels: Labels)
    ensures MergeLabels(labels, labels) == labels
  {
    if labels.Some? {
      assert labels.value + labels.value == labels.value;
    }
  }

  /** A created Deployment is already what applying the same one would make of it. */
  lemma CreatedIsApplied(d: Spec)
    requires Usable(d)
    ensures Applied(d, d) == d
  {
    assert First(d.containers, d.containers[0].name) == 0 && First(d.volumes, d.volumes[0].name) == 0;
    SettledIsFixed(d.containers, d.containers[0], MergeContainer);
    SettledIsFixed(d.volumes, d.volumes[0], MergeScenarioSource);
    if SecretDesired(d.volumes) {
      SettledIsFixed(d.volumes, d.volumes[First(d.volumes, SECRET_HEADERS_VOLUME)], ReplaceSource);
    }
    LabelsOnThemselves(d.metadata.labels);
    LabelsOnThemselves(d.metadata.annotations);
    LabelsOnThemselves(d.template.labels);
    LabelsOnThemselves(d.template.annotations);
  }

  // ---- one reconcile of the Deployment ----

  datatype Stored = Stored(controller: Option<string>, selector: string, spec: Spec)

  datatype ApplyError = GetFailed | OwnerFailed | CreateFailed | NotControlled | SelectorChanged | PatchFailed

  /** The failures of one reconcile. */
  datatype Faults = Faults(get: bool, owner: bool, create: bool, patch: bool)

  function ApplyResult(found: Option<Stored>, uid: string, desired: Stored, faults: Faults): Result<bool, ApplyError>
    requires Usable(desired.spec)
  {
    if faults.get then Err(GetFailed)
    else if found.None? then
      if faults.owner then Err(OwnerFailed) else if faults.create then Err(CreateFailed) else Ok(true)
    else if found.value.controller != Some(uid) then Err(NotControlled)
    else if found.value.selector != desired.selector then Err(SelectorChanged)
    else if Applied(found.value.spec, desired.spec) == found.value.spec then Ok(false)
    else if faults.patch then Err(PatchFailed) else Ok(true)
  }

  predicate Controlled(found: Option<Stored>, uid: string) {
    found.Some? && found.value.controller == Some(uid)
  }

  class ApiServer {
    var deployment: Option<Stored>

    constructor ()
      ensures deployment == None
    {
      deployment := None;
    }

    /** The result says whether the Deployment was changed; nothing else ever writes to it. */
    method ApplyDeployment(uid: string, desired: Stored, faults: Faults) returns (result: Result<bool, ApplyError>)
      requires Usable(desired.spec)
      modifies this
      ensures result == ApplyResult(old(deployment), uid, desired, faults)
      ensures result == Err(GetFailed) <==> faults.get
      ensures result == Err(OwnerFailed) <==> !faults.get && old(deployment).None? && faults.owner
      ensures result == Err(CreateFailed) <==> !faults.get && old(deployment).None? && !faults.owner && faults.create
      ensures result == Err(NotControlled) <==>
                !faults.get && old(deployment).Some? && old(deployment).value.controller != Some(uid)
      ensures result == Err(SelectorChanged) <==>
                !faults.get && Controlled(old(deployment), uid) && old(deployment).value.selector != desired.selector
      ensures result == Err(PatchFailed) <==>
                && !faults.get && Controlled(old(deployment), uid) && old(deployment).value.selector == desired.selector
                && Applied(old(deployment).value.spec, desired.spec) != old(deployment).value.spec && faults.patch
      ensures result == Ok(false) <==>
                && !faults.get && Controlled(old(deployment), uid) && old(deployment).value.selector == desired.selector
                && Applied(old(deployment).value.spec, desired.spec) == old(deployment).value.spec
      ensures result != Ok(true) ==> deployment == old(deployment)
      ensures result == Ok(true) ==>
                deployment == Some(
                  if old(deployment).None? then Stored(Some(uid), desired.selector, desired.spec)
                  else old(deployment).value.(spec := Applied(old(deployment).value.spec, desired.spec)))
    {
      if faults.get {
        return Err(GetFailed);
      }
      if deployment.None? {
        if faults.owner {
          return Err(OwnerFailed);
        }
        if faults.create {
          return Err(CreateFailed);
        }
        deployment := Some(Stored(Some(uid), desired.selector, desired.spec));
        return Ok(true);
      }
      var stored := deployment.value;
      if stored.controller != Some(uid) {
        return Err(NotControlled);
      }
      if stored.selector != desired.selector {
        return Err(SelectorChanged);
      }
      var existing := new Deployment(stored.spec);
      existing.ApplyManagedFields(desired.spec);
      if existing.View() == stored.spec {
        return Ok(false);
      }
      if faults.patch {
        return Err(PatchFailed);
      }
      deployment := Some(stored.(spec := existing.View()));
      return Ok(true);
    }
  }

  /**
   After a Deployment was created or patched, a reconcile of the same desired one finds
   nothing to do, whatever the server has filled in meanwhile.
   */
  lemma SecondReconcileIsQuiet(found: Option<Stored>, uid: string, desired: Stored, faults: Faults, after: Stored, again: Faults)
    requires Usable(desired.spec) && SecretIsExplicit(desired.spec.volumes)
    requires ApplyResult(found, uid, desired, faults) == Ok(true)
    requires found.Some? ==>
      SecretDesired(desired.spec.volumes) || Count(found.value.spec.volumes, SECRET_HEADERS_VOLUME) <= 1
    requires after.controller == Some(uid) && after.selector == desired.selector
    requires ServerDefaulted(if found.None? then desired.spec else Applied(found.value.spec, desired.spec), after.spec)
    requires !again.get
    ensures ApplyResult(Some(after), uid, desired, again) == Ok(false)
  {
    if found.None? {
      CreatedIsApplied(desired.spec);
      CountZero(desired.spec.volumes, SECRET_HEADERS_VOLUME);
      DefaultsAreKept(desired.spec, desired.spec, after.spec);
    } else {
      DefaultsAreKept(found.value.spec, desired.spec, after.spec);
    }
  }

  // ---- framing ----

  /** Volumes under other names than the two managed ones keep their values and their order. */
  lemma VolumesFramed(list: seq<Named<VolumeSource>>, d: seq<Named<VolumeSource>>)
    requires d != []
    ensures var names := {d[0].name, SECRET_HEADERS_VOLUME};
            Foreign(ApplySecretVolume(Upsert(list, d[0], MergeScenarioSource), d), names) == Foreign(list, names)
  {
    var names := {d[0].name, SECRET_HEADERS_VOLUME};
    var merged, i := Upsert(list, d[0], MergeScenarioSource), First(d, SECRET_HEADERS_VOLUME);
    UpsertFrames(list, d[0], MergeScenarioSource, names);
    if i < |d| {
      UpsertFrames(merged, d[i], ReplaceSource, names);
    } else {
      RemoveFrames(merged, SECRET_HEADERS_VOLUME, names);
    }
  }

  /** Framing: foreign containers, volumes and map keys keep their values and their order. */
  lemma ApplyFrames(e: Spec, d: Spec)
    requires Usable(d)
    ensures var a := Applied(e, d);
            && Foreign(a.containers, {d.containers[0].name}) == Foreign(e.containers, {d.containers[0].name})
            && Foreign(a.volumes, {d.volumes[0].name, SECRET_HEADERS_VOLUME}) ==
               Foreign(e.volumes, {d.volumes[0].name, SECRET_HEADERS_VOLUME})
    ensures var a := Applied(e, d);
            && LabelsFramed(e.metadata.labels, d.metadata.labels, a.metadata.labels)
            && LabelsFramed(e.metadata.annotations, d.metadata.annotations, a.metadata.annotations)
            && LabelsFramed(e.template.labels, d.template.labels, a.template.labels)
            && LabelsFramed(e.template.annotations, d.template.annotations, a.template.annotations)
  {
    UpsertFrames(e.containers, d.containers[0], MergeContainer, {d.containers[0].name});
    VolumesFramed(e.volumes, d.volumes);
    LabelsMergeFrames(e.metadata.labels, d.metadata.labels);
    LabelsMergeFrames(e.metadata.annotations, d.metadata.annotations);
    LabelsMergeFrames(e.template.labels, d.template.labels);
    LabelsMergeFrames(e.template.annotations, d.template.annotations);
  }

  /** A desired context leaves its fields there and the unmanaged rest; none leaves the old one. */
  predicate SecurityManaged(before: Option<ContainerSecurity>, desired: Option<ContainerSecurity>,
                            after: Option<ContainerSecurity>) {
    if desired.None? then after == before
    else
      && after.Some? && after.value.(other := desired.value.other) == desired.value
      && after.value.other == if before.None? then "" else before.value.other
  }

  /**
   The runner container exists afterwards, where it was or at the end, with the desired managed
   fields and its own others; one that was not there is the desired one.
   */
  lemma RunnerContainerManaged(e: Spec, d: Spec)
    requires Usable(d)
    ensures var a, runner := Applied(e, d), d.containers[0];
            var i := First(a.containers, runner.name);
            && i == First(e.containers, runner.name) < |a.containers|
            && var b := a.containers[i].body;
            && b.(security := runner.body.security, other := runner.body.other) == runner.body
            && (i < |e.containers| ==>
                  && b.other == e.containers[i].body.other
                  && SecurityManaged(e.containers[i].body.security, runner.body.security, b.security))
            && (i == |e.containers| ==> b == runner.body)
  {
    UpsertFinds(e.containers, d.containers[0], MergeContainer);
  }

  function Find<T>(list: seq<Named<T>>, name: string): Option<T> {
    var i := First(list, name);
    if i < |list| then Some(list[i].body) else None
  }

  predicate SourceManaged(before: Option<VolumeSource>, desired: VolumeSource, after: VolumeSource) {
    if before.Some? && before.value.ConfigMapVolume? && desired.ConfigMapVolume? then
      && after.ConfigMapVolume?
      && after.source.(defaultMode := desired.source.defaultMode) == desired.source
      && after.source.defaultMode == before.value.source.defaultMode
    else after == desired
  }

  /**
   The scenario volume refers to the desired config map afterwards. The server's default mode
   survives exactly when both sides are config maps; any other source is replaced whole.
   */
  lemma ScenarioVolumeManaged(e: Spec, d: Spec)
    requires Usable(d) && d.volumes[0].name != SECRET_HEADERS_VOLUME
    ensures var a, wanted := Applied(e, d), d.volumes[0];
            var i := First(a.volumes, wanted.name);
            && i < |a.volumes|
            && SourceManaged(Find(e.volumes, wanted.name), wanted.body, a.volumes[i].body)
  {
    var wanted := d.volumes[0];
    var merged, i := Upsert(e.volumes, wanted, MergeScenarioSource), First(d.volumes, SECRET_HEADERS_VOLUME);
    UpsertFinds(e.volumes, wanted, MergeScenarioSource);
    if i < |d.volumes| {
      FirstAfterUpsert(merged, d.volumes[i], ReplaceSource, wanted.name);
    } else {
      FirstAfterRemove(merged, SECRET_HEADERS_VOLUME, wanted.name);
    }
  }

  /** The secret volume is afterwards the desired one, or gone when none is desired. */
  lemma SecretVolumeManaged(e: Spec, d: Spec)
    requires Usable(d)
    ensures Find(Applied(e, d).volumes, "request-secrets") == Find(d.volumes, "request-secrets") <==>
            Find(d.volumes, "request-secrets").Some? || Count(e.volumes, "request-secrets") <= 1
  {
    var merged, i := Upsert(e.volumes, d.volumes[0], MergeScenarioSource), First(d.volumes, SECRET_HEADERS_VOLUME);
    if i < |d.volumes| {
      UpsertFinds(merged, d.volumes[i], ReplaceSource);
    } else {
      UpsertCount(e.volumes, d.volumes[0], MergeScenarioSource, SECRET_HEADERS_VOLUME);
      RemoveCount(merged, SECRET_HEADERS_VOLUME);
      CountZero(Applied(e, d).volumes, SECRET_HEADERS_VOLUME);
    }
  }
}
