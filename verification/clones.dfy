/** The shadow workload of a bridge mount: names and labels that keep its Pods apart from the original ones. */
module ShadowWorkloads {
  const MAX_LENGTH := 63
  const SUFFIX := "-gefyra"
  const DUPLICATION_ID := "bridge.gefyra.dev/duplication-id"

  type Labels = map<string, string>

  function Min(a: nat, b: nat): nat { if a < b then a else b }

  predicate EndsWith(s: string, suffix: string) { |suffix| <= |s| && s[|s| - |suffix|..] == suffix }

  /** `generate_k8s_conform_name` */
  function ConformName(name: string, suffix: string, maxLength: nat): (r: string)
    requires |suffix| <= maxLength
    ensures |r| <= maxLength && EndsWith(r, suffix) && r[..|r| - |suffix|] <= name
    ensures |name| + |suffix| > maxLength ==> |r| == maxLength
    ensures |name| + |suffix| <= maxLength ==> r == name + suffix
  {
    if |name| + |suffix| <= maxLength then name + suffix else name[..maxLength - |suffix|] + suffix
  }

  function DuplicateName(name: string): string { ConformName(name, SUFFIX, MAX_LENGTH) }

  lemma DuplicateNameIs(name: string)
    ensures DuplicateName(name) == name[..Min(|name|, 56)] + "-gefyra"
  {
    if |name| <= MAX_LENGTH - |SUFFIX| {
      assert name[..|name|] == name;
    }
  }

  /** A label value is its own duplicate only if it has the full length and the suffix already. */
  lemma FixedPointIff(v: string)
    ensures DuplicateName(v) == v <==> |v| == 63 && EndsWith(v, "-gefyra")
  {
    DuplicateNameIs(v);
    if |v| == MAX_LENGTH && EndsWith(v, SUFFIX) {
      assert v == v[..MAX_LENGTH - |SUFFIX|] + v[MAX_LENGTH - |SUFFIX|..];
    }
  }

  /** Two names have the same duplicate exactly if they share the first 56 characters, or are equal. */
  lemma SameDuplicateIff(v: string, w: string)
    ensures DuplicateName(v) == DuplicateName(w) <==>
      v[..Min(|v|, 56)] == w[..Min(|w|, 56)]
  {
    DuplicateNameIs(v);
    DuplicateNameIs(w);
    var a, b := v[..Min(|v|, MAX_LENGTH - |SUFFIX|)], w[..Min(|w|, MAX_LENGTH - |SUFFIX|)];
    if a + SUFFIX == b + SUFFIX {
      assert |a| == |b|;
      assert a == (a + SUFFIX)[..|a|] && b == (b + SUFFIX)[..|b|];
    }
  }

  /** `_gefyra_workload_name`, under which the shadow is looked up. */
  function LookedUpName(name: string): string { name + SUFFIX }

  /** The shadow is found again exactly if its name did not have to be cut. */
  lemma FoundIff(name: string)
    ensures LookedUpName(name) == DuplicateName(name) <==> |name| <= 56
  {
    DuplicateNameIs(name);
  }

  /** A Deployment or StatefulSet with its Pod template and selector, or a single Pod. */
  datatype Workload =
    | Controller(name: string, labels: Labels, podLabels: Labels, matchLabels: Labels)
    | Pod(name: string, labels: Labels)

  /** The labels of its Pods. */
  function PodLabels(w: Workload): Labels { if w.Controller? then w.podLabels else w.labels }

  /** The labels by which `get_pods_workload` selects its Pods. */
  function Selector(w: Workload): Labels { if w.Controller? then w.matchLabels else w.labels }

  predicate Selects(selector: Labels, labels: Labels) {
    forall k :: k in selector ==> k in labels && labels[k] == selector[k]
  }

  function Duplicated(labels: Labels): Labels { map k | k in labels :: DuplicateName(labels[k]) }

  /** `_get_duplication_labels` */
  method GetDuplicationLabels(labels: Labels) returns (d: Labels)
    ensures d == Duplicated(labels)
  {
    d := map[];
    var pending := labels.Keys;
    while pending != {}
      invariant pending <= labels.Keys
      invariant d == map k | k in labels && k !in pending :: DuplicateName(labels[k])
    {
      var k :| k in pending;
      d := d[k := DuplicateName(labels[k])];
      pending := pending - {k};
    }
  }

  /** `w'` is the shadow of `w` with this identifier. */
  predicate IsShadow(w: Workload, id: string, w': Workload) {
    && w'.name == DuplicateName(w.name) && w'.Controller? == w.Controller?
    && PodLabels(w') == Duplicated(PodLabels(w))[DUPLICATION_ID := id]
    && (w.Controller? ==> w'.matchLabels == Duplicated(w.matchLabels) && w'.labels == Duplicated(w.labels))
  }

  /** `_clone_workload_structure`; `id` is a new UUID. */
  method CloneWorkload(workload: Workload, id: string) returns (clone: Workload)
    ensures IsShadow(workload, id, clone)
  {
    var labels := GetDuplicationLabels(workload.labels);
    match workload {
      case Controller(name, _, templateLabels, selector) =>
        var podLabels := GetDuplicationLabels(templateLabels);
        podLabels := podLabels[DUPLICATION_ID := id];
        var matchLabels := GetDuplicationLabels(selector);
        clone := Controller(DuplicateName(name), labels, podLabels, matchLabels);
      case Pod(name, _) =>
        labels := labels[DUPLICATION_ID := id];
        clone := Pod(DuplicateName(name), labels);
    }
  }

  /** A workload as the cluster accepts it: it selects its own Pods, and not by the identifier of shadows. */
  predicate Accepted(w: Workload) {
    Selects(Selector(w), PodLabels(w)) && DUPLICATION_ID !in Selector(w)
  }

  predicate AllFixed(labels: Labels) {
    forall k :: k in labels ==> |labels[k]| == 63 && EndsWith(labels[k], "-gefyra")
  }

  /**
    Neither selects the other's Pods, unless every single selector label is 63 characters long and ends in the
    suffix already.
   */
  lemma ApartIff(w: Workload, id: string, w': Workload)
    requires w.Controller? && Accepted(w) && IsShadow(w, id, w')
    ensures Selects(Selector(w'), PodLabels(w'))
    ensures Selects(Selector(w), PodLabels(w')) <==> AllFixed(Selector(w))
    ensures Selects(Selector(w'), PodLabels(w)) <==> AllFixed(Selector(w))
  {
    forall k | k in Selector(w)
      ensures k in Selector(w') && k in PodLabels(w) && k in PodLabels(w')
      ensures PodLabels(w')[k] == Selector(w')[k] == DuplicateName(Selector(w)[k]) && PodLabels(w)[k] == Selector(w)[k]
      ensures DuplicateName(Selector(w)[k]) == Selector(w)[k] <==>
        |Selector(w)[k]| == 63 && EndsWith(Selector(w)[k], "-gefyra")
    {
      FixedPointIff(Selector(w)[k]);
    }
  }

  /** For a single Pod the new identifier is part of the shadow's selector, which never matches the original. */
  lemma ShadowPodApart(w: Workload, id: string, w': Workload)
    requires w.Pod? && Accepted(w) && IsShadow(w, id, w')
    ensures !Selects(Selector(w'), PodLabels(w))
    ensures Selects(Selector(w), PodLabels(w')) <==> AllFixed(Selector(w))
  {
    assert DUPLICATION_ID in Selector(w');
    forall k | k in Selector(w)
      ensures k in PodLabels(w') && PodLabels(w')[k] == DuplicateName(Selector(w)[k])
      ensures DuplicateName(Selector(w)[k]) == Selector(w)[k] <==>
        |Selector(w)[k]| == 63 && EndsWith(Selector(w)[k], "-gefyra")
    {
      FixedPointIff(Selector(w)[k]);
    }
  }
}
