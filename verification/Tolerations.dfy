/** Tolerations of taints, by the scheduler's rule. */
module Tolerations {
  import opened NodeAttributes

  datatype Toleration = Toleration(key: string, operator: string, value: string, effect: string)

  /** The scheduler's rule: an empty key or effect matches any. */
  predicate Tolerates(t: Toleration, taint: Taint) {
    && (t.effect == "" || t.effect == taint.effect)
    && (t.key == "" || t.key == taint.key)
    && (if t.operator == "" || t.operator == "Equal" then t.value == taint.value else t.operator == "Exists")
  }

  predicate SomeTolerates(ts: seq<Toleration>, taint: Taint) {
    exists i :: 0 <= i < |ts| && Tolerates(ts[i], taint)
  }

  predicate TolerateAll(ts: seq<Toleration>, taints: seq<Taint>) {
    forall i :: 0 <= i < |taints| ==> SomeTolerates(ts, taints[i])
  }

  function ToToleration(taint: Taint): Toleration {
    Toleration(taint.key, "Exists", "", taint.effect)
  }

  function ToTolerations(taints: seq<Taint>): seq<Toleration> {
    seq(|taints|, i requires 0 <= i < |taints| => ToToleration(taints[i]))
  }

  lemma AppendedTolerate(ts: seq<Toleration>, more: seq<Toleration>, taint: Taint)
    ensures SomeTolerates(ts + more, taint) <==> SomeTolerates(ts, taint) || SomeTolerates(more, taint)
  {
    var all := ts + more;
    forall i | 0 <= i < |ts| && Tolerates(ts[i], taint) ensures SomeTolerates(all, taint) {
      assert all[i] == ts[i];
    }
    forall i | 0 <= i < |more| && Tolerates(more[i], taint) ensures SomeTolerates(all, taint) {
      assert all[|ts| + i] == more[i];
    }
    hide Tolerates;
  }

  /** The taint is in the slot of one of the taints that were there when the template was applied. */
  predicate Covered(taint: Taint, taints: seq<Taint>) {
    exists i :: 0 <= i < |taints| &&
      taints[i].effect in {"", taint.effect} && taints[i].key in {"", taint.key}
  }

  lemma ToTolerationsTolerate(taints: seq<Taint>, taint: Taint)
    ensures SomeTolerates(ToTolerations(taints), taint) <==> Covered(taint, taints)
  {
    var ts := ToTolerations(taints);
    forall i | 0 <= i < |taints| ensures Tolerates(ts[i], taint) <==>
        taints[i].effect in {"", taint.effect} && taints[i].key in {"", taint.key}
    {
      assert "Exists" != "Equal" by {
        assert |"Exists"| != |"Equal"|;
      }
    }
    hide Tolerates;
  }
}
