/**
  Tying a pool's pods to the pool's nodes: the pool's match expressions are added to every term of the template's
  required node affinity, and the pool's tolerations to the template's. Whether a node meets a requirement is left
  open: `holds` and `holdsField` stand for one node.
 */
module Affinity {
  import opened Common
  import opened NodeAttributes
  import opened Tolerations

  datatype Requirement = Requirement(key: string, operator: string, values: seq<string>)

  datatype Term = Term(expressions: seq<Requirement>, fields: seq<Requirement>)

  /** The preferred terms and the affinity to other pods are not looked at. */
  datatype NodeAffinity = NodeAffinity(required: Option<seq<Term>>, preferred: string)

  datatype PodAffinity = PodAffinity(node: Option<NodeAffinity>, toPods: string)

  // ---------- What a node selector accepts ----------

  predicate AllHold(rs: seq<Requirement>, holds: Requirement -> bool) {
    forall i :: 0 <= i < |rs| ==> holds(rs[i])
  }

  /** The scheduler's rule: requirements are ANDed, and a term without any accepts nothing. */
  predicate TermAccepts(t: Term, holds: Requirement -> bool, holdsField: Requirement -> bool) {
    (t.expressions != [] || t.fields != []) && AllHold(t.expressions, holds) && AllHold(t.fields, holdsField)
  }

  /** Terms are ORed; no selector accepts every node. */
  predicate Accepts(required: Option<seq<Term>>, holds: Requirement -> bool, holdsField: Requirement -> bool) {
    required.None? || exists i :: 0 <= i < |required.value| && TermAccepts(required.value[i], holds, holdsField)
  }

  // ---------- The rewriting ----------

  /** The terms that the expressions are added to: one empty term if there are none. */
  function Terms(required: Option<seq<Term>>): seq<Term> {
    if required.None? || required.value == [] then [Term([], [])] else required.value
  }

  function Extended(terms: seq<Term>, expressions: seq<Requirement>): seq<Term> {
    seq(|terms|, i requires 0 <= i < |terms| => terms[i].(expressions := terms[i].expressions + expressions))
  }

  function Rewritten(required: Option<seq<Term>>, expressions: seq<Requirement>): Option<seq<Term>> {
    Some(Extended(Terms(required), expressions))
  }

  function Attached(affinity: Option<PodAffinity>, expressions: seq<Requirement>): PodAffinity {
    var pod := if affinity.Some? then affinity.value else PodAffinity(None, "");
    var node := if pod.node.Some? then pod.node.value else NodeAffinity(None, "");
    pod.(node := Some(node.(required := Rewritten(node.required, expressions))))
  }

  class PodSpec {
    var affinity: Option<PodAffinity>
    var tolerations: seq<Toleration>

    constructor (affinity: Option<PodAffinity>, tolerations: seq<Toleration>)
      ensures this.affinity == affinity && this.tolerations == tolerations
    {
      this.affinity, this.tolerations := affinity, tolerations;
    }

    method AttachNodeAffinity(expressions: seq<Requirement>)
      modifies this`affinity
      ensures affinity == Some(Attached(old(affinity), expressions))
    {
      if affinity.None? {
        affinity := Some(PodAffinity(None, ""));
      }
      if affinity.value.node.None? {
        affinity := Some(affinity.value.(node := Some(NodeAffinity(None, ""))));
      }
      var node := affinity.value.node.value;
      var terms := if node.required.None? then [] else node.required.value;
      if |terms| == 0 {
        terms := [Term([], [])];
      }
      ghost var first := terms;
      assert forall j :: 0 <= j < |first| ==> first[j].expressions + expressions[..0] == first[j].expressions;
      for k := 0 to |expressions|
        invariant terms == Extended(first, expressions[..k])
      {
        ghost var before := terms;
        for i := 0 to |terms|
          invariant |terms| == |first|
          invariant forall j :: 0 <= j < i ==>
                      terms[j] == first[j].(expressions := first[j].expressions + expressions[..k + 1])
          invariant forall j :: i <= j < |terms| ==> terms[j] == before[j]
        {
          assert first[i].expressions + expressions[..k] + [expressions[k]] ==
                 first[i].expressions + expressions[..k + 1];
          var term := terms[i];
          term := term.(expressions := term.expressions + [expressions[k]]);
          terms := terms[i := term];
        }
      }
      assert expressions[..|expressions|] == expressions;
      affinity := Some(affinity.value.(node := Some(node.(required := Some(terms)))));
    }

    method AttachTolerations(pool: Option<seq<Toleration>>)
      modifies this`tolerations
      ensures tolerations == old(tolerations) + if pool.Some? then pool.value else []
    {
      if pool.None? {
        return;
      }
      for k := 0 to |pool.value|
        invariant tolerations == old(tolerations) + pool.value[..k]
      {
        tolerations := tolerations + [pool.value[k]];
      }
    }
  }

  // ---------- Meaning ----------

  lemma ExtendedTermAccepts(t: Term, expressions: seq<Requirement>, holds: Requirement -> bool,
                            holdsField: Requirement -> bool)
    requires expressions != []
    ensures TermAccepts(t.(expressions := t.expressions + expressions), holds, holdsField) <==>
            && AllHold(expressions, holds)
            && (TermAccepts(t, holds, holdsField) || t == Term([], []))
  {
    var all := t.expressions + expressions;
    forall i | 0 <= i < |t.expressions| ensures all[i] == t.expressions[i] {
    }
    forall i | 0 <= i < |expressions| ensures all[|t.expressions| + i] == expressions[i] {
    }
  }

  ghost predicate HasEmptyTerm(required: Option<seq<Term>>) {
    required.Some? && exists i :: 0 <= i < |required.value| && required.value[i] == Term([], [])
  }

  /**
    What the rewritten selector accepts, for every template, pool and node. With expressions it is the original one and
    the expressions, except that terms accepting nothing come to life. Without any, a template without a required
    affinity gets one that accepts no node.
   */
  lemma RewrittenAcceptsIff(required: Option<seq<Term>>, expressions: seq<Requirement>,
                            holds: Requirement -> bool, holdsField: Requirement -> bool)
    ensures Accepts(Rewritten(required, expressions), holds, holdsField) <==>
            if expressions == [] then required.Some? && Accepts(required, holds, holdsField)
            else
              && AllHold(expressions, holds)
              && (Accepts(required, holds, holdsField) || HasEmptyTerm(required) || required == Some([]))
  {
    var terms := Terms(required);
    var rewritten := Extended(terms, expressions);
    if expressions == [] {
      assert forall i :: 0 <= i < |terms| ==> terms[i].expressions + [] == terms[i].expressions;
      assert rewritten == terms;
    } else {
      forall i | 0 <= i < |terms|
        ensures TermAccepts(rewritten[i], holds, holdsField) <==>
                AllHold(expressions, holds) && (TermAccepts(terms[i], holds, holdsField) || terms[i] == Term([], []))
      {
        ExtendedTermAccepts(terms[i], expressions, holds, holdsField);
      }
      hide TermAccepts, AllHold;
      if required.None? || required.value == [] {
        assert TermAccepts(rewritten[0], holds, holdsField) <==> AllHold(expressions, holds);
      }
    }
  }

  /** The template's own required terms: none if the affinity or its node part is absent. */
  function OwnRequired(affinity: Option<PodAffinity>): Option<seq<Term>> {
    if affinity.Some? && affinity.value.node.Some? then affinity.value.node.value.required else None
  }

  /** Every term of the template keeps what it asks for and asks for the expressions as well; nothing else changes. */
  lemma AttachedTerms(affinity: Option<PodAffinity>, expressions: seq<Requirement>)
    ensures var own, attached := OwnRequired(affinity), Attached(affinity, expressions);
            && attached.node.Some? && attached.node.value.required.Some?
            && var terms := attached.node.value.required.value;
               if own.Some? && own.value != [] then
                 && |terms| == |own.value|
                 && forall i :: 0 <= i < |terms| ==>
                      && terms[i].expressions == own.value[i].expressions + expressions
                      && terms[i].fields == own.value[i].fields
               else |terms| == 1 && terms[0].expressions == expressions && terms[0].fields == []
    ensures var attached := Attached(affinity, expressions);
            && attached.toPods == (if affinity.Some? then affinity.value.toPods else "")
            && (affinity.Some? && affinity.value.node.Some? ==>
                  attached.node.value.preferred == affinity.value.node.value.preferred)
            && (affinity.None? || affinity.value.node.None? ==> attached.node.value.preferred == "")
  {
    if OwnRequired(affinity).None? || OwnRequired(affinity).value == [] {
      assert [] + expressions == expressions;
    }
  }

  /** What the pod's selector accepts after attaching, in terms of what the template asked for. */
  lemma AttachedAcceptsIff(affinity: Option<PodAffinity>, expressions: seq<Requirement>,
                           holds: Requirement -> bool, holdsField: Requirement -> bool)
    ensures var own, attached := OwnRequired(affinity), Attached(affinity, expressions);
            && attached.node.Some?
            && (Accepts(attached.node.value.required, holds, holdsField) <==>
                  if expressions == [] then own.Some? && Accepts(own, holds, holdsField)
                  else
                    && AllHold(expressions, holds)
                    && (Accepts(own, holds, holdsField) || HasEmptyTerm(own) || own == Some([])))
  {
    RewrittenAcceptsIff(OwnRequired(affinity), expressions, holds, holdsField);
    hide Rewritten, Accepts, HasEmptyTerm, AllHold;
  }

  /** Of one node: the rewritten selector accepts it exactly if the original does and the node meets the expressions. */
  predicate ConjoinsAt(required: Option<seq<Term>>, expressions: seq<Requirement>, holds: Requirement -> bool,
                       holdsField: Requirement -> bool)
  {
    Accepts(Rewritten(required, expressions), holds, holdsField) <==>
    Accepts(required, holds, holdsField) && AllHold(expressions, holds)
  }

  /** Of everything that a node could be, whatever requirements it meets. */
  ghost predicate Conjoins(required: Option<seq<Term>>, expressions: seq<Requirement>) {
    forall holds: Requirement -> bool, holdsField: Requirement -> bool ::
      ConjoinsAt(required, expressions, holds, holdsField)
  }

  /**
    For one node, with any reading of requirements: the rewriting goes wrong exactly on a template without a required
    affinity if there are no expressions, and otherwise on a node that meets the expressions and is not accepted by a
    template that has an empty term or an empty list of terms.
   */
  lemma ConjoinsAtIff(required: Option<seq<Term>>, expressions: seq<Requirement>, holds: Requirement -> bool,
                      holdsField: Requirement -> bool)
    ensures ConjoinsAt(required, expressions, holds, holdsField) <==>
            if expressions == [] then required.Some?
            else
              || (!HasEmptyTerm(required) && required != Some([]))
              || !AllHold(expressions, holds)
              || Accepts(required, holds, holdsField)
  {
    RewrittenAcceptsIff(required, expressions, holds, holdsField);
    NoExpressions(required);
    assert required.None? ==> Accepts(required, holds, holdsField);
    hide Rewritten, Accepts, HasEmptyTerm, AllHold;
  }

  /** A term that asks for nothing but some of the given expressions. */
  ghost predicate HasImpliedTerm(required: Option<seq<Term>>, expressions: seq<Requirement>) {
    && required.Some?
    && exists i :: 0 <= i < |required.value| && IsImplied(required.value[i], expressions)
  }

  predicate IsImplied(t: Term, expressions: seq<Requirement>) {
    t.fields == [] && t.expressions != [] && forall j :: 0 <= j < |t.expressions| ==> t.expressions[j] in expressions
  }

  /**
    The rewriting conjoins the pool's expressions for everything that a node could be exactly if: without expressions,
    the template has a required affinity; with expressions, no term is empty and there is a term if the list is given,
    or some term asks for nothing but expressions of the pool. Requirements are not interpreted here: the node that
    shows the other half may be one that no labels can give, as when the expressions contradict each other.
   */
  lemma ConjoinsIff(required: Option<seq<Term>>, expressions: seq<Requirement>)
    ensures Conjoins(required, expressions) <==>
            if expressions == [] then required.Some?
            else (!HasEmptyTerm(required) && required != Some([])) || HasImpliedTerm(required, expressions)
  {
    forall holds: Requirement -> bool, holdsField: Requirement -> bool {
      ConjoinsAtIff(required, expressions, holds, holdsField);
    }
    if HasImpliedTerm(required, expressions) {
      forall holds: Requirement -> bool, holdsField: Requirement -> bool | AllHold(expressions, holds)
        ensures Accepts(required, holds, holdsField)
      {
        ImpliedAccepts(required, expressions, holds, holdsField);
      }
    }
    var holds: Requirement -> bool := r => r in expressions;
    var holdsField: Requirement -> bool := r => false;
    CounterNode(required, expressions, holds, holdsField);
    ConjoinsAtIff(required, expressions, holds, holdsField);
    hide ConjoinsAt, Accepts, HasEmptyTerm, HasImpliedTerm;
    if Conjoins(required, expressions) {
      assert ConjoinsAt(required, expressions, holds, holdsField);
    }
  }

  lemma NoExpressions(required: Option<seq<Term>>)
    ensures forall holds: Requirement -> bool :: AllHold([], holds)
    ensures required.None? ==> forall holds: Requirement -> bool, holdsField: Requirement -> bool ::
                                 Accepts(required, holds, holdsField)
  {
  }

  lemma ImpliedAccepts(required: Option<seq<Term>>, expressions: seq<Requirement>,
                       holds: Requirement -> bool, holdsField: Requirement -> bool)
    requires HasImpliedTerm(required, expressions) && AllHold(expressions, holds)
    ensures Accepts(required, holds, holdsField)
  {
    var i :| 0 <= i < |required.value| && IsImplied(required.value[i], expressions);
    assert TermAccepts(required.value[i], holds, holdsField);
  }

  lemma NothingHolds(rs: seq<Requirement>, holds: Requirement -> bool)
    requires forall r :: !holds(r)
    ensures AllHold(rs, holds) <==> rs == []
  {
    assert rs != [] ==> !holds(rs[0]);
  }

  /** A node that meets exactly the pool's expressions and no field: only an implied term accepts it. */
  lemma CounterNode(required: Option<seq<Term>>, expressions: seq<Requirement>,
                    holds: Requirement -> bool, holdsField: Requirement -> bool)
    requires forall r :: (holds(r) <==> r in expressions) && !holdsField(r)
    ensures AllHold(expressions, holds)
    ensures required.Some? && !HasImpliedTerm(required, expressions) ==> !Accepts(required, holds, holdsField)
  {
    if required.Some? {
      forall i | 0 <= i < |required.value| && TermAccepts(required.value[i], holds, holdsField)
        ensures IsImplied(required.value[i], expressions)
      {
        NothingHolds(required.value[i].fields, holdsField);
      }
    }
  }

  /** Pods get the pool's tolerations on top of their own, and tolerate nothing else. */
  lemma AttachedToleratesIff(own: seq<Toleration>, pool: seq<Toleration>, taints: seq<Taint>)
    ensures TolerateAll(own + pool, taints) <==>
            forall i :: 0 <= i < |taints| ==> SomeTolerates(own, taints[i]) || SomeTolerates(pool, taints[i])
  {
    forall i | 0 <= i < |taints|
      ensures SomeTolerates(own + pool, taints[i]) <==> SomeTolerates(own, taints[i]) || SomeTolerates(pool, taints[i])
    {
      AppendedTolerate(own, pool, taints[i]);
    }
    hide SomeTolerates;
  }
}
