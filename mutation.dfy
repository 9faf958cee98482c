/** Mutant generation: for each connected pair, the constraint rewrites its
    two constraints call for, each with the question a domain expert is asked
    about it and the answers that confirm the original model. */
module Mutation {
  import opened Strings
  import opened Nodes
  import opened Pairs

  datatype Question = Question(question: string, mutation: string, answer: seq<string>)

  /** A mutant together with the question asked about it. */
  datatype Mutation = Mutation(mutant: Pair, question: Question)

  const Yes: seq<string> := ["yes", "y"]
  const No: seq<string> := ["no", "n"]

  /** The two records agree on everything but the two constraints. */
  predicate SameExceptConstraints(m: Pair, p: Pair)
  {
    m.parentContext == p.parentContext && m.childrenContext == p.childrenContext
    && m.parentFeature == p.parentFeature && m.childrenFeature == p.childrenFeature
  }

  /** `modifyConstraint`: a copy of the pair with both constraints replaced. */
  function ModifyConstraint(consContext: string, consFeature: string, p: Pair): (m: Pair)
    ensures SameExceptConstraints(m, p)
    ensures m.constraintContext == consContext && m.constraintFeature == consFeature
  {
    p.(constraintContext := consContext, constraintFeature := consFeature)
  }

  // The seven rules, in the order they are tried. Each guard compares the
  // constraints verbatim, so a constraint written in another case than
  // "Alternative", "Or", "Optional", "Mandatory" matches no rule.

  function AltAlt(p: Pair, chc: string, chf: string): seq<Mutation>
  {
    if p.constraintContext == Alternative && p.constraintFeature == Alternative then
      [Mutation(ModifyConstraint(Or, Or, p),
                Question("Is it possible for " + chc + " contexts and for " + chf + " features to be activated simultaneously?",
                         "Modify the constraints of " + p.parentContext + " context and " + p.parentFeature + " feature from Alternatives to Or constraints",
                         Yes))]
    else []
  }

  function AltOr(p: Pair, chc: string, chf: string): seq<Mutation>
  {
    if p.constraintContext == Alternative && p.constraintFeature == Or then
      [Mutation(ModifyConstraint(Or, Or, p),
                Question("Is it possible for " + chc + " contexts to be activated simultaneously?",
                         "Modify the constraint of " + p.parentContext + " context from Alternative to Or constraint",
                         Yes)),
       Mutation(ModifyConstraint(Alternative, Alternative, p),
                Question("Is it possible for " + chf + " features to be activated simultaneously?",
                         "Modify the constraint of " + p.parentFeature + " feature from Or to Alternative constraint",
                         No))]
    else []
  }

  function OrAlt(p: Pair, chc: string, chf: string): seq<Mutation>
  {
    if p.constraintContext == Or && p.constraintFeature == Alternative then
      [Mutation(ModifyConstraint(Alternative, Alternative, p),
                Question("Is it possible for " + chc + " contexts to be activated simultaneously?",
                         "Modify the constraint of " + p.parentContext + " context from Or to Alternative constraint",
                         No)),
       Mutation(ModifyConstraint(Or, Or, p),
                Question("Is it possible for " + chf + " features to be activated simultaneously?",
                         "Modify the constraint of " + p.parentFeature + " feature from Alternative to Or constraint",
                         Yes))]
    else []
  }

  function OrOr(p: Pair, chc: string, chf: string): seq<Mutation>
  {
    if p.constraintContext == Or && p.constraintFeature == Or then
      [Mutation(ModifyConstraint(Alternative, Alternative, p),
                Question("Is it possible for " + chc + " contexts and for " + chf + " features to be activated simultaneously?",
                         "Modify the constraints of " + p.parentContext + " context and " + p.parentFeature + " feature from Or to Alternative constraints",
                         No)),
       Mutation(ModifyConstraint(Optional, Optional, p),
                Question("Is it possible for " + chc + " contexts and for " + chf + " features to be deactivated simultaneously?",
                         "Modify the constraints of " + p.parentContext + " context and " + p.parentFeature + " feature from Or to Optional constraints",
                         Yes))]
    else []
  }

  function AltSingle(p: Pair, chc: string): seq<Mutation>
  {
    if p.constraintContext == Alternative && (p.constraintFeature == Optional || p.constraintFeature == Mandatory) then
      [Mutation(ModifyConstraint(Or, p.constraintFeature, p),
                Question("Is it possible for " + chc + " contexts to be activated simultaneously?",
                         "Modify the constraint of " + p.parentContext + " context from Alternative to Or constraint",
                         Yes))]
    else []
  }

  function OrSingle(p: Pair, chc: string): seq<Mutation>
  {
    if p.constraintContext == Or && (p.constraintFeature == Optional || p.constraintFeature == Mandatory) then
      [Mutation(ModifyConstraint(Alternative, p.constraintFeature, p),
                Question("Is it possible for " + chc + " contexts to be activated simultaneously?",
                         "Modify the constraint of " + p.parentContext + " context from Or to Alternative constraint",
                         No)),
       Mutation(ModifyConstraint(Optional, p.constraintFeature, p),
                Question("Is it possible for " + chc + " contexts to be deactivated simultaneously?",
                         "Modify the constraint of " + p.parentContext + " context from Or to Optional constraint",
                         Yes))]
    else []
  }

  function ManOpt(p: Pair): seq<Mutation>
  {
    if p.constraintContext == Mandatory && p.constraintFeature == Optional then
      [Mutation(ModifyConstraint(Optional, Optional, p),
                Question("Do " + p.parentContext + " context(s) have to be activated in any configuration?",
                         "Modify the constraint of " + p.parentContext + " context from Mandatory to Optional constraint",
                         No))]
    else []
  }

  /** Everything one pass of the generator's loop appends for a pair, in order.
      Children lists are shown joined with ','. */
  function Mutations(p: Pair): seq<Mutation>
  {
    var chc := Join(p.childrenContext, ",");
    var chf := Join(p.childrenFeature, ",");
    AltAlt(p, chc, chf) + AltOr(p, chc, chf) + OrAlt(p, chc, chf) + OrOr(p, chc, chf)
    + AltSingle(p, chc) + OrSingle(p, chc) + ManOpt(p)
  }

  /** A constraint rewrite and the answers that confirm the original model. */
  datatype Change = Change(context: string, feature: string, answer: seq<string>)

  /** The rewrites a pair with constraints c and f receives, written as a
      table with the constraint each rewrite leaves alone kept at its old
      value: Alternative relaxes to Or, Or tightens to Alternative or
      relaxes to Optional, Mandatory relaxes to Optional; pairs of any other
      combination receive none. */
  function Plan(c: string, f: string): seq<Change>
  {
    if c == Alternative && f == Alternative then [Change(Or, Or, Yes)]
    else if c == Alternative && f == Or then [Change(Or, f, Yes), Change(c, Alternative, No)]
    else if c == Or && f == Alternative then [Change(Alternative, f, No), Change(c, Or, Yes)]
    else if c == Or && f == Or then [Change(Alternative, Alternative, No), Change(Optional, Optional, Yes)]
    else if c == Alternative && (f == Optional || f == Mandatory) then [Change(Or, f, Yes)]
    else if c == Or && (f == Optional || f == Mandatory) then [Change(Alternative, f, No), Change(Optional, f, Yes)]
    else if c == Mandatory && f == Optional then [Change(Optional, f, No)]
    else []
  }

  /** What a list of mutations does to the pair: each mutant with the
      answers that confirm the original model. */
  function Effects(ms: seq<Mutation>): (r: seq<(Pair, seq<string>)>)
    ensures |r| == |ms| && forall k :: 0 <= k < |ms| ==> r[k] == (ms[k].mutant, ms[k].question.answer)
  {
    seq(|ms|, k requires 0 <= k < |ms| => (ms[k].mutant, ms[k].question.answer))
  }

  /** What a table of changes does to the pair. */
  function Applied(plan: seq<Change>, p: Pair): (r: seq<(Pair, seq<string>)>)
    ensures |r| == |plan| && forall k :: 0 <= k < |plan| ==>
      r[k] == (ModifyConstraint(plan[k].context, plan[k].feature, p), plan[k].answer)
  {
    seq(|plan|, k requires 0 <= k < |plan| => (ModifyConstraint(plan[k].context, plan[k].feature, p), plan[k].answer))
  }

  lemma KindsDiffer()
    ensures Alternative != Or && Alternative != Optional && Alternative != Mandatory
    ensures Or != Optional && Or != Mandatory && Optional != Mandatory
  {
    assert Alternative[0] != Or[1] && |Or| == 2;
    assert Alternative[0] != Optional[0] && Alternative[0] != Mandatory[0];
    assert Or[1] != Optional[1] && Or[0] != Mandatory[0] && Optional[0] != Mandatory[0];
  }

  // The table, one constraint combination at a time: the one rule whose
  // guard holds produces exactly the table's changes.

  lemma FollowAltAlt(p: Pair)
    requires p.constraintContext == Alternative && p.constraintFeature == Alternative
    ensures Effects(Mutations(p)) == Applied(Plan(p.constraintContext, p.constraintFeature), p)
  {
    var chc, chf := Join(p.childrenContext, ","), Join(p.childrenFeature, ",");
    KindsDiffer();
    assert Mutations(p) == AltAlt(p, chc, chf);
  }

  lemma FollowAltOr(p: Pair)
    requires p.constraintContext == Alternative && p.constraintFeature == Or
    ensures Effects(Mutations(p)) == Applied(Plan(p.constraintContext, p.constraintFeature), p)
  {
    var chc, chf := Join(p.childrenContext, ","), Join(p.childrenFeature, ",");
    KindsDiffer();
    assert Mutations(p) == AltOr(p, chc, chf);
  }

  lemma FollowAltSingle(p: Pair)
    requires p.constraintContext == Alternative && (p.constraintFeature == Optional || p.constraintFeature == Mandatory)
    ensures Effects(Mutations(p)) == Applied(Plan(p.constraintContext, p.constraintFeature), p)
  {
    var chc, chf := Join(p.childrenContext, ","), Join(p.childrenFeature, ",");
    KindsDiffer();
    assert Mutations(p) == AltSingle(p, chc);
  }

  lemma FollowOrAlt(p: Pair)
    requires p.constraintContext == Or && p.constraintFeature == Alternative
    ensures Effects(Mutations(p)) == Applied(Plan(p.constraintContext, p.constraintFeature), p)
  {
    var chc, chf := Join(p.childrenContext, ","), Join(p.childrenFeature, ",");
    KindsDiffer();
    assert Mutations(p) == OrAlt(p, chc, chf);
  }

  lemma FollowOrOr(p: Pair)
    requires p.constraintContext == Or && p.constraintFeature == Or
    ensures Effects(Mutations(p)) == Applied(Plan(p.constraintContext, p.constraintFeature), p)
  {
    var chc, chf := Join(p.childrenContext, ","), Join(p.childrenFeature, ",");
    KindsDiffer();
    assert Mutations(p) == OrOr(p, chc, chf);
  }

  lemma FollowOrSingle(p: Pair)
    requires p.constraintContext == Or && (p.constraintFeature == Optional || p.constraintFeature == Mandatory)
    ensures Effects(Mutations(p)) == Applied(Plan(p.constraintContext, p.constraintFeature), p)
  {
    var chc, chf := Join(p.childrenContext, ","), Join(p.childrenFeature, ",");
    KindsDiffer();
    assert Mutations(p) == OrSingle(p, chc);
  }

  /** The table for a pair whose context constraint is Alternative. */
  lemma FollowPlanAlternative(p: Pair)
    requires p.constraintContext == Alternative
    ensures Effects(Mutations(p)) == Applied(Plan(p.constraintContext, p.constraintFeature), p)
  {
    var f := p.constraintFeature;
    if f == Alternative {
      FollowAltAlt(p);
    } else if f == Or {
      FollowAltOr(p);
    } else if f == Optional || f == Mandatory {
      FollowAltSingle(p);
    } else {
      KindsDiffer();
      assert Mutations(p) == [];
    }
  }

  /** The table for a pair whose context constraint is Or. */
  lemma FollowPlanOr(p: Pair)
    requires p.constraintContext == Or
    ensures Effects(Mutations(p)) == Applied(Plan(p.constraintContext, p.constraintFeature), p)
  {
    var f := p.constraintFeature;
    if f == Alternative {
      FollowOrAlt(p);
    } else if f == Or {
      FollowOrOr(p);
    } else if f == Optional || f == Mandatory {
      FollowOrSingle(p);
    } else {
      KindsDiffer();
      assert Mutations(p) == [];
    }
  }

  /** The generator applies exactly the table: the rules' guards exclude one
      another, so at most one fires, and the constraint that a rule
      overwrites without naming it in its mutation is overwritten with the
      value it already had. */
  lemma MutationsFollowPlan(p: Pair)
    ensures Effects(Mutations(p)) == Applied(Plan(p.constraintContext, p.constraintFeature), p)
  {
    var c := p.constraintContext;
    if c == Alternative {
      FollowPlanAlternative(p);
    } else if c == Or {
      FollowPlanOr(p);
    } else {
      KindsDiffer();
      if c == Mandatory && p.constraintFeature == Optional {
        assert Mutations(p) == ManOpt(p);
      } else {
        assert Mutations(p) == [];
      }
    }
  }

  /** The rules' guards exclude one another, so a pair gets at most two
      mutations. */
  lemma MutationsAtMostTwo(p: Pair)
    ensures |Mutations(p)| <= 2
  {
    var plan := Plan(p.constraintContext, p.constraintFeature);
    MutationsFollowPlan(p);
    PlanChanges(p.constraintContext, p.constraintFeature);
    assert |Mutations(p)| == |Effects(Mutations(p))| == |Applied(plan, p)| == |plan|;
  }

  /** Every change in the table rewrites at least one of the two constraints. */
  lemma PlanChanges(c: string, f: string)
    ensures forall k :: 0 <= k < |Plan(c, f)| ==> Plan(c, f)[k].context != c || Plan(c, f)[k].feature != f
    ensures |Plan(c, f)| <= 2
    ensures forall k :: 0 <= k < |Plan(c, f)| ==> Plan(c, f)[k].answer == Yes || Plan(c, f)[k].answer == No
  {
    KindsDiffer();
  }

  /** Every mutant differs from its pair, and only in its constraints. */
  lemma MutantsDiffer(p: Pair)
    ensures forall k :: 0 <= k < |Mutations(p)| ==>
      SameExceptConstraints(Mutations(p)[k].mutant, p) && Mutations(p)[k].mutant != p
  {
    MutationsFollowPlan(p);
    PlanChanges(p.constraintContext, p.constraintFeature);
    var ms := Mutations(p);
    var plan := Plan(p.constraintContext, p.constraintFeature);
    forall k | 0 <= k < |ms|
      ensures SameExceptConstraints(ms[k].mutant, p) && ms[k].mutant != p
    {
      assert Effects(ms)[k] == Applied(plan, p)[k];
      assert ms[k].mutant == ModifyConstraint(plan[k].context, plan[k].feature, p);
    }
  }

  /** The mutants and questions for all pairs in order. */
  function AllMutations(ps: seq<Pair>): seq<Mutation>
  {
    if ps == [] then [] else AllMutations(ps[..|ps| - 1]) + Mutations(ps[|ps| - 1])
  }

  function Mutants(ms: seq<Mutation>): (r: seq<Pair>)
    ensures |r| == |ms| && forall k :: 0 <= k < |ms| ==> r[k] == ms[k].mutant
  {
    seq(|ms|, k requires 0 <= k < |ms| => ms[k].mutant)
  }

  function Questions(ms: seq<Mutation>): (r: seq<Question>)
    ensures |r| == |ms| && forall k :: 0 <= k < |ms| ==> r[k] == ms[k].question
  {
    seq(|ms|, k requires 0 <= k < |ms| => ms[k].question)
  }

  /** One more pair's mutations follow those of the pairs before it. */
  lemma AllMutationsStep(ps: seq<Pair>, i: nat)
    requires i < |ps|
    ensures AllMutations(ps[..i + 1]) == AllMutations(ps[..i]) + Mutations(ps[i])
  {
    assert ps[..i + 1][..i] == ps[..i];
  }

  /** m is a mutant of p: a different record that rewrites only constraints. */
  predicate MutantOf(m: Pair, p: Pair)
  {
    SameExceptConstraints(m, p) && m != p
  }

  /** m is a mutant of one of the pairs ps. */
  ghost predicate MutantOfSome(m: Pair, ps: seq<Pair>)
  {
    exists i :: 0 <= i < |ps| && MutantOf(m, ps[i])
  }

  /** Mutants of the pairs ps followed by mutants of p are mutants of ps + [p]. */
  lemma {:induction false} FromPairsAppend(before: seq<Mutation>, more: seq<Mutation>, ps: seq<Pair>, p: Pair)
    requires forall k :: 0 <= k < |before| ==> MutantOfSome(before[k].mutant, ps)
    requires forall k :: 0 <= k < |more| ==> MutantOf(more[k].mutant, p)
    ensures forall k :: 0 <= k < |before + more| ==> MutantOfSome((before + more)[k].mutant, ps + [p])
  {
    var all, qs := before + more, ps + [p];
    forall k | 0 <= k < |all|
      ensures MutantOfSome(all[k].mutant, qs)
    {
      if k < |before| {
        var i :| 0 <= i < |ps| && MutantOf(before[k].mutant, ps[i]);
        assert all[k] == before[k] && qs[i] == ps[i];
      } else {
        assert all[k] == more[k - |before|] && qs[|ps|] == p;
      }
    }
  }

  /** Each generated mutant comes from one of the pairs, rewrites only its
      constraints and differs from it. */
  lemma {:induction false} AllMutantsFromPairs(ps: seq<Pair>)
    ensures forall k :: 0 <= k < |AllMutations(ps)| ==> MutantOfSome(AllMutations(ps)[k].mutant, ps)
  {
    if ps != [] {
      var front := ps[..|ps| - 1];
      AllMutantsFromPairs(front);
      MutantsDiffer(ps[|ps| - 1]);
      FromPairsAppend(AllMutations(front), Mutations(ps[|ps| - 1]), front, ps[|ps| - 1]);
      assert ps == front + [ps[|ps| - 1]];
    }
  }
}
