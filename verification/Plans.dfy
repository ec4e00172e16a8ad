/** A plan's estimate of its own risk: the greatest of its steps' risk words, compared as text. */
module Plans {
  /** The dictionary order in which the risk words are compared. */
  predicate AtMost(a: string, b: string) {
    if a == "" then true
    else if b == "" then false
    else if a[0] != b[0] then a[0] < b[0]
    else AtMost(a[1..], b[1..])
  }

  lemma {:induction false} AtMostTotal(a: string, b: string)
    ensures AtMost(a, b) || AtMost(b, a)
    ensures AtMost(a, b) && AtMost(b, a) ==> a == b
  {
    if a != "" && b != "" && a[0] == b[0] {
      AtMostTotal(a[1..], b[1..]);
      assert a == [a[0]] + a[1..] && b == [b[0]] + b[1..];
    }
  }

  lemma {:induction false} AtMostTrans(a: string, b: string, c: string)
    requires AtMost(a, b) && AtMost(b, c)
    ensures AtMost(a, c)
  {
    if a != "" && b != "" && c != "" && a[0] == b[0] == c[0] {
      AtMostTrans(a[1..], b[1..], c[1..]);
    }
  }

  /** `m` is the greatest of the words. */
  ghost predicate Greatest(words: seq<string>, m: string) {
    m in words && forall w :: w in words ==> AtMost(w, m)
  }

  predicate AsksApproval(word: string) {
    word == "high" || word == "critical"
  }

  class Plan {
    var steps: seq<string>
    var estimatedRisk: string
    var requiresApproval: bool

    /** The estimate is the greatest risk word of the steps, "low" without any. */
    ghost predicate Valid()
      reads this
    {
      if steps == [] then estimatedRisk == "low" && !requiresApproval
      else Greatest(steps, estimatedRisk) && (requiresApproval <==> AsksApproval(estimatedRisk))
    }

    constructor ()
      ensures Valid() && steps == []
    {
      steps, estimatedRisk, requiresApproval := [], "low", false;
    }

    method AddStep(risk: string)
      requires Valid()
      modifies this
      ensures Valid() && steps == old(steps) + [risk]
    {
      steps := steps + [risk];
      RecalculateRisk();
    }

    method RecalculateRisk()
      modifies this`estimatedRisk, this`requiresApproval
      ensures steps != [] ==> Valid()
      ensures steps == [] ==> estimatedRisk == old(estimatedRisk) && requiresApproval == old(requiresApproval)
    {
      if steps == [] { return; }
      var max := steps[0];
      AtMostTotal(max, max);
      for i := 1 to |steps|
        invariant max in steps[..i] && forall w :: w in steps[..i] ==> AtMost(w, max)
      {
        assert steps[..i + 1] == steps[..i] + [steps[i]];
        AtMostTotal(steps[i], max);
        AtMostTotal(steps[i], steps[i]);
        if AtMost(max, steps[i]) {
          forall w | w in steps[..i] ensures AtMost(w, steps[i]) { AtMostTrans(w, max, steps[i]); }
          max := steps[i];
        }
      }
      assert steps[..|steps|] == steps;
      estimatedRisk := max;
      requiresApproval := AsksApproval(max);
    }
  }

  const WORDS := {"low", "medium", "high", "critical"}

  lemma WordOrder()
    ensures AtMost("critical", "high") && AtMost("high", "low") && AtMost("low", "medium")
    ensures AtMost("critical", "low") && AtMost("critical", "medium") && AtMost("high", "medium")
    ensures forall a :: a in WORDS ==> AtMost(a, a)
  {
    forall a | a in WORDS ensures AtMost(a, a) { AtMostTotal(a, a); }
  }

  /**
   One risky step ought to be enough. As text "critical" and "high" come before "low" and
   "medium", so a plan asks for approval exactly when every one of its steps is risky.
   */
  lemma AsksApprovalIff(words: seq<string>, m: string)
    requires Greatest(words, m) && forall w :: w in words ==> w in WORDS
    ensures AsksApproval(m) <==> forall w :: w in words ==> w == "high" || w == "critical"
  {
    WordOrder();
    if AsksApproval(m) {
      forall w | w in words ensures w == "high" || w == "critical" {
        AtMostTotal(w, m);
        AtMostTotal("low", m);
        AtMostTotal("medium", m);
      }
    }
  }

  /** So it asks when it ought to exactly for plans whose steps are all risky, or none of them. */
  lemma AsksWhenItOughtIff(words: seq<string>, m: string)
    requires Greatest(words, m) && forall w :: w in words ==> w in WORDS
    ensures (AsksApproval(m) <==> "high" in words || "critical" in words) <==>
              (forall w :: w in words ==> w == "high" || w == "critical") || (forall w :: w in words ==> w == "low" || w == "medium")
  {
    AsksApprovalIff(words, m);
  }

  /** A critical step followed by a harmless one asks for nothing. */
  lemma CriticalStepUnasked()
    ensures Greatest(["critical", "low"], "low") && !AsksApproval("low") && AsksApproval("critical")
  {
    WordOrder();
  }
}
