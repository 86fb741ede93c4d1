/**
 * The three rules by which a member-kind configuration combines the checks and
 * resolvers registered for one attribute into one answer for a given member:
 *
 *  - any-match, for the boolean gates `shouldIgnore` and `isRequired`;
 *  - the nullable policy, for `isNullable`: gather the non-null answers into a
 *    set, answer null when the set is empty and otherwise whether it holds true;
 *  - first-defined, for the single-valued overrides (target type, property name).
 *
 * A check or resolver is a total function value; Java's `null` is `None`.
 */
module AttributeResolution {
  import opened Wrappers

  // ---------------------------------------------------------------------------
  // Any-match: `checks.stream().anyMatch(check -> check.test(member))`
  // ---------------------------------------------------------------------------

  /** True iff at least one registered check holds for `member`; false for no checks. */
  function AnyMatch<M>(checks: seq<M -> bool>, member: M): (r: bool)
    ensures r <==> exists i :: 0 <= i < |checks| && checks[i](member)
  {
    if checks == [] then false
    else if checks[0](member) then true
    else
      var rest := AnyMatch(checks[1..], member);
      assert forall i :: 1 <= i < |checks| ==> checks[i] == checks[1..][i - 1];
      rest
  }

  /** Registering one more check at the end adds exactly that check's answer. */
  lemma {:induction false} AnyMatchAppend<M>(checks: seq<M -> bool>, check: M -> bool, member: M)
    ensures AnyMatch(checks + [check], member) == (AnyMatch(checks, member) || check(member))
  {
    var extended := checks + [check];
    assert extended[|checks|] == check;
    assert forall i :: 0 <= i < |checks| ==> extended[i] == checks[i];
  }

  /** Every check of `a` is registered somewhere in `b`. */
  ghost predicate AllRegisteredIn<F>(a: seq<F>, b: seq<F>)
  {
    forall i :: 0 <= i < |a| ==> a[i] in b
  }

  /** Permutations of one list register the same checks. */
  lemma PermutationRegistersSame<F>(a: seq<F>, b: seq<F>)
    requires multiset(a) == multiset(b)
    ensures AllRegisteredIn(a, b) && AllRegisteredIn(b, a)
  {
    forall i | 0 <= i < |a| ensures a[i] in b {
      assert a[i] in multiset(a);
    }
    forall i | 0 <= i < |b| ensures b[i] in a {
      assert b[i] in multiset(b);
    }
  }

  /** A check that holds in `a` is registered in `b` too, so it holds there. */
  lemma AnyMatchSubsumed<M>(a: seq<M -> bool>, b: seq<M -> bool>, member: M)
    requires AllRegisteredIn(a, b)
    ensures AnyMatch(a, member) ==> AnyMatch(b, member)
  {
  }

  /** The answer does not depend on the order in which the checks were registered. */
  lemma AnyMatchOrderIndependent<M>(a: seq<M -> bool>, b: seq<M -> bool>, member: M)
    requires multiset(a) == multiset(b)
    ensures AnyMatch(a, member) == AnyMatch(b, member)
  {
    PermutationRegistersSame(a, b);
    AnyMatchSubsumed(a, b, member);
    AnyMatchSubsumed(b, a, member);
  }

  // ---------------------------------------------------------------------------
  // Nullable policy:
  //   result = checks.map(apply).filter(nonNull).toSet();
  //   result.isEmpty() ? null : result.anyMatch(value -> value)
  // ---------------------------------------------------------------------------

  /** The set of non-null answers the checks give for `member`. */
  function NonNullAnswers<M>(checks: seq<M -> Option<bool>>, member: M): (answers: set<bool>)
    ensures forall b :: b in answers <==> exists i :: 0 <= i < |checks| && checks[i](member) == Some(b)
  {
    set i | 0 <= i < |checks| && checks[i](member).Some? :: checks[i](member).value
  }

  /** The three-valued nullable answer: absent, nullable, or not nullable. */
  function NullablePolicy<M>(checks: seq<M -> Option<bool>>, member: M): (r: Option<bool>)
    ensures r.None? <==> forall i :: 0 <= i < |checks| ==> checks[i](member).None?
    ensures r == Some(true) <==> exists i :: 0 <= i < |checks| && checks[i](member) == Some(true)
    ensures r == Some(false) <==>
              (exists i :: 0 <= i < |checks| && checks[i](member) == Some(false)) &&
              (forall i :: 0 <= i < |checks| ==> checks[i](member) != Some(true))
  {
    var answers := NonNullAnswers(checks, member);
    if answers == {} then None
    else
      var anyTrue := exists value | value in answers :: value;
      assert anyTrue <==> true in answers;
      BoolSetMembers(answers);
      Some(anyTrue)
  }

  /** A non-empty set of booleans holds true or false. */
  lemma BoolSetMembers(s: set<bool>)
    requires s != {}
    ensures true in s || false in s
  {
    if true !in s && false !in s {
      assert forall b: bool :: b !in s;
      assert false;
    }
  }

  /** The position of a partial nullable answer in the order None < Some(false) < Some(true). */
  function NullableRank(x: Option<bool>): nat
  {
    match x
    case None => 0
    case Some(false) => 1
    case Some(true) => 2
  }

  /**
   * How two partial nullable answers combine: "nullable" beats "not nullable",
   * which beats "no answer". The result is the larger of the two answers in the
   * order None < Some(false) < Some(true), that is, their least upper bound.
   */
  function NullableJoin(x: Option<bool>, y: Option<bool>): (r: Option<bool>)
    ensures NullableRank(x) <= NullableRank(r) && NullableRank(y) <= NullableRank(r)
    ensures r == x || r == y
  {
    if x == Some(true) || y == Some(true) then Some(true)
    else if x == Some(false) || y == Some(false) then Some(false)
    else None
  }

  /** An independent definition of the policy: fold the checks' answers with NullableJoin. */
  function NullableFold<M>(checks: seq<M -> Option<bool>>, member: M): (r: Option<bool>)
  {
    if checks == [] then None
    else NullableJoin(checks[0](member), NullableFold(checks[1..], member))
  }

  /** The join is commutative, associative and idempotent, so a fold of it ignores order and repetition. */
  lemma NullableJoinLaws(x: Option<bool>, y: Option<bool>, z: Option<bool>)
    ensures NullableJoin(x, y) == NullableJoin(y, x)
    ensures NullableJoin(NullableJoin(x, y), z) == NullableJoin(x, NullableJoin(y, z))
    ensures NullableJoin(x, x) == x
    ensures NullableJoin(None, x) == x
  {
  }

  /** The policy over two lists of checks is the join of the policy over each. */
  lemma NullablePolicyConcat<M>(a: seq<M -> Option<bool>>, b: seq<M -> Option<bool>>, member: M)
    ensures NullablePolicy(a + b, member) == NullableJoin(NullablePolicy(a, member), NullablePolicy(b, member))
  {
    var ab := a + b;
    assert forall i :: 0 <= i < |a| ==> ab[i] == a[i];
    assert forall i :: 0 <= i < |b| ==> ab[|a| + i] == b[i];
  }

  /** The set-based policy agrees with the fold of NullableJoin over the checks. */
  lemma {:induction false} NullablePolicyIsFold<M>(checks: seq<M -> Option<bool>>, member: M)
    ensures NullablePolicy(checks, member) == NullableFold(checks, member)
  {
    if checks != [] {
      NullablePolicyIsFold(checks[1..], member);
      assert checks == [checks[0]] + checks[1..];
      NullablePolicyConcat([checks[0]], checks[1..], member);
    }
  }

  /** Registering one more nullable check joins its answer into the previous result. */
  lemma NullablePolicyAppend<M>(checks: seq<M -> Option<bool>>, check: M -> Option<bool>, member: M)
    ensures NullablePolicy(checks + [check], member) == NullableJoin(NullablePolicy(checks, member), check(member))
  {
    NullablePolicyConcat(checks, [check], member);
    assert [check][0] == check;
  }

  /** Once some check calls a member nullable, no further registration can undo it. */
  lemma NullableWins<M>(checks: seq<M -> Option<bool>>, more: seq<M -> Option<bool>>, member: M)
    requires NullablePolicy(checks, member) == Some(true)
    ensures NullablePolicy(checks + more, member) == Some(true)
    ensures NullablePolicy(more + checks, member) == Some(true)
  {
    NullablePolicyConcat(checks, more, member);
    NullablePolicyConcat(more, checks, member);
  }

  /** An answer some check of `a` gives is also given by a check of `b`. */
  lemma NullableSubsumed<M>(a: seq<M -> Option<bool>>, b: seq<M -> Option<bool>>, member: M, answer: bool)
    requires AllRegisteredIn(a, b)
    requires exists i :: 0 <= i < |a| && a[i](member) == Some(answer)
    ensures exists j :: 0 <= j < |b| && b[j](member) == Some(answer)
  {
  }

  /** The answer does not depend on the order in which the checks were registered. */
  lemma NullablePolicyOrderIndependent<M>(a: seq<M -> Option<bool>>, b: seq<M -> Option<bool>>, member: M)
    requires multiset(a) == multiset(b)
    ensures NullablePolicy(a, member) == NullablePolicy(b, member)
  {
    PermutationRegistersSame(a, b);
    if exists i :: 0 <= i < |a| && a[i](member) == Some(true) {
      NullableSubsumed(a, b, member, true);
    } else if exists i :: 0 <= i < |b| && b[i](member) == Some(true) {
      NullableSubsumed(b, a, member, true);
    } else if exists i :: 0 <= i < |a| && a[i](member) == Some(false) {
      NullableSubsumed(a, b, member, false);
    } else if exists i :: 0 <= i < |b| && b[i](member) == Some(false) {
      NullableSubsumed(b, a, member, false);
    }
  }

  // ---------------------------------------------------------------------------
  // First defined value, in registration order
  // ---------------------------------------------------------------------------

  /**
   * The value of the earliest-registered resolver that gives a non-null answer
   * for `member`, or null when every resolver answers null.
   */
  function FirstDefinedValue<M, V>(resolvers: seq<M -> Option<V>>, member: M): (r: Option<V>)
    ensures r.None? <==> forall i :: 0 <= i < |resolvers| ==> resolvers[i](member).None?
    ensures r.Some? ==>
              exists k :: 0 <= k < |resolvers| && resolvers[k](member) == r &&
                          forall j :: 0 <= j < k ==> resolvers[j](member).None?
  {
    if resolvers == [] then None
    else if resolvers[0](member).Some? then resolvers[0](member)
    else
      var rest := FirstDefinedValue(resolvers[1..], member);
      assert forall i :: 1 <= i < |resolvers| ==> resolvers[i] == resolvers[1..][i - 1];
      rest
  }

  /** A later registration is consulted only when every earlier one answers null. */
  lemma {:induction false} FirstDefinedAppend<M, V>(resolvers: seq<M -> Option<V>>, resolver: M -> Option<V>, member: M)
    ensures FirstDefinedValue(resolvers + [resolver], member) ==
              if FirstDefinedValue(resolvers, member).Some? then FirstDefinedValue(resolvers, member)
              else resolver(member)
  {
    if resolvers != [] {
      assert (resolvers + [resolver])[1..] == resolvers[1..] + [resolver];
      FirstDefinedAppend(resolvers[1..], resolver, member);
    }
  }
}
