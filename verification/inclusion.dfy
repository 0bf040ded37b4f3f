/** Content inclusion policies (`@JsonInclude(content = ...)`) and the decision they make. */
module Inclusion {
  import opened Values

  datatype Policy = Always | NonNull | NonAbsent | NonEmpty

  /** Whether a map value is written under content policy `p`. */
  predicate ShouldInclude(v: Value, p: Policy)
    ensures p == Always ==> ShouldInclude(v, p)
    // a null is written only under ALWAYS
    ensures v.Null? ==> (ShouldInclude(v, p) <==> p == Always)
    // a non-empty string or an integer passes every policy
    ensures (v.Str? && v.s != "") || v.Int? ==> ShouldInclude(v, p)
    // only NON_EMPTY drops a plain string, and only ""
    ensures v.Str? && p != NonEmpty ==> ShouldInclude(v, p)
    // NON_ABSENT looks one level into a box
    ensures p == NonAbsent && v.Ref? ==> (ShouldInclude(v, p) <==> !v.content.Null?)
    // NON_EMPTY drops exactly what would be written as null or ""
    ensures p == NonEmpty ==>
      (ShouldInclude(v, p) <==> Serialized(v) != JNull && Serialized(v) != JString(""))
  {
    match p
    case Always => true
    case NonNull => !v.Null?
    case NonAbsent => !IsAbsent(v)
    case NonEmpty => !IsEmpty(v)
  }

  /** Position of a policy in the order ALWAYS, NON_NULL, NON_ABSENT, NON_EMPTY. */
  function Strictness(p: Policy): (n: nat) {
    match p
    case Always => 0
    case NonNull => 1
    case NonAbsent => 2
    case NonEmpty => 3
  }

  /** Each policy in the order keeps a subset of what the previous one keeps. */
  lemma StricterPolicyKeepsLess(v: Value, p: Policy, q: Policy)
    requires Strictness(p) <= Strictness(q)
    ensures ShouldInclude(v, q) ==> ShouldInclude(v, p)
  {
    if ShouldInclude(v, q) && q == NonEmpty && v.Ref? {
      assert !IsEmpty(v.content);
    }
  }

  /** ... and strictly so: for each pair of distinct policies some value tells them apart.
      In particular "" is kept by NON_ABSENT and dropped by NON_EMPTY. */
  lemma StricterPolicyKeepsStrictlyLess(p: Policy, q: Policy)
    requires Strictness(p) < Strictness(q)
    ensures exists v :: ShouldInclude(v, p) && !ShouldInclude(v, q)
  {
    var sample :=
      match q
      case NonNull => Null
      case NonAbsent => Ref(Null)
      case _ => Str("");
    assert ShouldInclude(sample, p) && !ShouldInclude(sample, q);
  }
}
