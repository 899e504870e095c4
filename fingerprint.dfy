/**
 * The fingerprint generator `token(seed, hash)`: it digests the seed, the
 * current time and fresh entropy, so its output cannot be predicted. The
 * model keeps only what callers rely on: every value it hands out is a
 * non-empty string that it has never handed out before. The set of values
 * issued so far stands for the ambient clock and entropy source.
 */
module Fingerprint {
  import opened AuthTypes

  /** An upper bound on the lengths of the strings in `s`. */
  ghost function MaxLength(s: set<string>): (m: nat)
    ensures forall x :: x in s ==> |x| <= m
    decreases s
  {
    if s == {} then 0
    else
      var x :| x in s;
      var rest := MaxLength(s - {x});
      if |x| > rest then |x| else rest
  }

  /** However many values were issued, a non-empty unused one remains. */
  lemma FreshValueExists(issued: set<string>)
    ensures exists t :: t != "" && t !in issued
  {
    var t := seq(MaxLength(issued) + 1, _ => 'f');
    assert |t| > MaxLength(issued);
    assert t != "" && t !in issued;
  }

  class Generator {
    /** Every value this generator has returned. */
    var issued: set<string>

    ghost predicate Valid()
      reads this
    {
      "" !in issued
    }

    constructor ()
      ensures Valid() && issued == {}
    {
      issued := {};
    }

    /**
     * `token(seed, hash)`. The result depends on `seed` and `hash` only
     * through the digest, which the model abstracts; what it keeps is that
     * the result differs from every earlier result.
     */
    method Generate(seed: string, hash: Hash) returns (t: string)
      requires Valid()
      modifies this
      ensures Valid()
      ensures t != "" && t !in old(issued)
      ensures issued == old(issued) + {t}
    {
      FreshValueExists(issued);
      t :| t != "" && t !in issued;
      issued := issued + {t};
    }
  }
}
