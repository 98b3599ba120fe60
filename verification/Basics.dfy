/** What several components of the model share. */
module Basics {

  datatype Option<T> = None | Some(value: T) {
    function GetOr(default: T): T {
      if Some? then value else default
    }
  }

  /** An element that two permutations have in common can be taken out of both. */
  lemma TakenOut<T>(e: T, rest: seq<T>, left: seq<T>, right: seq<T>)
    requires multiset([e] + rest) == multiset(left + ([e] + right))
    ensures multiset(rest) == multiset(left + right)
  {
    var m := multiset([e]);
    assert multiset([e] + rest) == m + multiset(rest);
    assert multiset([e] + right) == m + multiset(right);
    assert multiset(left + ([e] + right)) == multiset(left) + multiset([e] + right);
    assert multiset(left + right) == multiset(left) + multiset(right);
    assert multiset(rest) == m + multiset(rest) - m;
    assert multiset(left + right) == m + multiset(left + right) - m;
  }
}
