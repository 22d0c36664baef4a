/** `_.uniqueId`: a counter kept on the `_` object itself. */
module Utility {
  import opened Js

  /** The id handed out when the counter reaches `n`: `prefix + n` as a
      string when the prefix is non-empty, the number `n` otherwise. */
  function Id(prefix: string, n: nat): Value {
    if prefix != "" then Str(prefix + IndexString(n)) else Num(n)
  }

  /** Ids handed out at different counter values differ. */
  lemma IdsDistinct(prefix: string, m: nat, n: nat)
    requires m != n
    ensures Id(prefix, m) != Id(prefix, n)
  {
    if prefix != "" && Id(prefix, m) == Id(prefix, n) {
      assert (prefix + IndexString(m))[|prefix|..] == IndexString(m);
      assert (prefix + IndexString(n))[|prefix|..] == IndexString(n);
      IndexStringInjective(m, n);
    }
  }

  /** The library object `_`, as far as it holds state. */
  class Underscore {
    /** `_._idCounter`; 0 while the property is still undefined. */
    var idCounter: nat

    constructor ()
      ensures idCounter == 0
    {
      idCounter := 0;
    }

    /** `_.uniqueId(prefix)`: add one to the counter, which starts from zero
        when unset, and return the new value, prefixed when a prefix is given. */
    method UniqueId(prefix: string) returns (id: Value)
      modifies this
      ensures idCounter == old(idCounter) + 1
      ensures id == Id(prefix, idCounter)
    {
      idCounter := idCounter + 1;
      id := Id(prefix, idCounter);
    }
  }

  /** Two calls in a row never return the same id. */
  method TwoIdsDiffer(u: Underscore, prefix: string) returns (first: Value, second: Value)
    modifies u
    ensures first != second
  {
    first := u.UniqueId(prefix);
    second := u.UniqueId(prefix);
    IdsDistinct(prefix, u.idCounter - 1, u.idCounter);
  }
}
