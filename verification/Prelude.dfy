/** Stock datatypes and sequence operations shared by the other modules. */
module Prelude {
  datatype Option<+T> = None | Some(value: T)

  datatype Result<+T, +E> = Ok(value: T) | Err(error: E)

  /** The command line of one `tc` or `iptables` call, without the tool's name. */
  type Args = seq<string>

  /**
    What can go wrong around one call besides the call being refused: it is never executed, or it is
    executed and its success is not reported back. A cancellation during a call is one or the other.
   */
  datatype Fault = NoFault | Lost | Unreported

  function Map<A, B>(f: A -> B, s: seq<A>): (r: seq<B>)
    ensures |r| == |s|
    ensures forall i :: 0 <= i < |s| ==> r[i] == f(s[i])
  {
    seq(|s|, i requires 0 <= i < |s| => f(s[i]))
  }

  /** The multiset of a slice grows by the element that joins it at the end. */
  lemma SliceGrows<T>(s: seq<T>, i: nat, j: nat)
    requires i <= j < |s|
    ensures multiset(s[i..j + 1]) == multiset(s[i..j]) + multiset{s[j]}
  {
    assert s[i..j + 1] == s[i..j] + [s[j]];
  }

  /** The multiset of a slice loses the element that leaves it at the front. */
  lemma SliceShrinks<T>(s: seq<T>, i: nat, j: nat)
    requires i < j <= |s|
    ensures multiset(s[i..j]) == multiset{s[i]} + multiset(s[i + 1..j])
  {
    assert s[i..j] == [s[i]] + s[i + 1..j];
  }
}
