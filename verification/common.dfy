/** Sequence helpers shared by the SDK installer model: an optional value,
    duplicate-freedom (what a directory listing guarantees) and Python's
    `list.index`. */
module Common {

  datatype Option<+T> = None | Some(value: T)

  /** No element occurs twice, as in the names returned by one directory listing. */
  predicate NoDuplicates<T(==)>(s: seq<T>) {
    forall i, j :: 0 <= i < j < |s| ==> s[i] != s[j]
  }

  /** Python's `list.index(x)`: the position of the first occurrence of `x`.
      The source calls it only with an element that is present (otherwise
      Python raises), hence the precondition. */
  function IndexOf<T(==)>(s: seq<T>, x: T): (i: nat)
    requires x in s
    ensures i < |s| && s[i] == x
    ensures forall k :: 0 <= k < i ==> s[k] != x
  {
    if s[0] == x then 0 else 1 + IndexOf(s[1..], x)
  }

  /** A position holding `x` with no earlier `x` is the one `list.index` finds. */
  lemma IndexOfUnique<T>(s: seq<T>, x: T, i: nat)
    requires i < |s| && s[i] == x
    requires forall k :: 0 <= k < i ==> s[k] != x
    ensures IndexOf(s, x) == i
  {
  }

  /** Appending does not move the first occurrence of an element already present. */
  lemma IndexOfAppend<T>(s: seq<T>, y: T, x: T)
    requires x in s
    ensures x in s + [y] && IndexOf(s + [y], x) == IndexOf(s, x)
  {
    IndexOfUnique(s + [y], x, IndexOf(s, x));
  }
}
