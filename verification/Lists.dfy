/** Singly linked lists, as the sequence of the addresses they run through. */
module Lists {

  /** The address at position i; 0 ends the list. */
  function At(list: seq<nat>, i: nat): nat {
    if i < |list| then list[i] else 0
  }

  ghost predicate Distinct(list: seq<nat>) {
    forall i, j :: 0 <= i < j < |list| ==> list[i] != list[j]
  }

  lemma PushDistinct(list: seq<nat>, a: nat)
    requires Distinct(list) && a !in list
    ensures Distinct([a] + list)
  {}

  lemma PopDistinct(list: seq<nat>)
    requires Distinct(list) && list != []
    ensures Distinct(list[1..]) && list[0] !in list[1..]
  {
    forall x | x in list[1..] ensures x != list[0] {
      var i :| 0 <= i < |list| - 1 && list[1..][i] == x;
      assert list[i + 1] == x;
    }
  }
}
