/** The LINQ operators the services call (`First`, `FirstOrDefault`, `Any`,
    `Max`), given by their meaning on the sequence of keys they inspect. */
module Linq {

  /** No key occurs twice. */
  predicate Distinct(keys: seq<int>) {
    forall i, j :: 0 <= i < j < |keys| ==> keys[i] != keys[j]
  }

  /** The position `First(x => x == key)` / `FirstOrDefault` stops at:
      the lowest index holding `key`, or |keys| when no element matches. */
  function FirstIndex(keys: seq<int>, key: int): (k: nat)
    ensures k <= |keys|
    ensures k < |keys| <==> key in keys
    ensures k < |keys| ==> keys[k] == key
    ensures forall j :: 0 <= j < k ==> keys[j] != key
  {
    if keys == [] then 0
    else if keys[0] == key then 0
    else 1 + FirstIndex(keys[1..], key)
  }

  /** `Max` over a non-empty sequence: an element no other element exceeds. */
  function Max(keys: seq<int>): (m: int)
    requires keys != []
    ensures m in keys
    ensures forall x :: x in keys ==> x <= m
  {
    if |keys| == 1 then keys[0]
    else
      var rest := Max(keys[1..]);
      assert keys == [keys[0]] + keys[1..];
      if keys[0] < rest then rest else keys[0]
  }

  /** With distinct keys the first match is the only match, so the lookup
      finds exactly the position that holds the key. */
  lemma FirstIndexOfDistinct(keys: seq<int>, k: nat)
    requires Distinct(keys)
    requires k < |keys|
    ensures FirstIndex(keys, keys[k]) == k
  {
  }
}
