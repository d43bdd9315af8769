/** Small helpers shared by the roster and the history store. */
module Common {

  datatype Option<+T> = None | Some(value: T)

  /** A one-element splice at a non-negative index: removes the element at
      `index` when there is one and leaves `s` alone otherwise. */
  function RemoveAt<T>(s: seq<T>, index: nat): (r: seq<T>)
    ensures index < |s| ==> |r| == |s| - 1
    ensures index < |s| ==> forall j :: 0 <= j < index ==> r[j] == s[j]
    ensures index < |s| ==> forall j :: index <= j < |r| ==> r[j] == s[j + 1]
    ensures index >= |s| ==> r == s
  {
    if index < |s| then s[..index] + s[index + 1..] else s
  }

  lemma RemoveAtMultiset<T>(s: seq<T>, index: nat)
    requires index < |s|
    ensures multiset(RemoveAt(s, index)) == multiset(s) - multiset{s[index]}
  {
    assert s == s[..index] + [s[index]] + s[index + 1..];
    calc {
      multiset(s);
      multiset(s[..index]) + multiset{s[index]} + multiset(s[index + 1..]);
      multiset(RemoveAt(s, index)) + multiset{s[index]};
    }
  }
}
