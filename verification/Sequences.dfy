/** What the modules say of sequences in common. */
module Sequences {

  type Byte = b: int | 0 <= b < 256

  predicate NoRepeat(s: seq<nat>) {
    forall i, j :: 0 <= i < j < |s| ==> s[i] != s[j]
  }

  /** The list without the first occurrence of the element. */
  function Minus(s: seq<nat>, x: nat): (r: seq<nat>)
    ensures forall y :: y in r ==> y in s
  {
    if s == [] then [] else if s[0] == x then s[1..] else [s[0]] + Minus(s[1..], x)
  }

  lemma {:induction false} MinusNoRepeat(s: seq<nat>, x: nat)
    requires NoRepeat(s)
    ensures NoRepeat(Minus(s, x)) && forall y :: y in Minus(s, x) <==> y in s && y != x
    ensures |Minus(s, x)| == if x in s then |s| - 1 else |s|
  {
    if s != [] && s[0] != x {
      MinusNoRepeat(s[1..], x);
      var r := Minus(s[1..], x);
      assert s[0] !in s[1..];
      assert forall k :: 0 <= k < |r| ==> r[k] in r;
    }
  }

  lemma Regroup<T>(a: seq<T>, b: seq<T>, c: seq<T>)
    ensures a + b + c == a + (b + c)
  {
  }
}
