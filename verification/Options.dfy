/** The value-or-nothing type used wherever the C sources use a nullable pointer or an optional result. */
module Options {

  datatype Option<+T> = None | Some(value: T)
}

/** Sequences without repetitions, as kept by the in-flight list and the device list. */
module Sequences {

  ghost predicate Distinct<T>(s: seq<T>) {
    forall i, j :: 0 <= i < j < |s| ==> s[i] != s[j]
  }

  /** The position of x in s. */
  function IndexOf<T(==)>(s: seq<T>, x: T): (k: nat)
    requires x in s
    ensures k < |s| && s[k] == x
    ensures x !in s[..k]
  {
    if s[0] == x then 0 else 1 + IndexOf(s[1..], x)
  }

  /** s without its first x. */
  function Without<T(==)>(s: seq<T>, x: T): (r: seq<T>)
    ensures x !in s ==> r == s
    ensures x in s ==> r == s[..IndexOf(s, x)] + s[IndexOf(s, x) + 1..]
  {
    if x !in s then s
    else
      var k := IndexOf(s, x);
      s[..k] + s[k + 1..]
  }

  lemma DistinctWithout<T>(s: seq<T>, x: T)
    requires Distinct(s)
    ensures Distinct(Without(s, x)) && x !in Without(s, x)
    ensures forall y :: y in Without(s, x) <==> y in s && y != x
    ensures x in s ==> |Without(s, x)| == |s| - 1
  {
    if x in s {
      var k := IndexOf(s, x);
      var r := Without(s, x);
      forall y | y in s && y != x
        ensures y in r
      {
        var j := IndexOf(s, y);
        assert r[if j < k then j else j - 1] == y;
      }
    }
  }
}
