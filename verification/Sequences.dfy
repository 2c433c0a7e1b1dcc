/** Joining sequences of sequences. */
module Sequences {

  function Flatten<T>(parts: seq<seq<T>>): (r: seq<T>) {
    if parts == [] then [] else parts[0] + Flatten(parts[1..])
  }

  lemma FlattenNone<T>(parts: seq<seq<T>>)
    ensures Flatten(parts[..0]) == [] == Flatten(parts[|parts|..])
  {
  }

  lemma {:induction false} FlattenAppend<T>(a: seq<seq<T>>, b: seq<seq<T>>)
    ensures Flatten(a + b) == Flatten(a) + Flatten(b)
  {
    if a == [] {
      assert a + b == b;
    } else {
      assert (a + b)[1..] == a[1..] + b;
      FlattenAppend(a[1..], b);
    }
  }

  lemma {:induction false} FlattenNext<T>(parts: seq<seq<T>>, i: nat)
    requires i < |parts|
    ensures Flatten(parts[i..]) == parts[i] + Flatten(parts[i + 1..])
    ensures Flatten(parts[..i + 1]) == Flatten(parts[..i]) + parts[i]
    ensures |Flatten(parts[..i])| + |parts[i]| <= |Flatten(parts)|
  {
    var one := [parts[i]];
    assert parts[i..][1..] == parts[i + 1..] && one[1..] == [];
    assert parts[..i + 1] == parts[..i] + one;
    FlattenAppend(parts[..i], one);
    assert parts == parts[..i + 1] + parts[i + 1..];
    FlattenAppend(parts[..i + 1], parts[i + 1..]);
  }
}
