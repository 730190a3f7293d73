/** Joining a series of chunks. */
module Seqs {

  function Concat<T>(chunks: seq<seq<T>>): seq<T>
    decreases |chunks|
  {
    if chunks == [] then [] else chunks[0] + Concat(chunks[1..])
  }

  lemma {:induction false} ConcatJoins<T>(a: seq<seq<T>>, b: seq<seq<T>>)
    ensures Concat(a + b) == Concat(a) + Concat(b)
    decreases |a|
  {
    if a == [] {
      assert a + b == b;
    } else {
      var x, y, z := a[0], Concat(a[1..]), Concat(b);
      ConcatJoins(a[1..], b);
      assert (a + b)[0] == x && (a + b)[1..] == a[1..] + b;
      assert x + (y + z) == (x + y) + z;
    }
  }

  lemma ConcatLast<T>(a: seq<seq<T>>, x: seq<T>)
    ensures Concat(a + [x]) == Concat(a) + x
  {
    ConcatJoins(a, [x]);
    assert Concat([x]) == x;
  }
}
