/** Small things that several models share. */
module Common {

  datatype Option<T> = None | Some(value: T)

  function Min(a: int, b: int): int {
    if a < b then a else b
  }

  /** The pieces one after the other. */
  function Flatten<T>(pieces: seq<seq<T>>): seq<T> {
    if pieces == [] then [] else pieces[0] + Flatten(pieces[1..])
  }

  lemma {:induction false} FlattenAppend<T>(pieces: seq<seq<T>>, last: seq<T>)
    ensures Flatten(pieces + [last]) == Flatten(pieces) + last
  {
    if pieces == [] {
      assert pieces + [last] == [last];
      assert Flatten([last]) == last + Flatten([]);
    } else {
      assert (pieces + [last])[1..] == pieces[1..] + [last];
      FlattenAppend(pieces[1..], last);
    }
  }

  /** A number above all those given. */
  lemma {:induction false} Above(taken: set<nat>) returns (n: nat)
    ensures forall u | u in taken :: u < n
  {
    if taken == {} {
      n := 0;
    } else {
      var u :| u in taken;
      var rest := Above(taken - {u});
      n := if rest <= u then u + 1 else rest;
      assert forall v | v in taken :: v == u || v in taken - {u};
    }
  }
}
