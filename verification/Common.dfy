/** Shared vocabulary. */
module Common {
  datatype Option<+T> = None | Some(value: T)

  ghost predicate Distinct<T>(s: seq<T>) {
    forall i, j :: 0 <= i < j < |s| ==> s[i] != s[j]
  }

  /** `ys` are the elements of `xs` at the positions `pos`, which are in order and distinct. */
  ghost predicate Selects<T>(xs: seq<T>, pos: seq<nat>, ys: seq<T>) {
    && |pos| == |ys|
    && (forall i, j :: 0 <= i < j < |pos| ==> pos[i] < pos[j])
    && forall k :: 0 <= k < |pos| ==> pos[k] < |xs| && ys[k] == xs[pos[k]]
  }

  lemma SelectsNext<T>(xs: seq<T>, pos: seq<nat>, ys: seq<T>, yes: bool) returns (pos': seq<nat>)
    requires xs != [] && Selects(xs[..|xs| - 1], pos, ys)
    ensures Selects(xs, pos', ys + if yes then [xs[|xs| - 1]] else [])
    ensures forall i :: 0 <= i < |xs| ==> (i in pos' <==> if i == |xs| - 1 then yes else i in pos)
  {
    var n: nat := |xs| - 1;
    forall i | i in pos ensures i < n {
      var k :| 0 <= k < |pos| && pos[k] == i;
    }
    pos' := if yes then pos + [n] else pos;
  }
}
