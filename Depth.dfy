/**
 `get_depth`: the nesting depth of a parsed document, counting dicts only.
 A list or a scalar ends the descent, so lists never add depth.
 */
module Nesting {
  import opened JsonTree

  /** `get_depth(d, level)`: `level` for a non-dict or an empty dict, else the largest depth of a child one level down. */
  function Depth(d: Json, level: int): (r: int)
    ensures r >= level
    decreases d
  {
    match d
    case Object(members) => if |members| == 0 then level else MaxDepth(members, level + 1)
    case _ => level
  }

  /** `max(get_depth(d[k], level) for k in d)` over a non-empty dict. */
  function MaxDepth(members: seq<Member>, level: int): (r: int)
    requires |members| > 0
    ensures r >= level
    decreases members
  {
    var last := Depth(members[|members| - 1].value, level);
    if |members| == 1 then last
    else
      var rest := MaxDepth(members[..|members| - 1], level);
      if rest < last then last else rest
  }

  /** `MaxDepth` is the largest of the children's depths: it bounds each of them and is one of them. */
  lemma {:induction false} MaxDepthIsMaximum(members: seq<Member>, level: int)
    requires |members| > 0
    ensures forall i :: 0 <= i < |members| ==> Depth(members[i].value, level) <= MaxDepth(members, level)
    ensures exists i :: 0 <= i < |members| && Depth(members[i].value, level) == MaxDepth(members, level)
    decreases |members|
  {
    var n := |members|;
    if n > 1 {
      var init := members[..n - 1];
      MaxDepthIsMaximum(init, level);
      assert forall i :: 0 <= i < n - 1 ==> init[i] == members[i];
      var j :| 0 <= j < n - 1 && Depth(init[j].value, level) == MaxDepth(init, level);
      if MaxDepth(init, level) < Depth(members[n - 1].value, level) {
        assert Depth(members[n - 1].value, level) == MaxDepth(members, level);
      } else {
        assert Depth(members[j].value, level) == MaxDepth(members, level);
      }
    } else {
      assert Depth(members[0].value, level) == MaxDepth(members, level);
    }
  }

  /** Starting the count `k` levels higher raises the result by exactly `k`. */
  lemma {:induction false} DepthShift(d: Json, level: int, k: int)
    ensures Depth(d, level + k) == Depth(d, level) + k
    decreases d
  {
    if d.Object? && |d.members| > 0 {
      MaxDepthShift(d.members, level + 1, k);
      assert Depth(d, level + k) == MaxDepth(d.members, level + 1 + k);
    }
  }

  lemma {:induction false} MaxDepthShift(members: seq<Member>, level: int, k: int)
    requires |members| > 0
    ensures MaxDepth(members, level + k) == MaxDepth(members, level) + k
    decreases members
  {
    DepthShift(members[|members| - 1].value, level, k);
    if |members| > 1 {
      MaxDepthShift(members[..|members| - 1], level, k);
    }
  }

  /** The depth at any starting level follows from the depth at the default level 1. */
  lemma DepthFromDefaultLevel(d: Json, level: int)
    ensures Depth(d, level) == Depth(d, 1) + level - 1
  {
    DepthShift(d, 1, level - 1);
  }

  /** `{}` has depth 1; `{"a": {"b": 1}}` and `{"a": {"b": [1, 2, 3]}}` both have depth 3. */
  lemma DepthExamples()
    ensures Depth(Object([]), 1) == 1
    ensures Depth(Object([Member("a", Object([Member("b", Int(1))]))]), 1) == 3
    ensures Depth(Object([Member("a", Object([Member("b", List([Int(1), Int(2), Int(3)]))]))]), 1) == 3
  {
  }

  /** Two trees with the same dict skeleton: what sits in a list or a scalar does not matter. */
  predicate SameShape(a: Json, b: Json)
    decreases a
  {
    if a.Object? then
      b.Object? && |a.members| == |b.members| &&
      forall i :: 0 <= i < |a.members| ==> SameShape(a.members[i].value, b.members[i].value)
    else
      !b.Object?
  }

  /** Depth measures dict nesting only: replacing any list or scalar by any other leaf keeps it. */
  lemma {:induction false} SameShapeSameDepth(a: Json, b: Json, level: int)
    requires SameShape(a, b)
    ensures Depth(a, level) == Depth(b, level)
    decreases a
  {
    if a.Object? && |a.members| > 0 {
      SameShapeSameMaxDepth(a.members, b.members, level + 1);
    }
  }

  lemma {:induction false} SameShapeSameMaxDepth(am: seq<Member>, bm: seq<Member>, level: int)
    requires |am| == |bm| > 0
    requires forall i :: 0 <= i < |am| ==> SameShape(am[i].value, bm[i].value)
    ensures MaxDepth(am, level) == MaxDepth(bm, level)
    decreases am
  {
    var n := |am|;
    SameShapeSameDepth(am[n - 1].value, bm[n - 1].value, level);
    if n > 1 {
      assert forall i :: 0 <= i < n - 1 ==> am[..n - 1][i] == am[i] && bm[..n - 1][i] == bm[i];
      SameShapeSameMaxDepth(am[..n - 1], bm[..n - 1], level);
    }
  }
}
