/**
 `json_tree_data`: the recursive walk that appends every key to `headers`,
 records `columns[k] = str(type(v))` for every non-dict value, and collects
 string leaves in `strings_from_json`, all three updated in place, then
 returns the collected strings joined by single spaces.

 The walk is given twice: as pure functions that say what one call does to the
 three accumulators (`VisitMember`, `VisitMembers`, `TreeDataOf`), and as the
 method `TreeData.JsonTreeData` that updates the fields of an object and is
 proved to agree with them. Independent pre-order definitions (`Keys`,
 `ColumnWrites`, `StringItems`, `LeafFailures`) state what the walk collects.
 */
module TreeWalk {
  import opened JsonTree
  import Uniformity

  /** The three accumulators: `headers`, `columns`, `strings_from_json`. */
  datatype Acc = Acc(headers: seq<string>, columns: map<string, PyType>, strings: seq<Json>)

  /** The accumulators after some iterations of the loop, and the exception that stopped it, if any. */
  datatype Walk = Walk(acc: Acc, failure: Option<Failure>)

  /** The accumulators after one call of `json_tree_data`, and what the call returned or raised. */
  datatype Call = Call(acc: Acc, result: Result<string>)

  // ---------------------------------------------------------------- strings and ' '.join

  predicate AllStr(js: seq<Json>)
  {
    forall i :: 0 <= i < |js| ==> js[i].Str?
  }

  function Texts(js: seq<Json>): (r: seq<string>)
    requires AllStr(js)
    ensures |r| == |js|
    ensures forall i :: 0 <= i < |js| ==> r[i] == js[i].s
  {
    if |js| == 0 then [] else [js[0].s] + Texts(js[1..])
  }

  /** `' '.join(ss)` */
  function Join(ss: seq<string>): string
  {
    if |ss| == 0 then "" else if |ss| == 1 then ss[0] else ss[0] + " " + Join(ss[1..])
  }

  /** The joined text starts with the first string and ends with the last, and the first two are one space apart. */
  lemma {:induction false} JoinEnds(ss: seq<string>)
    requires |ss| > 0
    ensures ss[0] <= Join(ss)
    ensures var t, last := Join(ss), ss[|ss| - 1]; |last| <= |t| && t[|t| - |last|..] == last
    ensures |ss| > 1 ==> |ss[0]| < |Join(ss)| && Join(ss)[|ss[0]|] == ' '
  {
    if |ss| > 1 {
      JoinEnds(ss[1..]);
      var t, rest := Join(ss), Join(ss[1..]);
      var last := ss[|ss| - 1];
      assert t == ss[0] + " " + rest;
      assert t[|t| - |last|..] == rest[|rest| - |last|..];
    }
  }

  /** `t.split(' ')`: the pieces between single spaces. */
  function Split(t: string): (r: seq<string>)
    ensures |r| > 0
  {
    if |t| == 0 then [""]
    else
      var rest := Split(t[1..]);
      if t[0] == ' ' then [""] + rest else [[t[0]] + rest[0]] + rest[1..]
  }

  lemma {:induction false} SplitNoSpace(a: string)
    requires ' ' !in a
    ensures Split(a) == [a]
  {
    if |a| > 0 {
      assert ' ' !in a[1..];
      SplitNoSpace(a[1..]);
      assert [a[0]] + a[1..] == a;
    }
  }

  lemma {:induction false} SplitAtSpace(a: string, b: string)
    requires ' ' !in a
    ensures Split(a + " " + b) == [a] + Split(b)
  {
    var t := a + " " + b;
    if |a| == 0 {
      assert t[1..] == b;
    } else {
      assert t[1..] == a[1..] + " " + b;
      assert ' ' !in a[1..];
      SplitAtSpace(a[1..], b);
      assert [a[0]] + a[1..] == a;
    }
  }

  /** The joined text splits back into the strings, when none of them holds a space. */
  lemma {:induction false} SplitJoin(ss: seq<string>)
    requires |ss| > 0
    requires forall i :: 0 <= i < |ss| ==> ' ' !in ss[i]
    ensures Split(Join(ss)) == ss
  {
    if |ss| == 1 {
      SplitNoSpace(ss[0]);
    } else {
      SplitJoin(ss[1..]);
      SplitAtSpace(ss[0], Join(ss[1..]));
    }
  }

  // ---------------------------------------------------------------- the walk, call by call

  /** `type(v[0])`, replaced by `str` when the list fails `check_uniform_type` (lines 113-115). */
  function PresumedType(items: seq<Json>, p: real): (r: PyType)
    requires |items| > 0
    ensures r == TypeOf(items[0]) || r == StrType
    ensures !Uniformity.CheckUniformType(items, p) ==> r == StrType
    ensures Uniformity.CheckUniformType(items, p) ==> r == TypeOf(items[0])
    ensures r != StrType ==> forall i :: 0 <= i < Uniformity.SampleSize(|items|, p) ==> IsInstance(items[i], r)
  {
    if Uniformity.CheckUniformType(items, p) then TypeOf(items[0]) else StrType
  }

  /** One pass of the loop body (lines 103-122) for the pair `(m.key, m.value)`. */
  function VisitMember(m: Member, acc: Acc, p: real): Walk
    decreases m
  {
    var acc := acc.(headers := acc.headers + [m.key]);
    if m.value.Object? then
      var c := TreeDataOf(m.value.members, acc, p);
      Walk(c.acc, if c.result.Err? then Some(c.result.error) else None)
    else
      var acc := acc.(columns := acc.columns[m.key := TypeOf(m.value)]);
      if m.value.List? then
        if |m.value.items| == 0 then Walk(acc, Some(IndexError(m.key)))
        else
          var presumed := PresumedType(m.value.items, p);
          if presumed == IntType || presumed == FloatType then Walk(acc, Some(NoAppend(m.key)))
          else if presumed == StrType then Walk(acc.(strings := acc.strings + m.value.items), None)
          else Walk(acc, None)
      else if m.value.Str? then Walk(acc.(strings := acc.strings + [m.value]), None)
      else Walk(acc, None)
  }

  /** The loop of lines 102-122 over `members`, stopped by the first exception. */
  function VisitMembers(members: seq<Member>, acc: Acc, p: real): Walk
    decreases members, 0
  {
    if |members| == 0 then Walk(acc, None)
    else
      var w := VisitMembers(members[..|members| - 1], acc, p);
      if w.failure.Some? then w else VisitMember(members[|members| - 1], w.acc, p)
  }

  /** `json_tree_data` on a dict: the loop, then `' '.join(strings_from_json)` (line 124). */
  function TreeDataOf(members: seq<Member>, acc: Acc, p: real): Call
    decreases members, 1
  {
    var w := VisitMembers(members, acc, p);
    if w.failure.Some? then Call(w.acc, Err(w.failure.value))
    else if AllStr(w.acc.strings) then Call(w.acc, Ok(Join(Texts(w.acc.strings))))
    else Call(w.acc, Err(JoinTypeError))
  }

  /** `json_tree_data(d, ...)` on any parsed value: a non-dict has no `items`. */
  function TreeDataSpec(d: Json, acc: Acc, p: real): Call
  {
    if d.Object? then TreeDataOf(d.members, acc, p) else Call(acc, Err(NoItems))
  }

  // ---------------------------------------------------------------- what the walk collects, in pre-order

  /** Every key reachable through dicts, each parent key before the keys of its value. */
  function Keys(members: seq<Member>): seq<string>
    decreases members
  {
    if |members| == 0 then [] else MemberKeys(members[0]) + Keys(members[1..])
  }

  function MemberKeys(m: Member): seq<string>
    decreases m
  {
    [m.key] + if m.value.Object? then Keys(m.value.members) else []
  }

  /** The `(key, type)` of every non-dict value, in the order the assignments at line 109 happen. */
  function ColumnWrites(members: seq<Member>): seq<(string, PyType)>
    decreases members
  {
    if |members| == 0 then [] else MemberColumnWrites(members[0]) + ColumnWrites(members[1..])
  }

  function MemberColumnWrites(m: Member): seq<(string, PyType)>
    decreases m
  {
    if m.value.Object? then ColumnWrites(m.value.members) else [(m.key, TypeOf(m.value))]
  }

  /** The effect of the leaf at `v` on `strings_from_json`. */
  function LeafStrings(v: Json, p: real): seq<Json>
  {
    if v.Str? then [v]
    else if v.List? && |v.items| > 0 && PresumedType(v.items, p) == StrType then v.items
    else []
  }

  /** Every string leaf, and every item of every string-presumed list, in walk order. */
  function StringItems(members: seq<Member>, p: real): seq<Json>
    decreases members
  {
    if |members| == 0 then [] else MemberStringItems(members[0], p) + StringItems(members[1..], p)
  }

  function MemberStringItems(m: Member, p: real): seq<Json>
    decreases m
  {
    if m.value.Object? then StringItems(m.value.members, p) else LeafStrings(m.value, p)
  }

  /** The exception the leaf `(k, v)` raises: an empty list at `v[0]`, an int or float list at `.append`. */
  function LeafFailure(k: string, v: Json, p: real): seq<Failure>
  {
    if !v.List? then []
    else if |v.items| == 0 then [IndexError(k)]
    else if PresumedType(v.items, p) in {IntType, FloatType} then [NoAppend(k)]
    else []
  }

  /** The exceptions of all failing leaves, in walk order. */
  function LeafFailures(members: seq<Member>, p: real): seq<Failure>
    decreases members
  {
    if |members| == 0 then [] else MemberLeafFailures(members[0], p) + LeafFailures(members[1..], p)
  }

  function MemberLeafFailures(m: Member, p: real): seq<Failure>
    decreases m
  {
    if m.value.Object? then LeafFailures(m.value.members, p) else LeafFailure(m.key, m.value, p)
  }

  /** `columns[k] = t` for each write, in order. */
  function Apply(columns: map<string, PyType>, writes: seq<(string, PyType)>): map<string, PyType>
    decreases writes
  {
    if |writes| == 0 then columns else Apply(columns[writes[0].0 := writes[0].1], writes[1..])
  }

  // ---------------------------------------------------------------- the pre-order lists split at a member

  lemma {:induction false} KeysAppend(a: seq<Member>, b: seq<Member>)
    ensures Keys(a + b) == Keys(a) + Keys(b)
  {
    if |a| > 0 {
      assert (a + b)[1..] == a[1..] + b;
      KeysAppend(a[1..], b);
    } else {
      assert a + b == b;
    }
  }

  lemma {:induction false} ColumnWritesAppend(a: seq<Member>, b: seq<Member>)
    ensures ColumnWrites(a + b) == ColumnWrites(a) + ColumnWrites(b)
  {
    if |a| > 0 {
      assert (a + b)[1..] == a[1..] + b;
      ColumnWritesAppend(a[1..], b);
    } else {
      assert a + b == b;
    }
  }

  lemma {:induction false} StringItemsAppend(a: seq<Member>, b: seq<Member>, p: real)
    ensures StringItems(a + b, p) == StringItems(a, p) + StringItems(b, p)
  {
    if |a| > 0 {
      assert (a + b)[1..] == a[1..] + b;
      StringItemsAppend(a[1..], b, p);
    } else {
      assert a + b == b;
    }
  }

  lemma {:induction false} LeafFailuresAppend(a: seq<Member>, b: seq<Member>, p: real)
    ensures LeafFailures(a + b, p) == LeafFailures(a, p) + LeafFailures(b, p)
  {
    if |a| > 0 {
      assert (a + b)[1..] == a[1..] + b;
      LeafFailuresAppend(a[1..], b, p);
    } else {
      assert a + b == b;
    }
  }

  /** The lists of `members` are those of all but the last member, followed by the last member's. */
  lemma SplitLast(members: seq<Member>, p: real)
    requires |members| > 0
    ensures var init, last := members[..|members| - 1], members[|members| - 1];
      && Keys(members) == Keys(init) + MemberKeys(last)
      && ColumnWrites(members) == ColumnWrites(init) + MemberColumnWrites(last)
      && StringItems(members, p) == StringItems(init, p) + MemberStringItems(last, p)
      && LeafFailures(members, p) == LeafFailures(init, p) + MemberLeafFailures(last, p)
  {
    var init, last := members[..|members| - 1], members[|members| - 1];
    assert members == init + [last];
    assert [last][1..] == [];
    KeysAppend(init, [last]);
    ColumnWritesAppend(init, [last]);
    StringItemsAppend(init, [last], p);
    LeafFailuresAppend(init, [last], p);
  }

  lemma {:induction false} ApplyAppend(columns: map<string, PyType>, a: seq<(string, PyType)>, b: seq<(string, PyType)>)
    ensures Apply(columns, a + b) == Apply(Apply(columns, a), b)
    decreases a
  {
    if |a| > 0 {
      assert (a + b)[1..] == a[1..] + b;
      ApplyAppend(columns[a[0].0 := a[0].1], a[1..], b);
    } else {
      assert a + b == b;
    }
  }

  /** The keys after the writes are the old keys plus the written ones. */
  lemma {:induction false} ApplyKeys(columns: map<string, PyType>, writes: seq<(string, PyType)>)
    ensures forall k :: k in Apply(columns, writes) <==> k in columns || exists i :: 0 <= i < |writes| && writes[i].0 == k
    decreases writes
  {
    if |writes| > 0 {
      var rest := writes[1..];
      ApplyKeys(columns[writes[0].0 := writes[0].1], rest);
      forall k ensures k in Apply(columns, writes) <==> k in columns || exists i :: 0 <= i < |writes| && writes[i].0 == k {
        if exists i :: 0 <= i < |rest| && rest[i].0 == k {
          var i :| 0 <= i < |rest| && rest[i].0 == k;
          assert writes[i + 1].0 == k;
        }
        if exists i :: 0 <= i < |writes| && writes[i].0 == k {
          var i :| 0 <= i < |writes| && writes[i].0 == k;
          if i > 0 { assert rest[i - 1].0 == k; }
        }
      }
    }
  }

  /** A key no write touches keeps its old entry. */
  lemma {:induction false} UnwrittenKept(columns: map<string, PyType>, writes: seq<(string, PyType)>, k: string)
    requires k in columns && forall i :: 0 <= i < |writes| ==> writes[i].0 != k
    ensures k in Apply(columns, writes) && Apply(columns, writes)[k] == columns[k]
    decreases writes
  {
    if |writes| > 0 {
      var rest := writes[1..];
      assert forall i :: 0 <= i < |rest| ==> rest[i] == writes[i + 1];
      UnwrittenKept(columns[writes[0].0 := writes[0].1], rest, k);
    }
  }

  /** A key ends up with the type of its last write. */
  lemma {:induction false} LastWriteHolds(columns: map<string, PyType>, writes: seq<(string, PyType)>, i: nat)
    requires i < |writes| && forall j :: i < j < |writes| ==> writes[j].0 != writes[i].0
    ensures writes[i].0 in Apply(columns, writes) && Apply(columns, writes)[writes[i].0] == writes[i].1
    decreases writes
  {
    var rest := writes[1..];
    var updated := columns[writes[0].0 := writes[0].1];
    assert forall j :: 0 <= j < |rest| ==> rest[j] == writes[j + 1];
    if i == 0 {
      UnwrittenKept(updated, rest, writes[0].0);
    } else {
      LastWriteHolds(updated, rest, i - 1);
    }
  }

  /**
   Last write wins: a key holds the type of its last write, keys never written keep
   their old entry, and the keys afterwards are the old ones plus the written ones.
   */
  lemma LastWriteWins(columns: map<string, PyType>, writes: seq<(string, PyType)>)
    ensures forall k :: k in Apply(columns, writes) <==> k in columns || exists i :: 0 <= i < |writes| && writes[i].0 == k
    ensures forall i :: 0 <= i < |writes| && (forall j :: i < j < |writes| ==> writes[j].0 != writes[i].0) ==>
      Apply(columns, writes)[writes[i].0] == writes[i].1
    ensures forall k :: k in columns && (forall i :: 0 <= i < |writes| ==> writes[i].0 != k) ==>
      Apply(columns, writes)[k] == columns[k]
  {
    ApplyKeys(columns, writes);
    forall i | 0 <= i < |writes| && (forall j :: i < j < |writes| ==> writes[j].0 != writes[i].0)
      ensures Apply(columns, writes)[writes[i].0] == writes[i].1
    {
      LastWriteHolds(columns, writes, i);
    }
    forall k | k in columns && (forall i :: 0 <= i < |writes| ==> writes[i].0 != k)
      ensures Apply(columns, writes)[k] == columns[k]
    {
      UnwrittenKept(columns, writes, k);
    }
  }

  // ---------------------------------------------------------------- what a walk does, proved call by call

  /** The relation between the accumulators before and after a walk over the members whose lists are `keys`, `writes`, `items`, `fails`. */
  predicate Explains(acc: Acc, w: Walk, keys: seq<string>, writes: seq<(string, PyType)>, items: seq<Json>, fails: seq<Failure>)
  {
    && acc.headers <= w.acc.headers <= acc.headers + keys
    && acc.strings <= w.acc.strings <= acc.strings + items
    && (w.failure.None? ==> fails == [] && w.acc == Acc(acc.headers + keys, Apply(acc.columns, writes), acc.strings + items))
    && (w.failure.Some? ==>
          (w.failure.value == JoinTypeError && !AllStr(w.acc.strings)) || (|fails| > 0 && w.failure.value == fails[0]))
    && (fails == [] && AllStr(acc.strings + items) ==> w.failure.None?)
  }

  lemma Regroup<T>(a: seq<T>, b: seq<T>, c: seq<T>)
    ensures a + (b + c) == (a + b) + c
  {
  }

  lemma AllStrPrefix(a: seq<Json>, b: seq<Json>)
    requires a <= b && AllStr(b)
    ensures AllStr(a)
  {
    assert forall i :: 0 <= i < |a| ==> a[i] == b[i];
  }

  lemma {:induction false} VisitMembersExplained(members: seq<Member>, acc: Acc, p: real)
    ensures Explains(acc, VisitMembers(members, acc, p), Keys(members), ColumnWrites(members),
                     StringItems(members, p), LeafFailures(members, p))
    decreases members, 0
  {
    if |members| > 0 {
      var n := |members|;
      var init, last := members[..n - 1], members[n - 1];
      SplitLast(members, p);
      VisitMembersExplained(init, acc, p);
      var w1 := VisitMembers(init, acc, p);
      var items := StringItems(members, p);
      if w1.failure.Some? {
        if LeafFailures(members, p) == [] && AllStr(acc.strings + items) {
          AllStrPrefix(acc.strings + StringItems(init, p), acc.strings + items);
        }
      } else {
        VisitMemberExplained(last, w1.acc, p);
        ApplyAppend(acc.columns, ColumnWrites(init), MemberColumnWrites(last));
        Regroup(acc.strings, StringItems(init, p), MemberStringItems(last, p));
        Regroup(acc.headers, Keys(init), MemberKeys(last));
      }
    }
  }

  lemma {:induction false} VisitMemberExplained(m: Member, acc: Acc, p: real)
    ensures Explains(acc, VisitMember(m, acc, p), MemberKeys(m), MemberColumnWrites(m),
                     MemberStringItems(m, p), MemberLeafFailures(m, p))
    decreases m
  {
    var acc1 := acc.(headers := acc.headers + [m.key]);
    if m.value.Object? {
      var ms := m.value.members;
      VisitMembersExplained(ms, acc1, p);
      var w := VisitMembers(ms, acc1, p);
      assert acc.headers + MemberKeys(m) == acc1.headers + Keys(ms);
      if w.failure.None? && !AllStr(w.acc.strings) {
        assert w.acc.strings == acc.strings + MemberStringItems(m, p);
      }
    } else {
      LeafExplained(m, acc, p);
    }
  }

  /** A non-dict value: one header, one column write, its strings, and at most its own failure. */
  lemma LeafExplained(m: Member, acc: Acc, p: real)
    requires !m.value.Object?
    ensures Explains(acc, VisitMember(m, acc, p), MemberKeys(m), MemberColumnWrites(m),
                     MemberStringItems(m, p), MemberLeafFailures(m, p))
  {
    assert MemberKeys(m) == [m.key];
    assert MemberColumnWrites(m) == [(m.key, TypeOf(m.value))];
    assert [(m.key, TypeOf(m.value))][1..] == [];
  }

  // ---------------------------------------------------------------- the properties of one call

  /**
   A call succeeds exactly when no leaf fails and every collected item is a string.
   Then `headers` has gained the keys in pre-order, `columns` the last type written
   for each non-dict key, `strings_from_json` the string items in walk order, and
   the result is all collected strings joined by single spaces.
   */
  lemma TreeDataOutcome(members: seq<Member>, acc: Acc, p: real)
    ensures var c := TreeDataOf(members, acc, p);
      && (c.result.Ok? <==> LeafFailures(members, p) == [] && AllStr(acc.strings + StringItems(members, p)))
      && (c.result.Ok? ==>
            && c.acc.headers == acc.headers + Keys(members)
            && c.acc.columns == Apply(acc.columns, ColumnWrites(members))
            && c.acc.strings == acc.strings + StringItems(members, p)
            && c.result.value == Join(Texts(acc.strings + StringItems(members, p))))
  {
    VisitMembersExplained(members, acc, p);
    var w := VisitMembers(members, acc, p);
    if w.failure.Some? && LeafFailures(members, p) == [] && AllStr(acc.strings + StringItems(members, p)) {
      assert false;
    }
  }

  /**
   Which exception a failing call raises: the first failing leaf in walk order when all
   collected items are strings, the `' '.join` error when no leaf fails, and one of the two
   in any case. Whatever happens, earlier `headers` and `strings_from_json` stay a prefix.
   */
  lemma TreeDataFailure(members: seq<Member>, acc: Acc, p: real)
    ensures var c := TreeDataOf(members, acc, p);
      && acc.headers <= c.acc.headers
      && acc.strings <= c.acc.strings
      && (c.result.Err? ==>
            c.result.error == JoinTypeError ||
            (LeafFailures(members, p) != [] && c.result.error == LeafFailures(members, p)[0]))
      && (c.result.Err? && LeafFailures(members, p) == [] ==> c.result.error == JoinTypeError)
      && (c.result.Err? && AllStr(acc.strings + StringItems(members, p)) ==>
            LeafFailures(members, p) != [] && c.result.error == LeafFailures(members, p)[0])
  {
    VisitMembersExplained(members, acc, p);
    var w := VisitMembers(members, acc, p);
    var all := acc.strings + StringItems(members, p);
    if w.failure.Some? && AllStr(all) {
      AllStrPrefix(w.acc.strings, all);
    }
  }

  /**
   A list that fails `check_uniform_type` always holds an item that is not a `str`:
   its first item, or an examined item that is not an instance of the first one's
   class. It is presumed `str`, so all its items go to `strings_from_json`.
   */
  lemma NonUniformHoldsNonString(items: seq<Json>, p: real)
    requires |items| > 0 && !Uniformity.CheckUniformType(items, p)
    ensures !AllStr(items)
    ensures LeafStrings(List(items), p) == items
  {
    if items[0].Str? {
      var i :| 0 <= i < Uniformity.SampleSize(|items|, p) && !IsInstance(items[i], StrType);
      assert !items[i].Str?;
    }
  }

  /** So a dict holding such a list fails, at the join if nowhere earlier. */
  lemma NonUniformListFails(k: string, items: seq<Json>, acc: Acc, p: real)
    requires |items| > 0 && !Uniformity.CheckUniformType(items, p)
    ensures TreeDataOf([Member(k, List(items))], acc, p).result.Err?
  {
    var ms := [Member(k, List(items))];
    NonUniformHoldsNonString(items, p);
    assert ms[1..] == [];
    assert StringItems(ms, p) == items by {
      assert StringItems(ms, p) == MemberStringItems(ms[0], p) + StringItems(ms[1..], p);
    }
    if AllStr(acc.strings + items) {
      AllStrSuffix(acc.strings, items);
    }
    TreeDataOutcome(ms, acc, p);
  }

  lemma AllStrSuffix(a: seq<Json>, b: seq<Json>)
    requires AllStr(a + b)
    ensures AllStr(b)
  {
    assert forall i :: 0 <= i < |b| ==> b[i] == (a + b)[|a| + i];
  }

  /** Only non-dict values write a column, under a key the walk also appends to `headers`. */
  lemma {:induction false} ColumnWritesAreLeaves(members: seq<Member>)
    ensures forall i :: 0 <= i < |ColumnWrites(members)| ==>
      ColumnWrites(members)[i].1 != DictType && ColumnWrites(members)[i].0 in Keys(members)
    decreases members
  {
    if |members| > 0 {
      MemberColumnWritesAreLeaves(members[0]);
      ColumnWritesAreLeaves(members[1..]);
      var a, b := MemberColumnWrites(members[0]), ColumnWrites(members[1..]);
      assert forall i :: |a| <= i < |a| + |b| ==> (a + b)[i] == b[i - |a|];
    }
  }

  lemma {:induction false} MemberColumnWritesAreLeaves(m: Member)
    ensures forall i :: 0 <= i < |MemberColumnWrites(m)| ==>
      MemberColumnWrites(m)[i].1 != DictType && MemberColumnWrites(m)[i].0 in MemberKeys(m)
    decreases m
  {
    if m.value.Object? {
      ColumnWritesAreLeaves(m.value.members);
    }
  }

  /** `{"tags": ["a", "b", "c"]}` sends three separate strings, joined into `"a b c"`. */
  lemma WalkExamples()
    ensures TreeDataOf([Member("tags", List([Str("a"), Str("b"), Str("c")]))], Acc([], map[], []), 1.0)
      == Call(Acc(["tags"], map["tags" := ListType], [Str("a"), Str("b"), Str("c")]), Ok("a b c"))
  {
    var items := [Str("a"), Str("b"), Str("c")];
    var ms := [Member("tags", List(items))];
    assert ms[..0] == [];
    assert Uniformity.CheckUniformType(items, 1.0);
    assert VisitMembers(ms, Acc([], map[], []), 1.0) == Walk(Acc(["tags"], map["tags" := ListType], items), None);
    assert Texts(items) == ["a", "b", "c"];
    assert Join(["a", "b", "c"]) == "a b c" by {
      assert ["a", "b", "c"][1..] == ["b", "c"];
      assert ["b", "c"][1..] == ["c"];
    }
  }

  /** `{"name": "Alice", "scores": [10, 20, 20, 30]}` fails at `columns["scores"].append`. */
  lemma AppendFailureExample()
    ensures TreeDataOf([Member("name", Str("Alice")), Member("scores", List([Int(10), Int(20), Int(20), Int(30)]))],
                       Acc([], map[], []), 1.0).result == Err(NoAppend("scores"))
  {
    assert Uniformity.CheckUniformType([Int(10), Int(20), Int(20), Int(30)], 1.0);
  }

  // ---------------------------------------------------------------- the accumulators as an object

  /** The `headers`, `columns` and `strings_from_json` a caller passes to `json_tree_data`, shared by all recursive calls. */
  class TreeData {
    var headers: seq<string>
    var columns: map<string, PyType>
    var strings: seq<Json>

    function State(): Acc
      reads this
    {
      Acc(headers, columns, strings)
    }

    constructor (acc: Acc)
      ensures State() == acc
    {
      headers, columns, strings := acc.headers, acc.columns, acc.strings;
    }

    /** `json_tree_data(d, headers, columns, strings_from_json, percent_check=p)` */
    method JsonTreeData(d: Json, p: real) returns (r: Result<string>)
      modifies this
      ensures Call(State(), r) == TreeDataSpec(d, old(State()), p)
      decreases d
    {
      if !d.Object? {
        return Err(NoItems);
      }
      var members := d.members;
      ghost var acc0 := State();
      for i := 0 to |members|
        invariant VisitMembers(members[..i], acc0, p) == Walk(State(), None)
      {
        var k, v := members[i].key, members[i].value;
        assert members[..i + 1][..i] == members[..i];
        if v.Object? {
          headers := headers + [k];
          var inner := JsonTreeData(v, p);
          if inner.Err? {
            FailureStops(members, i + 1, acc0, p);
            return Err(inner.error);
          }
        } else {
          headers := headers + [k];
          columns := columns[k := TypeOf(v)];
          if v.List? {
            if |v.items| == 0 {
              FailureStops(members, i + 1, acc0, p);
              return Err(IndexError(k));
            }
            var presumedType := TypeOf(v.items[0]);
            if !Uniformity.CheckUniformType(v.items, p) {
              presumedType := StrType;
            }
            if presumedType == IntType || presumedType == FloatType {
              FailureStops(members, i + 1, acc0, p);
              return Err(NoAppend(k));
            } else if presumedType == StrType {
              strings := strings + v.items;
            }
          } else if v.Str? {
            strings := strings + [v];
          }
        }
      }
      assert members[..|members|] == members;
      if AllStr(strings) {
        r := Ok(Join(Texts(strings)));
      } else {
        r := Err(JoinTypeError);
      }
    }
  }

  /** Once the loop has raised, the remaining members are never visited. */
  lemma {:induction false} FailureStops(members: seq<Member>, j: nat, acc: Acc, p: real)
    requires 0 < j <= |members|
    requires VisitMembers(members[..j], acc, p).failure.Some?
    ensures VisitMembers(members, acc, p) == VisitMembers(members[..j], acc, p)
    decreases |members| - j
  {
    if j < |members| {
      var n := |members|;
      assert members[..n - 1][..j] == members[..j];
      FailureStops(members[..n - 1], j, acc, p);
    } else {
      assert members[..j] == members;
    }
  }
}
