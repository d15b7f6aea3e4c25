/**
 The pure part of `extract_json_metadata`: once a parsed tree is given, compute
 its depth, walk it with fresh accumulators, and assemble the metadata record.
 Reading the file, the XML conversion and the timing are not part of it.
 */
module Extract {
  import opened JsonTree
  import opened Nesting
  import opened TreeWalk

  /** `{"json/xml": {"maxdepth": ..., "headers": ..., "columns": ..., "strings": ...}}` */
  datatype Metadata = Metadata(maxDepth: int, headers: seq<string>, columns: map<string, PyType>, strings: string)

  /**
   `extract_json_metadata` from line 139 on, for an already parsed `tree`. It succeeds
   exactly when the root is a dict, no leaf fails and every collected item is a
   string; the record then holds the depth from level 1, the keys in pre-order,
   the last type written for each non-dict key, and the strings joined by spaces.
   */
  method ExtractJsonMetadata(tree: Json, p: real) returns (r: Result<Metadata>)
    ensures !tree.Object? ==> r == Err(NoItems)
    ensures tree.Object? ==>
      (r.Ok? <==> LeafFailures(tree.members, p) == [] && AllStr(StringItems(tree.members, p)))
    ensures tree.Object? && r.Err? ==> TreeDataOf(tree.members, Acc([], map[], []), p).result == Err(r.error)
    ensures r.Ok? ==> tree.Object? && AllStr(StringItems(tree.members, p))
    ensures r.Ok? ==> r.value == Metadata(Depth(tree, 1), Keys(tree.members), Apply(map[], ColumnWrites(tree.members)),
                                          Join(Texts(StringItems(tree.members, p))))
  {
    var data := new TreeData(Acc([], map[], []));
    var depth := Depth(tree, 1);
    var out := data.JsonTreeData(tree, p);
    if tree.Object? {
      TreeDataOutcome(tree.members, Acc([], map[], []), p);
      assert [] + StringItems(tree.members, p) == StringItems(tree.members, p);
      assert [] + Keys(tree.members) == Keys(tree.members);
    }
    if out.Err? {
      return Err(out.error);
    }
    r := Ok(Metadata(depth, data.headers, data.columns, out.value));
  }
}
