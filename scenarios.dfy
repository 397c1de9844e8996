/** Worked examples of the reducer on small snapshots. */
module Scenarios {
  import opened Wrappers
  import opened StringArrays
  import opened Documents
  import opened Reducer

  function WriteAction(ws: seq<Write>): Action
  {
    Action("write", Some(Payload(None, Some(ws))))
  }

  lemma OneWrite(s: Snapshot, w: Write)
    ensures Reduce(s, WriteAction([w])) == Step(Reduced(s, []), w)
  {
    assert "write" != "init";
    assert Reduce(s, WriteAction([w])) == ApplyWrites(s, [w]);
    assert [w][..0] == [];
    assert ApplyWrites(s, [w]) == Step(ApplyWrites(s, []), w);
  }

  lemma TwoWrites(s: Snapshot, w1: Write, w2: Write)
    ensures Reduce(s, WriteAction([w1, w2])) == Step(Step(Reduced(s, []), w1), w2)
  {
    assert "write" != "init";
    assert Reduce(s, WriteAction([w1, w2])) == ApplyWrites(s, [w1, w2]);
    assert [w1, w2][..1] == [w1] && [w1][..0] == [];
    assert ApplyWrites(s, [w1]) == Step(ApplyWrites(s, []), w1);
    assert ApplyWrites(s, [w1, w2]) == Step(ApplyWrites(s, [w1]), w2);
  }

  lemma OneUpdate(doc: Doc, u: FieldUpdate)
    ensures FieldUpdateResult(doc, u).Ok? ==> ApplyUpdates(doc, [u]) == Done(FieldUpdateResult(doc, u).value)
    ensures FieldUpdateResult(doc, u).Err? ==> ApplyUpdates(doc, [u]) == Stopped(FieldUpdateResult(doc, u).error, doc)
  {
    assert [u][..0] == [];
  }

  lemma UsersPath(p: string, d: string)
    requires d == "u1" || d == "u2"
    requires p == "users/" + d
    ensures SplitPath(p) == ("users", d)
  {
    assert p == "users" + "/" + d;
    SplitPathOfJoin("users", d, "");
  }

  /** A `set` into an existing collection, as one step of a batch. */
  lemma StepSet(s: Snapshot, p: string, c: string, d: string, doc: Option<Doc>)
    requires SplitPath(p) == (c, d) && c in s
    ensures Step(Reduced(s, []), SetWrite(p, doc)) == Reduced(Assign(s, c, d, doc), [])
  {
  }

  /** An `update` whose field updates all succeed, as one step of a batch. */
  lemma StepUpdateDone(s: Snapshot, p: string, c: string, d: string, us: seq<FieldUpdate>, doc: Doc)
    requires SplitPath(p) == (c, d) && c in s && d in s[c] && s[c][d].Some?
    requires ApplyUpdates(s[c][d].value, us) == Done(doc)
    ensures Step(Reduced(s, []), UpdateWrite(p, us)) == Reduced(Assign(s, c, d, Some(doc)), [])
  {
  }

  /** An `update` that stops on an error, as one step of a batch. */
  lemma StepUpdateStopped(s: Snapshot, p: string, c: string, d: string, us: seq<FieldUpdate>, e: ErrorKind, partial: Doc)
    requires SplitPath(p) == (c, d) && c in s && d in s[c] && s[c][d].Some?
    requires ApplyUpdates(s[c][d].value, us) == Stopped(e, partial)
    ensures Step(Reduced(s, []), UpdateWrite(p, us)) == Threw(e, Assign(s, c, d, Some(partial)))
  {
  }

  /** An `update` of a `null` document, as one step of a batch. */
  lemma StepUpdateNull(s: Snapshot, p: string, c: string, d: string, us: seq<FieldUpdate>)
    requires SplitPath(p) == (c, d) && c in s && d in s[c] && s[c][d].None?
    ensures Step(Reduced(s, []), UpdateWrite(p, us)) == Reduced(s, [DocKey(c, d)])
  {
  }

  /** The field update of `AppendScenario` on its own. */
  lemma AppendTags(doc: Doc, u: FieldUpdate, doc2: Doc)
    requires doc == map["name" := Str("Ann"), "tags" := StrArr(["a", "b"])]
    requires u == FieldTransform(["tags"], AppendMissingElements, ["b", "c"])
    requires doc2 == doc["tags" := StrArr(["a", "b", "c"])]
    ensures ApplyUpdates(doc, [u]) == Done(doc2)
  {
    assert AppendMissing(["a", "b"], ["b", "c"]) == ["a", "b", "c"] by {
      assert ["b", "c"][..1] == ["b"] && ["b"][..0] == [];
    }
    assert FieldUpdateResult(doc, u) == Ok(doc2);
    OneUpdate(doc, u);
  }

  /** The field update of `RemoveScenario` on its own. */
  lemma RemoveTags(doc: Doc, u: FieldUpdate, doc2: Doc)
    requires doc == map["tags" := StrArr(["a", "a", "b"])]
    requires u == FieldTransform(["tags"], RemoveAllFromArray, ["a"])
    requires doc2 == doc["tags" := StrArr(["b"])]
    ensures ApplyUpdates(doc, [u]) == Done(doc2)
  {
    assert RemoveAll(["a", "a", "b"], ["a"]) == ["b"] by {
      assert ["a", "a", "b"][1..] == ["a", "b"] && ["a", "b"][1..] == ["b"] && ["b"][1..] == [];
    }
    assert FieldUpdateResult(doc, u) == Ok(doc2);
    OneUpdate(doc, u);
  }

  /** Appending ["b", "c"] to ["a", "b"] adds only "c". */
  lemma AppendScenario()
    ensures var before := map["users" := map["u1" := Some(map["name" := Str("Ann"), "tags" := StrArr(["a", "b"])])]];
      var after := map["users" := map["u1" := Some(map["name" := Str("Ann"), "tags" := StrArr(["a", "b", "c"])])]];
      Reduce(before, WriteAction([UpdateWrite("users/u1", [FieldTransform(["tags"], AppendMissingElements, ["b", "c"])])]))
        == Reduced(after, [])
  {
    var doc: Doc := map["name" := Str("Ann"), "tags" := StrArr(["a", "b"])];
    var doc2 := doc["tags" := StrArr(["a", "b", "c"])];
    assert doc2 == map["name" := Str("Ann"), "tags" := StrArr(["a", "b", "c"])];
    var u := FieldTransform(["tags"], AppendMissingElements, ["b", "c"]);
    var w := UpdateWrite("users/u1", [u]);
    var before: Snapshot := map["users" := map["u1" := Some(doc)]];
    var after: Snapshot := map["users" := map["u1" := Some(doc2)]];
    assert Assign(before, "users", "u1", Some(doc2)) == after by {
      assert before["users"]["u1" := Some(doc2)] == map["u1" := Some(doc2)];
    }
    AppendTags(doc, u, doc2);
    UsersPath("users/u1", "u1");
    StepUpdateDone(before, "users/u1", "users", "u1", [u], doc2);
    OneWrite(before, w);
  }

  /** Removing "a" from ["a", "a", "b"] removes both occurrences. */
  lemma RemoveScenario()
    ensures var before := map["users" := map["u1" := Some(map["tags" := StrArr(["a", "a", "b"])])]];
      var after := map["users" := map["u1" := Some(map["tags" := StrArr(["b"])])]];
      Reduce(before, WriteAction([UpdateWrite("users/u1", [FieldTransform(["tags"], RemoveAllFromArray, ["a"])])]))
        == Reduced(after, [])
  {
    var doc: Doc := map["tags" := StrArr(["a", "a", "b"])];
    var doc2 := doc["tags" := StrArr(["b"])];
    assert doc2 == map["tags" := StrArr(["b"])];
    var u := FieldTransform(["tags"], RemoveAllFromArray, ["a"]);
    var w := UpdateWrite("users/u1", [u]);
    var before: Snapshot := map["users" := map["u1" := Some(doc)]];
    var after: Snapshot := map["users" := map["u1" := Some(doc2)]];
    assert Assign(before, "users", "u1", Some(doc2)) == after by {
      assert before["users"]["u1" := Some(doc2)] == map["u1" := Some(doc2)];
    }
    RemoveTags(doc, u, doc2);
    UsersPath("users/u1", "u1");
    StepUpdateDone(before, "users/u1", "users", "u1", [u], doc2);
    OneWrite(before, w);
  }

  /** A `set` into an existing, empty collection creates the document. */
  lemma SetScenario()
    ensures Reduce(map["orders" := map[]], WriteAction([SetWrite("orders/o1", Some(map["status" := Str("new")]))]))
              == Reduced(map["orders" := map["o1" := Some(map["status" := Str("new")])]], [])
  {
    var s: Snapshot := map["orders" := map[]];
    var doc: Option<Doc> := Some(map["status" := Str("new")]);
    var w := SetWrite("orders/o1", doc);
    assert Assign(s, "orders", "o1", doc) == map["orders" := map["o1" := doc]];
    assert SplitPath("orders/o1") == ("orders", "o1") by {
      assert "orders/o1" == "orders" + "/" + "o1";
      SplitPathOfJoin("orders", "o1", "");
    }
    StepSet(s, "orders/o1", "orders", "o1", doc);
    OneWrite(s, w);
  }

  /** An `update` of a `null` document is reported and changes nothing. */
  lemma NullDocumentScenario(u: FieldUpdate)
    ensures var before := map["users" := map["u1" := None]];
      Reduce(before, WriteAction([UpdateWrite("users/u1", [u])])) == Reduced(before, [DocKey("users", "u1")])
  {
    var before: Snapshot := map["users" := map["u1" := None]];
    UsersPath("users/u1", "u1");
    StepUpdateNull(before, "users/u1", "users", "u1", [u]);
    OneWrite(before, UpdateWrite("users/u1", [u]));
  }

  /** The failing overwrite of the examples below: "missing" is not a key of "profile". */
  lemma MissingKeyFails(doc: Doc)
    requires doc == map["profile" := Obj(map[])]
    ensures ApplyUpdates(doc, [FieldOverwrite(["profile", "missing", "x"], Num(1))]) == Stopped(ImproperFieldPath, doc)
  {
    var u := FieldOverwrite(["profile", "missing", "x"], Num(1));
    assert Intermediate(u.fieldPath) == ["profile", "missing"];
    assert Intermediate(u.fieldPath)[..1] == ["profile"];
    StuckWalkFails(doc, u, 1, Obj(map[]));
    OneUpdate(doc, u);
  }

  /** A missing intermediate key aborts with an improper field path. */
  lemma MissingIntermediateScenario()
    ensures var before := map["users" := map["u1" := Some(map["profile" := Obj(map[])])]];
      Reduce(before, WriteAction([UpdateWrite("users/u1", [FieldOverwrite(["profile", "missing", "x"], Num(1))])]))
        == Threw(ImproperFieldPath, before)
  {
    var doc: Doc := map["profile" := Obj(map[])];
    var before: Snapshot := map["users" := map["u1" := Some(doc)]];
    var us := [FieldOverwrite(["profile", "missing", "x"], Num(1))];
    AssignSame(before, "users", "u1");
    MissingKeyFails(doc);
    UsersPath("users/u1", "u1");
    StepUpdateStopped(before, "users/u1", "users", "u1", us, ImproperFieldPath, doc);
    OneWrite(before, UpdateWrite("users/u1", us));
  }

  /** The snapshot after the first write of `AbortScopeScenario`. */
  lemma AssignU2(before: Snapshot, afterSet: Snapshot, doc: Doc)
    requires before == map["users" := map["u1" := Some(doc)]]
    requires afterSet == map["users" := map["u1" := Some(doc), "u2" := None]]
    ensures Assign(before, "users", "u2", None) == afterSet
  {
    var inner := map["u1" := Some(doc)];
    assert inner["u2" := None] == map["u1" := Some(doc), "u2" := None];
  }

  /** First write of `AbortScopeScenario`: the `set` of "users/u2". */
  lemma AbortFirstStep(before: Snapshot, afterSet: Snapshot, doc: Doc)
    requires before == map["users" := map["u1" := Some(doc)]]
    requires afterSet == map["users" := map["u1" := Some(doc), "u2" := None]]
    ensures Step(Reduced(before, []), SetWrite("users/u2", None)) == Reduced(afterSet, [])
  {
    UsersPath("users/u2", "u2");
    AssignU2(before, afterSet, doc);
    StepSet(before, "users/u2", "users", "u2", None);
  }

  /** Second write of `AbortScopeScenario`: the failing `update` of "users/u1". */
  lemma AbortSecondStep(afterSet: Snapshot, doc: Doc, us: seq<FieldUpdate>)
    requires doc == map["profile" := Obj(map[])]
    requires afterSet == map["users" := map["u1" := Some(doc), "u2" := None]]
    requires us == [FieldOverwrite(["profile", "missing", "x"], Num(1))]
    ensures Step(Reduced(afterSet, []), UpdateWrite("users/u1", us)) == Threw(ImproperFieldPath, afterSet)
  {
    AssignSame(afterSet, "users", "u1");
    MissingKeyFails(doc);
    UsersPath("users/u1", "u1");
    StepUpdateStopped(afterSet, "users/u1", "users", "u1", us, ImproperFieldPath, doc);
  }

  /** A batch [set A, failing update B]: A stays applied in the snapshot the
      error carries, B is not applied. */
  lemma AbortScopeScenario()
    ensures var before := map["users" := map["u1" := Some(map["profile" := Obj(map[])])]];
      var afterSet := map["users" := map["u1" := Some(map["profile" := Obj(map[])]), "u2" := None]];
      Reduce(before, WriteAction([SetWrite("users/u2", None),
                                  UpdateWrite("users/u1", [FieldOverwrite(["profile", "missing", "x"], Num(1))])]))
        == Threw(ImproperFieldPath, afterSet)
  {
    var doc: Doc := map["profile" := Obj(map[])];
    var before: Snapshot := map["users" := map["u1" := Some(doc)]];
    var afterSet: Snapshot := map["users" := map["u1" := Some(doc), "u2" := None]];
    var us := [FieldOverwrite(["profile", "missing", "x"], Num(1))];
    AbortFirstStep(before, afterSet, doc);
    AbortSecondStep(afterSet, doc, us);
    TwoWrites(before, SetWrite("users/u2", None), UpdateWrite("users/u1", us));
  }
}
