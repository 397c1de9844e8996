/** Documents and field updates. A document is a JSON-like object; an `update`
    write carries field updates, each of which walks all but the last segment
    of its field path from the document root, then overwrites or transforms
    the field named by the last segment. */
module Documents {
  import opened Wrappers
  import opened StringArrays

  /** A field value. Numbers are only stored, never computed on, so they are
      kept as opaque integers. */
  datatype Value =
    | Str(s: string)
    | Num(n: int)
    | Bool(b: bool)
    | StrArr(items: seq<string>)
    | Null
    | Obj(fields: map<string, Value>)

  /** A document: the object at the root of a document slot. */
  type Doc = map<string, Value>

  /** How a reduction can fail. The first three are the errors the reducer
      throws itself; `RuntimeTypeError` stands for the JavaScript TypeError
      raised when the code reads or writes a property of `undefined`, of
      `null` or of a primitive. */
  datatype ErrorKind =
    | ImproperFieldPath
    | PropertyNotAnArray
    | IncorrectActionType
    | RuntimeTypeError

  datatype TransformType =
    | AppendMissingElements
    | RemoveAllFromArray
    | OtherTransform(name: string)   // any other tag: passed over after the array check

  datatype FieldUpdate =
    | FieldOverwrite(fieldPath: seq<string>, value: Value)
    | FieldTransform(fieldPath: seq<string>, transformType: TransformType, values: seq<string>)
    | OtherFieldUpdate(fieldPath: seq<string>, updateType: string)   // any other tag: walked, then passed over

  /** The segments walked before the final one (`slice(0, length - 1)`). */
  function Intermediate(path: seq<string>): (r: seq<string>)
    ensures |path| > 0 ==> path == r + [path[|path| - 1]]
    ensures |path| == 0 ==> r == []
  {
    if |path| == 0 then [] else path[..|path| - 1]
  }

  /** The final segment; an empty path reads index -1, which is `undefined`,
      and a property key `undefined` is the string "undefined". */
  function FinalKey(path: seq<string>): (k: string)
    ensures |path| > 0 ==> k == path[|path| - 1]
    ensures |path| == 0 ==> k == "undefined"
  {
    if |path| == 0 then "undefined" else path[|path| - 1]
  }

  /** The full path of the field a field update targets. */
  function Target(path: seq<string>): (r: seq<string>)
    ensures |path| > 0 ==> r == path
    ensures |r| == |Intermediate(path)| + 1 && r[..|r| - 1] == Intermediate(path) && r[|r| - 1] == FinalKey(path)
  {
    Intermediate(path) + [FinalKey(path)]
  }

  /** Plain lookup of a nested field: `None` when a key is missing or a
      non-object stands in the way. */
  function Get(node: Value, path: seq<string>): Option<Value>
    decreases |path|
  {
    if path == [] then Some(node)
    else match node
      case Obj(m) => if path[0] in m then Get(m[path[0]], path[1..]) else None
      case _ => None
  }

  /** The walk of the source's intermediate-segment loop: at each segment the
      current node must be an object holding that key. Reading a property of
      `null` is a TypeError; on any other non-object the key reads as
      `undefined`, which the loop reports as an improper field path. */
  function Walk(node: Value, path: seq<string>): (r: Result<Value, ErrorKind>)
    ensures path == [] ==> r == Ok(node)
    ensures r.Ok? <==> Get(node, path).Some?
    ensures r.Ok? ==> Get(node, path) == Some(r.value)
    ensures r.Err? ==> r.error == ImproperFieldPath || r.error == RuntimeTypeError
    decreases |path|
  {
    if path == [] then Ok(node)
    else match node
      case Obj(m) => if path[0] in m then Walk(m[path[0]], path[1..]) else Err(ImproperFieldPath)
      case Null => Err(RuntimeTypeError)
      case _ => Err(ImproperFieldPath)
  }

  /** `node` with the value reached along `path` replaced by `sub`: the value
      form of assigning through the reference the walk ends on. */
  function Graft(node: Value, path: seq<string>, sub: Value): (r: Value)
    requires Walk(node, path).Ok?
    ensures r.Obj? <==> path != [] || sub.Obj?
    decreases |path|
  {
    if path == [] then sub
    else Obj(node.fields[path[0] := Graft(node.fields[path[0]], path[1..], sub)])
  }

  /** The array transform named by `t`. */
  function Transform(t: TransformType, items: seq<string>, values: seq<string>): seq<string>
  {
    match t
    case AppendMissingElements => AppendMissing(items, values)
    case RemoveAllFromArray => RemoveAll(items, values)
    case OtherTransform(_) => items
  }

  /** The effect of a field update on the node the walk ended on, `key` being
      the final segment. An overwrite assigns `parent[key]`, which throws on
      `null` and on a primitive; a transform first requires `parent[key]` to
      be an array (reading it throws on `null`). */
  function ApplyAtParent(parent: Value, key: string, u: FieldUpdate): (r: Result<Value, ErrorKind>)
    ensures r.Ok? && parent.Obj? ==> r.value.Obj?
    ensures r.Ok? && !parent.Obj? ==> r.value == parent
    ensures r.Ok? && parent.Obj? ==> forall k :: k != key ==> (k in r.value.fields <==> k in parent.fields)
    ensures r.Ok? && parent.Obj? ==> forall k :: k != key && k in parent.fields ==> r.value.fields[k] == parent.fields[k]
  {
    match parent
    case Obj(m) =>
      (match u
       case FieldOverwrite(_, v) => Ok(Obj(m[key := v]))
       case FieldTransform(_, t, vs) =>
         if key in m && m[key].StrArr? then Ok(Obj(m[key := StrArr(Transform(t, m[key].items, vs))]))
         else Err(PropertyNotAnArray)
       case OtherFieldUpdate(_, _) => Ok(parent))
    case Null =>
      if u.OtherFieldUpdate? then Ok(parent) else Err(RuntimeTypeError)
    case _ =>
      match u
      case FieldOverwrite(_, _) => Err(RuntimeTypeError)
      case FieldTransform(_, _, _) => Err(PropertyNotAnArray)
      case OtherFieldUpdate(_, _) => Ok(parent)
  }

  /** One field update applied to a document. */
  function FieldUpdateResult(doc: Doc, u: FieldUpdate): Result<Doc, ErrorKind>
  {
    var inter := Intermediate(u.fieldPath);
    match Walk(Obj(doc), inter)
    case Err(e) => Err(e)
    case Ok(parent) =>
      match ApplyAtParent(parent, FinalKey(u.fieldPath), u)
      case Err(e) => Err(e)
      case Ok(updated) => Ok(Graft(Obj(doc), inter, updated).fields)
  }

  /** The source's body for one field update: walk the intermediate segments
      reassigning the current node, then overwrite or transform at the final
      key, the transforms running their own loops. */
  method ApplyFieldUpdate(doc: Doc, u: FieldUpdate) returns (r: Result<Doc, ErrorKind>)
    ensures r == FieldUpdateResult(doc, u)
  {
    var inter := Intermediate(u.fieldPath);
    var finalKey := FinalKey(u.fieldPath);
    var affected := Obj(doc);
    var i := 0;
    while i < |inter|
      invariant 0 <= i <= |inter|
      invariant Walk(Obj(doc), inter) == Walk(affected, inter[i..])
    {
      var segment := inter[i];
      assert inter[i..][1..] == inter[i + 1..];
      match affected {
        case Obj(m) =>
          if segment !in m {
            return Err(ImproperFieldPath);
          }
          affected := m[segment];
        case Null =>
          return Err(RuntimeTypeError);
        case _ =>
          return Err(ImproperFieldPath);
      }
      i := i + 1;
    }
    assert inter[i..] == [];
    var updated := affected;
    match affected {
      case Obj(m) =>
        match u {
          case FieldOverwrite(_, v) =>
            updated := Obj(m[finalKey := v]);
          case FieldTransform(_, t, vs) =>
            if !(finalKey in m && m[finalKey].StrArr?) {
              return Err(PropertyNotAnArray);
            }
            var items := m[finalKey].items;
            match t {
              case AppendMissingElements =>
                items := PushMissing(items, vs);
              case RemoveAllFromArray =>
                items := SpliceOccurrences(items, vs);
              case OtherTransform(_) =>
            }
            updated := Obj(m[finalKey := StrArr(items)]);
          case OtherFieldUpdate(_, _) =>
        }
      case Null =>
        if !u.OtherFieldUpdate? {
          return Err(RuntimeTypeError);
        }
      case _ =>
        if u.FieldOverwrite? {
          return Err(RuntimeTypeError);
        } else if u.FieldTransform? {
          return Err(PropertyNotAnArray);
        }
    }
    r := Ok(Graft(Obj(doc), inter, updated).fields);
  }

  // ---------------------------------------------------------------------
  // Paths

  /** Looking up `a + b` is looking up `a`, then `b` from there. */
  lemma {:induction false} GetConcat(node: Value, a: seq<string>, b: seq<string>)
    ensures Get(node, a + b) == match Get(node, a) case Some(x) => Get(x, b) case None => None
    decreases |a|
  {
    if a == [] {
      assert a + b == b;
    } else {
      assert (a + b)[0] == a[0] && (a + b)[1..] == a[1..] + b;
      if node.Obj? && a[0] in node.fields {
        GetConcat(node.fields[a[0]], a[1..], b);
      }
    }
  }

  /** The walk stops at the first segment whose node is not an object holding
      that key: with a TypeError on `null`, an improper field path otherwise. */
  lemma {:induction false} WalkStopsAt(node: Value, path: seq<string>, i: nat, x: Value)
    requires i < |path|
    requires Get(node, path[..i]) == Some(x)
    requires !(x.Obj? && path[i] in x.fields)
    ensures Walk(node, path) == Err(if x.Null? then RuntimeTypeError else ImproperFieldPath)
    decreases i
  {
    if i > 0 {
      assert path[..i][0] == path[0] && path[..i][1..] == path[1..][..i - 1];
      WalkStopsAt(node.fields[path[0]], path[1..], i - 1, x);
    }
  }

  /** Grafting puts `sub` exactly where the path leads. */
  lemma {:induction false} GraftReaches(node: Value, path: seq<string>, sub: Value)
    requires Walk(node, path).Ok?
    ensures Get(Graft(node, path, sub), path) == Some(sub)
    decreases |path|
  {
    if path != [] {
      GraftReaches(node.fields[path[0]], path[1..], sub);
    }
  }

  /** Grafting leaves every path that leaves `path` at segment `i` as it was. */
  lemma {:induction false} GraftFrame(node: Value, path: seq<string>, sub: Value, q: seq<string>, i: nat)
    requires Walk(node, path).Ok?
    requires i < |path| && i < |q| && path[..i] == q[..i] && path[i] != q[i]
    ensures Get(Graft(node, path, sub), q) == Get(node, q)
    decreases i
  {
    if i > 0 {
      assert path[0] == path[..i][0] == q[..i][0] == q[0];
      assert path[1..][..i - 1] == q[1..][..i - 1];
      GraftFrame(node.fields[path[0]], path[1..], sub, q[1..], i - 1);
    }
  }

  // ---------------------------------------------------------------------
  // Field updates

  /** A field update whose walk meets a missing key (or a non-object) before
      the final segment fails, with the error of the walk. */
  lemma StuckWalkFails(doc: Doc, u: FieldUpdate, i: nat, x: Value)
    requires i < |Intermediate(u.fieldPath)|
    requires Get(Obj(doc), Intermediate(u.fieldPath)[..i]) == Some(x)
    requires !(x.Obj? && Intermediate(u.fieldPath)[i] in x.fields)
    ensures FieldUpdateResult(doc, u) == Err(if x.Null? then RuntimeTypeError else ImproperFieldPath)
  {
    WalkStopsAt(Obj(doc), Intermediate(u.fieldPath), i, x);
  }

  /** An overwrite succeeds exactly when the parent of the target is an
      object, and then the target holds the new value, created or replaced
      whatever it was before. */
  lemma OverwriteSetsField(doc: Doc, path: seq<string>, v: Value)
    ensures FieldUpdateResult(doc, FieldOverwrite(path, v)).Ok? <==>
              Get(Obj(doc), Intermediate(path)).Some? && Get(Obj(doc), Intermediate(path)).value.Obj?
    ensures FieldUpdateResult(doc, FieldOverwrite(path, v)).Ok? ==>
              Get(Obj(FieldUpdateResult(doc, FieldOverwrite(path, v)).value), Target(path)) == Some(v)
  {
    var u := FieldOverwrite(path, v);
    var inter := Intermediate(path);
    var key := FinalKey(path);
    var walked := Walk(Obj(doc), inter);
    if walked.Ok? && walked.value.Obj? {
      var updated := Obj(walked.value.fields[key := v]);
      assert ApplyAtParent(walked.value, key, u) == Ok(updated);
      var g := Graft(Obj(doc), inter, updated);
      assert FieldUpdateResult(doc, u) == Ok(g.fields);
      assert Obj(g.fields) == g;
      GraftReaches(Obj(doc), inter, updated);
      GetConcat(g, inter, [key]);
      assert Get(updated, [key]) == Some(v);
      assert Target(path) == inter + [key];
    } else {
      assert FieldUpdateResult(doc, u).Err?;
    }
  }

  /** A transform succeeds exactly when the target field already holds an
      array; the field then holds the transformed array. */
  lemma TransformNeedsArray(doc: Doc, path: seq<string>, t: TransformType, vs: seq<string>)
    ensures FieldUpdateResult(doc, FieldTransform(path, t, vs)).Ok? <==>
              Get(Obj(doc), Target(path)).Some? && Get(Obj(doc), Target(path)).value.StrArr?
    ensures FieldUpdateResult(doc, FieldTransform(path, t, vs)).Ok? ==>
              Get(Obj(FieldUpdateResult(doc, FieldTransform(path, t, vs)).value), Target(path)) ==
              Some(StrArr(Transform(t, Get(Obj(doc), Target(path)).value.items, vs)))
  {
    var inter := Intermediate(path);
    var key := FinalKey(path);
    GetConcat(Obj(doc), inter, [key]);
    var walked := Walk(Obj(doc), inter);
    if walked.Ok? && walked.value.Obj? && key in walked.value.fields && walked.value.fields[key].StrArr? {
      var m := walked.value.fields;
      var updated := Obj(m[key := StrArr(Transform(t, m[key].items, vs))]);
      var g := Graft(Obj(doc), inter, updated);
      GraftReaches(Obj(doc), inter, updated);
      GetConcat(g, inter, [key]);
    }
  }

  /** When the parent of the target is an object but the target is not an
      array, a transform fails with the non-array error. */
  lemma TransformOnNonArrayFails(doc: Doc, path: seq<string>, t: TransformType, vs: seq<string>)
    requires Get(Obj(doc), Intermediate(path)).Some? && Get(Obj(doc), Intermediate(path)).value.Obj?
    requires !(Get(Obj(doc), Target(path)).Some? && Get(Obj(doc), Target(path)).value.StrArr?)
    ensures FieldUpdateResult(doc, FieldTransform(path, t, vs)) == Err(PropertyNotAnArray)
  {
    GetConcat(Obj(doc), Intermediate(path), [FinalKey(path)]);
  }

  /** The value a successful field update leaves at the parent of its target
      differs from the old parent only under the final key. */
  lemma SiblingsUnchanged(parent: Value, key: string, u: FieldUpdate, rest: seq<string>)
    requires ApplyAtParent(parent, key, u).Ok?
    requires |rest| > 0 && rest[0] != key
    ensures Get(ApplyAtParent(parent, key, u).value, rest) == Get(parent, rest)
  {
  }

  /** A successful field update is the graft of the updated parent. */
  lemma FieldUpdateIsGraft(doc: Doc, u: FieldUpdate)
    requires FieldUpdateResult(doc, u).Ok?
    ensures Walk(Obj(doc), Intermediate(u.fieldPath)).Ok?
    ensures ApplyAtParent(Walk(Obj(doc), Intermediate(u.fieldPath)).value, FinalKey(u.fieldPath), u).Ok?
    ensures Obj(FieldUpdateResult(doc, u).value) ==
              Graft(Obj(doc), Intermediate(u.fieldPath),
                    ApplyAtParent(Walk(Obj(doc), Intermediate(u.fieldPath)).value, FinalKey(u.fieldPath), u).value)
  {
  }

  /** A successful field update changes nothing outside its target: every
      path that leaves the target path at some segment reads as before. */
  lemma FieldUpdateFrame(doc: Doc, u: FieldUpdate, q: seq<string>, i: nat)
    requires FieldUpdateResult(doc, u).Ok?
    requires i < |Target(u.fieldPath)| && i < |q|
    requires Target(u.fieldPath)[..i] == q[..i] && Target(u.fieldPath)[i] != q[i]
    ensures Get(Obj(FieldUpdateResult(doc, u).value), q) == Get(Obj(doc), q)
  {
    var inter := Intermediate(u.fieldPath);
    var key := FinalKey(u.fieldPath);
    FieldUpdateIsGraft(doc, u);
    var parent := Walk(Obj(doc), inter).value;
    var updated := ApplyAtParent(parent, key, u).value;
    var g := Graft(Obj(doc), inter, updated);
    if i < |inter| {
      assert Target(u.fieldPath)[..i] == inter[..i];
      GraftFrame(Obj(doc), inter, updated, q, i);
    } else {
      var rest := q[|inter|..];
      assert q == inter + rest;
      GraftReaches(Obj(doc), inter, updated);
      GetConcat(g, inter, rest);
      GetConcat(Obj(doc), inter, rest);
      SiblingsUnchanged(parent, key, u, rest);
    }
  }

  /** After a successful overwrite the parent of the target is still an object. */
  lemma OverwriteKeepsParent(doc: Doc, path: seq<string>, v: Value)
    requires FieldUpdateResult(doc, FieldOverwrite(path, v)).Ok?
    ensures Get(Obj(FieldUpdateResult(doc, FieldOverwrite(path, v)).value), Intermediate(path)).Some?
    ensures Get(Obj(FieldUpdateResult(doc, FieldOverwrite(path, v)).value), Intermediate(path)).value.Obj?
  {
    var u := FieldOverwrite(path, v);
    FieldUpdateIsGraft(doc, u);
    GraftReaches(Obj(doc), Intermediate(path),
                 ApplyAtParent(Walk(Obj(doc), Intermediate(path)).value, FinalKey(path), u).value);
  }

  /** An empty field path walks nothing and targets the top-level key
      "undefined": reading index -1 of the path gives `undefined`, which as a
      property key is that string. */
  lemma EmptyPathTargetsUndefined(doc: Doc, v: Value)
    ensures FieldUpdateResult(doc, FieldOverwrite([], v)) == Ok(doc["undefined" := v])
  {
  }

  // ---------------------------------------------------------------------
  // The field updates of one write

  /** How a sequence of steps ends: all done, or stopped by an error with the
      value as it stood when the error was thrown (earlier steps applied). */
  datatype Outcome<T> = Done(value: T) | Stopped(error: ErrorKind, partial: T)

  /** The field updates of an `update` write, in order, each applied to the
      document as the previous ones left it; the first error stops the rest. */
  function ApplyUpdates(doc: Doc, us: seq<FieldUpdate>): Outcome<Doc>
    decreases |us|
  {
    if us == [] then Done(doc)
    else
      match ApplyUpdates(doc, us[..|us| - 1])
      case Stopped(e, p) => Stopped(e, p)
      case Done(d) =>
        match FieldUpdateResult(d, us[|us| - 1])
        case Ok(d2) => Done(d2)
        case Err(e) => Stopped(e, d)
  }

  /** Field updates run strictly in order: the second part of a sequence
      starts from the document the first part produced, and an error in the
      first part means the second part never runs. */
  lemma {:induction false} ApplyUpdatesAppend(doc: Doc, us: seq<FieldUpdate>, vs: seq<FieldUpdate>)
    ensures ApplyUpdates(doc, us + vs) ==
      match ApplyUpdates(doc, us)
      case Done(d) => ApplyUpdates(d, vs)
      case Stopped(e, p) => Stopped(e, p)
    decreases |vs|
  {
    if vs == [] {
      assert us + vs == us;
    } else {
      var init := vs[..|vs| - 1];
      assert (us + vs)[..|us + vs| - 1] == us + init;
      assert (us + vs)[|us + vs| - 1] == vs[|vs| - 1];
      ApplyUpdatesAppend(doc, us, init);
    }
  }

  /** Two overwrites of the same field in a row: the field ends with the second value. */
  lemma TwoOverwrites(doc: Doc, path: seq<string>, a: Value, b: Value)
    requires Get(Obj(doc), Intermediate(path)).Some? && Get(Obj(doc), Intermediate(path)).value.Obj?
    ensures ApplyUpdates(doc, [FieldOverwrite(path, a), FieldOverwrite(path, b)]).Done?
    ensures Get(Obj(ApplyUpdates(doc, [FieldOverwrite(path, a), FieldOverwrite(path, b)]).value), Target(path)) == Some(b)
  {
    var us := [FieldOverwrite(path, a), FieldOverwrite(path, b)];
    assert us[..1] == [FieldOverwrite(path, a)] && us[..1][..0] == [];
    OverwriteSetsField(doc, path, a);
    var d1 := FieldUpdateResult(doc, FieldOverwrite(path, a)).value;
    assert ApplyUpdates(doc, us[..1]) == Done(d1);
    OverwriteKeepsParent(doc, path, a);
    OverwriteSetsField(d1, path, b);
  }

  /** Order matters: of two overwrites of the same field, the later one wins,
      so swapping two different values gives different documents. */
  lemma LaterOverwriteWins(doc: Doc, path: seq<string>, v1: Value, v2: Value)
    requires Get(Obj(doc), Intermediate(path)).Some? && Get(Obj(doc), Intermediate(path)).value.Obj?
    ensures ApplyUpdates(doc, [FieldOverwrite(path, v1), FieldOverwrite(path, v2)]).Done?
    ensures Get(Obj(ApplyUpdates(doc, [FieldOverwrite(path, v1), FieldOverwrite(path, v2)]).value), Target(path)) == Some(v2)
    ensures v1 != v2 ==> ApplyUpdates(doc, [FieldOverwrite(path, v1), FieldOverwrite(path, v2)]) !=
                         ApplyUpdates(doc, [FieldOverwrite(path, v2), FieldOverwrite(path, v1)])
  {
    TwoOverwrites(doc, path, v1, v2);
    TwoOverwrites(doc, path, v2, v1);
  }
}
