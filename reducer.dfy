/** The reducer: a snapshot maps collection ids to collections, a collection
    maps document ids to a document or `null`. An `init` action replaces the
    snapshot; a `write` action applies its writes one after the other to a
    copy of the previous snapshot. */
module Reducer {
  import opened Wrappers
  import opened StringArrays
  import opened Documents

  /** A document slot holds a document or `null` (`None`); a missing key is `undefined`. */
  type Collection = map<string, Option<Doc>>
  type Snapshot = map<string, Collection>

  /** The address of a document inside a snapshot. */
  datatype DocKey = DocKey(collectionId: string, docId: string)

  datatype Write =
    | SetWrite(documentPath: string, doc: Option<Doc>)
    | UpdateWrite(documentPath: string, updates: seq<FieldUpdate>)
    | OtherWrite(documentPath: string, writeType: string)   // any other tag: passed over

  /** The optional fields of an action's payload. */
  datatype Payload = Payload(initAppState: Option<Snapshot>, writes: Option<seq<Write>>)

  /** An action: its type tag as the caller wrote it, and an optional payload. */
  datatype Action = Action(actionType: string, payload: Option<Payload>)

  /** What a reduction gives the caller: the new snapshot together with the
      documents whose update was skipped and reported, or the error thrown
      together with the snapshot as the writes before it left it. */
  datatype Reduction =
    | Reduced(state: Snapshot, reported: seq<DocKey>)
    | Threw(error: ErrorKind, partial: Snapshot)

  /** The effect of one write. */
  datatype WriteStep =
    | Applied(state: Snapshot)
    | Skipped(key: DocKey)
    | Aborted(error: ErrorKind, partial: Snapshot)

  /** `document_path.split('/')` destructured into its first two parts; when
      there is no separator the second part is `undefined`, which as a
      property key is the string "undefined". */
  function SplitPath(path: string): (ids: (string, string))
    ensures '/' !in ids.0 && '/' !in ids.1
  {
    var i := IndexOf(path, '/');
    if i < 0 then (path, "undefined")
    else
      var rest := path[i + 1..];
      var j := IndexOf(rest, '/');
      (path[..i], if j < 0 then rest else rest[..j])
  }

  /** `s[c][d] = slot` on an existing collection: only that slot changes. */
  function Assign(s: Snapshot, c: string, d: string, slot: Option<Doc>): (r: Snapshot)
    requires c in s
    ensures r.Keys == s.Keys && c in r
    ensures r[c].Keys == s[c].Keys + {d} && r[c][d] == slot
    ensures forall c2 :: c2 in s && c2 != c ==> r[c2] == s[c2]
    ensures forall d2 :: d2 in s[c] && d2 != d ==> r[c][d2] == s[c][d2]
  {
    s[c := s[c][d := slot]]
  }

  /** Assigning a slot twice is assigning it the second value. */
  lemma AssignTwice(s: Snapshot, c: string, d: string, x: Option<Doc>, y: Option<Doc>)
    requires c in s
    ensures Assign(Assign(s, c, d, x), c, d, y) == Assign(s, c, d, y)
  {
    assert Assign(s, c, d, x)[c][d := y] == s[c][d := y];
  }

  /** Assigning a slot the value it holds changes nothing. */
  lemma AssignSame(s: Snapshot, c: string, d: string)
    requires c in s && d in s[c]
    ensures Assign(s, c, d, s[c][d]) == s
  {
    assert s[c][d := s[c][d]] == s[c];
  }

  /** One write applied to the snapshot. Indexing a collection that does not
      exist throws a TypeError, for `set` as for `update`; an `update` of a
      missing or `null` document is skipped and reported; an error inside an
      `update` leaves the field updates before it applied. */
  function ApplyWrite(s: Snapshot, w: Write): WriteStep
  {
    var (c, d) := SplitPath(w.documentPath);
    match w
    case SetWrite(_, doc) =>
      if c in s then Applied(Assign(s, c, d, doc)) else Aborted(RuntimeTypeError, s)
    case UpdateWrite(_, us) =>
      if c !in s then Aborted(RuntimeTypeError, s)
      else if d !in s[c] || s[c][d].None? then Skipped(DocKey(c, d))
      else
        (match ApplyUpdates(s[c][d].value, us)
         case Done(doc) => Applied(Assign(s, c, d, Some(doc)))
         case Stopped(e, p) => Aborted(e, Assign(s, c, d, Some(p))))
    case OtherWrite(_, _) => Applied(s)
  }

  /** The batch so far, extended by one more write. */
  function Step(sofar: Reduction, w: Write): Reduction
  {
    match sofar
    case Threw(_, _) => sofar
    case Reduced(s1, rep) =>
      match ApplyWrite(s1, w)
      case Applied(s2) => Reduced(s2, rep)
      case Skipped(k) => Reduced(s1, rep + [k])
      case Aborted(e, p) => Threw(e, p)
  }

  /** The writes of a batch, in order, each applied to the snapshot the
      previous ones left; the first error ends the batch. */
  function ApplyWrites(s: Snapshot, ws: seq<Write>): Reduction
    decreases |ws|
  {
    if ws == [] then Reduced(s, []) else Step(ApplyWrites(s, ws[..|ws| - 1]), ws[|ws| - 1])
  }

  /** A batch result continued with further writes. */
  function Continue(sofar: Reduction, vs: seq<Write>): Reduction
  {
    match sofar
    case Threw(_, _) => sofar
    case Reduced(s1, rep) =>
      match ApplyWrites(s1, vs)
      case Reduced(s2, rep2) => Reduced(s2, rep + rep2)
      case Threw(e, p) => Threw(e, p)
  }

  /** The state an `init` action installs: its payload's `init_app_state`.
      When that is missing the source returns `undefined`, which the next
      `write` copies as an empty object; the model installs the empty snapshot. */
  function InitState(payload: Option<Payload>): Snapshot
  {
    if payload.Some? && payload.value.initAppState.Some? then payload.value.initAppState.value else map[]
  }

  /** The reducer as a function of the previous snapshot and the action. */
  function Reduce(prev: Snapshot, action: Action): Reduction
  {
    if action.actionType == "init" then Reduced(InitState(action.payload), [])
    else if action.actionType == "write" then
      if action.payload.None? || action.payload.value.writes.None? then Threw(RuntimeTypeError, prev)
      else ApplyWrites(prev, action.payload.value.writes.value)
    else Threw(IncorrectActionType, prev)
  }

  /** The body of the source's loop over the writes: split the path, then
      either assign the slot or run the field updates, re-reading the
      document before each one and storing its result back into the slot. */
  method PerformWrite(nextState: Snapshot, write: Write) returns (step: WriteStep)
    ensures step == ApplyWrite(nextState, write)
  {
    var (collectionId, docId) := SplitPath(write.documentPath);
    match write {
      case SetWrite(_, doc) =>
        if collectionId !in nextState {
          return Aborted(RuntimeTypeError, nextState);
        }
        step := Applied(Assign(nextState, collectionId, docId, doc));
      case UpdateWrite(_, updates) =>
        if collectionId !in nextState {
          return Aborted(RuntimeTypeError, nextState);
        }
        if !(docId in nextState[collectionId] && nextState[collectionId][docId].Some?) {
          return Skipped(DocKey(collectionId, docId));
        }
        var state: Snapshot := nextState;
        var original := state[collectionId][docId].value;
        AssignSame(nextState, collectionId, docId);
        for k := 0 to |updates|
          invariant collectionId in state && docId in state[collectionId] && state[collectionId][docId].Some?
          invariant state == Assign(nextState, collectionId, docId, state[collectionId][docId])
          invariant ApplyUpdates(original, updates[..k]) == Done(state[collectionId][docId].value)
        {
          assert updates[..k + 1][..k] == updates[..k];
          var doc := state[collectionId][docId].value;
          var result := ApplyFieldUpdate(doc, updates[k]);
          if result.Err? {
            StopIsFinal(original, updates, k + 1);
            return Aborted(result.error, state);
          }
          AssignTwice(nextState, collectionId, docId, state[collectionId][docId], Some(result.value));
          state := Assign(state, collectionId, docId, Some(result.value));
        }
        assert updates[..|updates|] == updates;
        step := Applied(state);
      case OtherWrite(_, _) =>
        step := Applied(nextState);
    }
  }

  /** The source's reducer: `init` returns the payload's state, `write` runs
      the loop over the writes on a copy of the previous snapshot, any other
      action type throws. */
  method AppReducer(prevState: Snapshot, action: Action) returns (r: Reduction)
    ensures r == Reduce(prevState, action)
  {
    if action.actionType == "init" {
      return Reduced(InitState(action.payload), []);
    } else if action.actionType == "write" {
      if action.payload.None? || action.payload.value.writes.None? {
        return Threw(RuntimeTypeError, prevState);
      }
      var writes := action.payload.value.writes.value;
      var nextState := prevState;
      var reported: seq<DocKey> := [];
      for n := 0 to |writes|
        invariant ApplyWrites(prevState, writes[..n]) == Reduced(nextState, reported)
      {
        assert writes[..n + 1][..n] == writes[..n];
        var step := PerformWrite(nextState, writes[n]);
        match step {
          case Applied(s) =>
            nextState := s;
          case Skipped(key) =>
            reported := reported + [key];
          case Aborted(e, partial) =>
            ThrowIsFinal(prevState, writes, n + 1);
            return Threw(e, partial);
        }
      }
      assert writes[..|writes|] == writes;
      r := Reduced(nextState, reported);
    } else {
      r := Threw(IncorrectActionType, prevState);
    }
  }

  // ---------------------------------------------------------------------
  // Order of writes and abort scope

  /** Writes run strictly in order: the second part of a batch starts from
      the snapshot the first part produced (its reports follow the first
      part's), and an error in the first part means the second never runs. */
  lemma {:induction false} ApplyWritesAppend(s: Snapshot, ws: seq<Write>, vs: seq<Write>)
    ensures ApplyWrites(s, ws + vs) == Continue(ApplyWrites(s, ws), vs)
    decreases |vs|
  {
    if vs == [] {
      assert ws + vs == ws;
      match ApplyWrites(s, ws)
      case Threw(_, _) =>
      case Reduced(_, rep) => assert rep + [] == rep;
    } else {
      var init := vs[..|vs| - 1];
      var last := vs[|vs| - 1];
      assert (ws + vs)[..|ws + vs| - 1] == ws + init;
      assert (ws + vs)[|ws + vs| - 1] == last;
      ApplyWritesAppend(s, ws, init);
      assert ApplyWrites(s, ws + vs) == Step(Continue(ApplyWrites(s, ws), init), last);
      match ApplyWrites(s, ws)
      case Threw(_, _) =>
      case Reduced(s1, rep) =>
        assert ApplyWrites(s1, vs) == Step(ApplyWrites(s1, init), last);
        match ApplyWrites(s1, init)
        case Threw(_, _) =>
        case Reduced(s2, rep2) =>
          match ApplyWrite(s2, last)
          case Applied(_) =>
          case Aborted(_, _) =>
          case Skipped(k) => assert rep + rep2 + [k] == rep + (rep2 + [k]);
    }
  }

  /** Once a prefix of the batch has thrown, the batch ends with that error
      and that partial snapshot. */
  lemma ThrowIsFinal(s: Snapshot, ws: seq<Write>, n: nat)
    requires n <= |ws| && ApplyWrites(s, ws[..n]).Threw?
    ensures ApplyWrites(s, ws) == ApplyWrites(s, ws[..n])
  {
    assert ws == ws[..n] + ws[n..];
    ApplyWritesAppend(s, ws[..n], ws[n..]);
  }

  lemma StopIsFinal(doc: Doc, us: seq<FieldUpdate>, n: nat)
    requires n <= |us| && ApplyUpdates(doc, us[..n]).Stopped?
    ensures ApplyUpdates(doc, us) == ApplyUpdates(doc, us[..n])
  {
    assert us == us[..n] + us[n..];
    ApplyUpdatesAppend(doc, us[..n], us[n..]);
  }

  /** Abort scope: when a write fails, the writes before it stay applied in
      the snapshot the error carries, and no write after it is applied. */
  lemma AbortKeepsPrefix(s: Snapshot, ws: seq<Write>, w: Write, rest: seq<Write>)
    requires ApplyWrites(s, ws).Reduced?
    requires ApplyWrite(ApplyWrites(s, ws).state, w).Aborted?
    ensures ApplyWrites(s, ws + [w] + rest) ==
              Threw(ApplyWrite(ApplyWrites(s, ws).state, w).error, ApplyWrite(ApplyWrites(s, ws).state, w).partial)
  {
    assert (ws + [w])[..|ws + [w]| - 1] == ws;
    ThrowIsFinal(s, ws + [w] + rest, |ws| + 1);
    assert (ws + [w] + rest)[..|ws| + 1] == ws + [w];
  }

  // ---------------------------------------------------------------------
  // Actions

  /** `init` installs its payload's state whatever the previous snapshot was. */
  lemma InitReplacesState(prev: Snapshot, other: Snapshot, payload: Option<Payload>)
    ensures Reduce(prev, Action("init", payload)) == Reduce(other, Action("init", payload))
    ensures payload.Some? && payload.value.initAppState.Some? ==>
              Reduce(prev, Action("init", payload)) == Reduced(payload.value.initAppState.value, [])
  {
  }

  /** Any action type other than `init` and `write` throws and replaces nothing. */
  lemma UnknownActionTypeThrows(prev: Snapshot, action: Action)
    requires action.actionType != "init" && action.actionType != "write"
    ensures Reduce(prev, action) == Threw(IncorrectActionType, prev)
  {
  }

  // ---------------------------------------------------------------------
  // Document paths

  lemma SplitPathOf(c: string, rest: string, d: string)
    requires '/' !in c && '/' !in d
    requires rest == d || (|rest| > |d| && rest[..|d|] == d && rest[|d|] == '/')
    ensures SplitPath(c + "/" + rest) == (c, d)
  {
    var path := c + "/" + rest;
    assert path[..|c|] == c && path[|c|] == '/';
    IndexOfAt(path, '/', |c|);
    assert path[|c| + 1..] == rest;
    if rest != d {
      IndexOfAt(rest, '/', |d|);
    }
  }

  /** A path `c/d` (ids without separators) addresses collection `c` and
      document `d`; any further segments are ignored. */
  lemma SplitPathOfJoin(c: string, d: string, tail: string)
    requires '/' !in c && '/' !in d
    ensures SplitPath(c + "/" + d) == (c, d)
    ensures SplitPath(c + "/" + d + "/" + tail) == (c, d)
  {
    SplitPathOf(c, d, d);
    var rest := d + "/" + tail;
    assert c + "/" + d + "/" + tail == c + "/" + rest;
    SplitPathOf(c, rest, d);
  }

  /** A path without separator addresses document "undefined". */
  lemma SplitPathWithoutSeparator(path: string)
    requires '/' !in path
    ensures SplitPath(path) == (path, "undefined")
  {
  }

  // ---------------------------------------------------------------------
  // Set and update writes

  /** A `set` replaces exactly its slot, `null` included, creating the
      document key if needed; a missing collection throws. */
  lemma SetWriteReplacesSlot(s: Snapshot, path: string, doc: Option<Doc>)
    ensures SplitPath(path).0 !in s ==> ApplyWrite(s, SetWrite(path, doc)) == Aborted(RuntimeTypeError, s)
    ensures SplitPath(path).0 in s ==>
      var (c, d) := SplitPath(path);
      var step := ApplyWrite(s, SetWrite(path, doc));
      && step.Applied?
      && step.state.Keys == s.Keys
      && step.state[c].Keys == s[c].Keys + {d}
      && step.state[c][d] == doc
      && (forall c2 :: c2 in s && c2 != c ==> step.state[c2] == s[c2])
      && (forall c2, d2 :: c2 in s && d2 in s[c2] && (c2 != c || d2 != d) ==>
            d2 in step.state[c2] && step.state[c2][d2] == s[c2][d2])
  {
  }

  /** Repeating a `set` changes nothing more. */
  lemma SetWriteIdempotent(s: Snapshot, path: string, doc: Option<Doc>)
    ensures ApplyWrites(s, [SetWrite(path, doc), SetWrite(path, doc)]) == ApplyWrites(s, [SetWrite(path, doc)])
  {
    var w := SetWrite(path, doc);
    assert [w, w][..1] == [w] && [w][..0] == [];
    var (c, d) := SplitPath(path);
    if c in s {
      AssignTwice(s, c, d, doc, doc);
    }
  }

  /** An `update` of a missing or `null` document leaves the snapshot as it
      is, is reported, and the batch goes on; on a missing collection it throws. */
  lemma UpdateOfAbsentDocIsReported(s: Snapshot, ws: seq<Write>, path: string, us: seq<FieldUpdate>)
    requires ApplyWrites(s, ws).Reduced?
    ensures var s1 := ApplyWrites(s, ws).state;
      var (c, d) := SplitPath(path);
      c in s1 && (d !in s1[c] || s1[c][d].None?) ==>
        ApplyWrites(s, ws + [UpdateWrite(path, us)]) == Reduced(s1, ApplyWrites(s, ws).reported + [DocKey(c, d)])
    ensures var s1 := ApplyWrites(s, ws).state;
      SplitPath(path).0 !in s1 ==> ApplyWrites(s, ws + [UpdateWrite(path, us)]) == Threw(RuntimeTypeError, s1)
  {
    assert (ws + [UpdateWrite(path, us)])[..|ws|] == ws;
  }

  /** A successful `update` writes back only its own slot, holding the
      document its field updates produced in order. */
  lemma UpdateWriteOnlyTouchesItsDocument(s: Snapshot, path: string, us: seq<FieldUpdate>)
    requires ApplyWrite(s, UpdateWrite(path, us)).Applied?
    ensures var (c, d) := SplitPath(path);
      var s2 := ApplyWrite(s, UpdateWrite(path, us)).state;
      && c in s && d in s[c] && s[c][d].Some?
      && ApplyUpdates(s[c][d].value, us) == Done(s2[c][d].value)
      && s2.Keys == s.Keys && s2[c].Keys == s[c].Keys
      && (forall c2 :: c2 in s && c2 != c ==> s2[c2] == s[c2])
      && (forall c2, d2 :: c2 in s && d2 in s[c2] && (c2 != c || d2 != d) ==> s2[c2][d2] == s[c2][d2])
  {
  }
}
