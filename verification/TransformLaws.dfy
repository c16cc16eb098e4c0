/**
 What a reader finds at a path after the whole body pipeline, told by the
 configured lists alone: what each phase leaves at the paths it names, and in
 which order the phases count.
 */
module TransformLaws {
  import opened Prelude
  import opened JsonTree
  import opened TransformSpec

  /** Two paths neither of which lies below the other. */
  predicate Level(p: seq<string>, q: seq<string>) {
    p == q || Incomparable(p, q)
  }

  ghost predicate LevelKeys(kvs: seq<KeyValue>, q: Path) {
    forall i :: 0 <= i < |kvs| ==> Level(kvs[i].key, q)
  }

  // ---------------------------------------------------------------- single phases

  lemma ValuesAtNone(kvs: seq<KeyValue>, q: Path)
    requires ApartFromKeys(kvs, q)
    ensures ValuesAt(kvs, q) == []
  {
    if kvs != [] {
      assert forall i :: 0 <= i < |Front(kvs)| ==> Front(kvs)[i] == kvs[i];
      ValuesAtNone(Front(kvs), q);
    }
  }

  /** A replaced key that is there reads the last value listed for it; a missing one stays missing. */
  lemma {:induction false} ReplaceWritesLast(o: Members, kvs: seq<KeyValue>, q: Path)
    requires LevelKeys(kvs, q)
    ensures Get(ReplaceAll(o, kvs), q) ==
            if Get(o, q).Some? && ValuesAt(kvs, q) != [] then Some(Scalar(Last(ValuesAt(kvs, q)))) else Get(o, q)
    decreases |kvs|
  {
    if kvs != [] {
      assert forall i :: 0 <= i < |Front(kvs)| ==> Front(kvs)[i] == kvs[i];
      ReplaceWritesLast(o, Front(kvs), q);
      GetAfterSet(ReplaceAll(o, Front(kvs)), Last(kvs).key, Scalar(Last(kvs).value), q);
    }
  }

  /** An added key that is missing reads the first value listed for it; a present one keeps its value. */
  lemma {:induction false} AddWritesFirst(o: Members, kvs: seq<KeyValue>, q: Path)
    requires LevelKeys(kvs, q)
    ensures Get(AddAll(o, kvs), q) ==
            if Get(o, q).None? && ValuesAt(kvs, q) != [] then Some(Scalar(ValuesAt(kvs, q)[0])) else Get(o, q)
    decreases |kvs|
  {
    if kvs != [] {
      assert forall i :: 0 <= i < |Front(kvs)| ==> Front(kvs)[i] == kvs[i];
      AddWritesFirst(o, Front(kvs), q);
      GetAfterSet(AddAll(o, Front(kvs)), Last(kvs).key, Scalar(Last(kvs).value), q);
    }
  }

  /** The same path, as a table of paths sees a list of renames: each moves what its old path has, if it has anything. */
  ghost function RenamedRead(read: Path -> Option<Json>, rs: seq<RenamePair>, q: Path): Option<Json>
    decreases |rs|
  {
    if rs == [] then read(q)
    else
      var moved := RenamedRead(read, Front(rs), Last(rs).from);
      if moved.Some? && q == Last(rs).to then moved
      else if moved.Some? && q == Last(rs).from then None
      else RenamedRead(read, Front(rs), q)
  }

  /** All paths that the renames name, and `q`, are level with each other. */
  ghost predicate LevelPairs(rs: seq<RenamePair>, q: Path) {
    && (forall i :: 0 <= i < |rs| ==> Level(rs[i].from, q) && Level(rs[i].to, q))
    && forall i, j :: 0 <= i < |rs| && 0 <= j < |rs| ==>
         Level(rs[i].from, rs[j].from) && Level(rs[i].from, rs[j].to) && Level(rs[i].to, rs[j].to)
  }

  lemma RenameReads(o: Members, from: Path, to: Path, q: Path)
    requires Level(from, to) && Level(from, q) && Level(to, q)
    ensures Get(Rename(o, from, to), q) ==
            if Get(o, from).Some? && q == to then Get(o, from)
            else if Get(o, from).Some? && q == from then None
            else Get(o, q)
  {
    if Get(o, from).Some? {
      RenameMoves(o, from, to);
    }
  }

  /** Chains of renames included, the tree reads as the table does. */
  lemma {:induction false} RenamesRead(o: Members, read: Path -> Option<Json>, rs: seq<RenamePair>, q: Path)
    requires LevelPairs(rs, q)
    requires read(q) == Get(o, q)
    requires forall i :: 0 <= i < |rs| ==> read(rs[i].from) == Get(o, rs[i].from)
    ensures Get(RenameAll(o, rs), q) == RenamedRead(read, rs, q)
    decreases |rs|
  {
    if rs != [] {
      assert forall i :: 0 <= i < |Front(rs)| ==> Front(rs)[i] == rs[i];
      RenamesRead(o, read, Front(rs), q);
      RenamesRead(o, read, Front(rs), Last(rs).from);
      RenameReads(RenameAll(o, Front(rs)), Last(rs).from, Last(rs).to, q);
    }
  }

  // ---------------------------------------------------------------- the whole pipeline

  /** What the allow list and the removals leave at a path. */
  ghost function Admitted(o: Members, ops: BodyOps, q: Path): Option<Json> {
    if Covered(ops.remove, q) || (ops.allow != [] && !Listed(o, ops.allow, q)) then None else Get(o, q)
  }

  /** Nothing strictly below the path is removed, and it is not kept merely as an ancestor. */
  ghost predicate Whole(o: Members, ops: BodyOps, q: Path) {
    && (Covered(ops.remove, q) || forall i :: 0 <= i < |ops.remove| ==> !(q < ops.remove[i]))
    && (ops.allow == [] || Listed(o, ops.allow, q) || !AboveListed(o, ops.allow, q))
  }

  lemma RemoveReads(o: Members, ps: seq<Path>, q: Path)
    requires Covered(ps, q) || forall i :: 0 <= i < |ps| ==> !(q < ps[i])
    ensures Get(DeleteAll(o, ps), q) == if Covered(ps, q) then None else Get(o, q)
  {
    RemovePhase(o, ps, q);
    if !Covered(ps, q) {
      forall i | 0 <= i < |ps| ensures Incomparable(ps[i], q) {
        PrefixCases(ps[i], q);
      }
      RemoveFrame(o, ps, q);
    }
  }

  lemma AdmittedReads(o: Members, ops: BodyOps, q: Path)
    requires Whole(o, ops, q)
    ensures Get(DeleteAll(AllowOnly(o, ops.allow), ops.remove), q) == Admitted(o, ops, q)
  {
    hide Retain, Get;
    RemoveReads(AllowOnly(o, ops.allow), ops.remove, q);
    if ops.allow != [] {
      RetainIsRestriction(o, ops.allow, q);
      if Listed(o, ops.allow, q) {
        RetainKeepsListed(o, ops.allow, q);
      }
    }
  }

  /** What replacing, adding and appending make of a value, given the values they list at its path. */
  function Edited(v: Option<Json>, replaced: seq<string>, added: seq<string>, appended: seq<string>): Option<Json> {
    var w := if v.Some? && replaced != [] then Some(Scalar(Last(replaced))) else v;
    Accumulated(if w.None? && added != [] then Some(Scalar(added[0])) else w, appended)
  }

  ghost predicate LevelEdits(ops: BodyOps, q: Path) {
    LevelKeys(ops.replace, q) && LevelKeys(ops.add, q) && LevelKeys(ops.append, q)
  }

  lemma EditsRead(o: Members, ops: BodyOps, q: Path)
    requires LevelEdits(ops, q)
    ensures Get(AppendAll(AddAll(ReplaceAll(o, ops.replace), ops.add), ops.append), q) ==
            Edited(Get(o, q), ValuesAt(ops.replace, q), ValuesAt(ops.add, q), ValuesAt(ops.append, q))
  {
    ReplaceWritesLast(o, ops.replace, q);
    AddWritesFirst(ReplaceAll(o, ops.replace), ops.add, q);
    AppendPhase(AddAll(ReplaceAll(o, ops.replace), ops.add), ops.append, q);
  }

  /**
   The value at a path after all six phases: what the allow list and the removals
   leave there or at the path it was renamed from, replaced, added and appended to
   in this order; for lists that name no path strictly above or below it.
   */
  lemma PipelineReads(o: Members, ops: BodyOps, q: Path)
    requires Whole(o, ops, q) && LevelPairs(ops.rename, q) && LevelEdits(ops, q)
    requires forall i :: 0 <= i < |ops.rename| ==> Whole(o, ops, ops.rename[i].from)
    ensures Get(Transform(o, ops), q) ==
            Edited(RenamedRead((p: Path) => Admitted(o, ops, p), ops.rename, q),
                   ValuesAt(ops.replace, q), ValuesAt(ops.add, q), ValuesAt(ops.append, q))
  {
    var removed := DeleteAll(AllowOnly(o, ops.allow), ops.remove);
    AdmittedReads(o, ops, q);
    forall i | 0 <= i < |ops.rename|
      ensures Get(removed, ops.rename[i].from) == Admitted(o, ops, ops.rename[i].from)
    {
      AdmittedReads(o, ops, ops.rename[i].from);
    }
    hide Admitted, Edited;
    RenamesRead(removed, (p: Path) => Admitted(o, ops, p), ops.rename, q);
    EditsRead(RenameAll(removed, ops.rename), ops, q);
  }

  // ---------------------------------------------------------------- phase by phase

  ghost predicate NoLaterPhase(ops: BodyOps, q: Path) {
    ApartFromPairs(ops.rename, q) && ApartFromKeys(ops.replace, q) && ApartFromKeys(ops.add, q) && ApartFromKeys(ops.append, q)
  }

  lemma LaterPhasesAside(o: Members, ops: BodyOps, q: Path)
    requires NoLaterPhase(ops, q)
    ensures Get(Transform(o, ops), q) == Get(DeleteAll(AllowOnly(o, ops.allow), ops.remove), q)
  {
    var removed := DeleteAll(AllowOnly(o, ops.allow), ops.remove);
    RenameFrame(removed, ops.rename, q);
    EditsAside(RenameAll(removed, ops.rename), ops, q);
  }

  /** Whatever else is configured, a path at or below a removed one that no later phase comes near is gone. */
  lemma RemovedIsGone(o: Members, ops: BodyOps, q: Path)
    requires Covered(ops.remove, q) && NoLaterPhase(ops, q)
    ensures Get(Transform(o, ops), q) == None
  {
    LaterPhasesAside(o, ops, q);
    RemovePhase(AllowOnly(o, ops.allow), ops.remove, q);
  }

  /** The path is on the allow list and no removal comes near it. */
  ghost predicate Kept(o: Members, ops: BodyOps, q: Path) {
    (ops.allow == [] || Listed(o, ops.allow, q)) && ApartFrom(ops.remove, q)
  }

  lemma KeptReads(o: Members, ops: BodyOps, q: Path)
    requires Kept(o, ops, q)
    ensures Get(DeleteAll(AllowOnly(o, ops.allow), ops.remove), q) == Get(o, q)
  {
    hide Retain, Get;
    if ops.allow != [] {
      RetainKeepsListed(o, ops.allow, q);
    }
    RemoveFrame(AllowOnly(o, ops.allow), ops.remove, q);
  }

  /** Its two paths lie apart from each other and from those of every other rename. */
  ghost predicate Solitary(rs: seq<RenamePair>, k: nat)
    requires k < |rs|
  {
    && Incomparable(rs[k].from, rs[k].to)
    && forall i :: 0 <= i < |rs| && i != k ==>
         && Incomparable(rs[i].from, rs[k].from) && Incomparable(rs[i].to, rs[k].from)
         && Incomparable(rs[i].from, rs[k].to) && Incomparable(rs[i].to, rs[k].to)
  }

  /** One rename, apart from all others, leaves the value at the new path and nothing at the old one. */
  lemma {:induction false} OneRename(o: Members, rs: seq<RenamePair>, k: nat)
    requires k < |rs| && Solitary(rs, k)
    requires Get(o, rs[k].from).Some?
    ensures Get(RenameAll(o, rs), rs[k].to) == Get(o, rs[k].from)
    ensures Get(RenameAll(o, rs), rs[k].from) == None
    decreases |rs|
  {
    var before := RenameAll(o, Front(rs));
    assert forall i :: 0 <= i < |Front(rs)| ==> Front(rs)[i] == rs[i];
    if k == |rs| - 1 {
      RenameFrame(o, Front(rs), rs[k].from);
      RenameMoves(before, rs[k].from, rs[k].to);
    } else {
      OneRename(o, Front(rs), k);
      if Get(before, Last(rs).from).Some? {
        RenameMoves(before, Last(rs).from, Last(rs).to);
      }
    }
  }

  /** A renamed value is at its new path in the end, and nothing is at the old one, if no later phase comes near. */
  lemma RenamedIsMoved(o: Members, ops: BodyOps, k: nat)
    requires k < |ops.rename| && Solitary(ops.rename, k)
    requires Kept(o, ops, ops.rename[k].from) && Get(o, ops.rename[k].from).Some?
    requires forall q :: q in [ops.rename[k].from, ops.rename[k].to] ==>
               ApartFromKeys(ops.replace, q) && ApartFromKeys(ops.add, q) && ApartFromKeys(ops.append, q)
    ensures Get(Transform(o, ops), ops.rename[k].to) == Get(o, ops.rename[k].from)
    ensures Get(Transform(o, ops), ops.rename[k].from) == None
  {
    var from, to := ops.rename[k].from, ops.rename[k].to;
    var removed := DeleteAll(AllowOnly(o, ops.allow), ops.remove);
    KeptReads(o, ops, from);
    OneRename(removed, ops.rename, k);
    assert from in [from, to] && to in [from, to];
    EditsAside(RenameAll(removed, ops.rename), ops, from);
    EditsAside(RenameAll(removed, ops.rename), ops, to);
  }

  lemma EditsAside(o: Members, ops: BodyOps, q: Path)
    requires ApartFromKeys(ops.replace, q) && ApartFromKeys(ops.add, q) && ApartFromKeys(ops.append, q)
    ensures Get(AppendAll(AddAll(ReplaceAll(o, ops.replace), ops.add), ops.append), q) == Get(o, q)
  {
    ReplaceFrame(o, ops.replace, q);
    AddFrame(ReplaceAll(o, ops.replace), ops.add, q);
    AppendFrame(AddAll(ReplaceAll(o, ops.replace), ops.add), ops.append, q);
  }

  /** A path that is renamed and then replaced under its new name ends with the last value given for that. */
  lemma RenamedThenReplaced(o: Members, ops: BodyOps, k: nat)
    requires k < |ops.rename| && Solitary(ops.rename, k)
    requires Kept(o, ops, ops.rename[k].from) && Get(o, ops.rename[k].from).Some?
    requires LevelEdits(ops, ops.rename[k].to) && ApartFromKeys(ops.append, ops.rename[k].to)
    requires ValuesAt(ops.replace, ops.rename[k].to) != []
    ensures Get(Transform(o, ops), ops.rename[k].to) == Some(Scalar(Last(ValuesAt(ops.replace, ops.rename[k].to))))
  {
    var removed := DeleteAll(AllowOnly(o, ops.allow), ops.remove);
    KeptReads(o, ops, ops.rename[k].from);
    OneRename(removed, ops.rename, k);
    EditsRead(RenameAll(removed, ops.rename), ops, ops.rename[k].to);
    ValuesAtNone(ops.append, ops.rename[k].to);
  }

  /** A key that is kept, and named by no rename, ends as the last three phases make it. */
  lemma KeptEdited(o: Members, ops: BodyOps, q: Path)
    requires Kept(o, ops, q) && ApartFromPairs(ops.rename, q) && LevelEdits(ops, q) && ApartFromKeys(ops.append, q)
    ensures Get(Transform(o, ops), q) == Edited(Get(o, q), ValuesAt(ops.replace, q), ValuesAt(ops.add, q), [])
  {
    var removed := DeleteAll(AllowOnly(o, ops.allow), ops.remove);
    KeptReads(o, ops, q);
    RenameFrame(removed, ops.rename, q);
    EditsRead(RenameAll(removed, ops.rename), ops, q);
    ValuesAtNone(ops.append, q);
  }

  /** So does one that is missing, or kept out, or removed first. */
  lemma MissingEdited(o: Members, ops: BodyOps, q: Path)
    requires Get(o, q).None? || Covered(ops.remove, q)
    requires ops.allow == [] || !AboveListed(o, ops.allow, q) || Covered(ops.remove, q)
    requires ApartFromPairs(ops.rename, q) && LevelEdits(ops, q) && ApartFromKeys(ops.append, q)
    ensures Get(Transform(o, ops), q) == Edited(None, ValuesAt(ops.replace, q), ValuesAt(ops.add, q), [])
  {
    var allowed := AllowOnly(o, ops.allow);
    var removed := DeleteAll(allowed, ops.remove);
    assert Get(removed, q) == None by {
      RemovePhase(allowed, ops.remove, q);
      if ops.allow != [] {
        RetainIsRestriction(o, ops.allow, q);
      }
    }
    RenameFrame(removed, ops.rename, q);
    EditsRead(RenameAll(removed, ops.rename), ops, q);
    ValuesAtNone(ops.append, q);
  }

  /** A replaced key that is there, on the allow list and neither removed nor renamed, ends with the last value given. */
  lemma ReplacedReadsLast(o: Members, ops: BodyOps, q: Path)
    requires Kept(o, ops, q) && ApartFromPairs(ops.rename, q) && Get(o, q).Some?
    requires LevelEdits(ops, q) && ApartFromKeys(ops.append, q) && ValuesAt(ops.replace, q) != []
    ensures Get(Transform(o, ops), q) == Some(Scalar(Last(ValuesAt(ops.replace, q))))
  {
    KeptEdited(o, ops, q);
    hide Transform, Get, ValuesAt;
  }

  /** An added key that is missing, or kept out, or removed first, ends with the first value given. */
  lemma AddedReadsFirst(o: Members, ops: BodyOps, q: Path)
    requires Get(o, q).None? || Covered(ops.remove, q)
    requires ApartFromPairs(ops.rename, q) && LevelEdits(ops, q) && ApartFromKeys(ops.append, q)
    requires ValuesAt(ops.add, q) != []
    requires ops.allow == [] || !AboveListed(o, ops.allow, q) || Covered(ops.remove, q)
    ensures Get(Transform(o, ops), q) == Some(Scalar(ValuesAt(ops.add, q)[0]))
  {
    MissingEdited(o, ops, q);
    hide Transform, Get, ValuesAt;
  }

  /** A key both removed and added ends with the added value: removing comes first. */
  lemma RemovedThenAdded(o: Members, ops: BodyOps, q: Path)
    requires Covered(ops.remove, q) && ApartFromPairs(ops.rename, q) && LevelEdits(ops, q)
    requires ApartFromKeys(ops.append, q) && ValuesAt(ops.add, q) != []
    ensures Get(Transform(o, ops), q) == Some(Scalar(ValuesAt(ops.add, q)[0]))
  {
    AddedReadsFirst(o, ops, q);
  }

  /** Appends come last: they accumulate onto what the pipeline leaves without them. */
  lemma AppendsAccumulate(o: Members, ops: BodyOps, q: Path)
    requires LevelKeys(ops.append, q)
    ensures Get(Transform(o, ops), q) ==
            Accumulated(Get(Transform(o, ops.(append := [])), q), ValuesAt(ops.append, q))
  {
    var added := AddAll(ReplaceAll(RenameAll(
      DeleteAll(AllowOnly(o, ops.allow), ops.remove), ops.rename), ops.replace), ops.add);
    AppendPhase(added, ops.append, q);
    assert AppendAll(added, []) == added;
  }
}
