/** Restoring media files into non-transactional storage, with an undo log and a fault at any step. */
module Media {
  import opened Outcomes
  import opened Bytes

  type Files = map<string, Bytes>

  /** One media member: the storage name it stands for unless unsafe, its bytes, and whether they match the manifest. */
  datatype Item = Item(name: Option<string>, content: Bytes, intact: bool)

  /** Storage together with the undo log: the names created and the bytes set aside. */
  datatype State = State(files: Files, created: seq<string>, replaced: map<string, Bytes>)

  /** Where an exception can strike while one item is being restored. */
  datatype Point = BeforeExists | InKeep | AfterKeep | AfterDelete | AfterSave | AfterRecord

  // ---- One item ----

  predicate Wanted(item: Item, referenced: set<string>) {
    item.name.Some? && item.name.value in referenced
  }

  function Kept(s: State, name: string): State {
    if name in s.files then s.(replaced := s.replaced[name := s.files[name]]) else s
  }

  function Deleted(s: State, name: string): State {
    s.(files := s.files - {name})
  }

  function Saved(s: State, name: string, content: Bytes): State {
    s.(files := s.files[name := content])
  }

  function Recorded(s: State, name: string): State {
    s.(created := s.created + [name])
  }

  /** The state in which an exception at a point of a wanted item leaves storage and log. */
  function Upto(s: State, item: Item, point: Point): State
    requires item.name.Some?
  {
    var name := item.name.value;
    match point
    case BeforeExists => s
    case InKeep => s
    case AfterKeep => Kept(s, name)
    case AfterDelete => Deleted(Kept(s, name), name)
    case AfterSave => Saved(Deleted(Kept(s, name), name), name, item.content)
    case AfterRecord => Recorded(Saved(Deleted(Kept(s, name), name), name, item.content), name)
  }

  /** The first n items restored. */
  function Run(s: State, items: seq<Item>, referenced: set<string>, n: nat): State
    requires n <= |items|
  {
    if n == 0 then s
    else
      var before := Run(s, items, referenced, n - 1);
      if Wanted(items[n - 1], referenced) then Upto(before, items[n - 1], AfterRecord) else before
  }

  /** The state an exception at item i leaves; one after the last item, when all are restored, is at |items|. */
  function Interrupted(s: State, items: seq<Item>, referenced: set<string>, i: nat, point: Point): State
    requires i <= |items|
  {
    var before := Run(s, items, referenced, i);
    if i < |items| && Wanted(items[i], referenced) then Upto(before, items[i], point) else before
  }

  // ---- Undoing ----

  /** Created names that overwrote nothing are removed; the bytes set aside are written back. */
  function RolledBack(s: State): Files {
    (s.files - (set n | n in s.created && n !in s.replaced)) + s.replaced
  }

  class Storage {
    var files: Files

    constructor (initial: Files)
      ensures files == initial
    {
      files := initial;
    }

    method Delete(name: string)
      modifies this
      ensures files == old(files) - {name}
    {
      files := files - {name};
    }

    /** Saving under a free name keeps the name. */
    method Save(name: string, content: Bytes)
      requires name !in files
      modifies this
      ensures files == old(files)[name := content]
    {
      files := files[name := content];
    }
  }

  class MediaUndo {
    var created: seq<string>
    var replaced: map<string, Bytes>

    constructor ()
      ensures created == [] && replaced == map[]
    {
      created, replaced := [], map[];
    }

    /** Copy a file aside before it is deleted. */
    method Keep(storage: Storage, name: string)
      requires name in storage.files
      modifies this
      ensures created == old(created) && replaced == old(replaced)[name := storage.files[name]]
    {
      replaced := replaced[name := storage.files[name]];
    }

    method Record(name: string)
      modifies this
      ensures replaced == old(replaced) && created == old(created) + [name]
    {
      created := created + [name];
    }

    /** Put storage back: remove what was created, then restore what was overwritten. */
    method Rollback(storage: Storage)
      modifies storage
      ensures storage.files == RolledBack(State(old(storage.files), created, replaced))
    {
      ghost var before := storage.files;
      for i := 0 to |created|
        invariant storage.files == before - (set n | n in created[..i] && n !in replaced)
      {
        assert created[..i + 1] == created[..i] + [created[i]];
        if created[i] in replaced {
          continue;
        }
        storage.Delete(created[i]);
      }
      assert created[..|created|] == created;
      ghost var swept := storage.files;
      var todo := replaced.Keys;
      while todo != {}
        invariant todo <= replaced.Keys
        invariant storage.files == swept + (replaced - todo)
        decreases todo
      {
        var name :| name in todo;
        storage.Delete(name);
        storage.Save(name, replaced[name]);
        todo := todo - {name};
      }
      assert replaced - {} == replaced;
    }
  }

  ghost function View(storage: Storage, undo: MediaUndo): State
    reads storage, undo
  {
    State(storage.files, undo.created, undo.replaced)
  }

  /**
   * Copy every referenced member back into storage under its exact name. An exception may strike at any step; `at` and
   * `point` then say where. A member that does not match the manifest fails after it has been recorded.
   */
  method RestoreMedia(storage: Storage, undo: MediaUndo, items: seq<Item>, referenced: set<string>)
    returns (ok: bool, skipped: nat, ghost at: nat, ghost point: Point)
    modifies storage, undo
    ensures ok ==> View(storage, undo) == Run(old(View(storage, undo)), items, referenced, |items|)
    ensures ok ==> forall i | 0 <= i < |items| && Wanted(items[i], referenced) :: items[i].intact
    ensures !ok ==> at < |items| && View(storage, undo) == Interrupted(old(View(storage, undo)), items, referenced, at, point)
  {
    skipped, at, point := 0, 0, BeforeExists;
    ghost var s := View(storage, undo);
    for i := 0 to |items|
      invariant View(storage, undo) == Run(s, items, referenced, i)
      invariant forall k | 0 <= k < i && Wanted(items[k], referenced) :: items[k].intact
    {
      at := i;
      if * { return false, skipped, i, BeforeExists; }
      var item := items[i];
      if !(item.name.Some? && item.name.value in referenced) {
        skipped := skipped + 1;
        continue;
      }
      var name := item.name.value;
      if name in storage.files {
        if * { return false, skipped, i, InKeep; }
        undo.Keep(storage, name);
        if * { return false, skipped, i, AfterKeep; }
        storage.Delete(name);
      }
      assert View(storage, undo) == Upto(Run(s, items, referenced, i), item, AfterDelete);
      if * { return false, skipped, i, AfterDelete; }
      storage.Save(name, item.content);
      if * { return false, skipped, i, AfterSave; }
      undo.Record(name);
      if !item.intact { return false, skipped, i, AfterRecord; }
      if * { return false, skipped, i, AfterRecord; }
    }
    ok := true;
  }

  // ---- What the log holds, name by name ----

  ghost predicate Fresh(s: State) {
    s.created == [] && s.replaced == map[]
  }

  /** The last of the first n items that is written under a name. */
  function Last(items: seq<Item>, referenced: set<string>, n: nat, name: string): (r: Option<nat>)
    requires n <= |items|
    ensures r.Some? ==> r.value < n && Wanted(items[r.value], referenced) && items[r.value].name == Some(name)
    ensures r.Some? ==> forall j | r.value < j < n && Wanted(items[j], referenced) :: items[j].name != Some(name)
    ensures r.None? ==> forall j | 0 <= j < n && Wanted(items[j], referenced) :: items[j].name != Some(name)
  {
    if n == 0 then None
    else if Wanted(items[n - 1], referenced) && items[n - 1].name == Some(name) then Some(n - 1)
    else Last(items, referenced, n - 1, name)
  }

  /** What a name holds when item j is written under it: an earlier item's bytes, or the original ones. */
  function Found(s: State, items: seq<Item>, referenced: set<string>, j: nat, name: string): Option<Bytes>
    requires j <= |items|
  {
    var p := Last(items, referenced, j, name);
    if p.Some? then Some(items[p.value].content) else if name in s.files then Some(s.files[name]) else None
  }

  function At(files: Files, name: string): Option<Bytes> {
    if name in files then Some(files[name]) else None
  }

  /** Storage and log after the first n items, at one name. */
  lemma {:induction false} RunAt(s: State, items: seq<Item>, referenced: set<string>, n: nat, name: string)
    requires n <= |items| && Fresh(s)
    ensures
      var t, last := Run(s, items, referenced, n), Last(items, referenced, n, name);
      && At(t.files, name) == Found(s, items, referenced, n, name)
      && (name in t.created <==> last.Some?)
      && At(t.replaced, name) == if last.Some? then Found(s, items, referenced, last.value, name) else None
    decreases n
  {
    if n > 0 {
      RunAt(s, items, referenced, n - 1, name);
    }
  }

  // ---- When rolling back is exact ----

  /** The last item whose turn may have set a name's bytes aside. */
  function LastKept(items: seq<Item>, referenced: set<string>, i: nat, point: Point, name: string): Option<nat>
    requires i <= |items|
  {
    if i < |items| && Wanted(items[i], referenced) && items[i].name == Some(name) && point != BeforeExists && point != InKeep
    then Some(i)
    else Last(items, referenced, i, name)
  }

  /** What was set aside last under the name, if an earlier item had written it, is what was there originally. */
  ghost predicate KeptOriginal(s: State, items: seq<Item>, referenced: set<string>, i: nat, point: Point, name: string)
    requires i <= |items|
  {
    var j := LastKept(items, referenced, i, point, name);
    j.Some? && Last(items, referenced, j.value, name).Some? ==>
      name in s.files && s.files[name] == items[Last(items, referenced, j.value, name).value].content
  }

  /** A new file saved and not yet recorded. */
  predicate Unrecorded(s: State, items: seq<Item>, referenced: set<string>, i: nat, point: Point)
    requires i <= |items|
  {
    && i < |items| && point == AfterSave && Wanted(items[i], referenced)
    && items[i].name.value !in s.files && Last(items, referenced, i, items[i].name.value).None?
  }

  /** What decides, before anything is written, whether rolling back at a point will be exact. */
  ghost predicate UndoExact(s: State, items: seq<Item>, referenced: set<string>, i: nat, point: Point)
    requires i <= |items|
  {
    && !Unrecorded(s, items, referenced, i, point)
    && forall name :: KeptOriginal(s, items, referenced, i, point, name)
  }

  lemma RolledBackAt(s: State, name: string)
    ensures At(RolledBack(s), name) ==
            if name in s.replaced then Some(s.replaced[name])
            else if name in s.created then None
            else At(s.files, name)
  {
  }

  /** At a name the interrupted item is not written under, or before its turn, the log is that of the items before. */
  lemma UndoneElsewhere(s: State, items: seq<Item>, referenced: set<string>, i: nat, point: Point, name: string)
    requires Fresh(s) && i <= |items|
    requires !(i < |items| && Wanted(items[i], referenced) && items[i].name == Some(name)) || point == BeforeExists || point == InKeep
    ensures At(RolledBack(Interrupted(s, items, referenced, i, point)), name) == At(s.files, name) <==>
            KeptOriginal(s, items, referenced, i, point, name)
  {
    RunAt(s, items, referenced, i, name);
    RolledBackAt(Interrupted(s, items, referenced, i, point), name);
  }

  lemma UndoneHere(s: State, items: seq<Item>, referenced: set<string>, i: nat, point: Point)
    requires Fresh(s) && i < |items| && Wanted(items[i], referenced) && point != BeforeExists && point != InKeep
    ensures
      var name := items[i].name.value;
      At(RolledBack(Interrupted(s, items, referenced, i, point)), name) == At(s.files, name) <==>
      !Unrecorded(s, items, referenced, i, point) && KeptOriginal(s, items, referenced, i, point, name)
  {
    var name := items[i].name.value;
    RunAt(s, items, referenced, i, name);
    RolledBackAt(Interrupted(s, items, referenced, i, point), name);
  }

  lemma SameEverywhere(a: Files, b: Files)
    ensures a == b <==> forall name :: At(a, name) == At(b, name)
  {
    if forall name :: At(a, name) == At(b, name) {
      forall name ensures name in a <==> name in b {
        assert At(a, name) == At(b, name);
      }
      forall name | name in a ensures a[name] == b[name] {
        assert At(a, name) == At(b, name);
      }
    }
  }

  /**
   * Whatever step an exception strikes at, rolling back returns storage to exactly its contents before the restore if and
   * only if no new file was saved without being recorded, and every name whose bytes were set aside after an earlier item
   * had written them held those bytes originally.
   */
  lemma RollbackRestores(s: State, items: seq<Item>, referenced: set<string>, i: nat, point: Point)
    requires Fresh(s) && i <= |items|
    ensures RolledBack(Interrupted(s, items, referenced, i, point)) == s.files <==> UndoExact(s, items, referenced, i, point)
  {
    var back := RolledBack(Interrupted(s, items, referenced, i, point));
    SameEverywhere(back, s.files);
    forall name ensures At(back, name) == At(s.files, name) <==>
        && KeptOriginal(s, items, referenced, i, point, name)
        && !(Unrecorded(s, items, referenced, i, point) && items[i].name == Some(name))
    {
      if i < |items| && Wanted(items[i], referenced) && items[i].name == Some(name) && point != BeforeExists && point != InKeep {
        UndoneHere(s, items, referenced, i, point);
      } else {
        UndoneElsewhere(s, items, referenced, i, point, name);
      }
    }
    if Unrecorded(s, items, referenced, i, point) {
      assert At(back, items[i].name.value) != At(s.files, items[i].name.value);
    }
  }

  /** Members with distinct names leave nothing to chance but the unrecorded file. */
  lemma DistinctNamesUndo(s: State, items: seq<Item>, referenced: set<string>, i: nat, point: Point)
    requires i <= |items|
    requires forall j, k | 0 <= j < k < |items| && Wanted(items[j], referenced) && Wanted(items[k], referenced) ::
               items[j].name != items[k].name
    ensures UndoExact(s, items, referenced, i, point) <==> !Unrecorded(s, items, referenced, i, point)
  {
  }

  /** On success a referenced name holds the bytes of the last member written under it, every other name what it held. */
  lemma RestoredFiles(s: State, items: seq<Item>, referenced: set<string>, name: string)
    requires Fresh(s)
    ensures At(Run(s, items, referenced, |items|).files, name) == Found(s, items, referenced, |items|, name)
  {
    RunAt(s, items, referenced, |items|, name);
  }

  /** Two members that normalise to one name: rolling back brings the first one's bytes, so the undo is exact only if those were there. */
  lemma DuplicateNameDefeatsUndo(s: State, name: string, first: Bytes, second: Bytes)
    requires Fresh(s)
    ensures
      var items := [Item(Some(name), first, true), Item(Some(name), second, true)];
      && RolledBack(Interrupted(s, items, {name}, 1, AfterRecord)) == s.files[name := first]
      && (UndoExact(s, items, {name}, 1, AfterRecord) <==> name in s.files && s.files[name] == first)
  {
    var items := [Item(Some(name), first, true), Item(Some(name), second, true)];
    var one := Run(s, items, {name}, 1);
    assert one == Upto(Run(s, items, {name}, 0), items[0], AfterRecord);
    var two := Upto(one, items[1], AfterRecord);
    assert two.replaced == one.replaced[name := first];
    assert two.created == [name, name];
    assert RolledBack(two) == s.files[name := first];
    RollbackRestores(s, items, {name}, 1, AfterRecord);
    assert s.files[name := first] == s.files <==> name in s.files && s.files[name] == first;
  }
}
