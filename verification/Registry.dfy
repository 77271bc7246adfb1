/** File ids and the two-level table of uploads in progress. */
module Registry {

  const MAX_UPLOAD_NUM: nat := 5

  datatype Option<T> = None | Some(value: T)

  type Table<V> = map<string, map<int, V>>

  /** The lowest free id, or -1. */
  function LowestFree(free: seq<bool>, from: nat): (id: int)
    requires from <= |free|
    ensures id == -1 || from <= id < |free|
    ensures id >= 0 ==> free[id] && forall j :: from <= j < id ==> !free[j]
    ensures id == -1 ==> forall j :: from <= j < |free| ==> !free[j]
    decreases |free| - from
  {
    if from == |free| then -1 else if free[from] then from else LowestFree(free, from + 1)
  }

  /** CSession's id pool: true means free. */
  class FileIds {
    const free: array<bool>

    constructor ()
      ensures fresh(free) && free.Length == MAX_UPLOAD_NUM && forall i :: 0 <= i < free.Length ==> free[i]
    {
      free := new bool[MAX_UPLOAD_NUM](_ => true);
    }

    method GetFileId() returns (fileId: int)
      modifies free
      ensures fileId == LowestFree(old(free[..]), 0)
      ensures free[..] == if fileId == -1 then old(free[..]) else old(free[..])[fileId := false]
    {
      fileId := -1;
      var i := 0;
      while i < free.Length
        invariant i <= free.Length && fileId == -1
        invariant free[..] == old(free[..])
        invariant LowestFree(old(free[..]), 0) == LowestFree(old(free[..]), i)
      {
        if free[i] {
          fileId := i;
          free[i] := false;
          return;
        }
        i := i + 1;
      }
    }

    method Release(fileId: nat)
      requires fileId < free.Length
      modifies free
      ensures free[..] == old(free[..])[fileId := true]
    {
      free[fileId] := true;
    }
  }

  function Lookup<V>(files: Table<V>, session: string, id: int): Option<V> {
    if session in files && id in files[session] then Some(files[session][id]) else None
  }

  function Inner<V>(files: Table<V>, session: string): map<int, V> {
    if session in files then files[session] else map[]
  }

  /** The table without one entry, and without its session when that was the last one. */
  function Without<V>(files: Table<V>, session: string, id: int): Table<V>
    requires session in files
  {
    var inner := files[session] - {id};
    if inner == map[] then files - {session} else files[session := inner]
  }

  /** FileManagement: the table `m_Files`. */
  class FileManagement<V> {
    var files: Table<V>

    constructor ()
      ensures files == map[]
    {
      files := map[];
    }

    /** `added` is false when the source throws because the id is in use. */
    method AddFile(session: string, id: int, file: V) returns (added: bool)
      modifies this
      ensures added == Lookup(old(files), session, id).None?
      ensures added ==> files == old(files)[session := Inner(old(files), session)[id := file]]
      ensures !added ==> files == old(files)
    {
      if session !in files {
        files := files[session := map[]];
      }
      var inner := files[session];
      if id in inner {
        assert files == old(files);
        return false;
      }
      files := files[session := inner[id := file]];
      return true;
    }

    method FindFile(session: string, id: int) returns (file: Option<V>)
      ensures file == Lookup(files, session, id)
    {
      if session !in files {
        return None;
      }
      var inner := files[session];
      if id !in inner {
        return None;
      }
      return Some(inner[id]);
    }

    method RemoveFile(session: string, id: int) returns (removed: bool)
      modifies this
      ensures removed == Lookup(old(files), session, id).Some?
      ensures files == if removed then Without(old(files), session, id) else old(files)
    {
      if session !in files {
        return false;
      }
      var inner := files[session];
      if id !in inner {
        return false;
      }
      inner := inner - {id};
      files := files[session := inner];
      if inner == map[] {
        files := files - {session};
      }
      assert files == Without(old(files), session, id);
      return true;
    }
  }

  // ----- uploads coming and going -----

  /** `free` holds each session's id pool, `used` the ids that have been given to an upload. Each FinalCheck that has
      sent FileComplete frees its id and then removes the entry; `ending` counts, id by id, those between the two. An
      upload may be completed by several checks, and an id be freed by a check of an earlier upload that had it; which
      upload a check belongs to is not recorded, so that any id that was ever given out may be freed at any time. */
  datatype State = State(
    free: map<string, seq<bool>>, files: Table<nat>, used: set<(string, int)>, ending: multiset<(string, int)>)

  datatype Action =
    | Connect(session: string)
    | Upload(session: string, file: nat)
    | UploadFails(session: string)
    | FreeId(session: string, id: int)
    | RemoveEntry(session: string, id: int)

  ghost predicate Enabled(s: State, a: Action) {
    match a
    case Connect(u) => u !in s.free
    case Upload(u, _) => u in s.free
    case UploadFails(u) => u in s.free
    case FreeId(u, id) => (u, id) in s.used && HasId(s, u, id)
    case RemoveEntry(u, id) => (u, id) in s.ending
  }

  predicate HasId(s: State, u: string, id: int) {
    u in s.free && 0 <= id < |s.free[u]|
  }

  function Free(s: State, u: string, id: int, free: bool): State
    requires HasId(s, u, id)
  {
    s.(free := s.free[u := s.free[u][id := free]])
  }

  /** HandleUploadRequest: no id means rejection; a collision keeps the id taken and adds nothing. */
  function DoUpload(s: State, u: string, file: nat): State
    requires u in s.free
  {
    var id := LowestFree(s.free[u], 0);
    if id == -1 then s
    else if Lookup(s.files, u, id).Some? then Free(s, u, id, false)
    else Free(s, u, id, false).(files := s.files[u := Inner(s.files, u)[id := file]], used := s.used + {(u, id)})
  }

  /** The same when the save file cannot be opened: the receiver's constructor throws after the id was taken, and
      before the table is touched. */
  function DoFail(s: State, u: string): State
    requires u in s.free
  {
    var id := LowestFree(s.free[u], 0);
    if id == -1 then s else Free(s, u, id, false)
  }

  /** removeFile: nothing happens without an entry. */
  function WithoutAny(files: Table<nat>, u: string, id: int): Table<nat> {
    if Lookup(files, u, id).Some? then Without(files, u, id) else files
  }

  function Step(s: State, a: Action): State
    requires Enabled(s, a)
  {
    match a
    case Connect(u) => s.(free := s.free[u := seq(MAX_UPLOAD_NUM, _ => true)])
    case Upload(u, file) => DoUpload(s, u, file)
    case UploadFails(u) => DoFail(s, u)
    case FreeId(u, id) => Free(s, u, id, true).(ending := s.ending + multiset{(u, id)})
    case RemoveEntry(u, id) => s.(files := WithoutAny(s.files, u, id), ending := s.ending - multiset{(u, id)})
  }

  /** An upload request collides: the pool hands out an id whose entry is still in the table. */
  predicate Collides(s: State, u: string)
    requires u in s.free
  {
    var id := LowestFree(s.free[u], 0);
    id != -1 && Lookup(s.files, u, id).Some?
  }

  const EMPTY := State(map[], map[], {}, multiset{})

  /** HandleUploadRequest on a session's pool and the shared table; `opens` tells whether the receiver's constructor
      can open the save file, and -1 stands for RejectUpload. */
  method HandleUploadRequest(
      ids: FileIds, table: FileManagement<nat>, session: string, file: nat, opens: bool, ghost s: State)
      returns (fileId: int)
    requires session in s.free && s.free[session] == ids.free[..] && s.files == table.files
    modifies ids.free, table
    ensures var t := Step(s, if opens then Upload(session, file) else UploadFails(session));
            t.free[session] == ids.free[..] && t.files == table.files
    ensures fileId == if !opens || Collides(s, session) then -1 else LowestFree(s.free[session], 0)
  {
    fileId := ids.GetFileId();
    if fileId == -1 {
      return;
    }
    if !opens {
      fileId := -1;
      return;
    }
    var added := table.AddFile(session, fileId, file);
    if !added {
      fileId := -1;
    }
  }

  /** What completing the upload with this id does: free the id, remove the entry. */
  function Completed(s: State, u: string, id: int): State
    requires HasId(s, u, id)
  {
    Free(s, u, id, true).(files := WithoutAny(s.files, u, id))
  }

  /** The end of FinalCheck after FileComplete. */
  method FinishUpload(ids: FileIds, table: FileManagement<nat>, session: string, id: int, ghost s: State)
    requires session in s.free && s.free[session] == ids.free[..] && s.files == table.files && 0 <= id < ids.free.Length
    modifies ids.free, table
    ensures var t := Completed(s, session, id); t.free[session] == ids.free[..] && t.files == table.files
  {
    ids.Release(id);
    var _ := table.RemoveFile(session, id);
  }

  /** Without anything in between, completing is the two steps of the transition system. */
  lemma CompletedInTwoSteps(s: State, u: string, id: int)
    requires Enabled(s, FreeId(u, id))
    ensures var t := Step(s, FreeId(u, id));
            Enabled(t, RemoveEntry(u, id)) && Step(t, RemoveEntry(u, id)) == Completed(s, u, id)
  {
    assert s.ending + multiset{(u, id)} - multiset{(u, id)} == s.ending;
  }

  /** Removing an entry removes that entry only. */
  lemma WithoutLookup<V>(files: Table<V>, u: string, id: int, v: string, i: int)
    requires u in files
    ensures Lookup(Without(files, u, id), v, i) == if v == u && i == id then None else Lookup(files, v, i)
  {
    if v == u && i != id && i in files[u] {
      assert i in files[u] - {id};
    }
  }

  lemma WithoutAnyLookup(files: Table<nat>, u: string, id: int, v: string, i: int)
    ensures Lookup(WithoutAny(files, u, id), v, i) == if v == u && i == id then None else Lookup(files, v, i)
  {
    if Lookup(files, u, id).Some? {
      WithoutLookup(files, u, id, v, i);
    }
  }

  ghost predicate ValidRun(s: State, acts: seq<Action>)
    decreases |acts|
  {
    acts == [] || (Enabled(s, acts[0]) && ValidRun(Step(s, acts[0]), acts[1..]))
  }

  ghost function Run(s: State, acts: seq<Action>): State
    requires ValidRun(s, acts)
    decreases |acts|
  {
    if acts == [] then s else Run(Step(s, acts[0]), acts[1..])
  }

  // ----- what every run keeps -----

  /** Pools have five ids, no session table is empty, entries have valid ids that were given out. */
  ghost predicate Formed(s: State) {
    && (forall u :: u in s.free ==> |s.free[u]| == MAX_UPLOAD_NUM)
    && (forall u :: u in s.files ==> u in s.free && s.files[u] != map[])
    && (forall u, id :: u in s.files && id in s.files[u] ==> (u, id) in s.used)
    && (forall p :: p in s.used ==> p.0 in s.free && 0 <= p.1 < MAX_UPLOAD_NUM)
    && (forall p :: p in s.ending ==> p in s.used)
  }

  lemma UploadFormed(s: State, u: string, file: nat)
    requires Formed(s) && u in s.free
    ensures Formed(DoUpload(s, u, file))
  {
    var id, t := LowestFree(s.free[u], 0), DoUpload(s, u, file);
    if id != -1 && !Collides(s, u) {
      assert id in t.files[u];
    }
  }

  lemma RemoveFormed(s: State, u: string, id: int)
    requires Formed(s) && Enabled(s, RemoveEntry(u, id))
    ensures Formed(Step(s, RemoveEntry(u, id)))
  {
    var t := Step(s, RemoveEntry(u, id));
    forall v, i | v in t.files && i in t.files[v]
      ensures (v, i) in t.used
    {
      WithoutAnyLookup(s.files, u, id, v, i);
      assert Lookup(t.files, v, i).Some?;
    }
  }

  lemma StepFormed(s: State, a: Action)
    requires Formed(s) && Enabled(s, a)
    ensures Formed(Step(s, a))
  {
    match a
    case Connect(_) =>
    case Upload(u, file) => UploadFormed(s, u, file);
    case UploadFails(_) =>
    case FreeId(_, _) =>
    case RemoveEntry(u, id) => RemoveFormed(s, u, id);
  }

  lemma {:induction false} RunFormed(s: State, acts: seq<Action>)
    requires Formed(s) && ValidRun(s, acts)
    ensures Formed(Run(s, acts))
    decreases |acts|
  {
    if acts != [] {
      StepFormed(s, acts[0]);
      RunFormed(Step(s, acts[0]), acts[1..]);
    }
  }

  /** A session has at most five uploads in progress. */
  lemma AtMostFive(s: State, u: string)
    requires Formed(s) && u in s.files
    ensures |s.files[u]| <= 5
  {
    var used: set<int>, ids: set<int> := s.files[u].Keys, {0, 1, 2, 3, 4};
    forall i | i in used
      ensures i in ids
    {
      assert (u, i) in s.used;
    }
    assert ids == used + (ids - used);
  }

  // ----- an id and its entry -----

  /** Taken, with an entry. */
  predicate Held(s: State, u: string, id: int) {
    HasId(s, u, id) && !s.free[u][id] && Lookup(s.files, u, id).Some?
  }

  /** Taken although no upload has it. */
  predicate Leaked(s: State, u: string, id: int) {
    HasId(s, u, id) && !s.free[u][id] && Lookup(s.files, u, id).None?
  }

  /** Free although an upload has it: the next request that is given it collides. */
  predicate Exposed(s: State, u: string, id: int) {
    HasId(s, u, id) && s.free[u][id] && Lookup(s.files, u, id).Some?
  }

  /** A request is given the id, whatever comes of it. */
  predicate Takes(s: State, a: Action, u: string, id: int) {
    (a.Upload? || a.UploadFails?) && a.session == u && u in s.free && LowestFree(s.free[u], 0) == id && id >= 0
  }

  /** A request collides exactly when the id it is given is free although an upload has it. */
  lemma CollidesExactly(s: State, u: string)
    requires u in s.free
    ensures Collides(s, u) <==> Exposed(s, u, LowestFree(s.free[u], 0))
  {
  }

  /** The receiver it is given to cannot be constructed. */
  predicate FailsOn(s: State, a: Action, u: string, id: int) {
    a.UploadFails? && Takes(s, a, u, id) && Lookup(s.files, u, id).None?
  }

  /** The step at which an id gets lost: its entry goes while the id is taken, or its receiver cannot be constructed. */
  predicate Loses(s: State, a: Action, u: string, id: int) {
    (Held(s, u, id) && a == RemoveEntry(u, id)) || FailsOn(s, a, u, id)
  }

  /** The step at which an upload's id becomes free. */
  predicate Exposes(s: State, a: Action, u: string, id: int) {
    a == FreeId(u, id) && Lookup(s.files, u, id).Some?
  }

  /** What a step does to the pool. */
  lemma StepPool(s: State, a: Action, u: string, id: int)
    requires Formed(s) && Enabled(s, a)
    ensures HasId(Step(s, a), u, id) <==> HasId(s, u, id) || (a == Connect(u) && 0 <= id < MAX_UPLOAD_NUM)
    ensures HasId(Step(s, a), u, id) ==>
              (Step(s, a).free[u][id] <==>
                 (a == Connect(u) || a == FreeId(u, id) || (s.free[u][id] && !Takes(s, a, u, id))))
  {
  }

  /** What a step does to the table. */
  lemma StepEntry(s: State, a: Action, u: string, id: int)
    requires Formed(s) && Enabled(s, a)
    ensures Lookup(Step(s, a).files, u, id) ==
            if a == RemoveEntry(u, id) then None
            else if a.Upload? && Takes(s, a, u, id) && Lookup(s.files, u, id).None? then Some(a.file)
            else Lookup(s.files, u, id)
  {
    if a.RemoveEntry? {
      WithoutAnyLookup(s.files, a.session, a.id, u, id);
    }
  }

  /** What one step does to an id, exactly. */
  lemma StepExactly(s: State, a: Action, u: string, id: int)
    requires Formed(s) && Enabled(s, a)
    ensures Leaked(Step(s, a), u, id) <==> (Leaked(s, u, id) && a != FreeId(u, id)) || Loses(s, a, u, id)
    ensures Exposed(Step(s, a), u, id) <==>
              (Exposed(s, u, id) && !Takes(s, a, u, id) && a != RemoveEntry(u, id)) || Exposes(s, a, u, id)
  {
    StepPool(s, a, u, id);
    StepEntry(s, a, u, id);
  }

  /** Some check frees the id in the run. */
  predicate Freed(acts: seq<Action>, u: string, id: int) {
    acts != [] && (acts[0] == FreeId(u, id) || Freed(acts[1..], u, id))
  }

  /** At some step of the run the id gets lost, and no check frees it afterwards. */
  ghost predicate LostForGood(s: State, acts: seq<Action>, u: string, id: int)
    requires ValidRun(s, acts)
    decreases |acts|
  {
    acts != [] && ((Loses(s, acts[0], u, id) && !Freed(acts[1..], u, id))
                   || LostForGood(Step(s, acts[0]), acts[1..], u, id))
  }

  lemma {:induction false} RunLeaksExactly(s: State, acts: seq<Action>, u: string, id: int)
    requires Formed(s) && ValidRun(s, acts)
    ensures Leaked(Run(s, acts), u, id) <==>
              (Leaked(s, u, id) && !Freed(acts, u, id)) || LostForGood(s, acts, u, id)
    decreases |acts|
  {
    if acts != [] {
      StepFormed(s, acts[0]);
      StepExactly(s, acts[0], u, id);
      RunLeaksExactly(Step(s, acts[0]), acts[1..], u, id);
    }
  }

  /** When an id is lost, exactly and whatever the checks do: it is taken without an entry at the end of a run if and
      only if at some step its entry went while it was taken, or its receiver could not be constructed, and no check
      freed it afterwards. */
  lemma LeakedExactly(acts: seq<Action>, u: string, id: int)
    requires ValidRun(EMPTY, acts)
    ensures Leaked(Run(EMPTY, acts), u, id) <==> LostForGood(EMPTY, acts, u, id)
  {
    RunLeaksExactly(EMPTY, acts, u, id);
  }

  /** No request of the run is given the id. */
  ghost predicate NeverGiven(s: State, acts: seq<Action>, u: string, id: int)
    requires ValidRun(s, acts)
    decreases |acts|
  {
    acts == [] || (!Takes(s, acts[0], u, id) && NeverGiven(Step(s, acts[0]), acts[1..], u, id))
  }

  /** Until a check frees it a leaked id stays so and is given to nobody. */
  lemma {:induction false} LeakLasts(s: State, acts: seq<Action>, u: string, id: int)
    requires Formed(s) && Leaked(s, u, id) && ValidRun(s, acts) && !Freed(acts, u, id)
    ensures Leaked(Run(s, acts), u, id) && NeverGiven(s, acts, u, id)
    decreases |acts|
  {
    if acts != [] {
      StepFormed(s, acts[0]);
      StepExactly(s, acts[0], u, id);
      LeakLasts(Step(s, acts[0]), acts[1..], u, id);
    }
  }

  /** From here on no request is given the id and no check removes its entry. */
  ghost predicate LeftAlone(s: State, acts: seq<Action>, u: string, id: int)
    requires ValidRun(s, acts)
    decreases |acts|
  {
    acts == [] || (!Takes(s, acts[0], u, id) && acts[0] != RemoveEntry(u, id)
                   && LeftAlone(Step(s, acts[0]), acts[1..], u, id))
  }

  /** At some step of the run a check frees the id of an entry, which is left alone afterwards. */
  ghost predicate ExposedLast(s: State, acts: seq<Action>, u: string, id: int)
    requires ValidRun(s, acts)
    decreases |acts|
  {
    acts != [] && ((Exposes(s, acts[0], u, id) && LeftAlone(Step(s, acts[0]), acts[1..], u, id))
                   || ExposedLast(Step(s, acts[0]), acts[1..], u, id))
  }

  lemma {:induction false} RunExposesExactly(s: State, acts: seq<Action>, u: string, id: int)
    requires Formed(s) && ValidRun(s, acts)
    ensures Exposed(Run(s, acts), u, id) <==>
              (Exposed(s, u, id) && LeftAlone(s, acts, u, id)) || ExposedLast(s, acts, u, id)
    decreases |acts|
  {
    if acts != [] {
      StepFormed(s, acts[0]);
      StepExactly(s, acts[0], u, id);
      RunExposesExactly(Step(s, acts[0]), acts[1..], u, id);
    }
  }

  /** In every run from the empty registry: pools have five ids, no session table is empty, every entry has a valid id,
      a session has at most five, and the next request of a session collides if and only if the id it will be given has
      an entry whose id some check has freed since, with neither the id taken nor the entry removed afterwards. */
  lemma FormedInEveryRun(acts: seq<Action>, u: string)
    requires ValidRun(EMPTY, acts)
    ensures var s := Run(EMPTY, acts);
            && Formed(s)
            && (u in s.files ==> |s.files[u]| <= MAX_UPLOAD_NUM)
            && (u in s.free ==> (Collides(s, u) <==> ExposedLast(EMPTY, acts, u, LowestFree(s.free[u], 0))))
  {
    RunFormed(EMPTY, acts);
    var s := Run(EMPTY, acts);
    if u in s.files {
      AtMostFive(s, u);
    }
    if u in s.free {
      CollidesExactly(s, u);
      RunExposesExactly(EMPTY, acts, u, LowestFree(s.free[u], 0));
    }
  }

  /** An upload keeps its id and entry in every run in which no check frees this id or is still to remove this entry:
      not its own, as when the hash phase completes it, and not one of an earlier upload with the same id. */
  lemma {:induction false} NotFreedIsKept(s: State, acts: seq<Action>, u: string, id: int)
    requires Formed(s) && ValidRun(s, acts) && Held(s, u, id)
    requires (u, id) !in s.ending && !Freed(acts, u, id)
    ensures Held(Run(s, acts), u, id) && Lookup(Run(s, acts).files, u, id) == Lookup(s.files, u, id)
    decreases |acts|
  {
    if acts != [] {
      StepFormed(s, acts[0]);
      StepKeepsHeld(s, acts[0], u, id);
      NotFreedIsKept(Step(s, acts[0]), acts[1..], u, id);
    }
  }

  lemma StepKeepsHeld(s: State, a: Action, u: string, id: int)
    requires Formed(s) && Enabled(s, a) && Held(s, u, id) && (u, id) !in s.ending && a != FreeId(u, id)
    ensures Held(Step(s, a), u, id) && Lookup(Step(s, a).files, u, id) == Lookup(s.files, u, id)
    ensures (u, id) !in Step(s, a).ending
  {
    StepPool(s, a, u, id);
    StepEntry(s, a, u, id);
  }

  // ----- freeing and removing in one piece -----

  /** Freeing the id and removing the entry without anything in between. */
  ghost predicate Atomic(acts: seq<Action>)
    decreases |acts|
  {
    acts == []
    || ((acts[0].Connect? || acts[0].Upload? || acts[0].UploadFails?) && Atomic(acts[1..]))
    || (|acts| > 1 && acts[0].FreeId? && acts[1] == RemoveEntry(acts[0].session, acts[0].id) && Atomic(acts[2..]))
  }

  ghost predicate NoneExposed(s: State) {
    forall u, id :: !Exposed(s, u, id)
  }

  ghost predicate NoneLeaked(s: State) {
    forall u, id :: !Leaked(s, u, id)
  }

  /** Every receiver can be constructed. */
  predicate AllOpen(acts: seq<Action>) {
    forall i :: 0 <= i < |acts| ==> !acts[i].UploadFails?
  }

  /** A completion, exactly and in whatever state: it changes nothing if and only if the id is free and has no entry, as
      after another completion of the same upload. Otherwise it takes the id, and the entry if there is one, away from
      whoever has them now. No other entry is touched. */
  lemma SecondCompletionExactly(s: State, u: string, id: int, v: string, i: int)
    requires HasId(s, u, id)
    ensures var t := Completed(s, u, id);
            && (t == s <==> Lookup(s.files, u, id).None? && s.free[u][id])
            && Lookup(t.files, u, id).None? && t.free[u][id]
            && ((v, i) != (u, id) ==> Lookup(t.files, v, i) == Lookup(s.files, v, i))
  {
    var t := Completed(s, u, id);
    WithoutAnyLookup(s.files, u, id, v, i);
    WithoutAnyLookup(s.files, u, id, u, id);
    if Lookup(s.files, u, id).None? && s.free[u][id] {
      assert s.free[u][id := true] == s.free[u];
      assert s.free[u := s.free[u]] == s.free;
    } else if Lookup(s.files, u, id).None? {
      assert t.free[u][id] != s.free[u][id];
    }
  }

  lemma CompletedAgrees(s: State, u: string, id: int)
    requires Formed(s) && Enabled(s, FreeId(u, id))
    ensures var t := Completed(s, u, id);
            Formed(t) && (NoneExposed(s) ==> NoneExposed(t)) && (NoneLeaked(s) ==> NoneLeaked(t))
  {
    var t := Completed(s, u, id);
    CompletedInTwoSteps(s, u, id);
    StepFormed(s, FreeId(u, id));
    StepFormed(Step(s, FreeId(u, id)), RemoveEntry(u, id));
    forall v, i
      ensures (v, i) == (u, id) ==> !Exposed(t, v, i) && !Leaked(t, v, i)
      ensures (v, i) != (u, id) ==> (Exposed(t, v, i) <==> Exposed(s, v, i)) && (Leaked(t, v, i) <==> Leaked(s, v, i))
    {
      SecondCompletionExactly(s, u, id, v, i);
    }
  }

  /** What comes and goes in one piece first. */
  lemma AtomicStep(s: State, acts: seq<Action>) returns (t: State, rest: seq<Action>)
    requires Formed(s) && NoneExposed(s) && ValidRun(s, acts) && Atomic(acts) && acts != []
    ensures Formed(t) && NoneExposed(t) && |rest| < |acts| && ValidRun(t, rest) && Atomic(rest)
    ensures Run(s, acts) == Run(t, rest)
    ensures AllOpen(acts) ==> AllOpen(rest) && (NoneLeaked(s) ==> NoneLeaked(t))
  {
    if acts[0].FreeId? {
      var u, id := acts[0].session, acts[0].id;
      assert acts[1..][0] == acts[1] && acts[1..][1..] == acts[2..];
      CompletedInTwoSteps(s, u, id);
      CompletedAgrees(s, u, id);
      t, rest := Completed(s, u, id), acts[2..];
    } else {
      StepFormed(s, acts[0]);
      t, rest := Step(s, acts[0]), acts[1..];
      forall u, id
        ensures !Exposed(t, u, id)
        ensures NoneLeaked(s) && !acts[0].UploadFails? ==> !Leaked(t, u, id)
      {
        StepExactly(s, acts[0], u, id);
      }
    }
  }

  /** If every check frees and removes in one piece then, however many checks complete an upload, no request collides;
      and if besides every receiver can be constructed, ids and entries agree: an id is taken exactly if an upload has
      it, and a request is rejected only when all five are. */
  lemma {:induction false} AtomicRunsAgree(s: State, acts: seq<Action>)
    requires Formed(s) && NoneExposed(s) && ValidRun(s, acts) && Atomic(acts)
    ensures var t := Run(s, acts);
            && NoneExposed(t) && (forall u :: u in t.free ==> !Collides(t, u))
            && (NoneLeaked(s) && AllOpen(acts) ==>
                  forall u, id :: HasId(t, u, id) ==> (!t.free[u][id] <==> Lookup(t.files, u, id).Some?))
    decreases |acts|
  {
    if acts == [] {
      forall u | u in s.free
        ensures !Collides(s, u)
      {
        CollidesExactly(s, u);
      }
      forall u, id | HasId(s, u, id) && NoneLeaked(s)
        ensures !s.free[u][id] <==> Lookup(s.files, u, id).Some?
      {
        assert !Exposed(s, u, id) && !Leaked(s, u, id);
      }
    } else {
      var t, rest := AtomicStep(s, acts);
      AtomicRunsAgree(t, rest);
    }
  }

  // ----- uploads completed once each, as all of at most 100 packets are -----

  /** Each upload is completed once: its id is freed only while it has its entry and nobody is about to remove it. */
  ghost predicate Once(s: State, acts: seq<Action>)
    requires ValidRun(s, acts)
    decreases |acts|
  {
    acts == [] || (OnceStep(s, acts[0]) && Once(Step(s, acts[0]), acts[1..]))
  }

  predicate OnceStep(s: State, a: Action) {
    a.FreeId? ==> Lookup(s.files, a.session, a.id).Some? && (a.session, a.id) !in s.ending
  }

  /** An entry's id is taken unless its upload is about to remove it, and only entries are about to be removed. */
  ghost predicate Sound(s: State) {
    && Formed(s)
    && (forall u, id :: Exposed(s, u, id) ==> (u, id) in s.ending)
    && (forall p :: p in s.ending ==> s.ending[p] == 1 && Lookup(s.files, p.0, p.1).Some?)
  }

  lemma OnceStepEnding(s: State, a: Action, u: string, id: int)
    requires Sound(s) && Enabled(s, a) && OnceStep(s, a) && (u, id) in Step(s, a).ending
    ensures Step(s, a).ending[(u, id)] == 1 && Lookup(Step(s, a).files, u, id).Some?
  {
    StepEntry(s, a, u, id);
    if a.RemoveEntry? {
      assert s.ending[(a.session, a.id)] == 1;
    }
  }

  lemma OnceStepSound(s: State, a: Action)
    requires Sound(s) && Enabled(s, a) && OnceStep(s, a)
    ensures Sound(Step(s, a))
  {
    var t := Step(s, a);
    StepFormed(s, a);
    forall u, id | Exposed(t, u, id)
      ensures (u, id) in t.ending
    {
      StepExactly(s, a, u, id);
    }
    forall p | p in t.ending
      ensures t.ending[p] == 1 && Lookup(t.files, p.0, p.1).Some?
    {
      OnceStepEnding(s, a, p.0, p.1);
    }
  }

  lemma {:induction false} OnceRunSound(s: State, acts: seq<Action>)
    requires Sound(s) && ValidRun(s, acts) && Once(s, acts)
    ensures Sound(Run(s, acts))
    decreases |acts|
  {
    if acts != [] {
      OnceStepSound(s, acts[0]);
      OnceRunSound(Step(s, acts[0]), acts[1..]);
    }
  }

  /** If each upload is completed once, the entry of an id that is not taken belongs to an upload that has freed its id
      and is about to remove its entry, and a request collides exactly on such an upload. */
  lemma CollidesOnceExactly(acts: seq<Action>, u: string)
    requires ValidRun(EMPTY, acts) && Once(EMPTY, acts)
    ensures var s := Run(EMPTY, acts);
            && Sound(s)
            && (u in s.free ==> (Collides(s, u) <==> (u, LowestFree(s.free[u], 0)) in s.ending))
  {
    OnceRunSound(EMPTY, acts);
  }

  /** The id is taken by a request that collided on it, and the entry it collided with is about to go. */
  predicate AboutToLeak(s: State, u: string, id: int) {
    Held(s, u, id) && (u, id) in s.ending
  }

  predicate CollidesOn(s: State, a: Action, u: string, id: int) {
    Takes(s, a, u, id) && Lookup(s.files, u, id).Some?
  }

  /** Somewhere in the run a request collides on the id, and later its entry goes. */
  ghost predicate CollidedThenGone(s: State, acts: seq<Action>, u: string, id: int)
    requires ValidRun(s, acts)
    decreases |acts|
  {
    acts != [] && ((CollidesOn(s, acts[0], u, id) && RemoveEntry(u, id) in acts[1..])
                   || CollidedThenGone(Step(s, acts[0]), acts[1..], u, id))
  }

  /** Somewhere in the run a receiver cannot be constructed for this id. */
  ghost predicate Failed(s: State, acts: seq<Action>, u: string, id: int)
    requires ValidRun(s, acts)
    decreases |acts|
  {
    acts != [] && (FailsOn(s, acts[0], u, id) || Failed(Step(s, acts[0]), acts[1..], u, id))
  }

  lemma OnceStepLeaks(s: State, a: Action, u: string, id: int)
    requires Sound(s) && Enabled(s, a) && OnceStep(s, a)
    ensures Leaked(Step(s, a), u, id) <==>
              Leaked(s, u, id) || (AboutToLeak(s, u, id) && a == RemoveEntry(u, id)) || FailsOn(s, a, u, id)
  {
    StepExactly(s, a, u, id);
  }

  lemma OnceStepAboutToLeak(s: State, a: Action, u: string, id: int)
    requires Sound(s) && Enabled(s, a) && OnceStep(s, a)
    ensures AboutToLeak(Step(s, a), u, id) <==>
              (AboutToLeak(s, u, id) && a != RemoveEntry(u, id)) || CollidesOn(s, a, u, id)
  {
    StepPool(s, a, u, id);
    StepEntry(s, a, u, id);
    if CollidesOn(s, a, u, id) {
      assert Exposed(s, u, id);
    }
  }

  lemma {:induction false} OnceRunLeaks(s: State, acts: seq<Action>, u: string, id: int)
    requires Sound(s) && ValidRun(s, acts) && Once(s, acts)
    ensures Leaked(Run(s, acts), u, id) <==>
              || Leaked(s, u, id) || (AboutToLeak(s, u, id) && RemoveEntry(u, id) in acts)
              || CollidedThenGone(s, acts, u, id) || Failed(s, acts, u, id)
    decreases |acts|
  {
    if acts != [] {
      OnceStepSound(s, acts[0]);
      OnceStepLeaks(s, acts[0], u, id);
      OnceStepAboutToLeak(s, acts[0], u, id);
      assert acts == [acts[0]] + acts[1..];
      OnceRunLeaks(Step(s, acts[0]), acts[1..], u, id);
    }
  }

  /** If each upload is completed once, an id is lost if and only if some request collided on it before the entry it
      collided with went, or its receiver could not be constructed. */
  lemma LeakedOnceExactly(acts: seq<Action>, u: string, id: int)
    requires ValidRun(EMPTY, acts) && Once(EMPTY, acts)
    ensures Leaked(Run(EMPTY, acts), u, id) <==> CollidedThenGone(EMPTY, acts, u, id) || Failed(EMPTY, acts, u, id)
  {
    OnceRunLeaks(EMPTY, acts, u, id);
  }

  /** And then it is lost forever: no check frees it. */
  lemma {:induction false} LeakIsForever(s: State, acts: seq<Action>, u: string, id: int)
    requires Formed(s) && Leaked(s, u, id) && ValidRun(s, acts) && Once(s, acts)
    ensures !Freed(acts, u, id) && Leaked(Run(s, acts), u, id) && NeverGiven(s, acts, u, id)
    decreases |acts|
  {
    if acts != [] {
      StepFormed(s, acts[0]);
      StepExactly(s, acts[0], u, id);
      LeakIsForever(Step(s, acts[0]), acts[1..], u, id);
    }
  }

  // ----- the three ways to lose an id, and one to get it back -----

  ghost predicate Leads(s: State, acts: seq<Action>, t: State) {
    ValidRun(s, acts) && Run(s, acts) == t
  }

  /** No request of the run collides on the id. */
  ghost predicate NoneCollides(s: State, acts: seq<Action>, u: string, id: int)
    requires ValidRun(s, acts)
    decreases |acts|
  {
    acts == [] || (!CollidesOn(s, acts[0], u, id) && NoneCollides(Step(s, acts[0]), acts[1..], u, id))
  }

  lemma {:induction false} NeverCollides(s: State, acts: seq<Action>, u: string, id: int)
    requires ValidRun(s, acts) && NoneCollides(s, acts, u, id)
    ensures !CollidedThenGone(s, acts, u, id)
    decreases |acts|
  {
    if acts != [] {
      NeverCollides(Step(s, acts[0]), acts[1..], u, id);
    }
  }

  lemma {:induction false} NeverFails(s: State, acts: seq<Action>, u: string, id: int)
    requires ValidRun(s, acts) && AllOpen(acts)
    ensures !Failed(s, acts, u, id)
    decreases |acts|
  {
    if acts != [] {
      NeverFails(Step(s, acts[0]), acts[1..], u, id);
    }
  }

  lemma Then(s: State, acts: seq<Action>, t: State, a: Action, u: string, id: int)
    requires Leads(s, acts, t) && Enabled(t, a)
    ensures Leads(s, acts + [a], Step(t, a))
    ensures Once(s, acts) && OnceStep(t, a) ==> Once(s, acts + [a])
    ensures NoneCollides(s, acts, u, id) && !CollidesOn(t, a, u, id) ==> NoneCollides(s, acts + [a], u, id)
    ensures AllOpen(acts) && !a.UploadFails? ==> AllOpen(acts + [a])
    decreases |acts|
  {
    if acts == [] {
      assert acts + [a] == [a];
    } else {
      assert (acts + [a])[0] == acts[0] && (acts + [a])[1..] == acts[1..] + [a];
      Then(Step(s, acts[0]), acts[1..], t, a, u, id);
    }
  }

  /** A session with nothing but one upload. */
  lemma FirstUpload(u: string, file: nat) returns (acts: seq<Action>, s: State)
    ensures acts == [Connect(u)] + [Upload(u, file)] && Leads(EMPTY, acts, s)
    ensures Once(EMPTY, acts) && NoneCollides(EMPTY, acts, u, 0) && AllOpen(acts)
    ensures Formed(s) && (u, 0) in s.used && s.ending == multiset{} && Held(s, u, 0)
  {
    var a := Step(EMPTY, Connect(u));
    assert LowestFree(a.free[u], 0) == 0;
    Then(EMPTY, [], EMPTY, Connect(u), u, 0);
    assert [] + [Connect(u)] == [Connect(u)];
    Then(EMPTY, [Connect(u)], a, Upload(u, file), u, 0);
    acts, s := [Connect(u)] + [Upload(u, file)], Step(a, Upload(u, file));
    RunFormed(EMPTY, acts);
    assert Lookup(s.files, u, 0) == Some(file);
  }

  /** The next request is given the id that has just been freed. */
  lemma FreedThenTaken(s: State, u: string, next: nat)
    requires Formed(s) && (u, 0) in s.used
    ensures var t := Step(s, FreeId(u, 0));
            Formed(t) && t.used == s.used && Takes(t, Upload(u, next), u, 0)
            && Lookup(t.files, u, 0) == Lookup(s.files, u, 0)
  {
    StepFormed(s, FreeId(u, 0));
    StepPool(s, FreeId(u, 0), u, 0);
  }

  /** If an upload takes the id while a check is about to remove its entry, the id gets lost. */
  lemma TakenThenLost(s: State, u: string, next: nat)
    requires Formed(s) && (u, 0) in s.used && (u, 0) in s.ending && Takes(s, Upload(u, next), u, 0)
    ensures var t := Step(s, Upload(u, next));
            && Enabled(t, RemoveEntry(u, 0)) && (u, 0) in t.used
            && Formed(Step(t, RemoveEntry(u, 0))) && Leaked(Step(t, RemoveEntry(u, 0)), u, 0)
  {
    var t := Step(s, Upload(u, next));
    StepFormed(s, Upload(u, next));
    StepPool(s, Upload(u, next), u, 0);
    StepEntry(s, Upload(u, next), u, 0);
    StepFormed(t, RemoveEntry(u, 0));
    StepExactly(t, RemoveEntry(u, 0), u, 0);
  }

  /** A check frees the id, a request is given it, the check removes the entry. */
  lemma FreedThenLost(before: seq<Action>, s: State, u: string, next: nat) returns (acts: seq<Action>, t: State)
    requires Leads(EMPTY, before, s) && Formed(s) && (u, 0) in s.used && s.ending == multiset{} && AllOpen(before)
    ensures acts == before + [FreeId(u, 0)] + [Upload(u, next)] + [RemoveEntry(u, 0)]
    ensures Leads(EMPTY, acts, t) && Formed(t) && (u, 0) in t.used && Leaked(t, u, 0) && AllOpen(acts)
    ensures Once(EMPTY, before) && Lookup(s.files, u, 0).Some? ==> Once(EMPTY, acts)
    ensures NoneCollides(EMPTY, before, u, 0) && Lookup(s.files, u, 0).None? ==> NoneCollides(EMPTY, acts, u, 0)
  {
    FreedThenTaken(s, u, next);
    Then(EMPTY, before, s, FreeId(u, 0), u, 0);
    acts, t := before + [FreeId(u, 0)], Step(s, FreeId(u, 0));
    TakenThenLost(t, u, next);
    Then(EMPTY, acts, t, Upload(u, next), u, 0);
    acts, t := acts + [Upload(u, next)], Step(t, Upload(u, next));
    Then(EMPTY, acts, t, RemoveEntry(u, 0), u, 0);
    acts, t := acts + [RemoveEntry(u, 0)], Step(t, RemoveEntry(u, 0));
  }

  /** A session has used its ids in ascending order, `n` of them so far. */
  ghost predicate Filled(s: State, u: string, n: nat) {
    && Formed(s) && u in s.free && n <= 5
    && (forall i :: 0 <= i < |s.free[u]| ==> (s.free[u][i] <==> i >= n))
    && forall i :: i in Inner(s.files, u) <==> 0 <= i < n
  }

  lemma FillOne(s: State, u: string, n: nat, file: nat)
    requires Filled(s, u, n) && n < 5
    ensures Filled(Step(s, Upload(u, file)), u, n + 1) && Lookup(Step(s, Upload(u, file)).files, u, n) == Some(file)
  {
    assert s.free[u][n] && LowestFree(s.free[u], 0) == n;
    StepFormed(s, Upload(u, file));
  }

  lemma {:induction false} Fill(u: string, n: nat, file: nat) returns (acts: seq<Action>, s: State)
    requires n <= 5
    ensures Leads(EMPTY, acts, s) && Filled(s, u, n)
  {
    if n == 0 {
      Then(EMPTY, [], EMPTY, Connect(u), u, 0);
      StepFormed(EMPTY, Connect(u));
      acts, s := [] + [Connect(u)], Step(EMPTY, Connect(u));
    } else {
      acts, s := Fill(u, n - 1, file);
      FillOne(s, u, n - 1, file);
      Then(EMPTY, acts, s, Upload(u, file), u, 0);
      acts, s := acts + [Upload(u, file)], Step(s, Upload(u, file));
    }
  }

  /** Five uploads of one session can be in progress, with the ids 0 to 4; a sixth request changes nothing. */
  lemma FiveUploads(u: string, file: nat, sixth: nat) returns (acts: seq<Action>, s: State)
    ensures Leads(EMPTY, acts, s) && Inner(s.files, u).Keys == {0, 1, 2, 3, 4}
    ensures forall i :: 0 <= i < 5 ==> Held(s, u, i)
    ensures Enabled(s, Upload(u, sixth)) && Step(s, Upload(u, sixth)) == s && Step(s, UploadFails(u)) == s
  {
    acts, s := Fill(u, 5, file);
    forall i
      ensures i in Inner(s.files, u) <==> i in {0, 1, 2, 3, 4}
    {
      assert i in Inner(s.files, u) <==> 0 <= i < 5;
    }
    forall i | 0 <= i < 5
      ensures Held(s, u, i)
    {
      assert i in Inner(s.files, u);
    }
  }

  /** A receiver that cannot be constructed is enough. */
  lemma FailureLeaks(u: string)
    ensures var acts := [Connect(u), UploadFails(u)];
            ValidRun(EMPTY, acts) && Leaked(Run(EMPTY, acts), u, 0) && !CollidedThenGone(EMPTY, acts, u, 0)
  {
    var acts, a := [Connect(u), UploadFails(u)], Step(EMPTY, Connect(u));
    assert LowestFree(a.free[u], 0) == 0;
    Then(EMPTY, [], EMPTY, Connect(u), u, 0);
    Then(EMPTY, [Connect(u)], a, UploadFails(u), u, 0);
    assert [] + [Connect(u)] == [Connect(u)] && [Connect(u)] + [UploadFails(u)] == acts;
    NeverCollides(EMPTY, acts, u, 0);
  }

  /** And so is a collision, with each upload completed once: connecting, uploading, freeing the id, uploading again,
      removing the first upload's entry. */
  lemma CollisionLeaks(u: string, file: nat, next: nat) returns (acts: seq<Action>, s: State)
    ensures acts == [Connect(u)] + [Upload(u, file)] + [FreeId(u, 0)] + [Upload(u, next)] + [RemoveEntry(u, 0)]
    ensures Leads(EMPTY, acts, s) && Once(EMPTY, acts) && Formed(s) && (u, 0) in s.used
    ensures Leaked(s, u, 0) && !Failed(EMPTY, acts, u, 0)
  {
    var before, first := FirstUpload(u, file);
    acts, s := FreedThenLost(before, first, u, next);
    NeverFails(EMPTY, acts, u, 0);
  }

  /** A second check of that upload then gives the id back, to the next request. */
  lemma LeakGivenBack(u: string, file: nat, next: nat, third: nat) returns (acts: seq<Action>, s: State)
    ensures Leads(EMPTY, acts, s) && Leaked(s, u, 0) && Enabled(s, FreeId(u, 0))
    ensures Takes(Step(s, FreeId(u, 0)), Upload(u, third), u, 0)
  {
    acts, s := CollisionLeaks(u, file, next);
    FreedThenTaken(s, u, third);
  }

  /** One upload completed by one check. */
  lemma FirstCompletion(u: string, file: nat) returns (acts: seq<Action>, s: State)
    ensures acts == [Connect(u)] + [Upload(u, file)] + [FreeId(u, 0)] + [RemoveEntry(u, 0)]
    ensures Leads(EMPTY, acts, s) && NoneCollides(EMPTY, acts, u, 0) && AllOpen(acts)
    ensures Formed(s) && (u, 0) in s.used && s.ending == multiset{} && Lookup(s.files, u, 0).None?
  {
    var first;
    acts, first := FirstUpload(u, file);
    CompletedInTwoSteps(first, u, 0);
    Then(EMPTY, acts, first, FreeId(u, 0), u, 0);
    Then(EMPTY, acts + [FreeId(u, 0)], Step(first, FreeId(u, 0)), RemoveEntry(u, 0), u, 0);
    acts, s := acts + [FreeId(u, 0)] + [RemoveEntry(u, 0)], Completed(first, u, 0);
    RunFormed(EMPTY, acts);
    SecondCompletionExactly(first, u, 0, u, 0);
  }

  /** A second completion loses an id without any collision or failure: the first check frees the id and removes the
      entry, the second frees the id, the next upload gets it, and the second check removes that upload's entry. */
  lemma SecondCompletionLeaks(u: string, file: nat, next: nat) returns (acts: seq<Action>, s: State)
    ensures acts == [Connect(u)] + [Upload(u, file)] + [FreeId(u, 0)] + [RemoveEntry(u, 0)]
                    + [FreeId(u, 0)] + [Upload(u, next)] + [RemoveEntry(u, 0)]
    ensures Leads(EMPTY, acts, s) && Leaked(s, u, 0)
    ensures !CollidedThenGone(EMPTY, acts, u, 0) && !Failed(EMPTY, acts, u, 0)
  {
    var before, first := FirstCompletion(u, file);
    acts, s := FreedThenLost(before, first, u, next);
    NeverFails(EMPTY, acts, u, 0);
    NeverCollides(EMPTY, acts, u, 0);
  }
}
