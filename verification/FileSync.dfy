/** File synchronisation as a state machine over the database rows, the cache
    of file records and the working directory, and what every run of it keeps. */
module FileSync {
  import opened Database

  /** DBFileInfo */
  datatype Info = Info(id: int, version: int, name: string, path: string)

  datatype Local = Local(tables: Tables, cache: map<int, Info>, disk: map<string, Bytes>)

  // The id the sequence hands out, and which of the steps the server accepts.
  datatype InsertSteps = InsertSteps(nextId: int, sequenceOk: bool, rowOk: bool, dataOk: bool, commitOk: bool)

  datatype UpdateSteps = UpdateSteps(rowOk: bool, dataOk: bool, commitOk: bool)

  predicate CanInsert(l: Local, name: string, f: InsertSteps) {
    && f.sequenceOk && name in l.disk
    && f.rowOk && f.nextId !in l.tables.files
    && f.dataOk && f.nextId !in l.tables.data && f.commitOk
  }

  /** insertDBFile: all of it or nothing. */
  function Inserted(l: Local, wspace: int, name: string, f: InsertSteps): Local {
    if !CanInsert(l, name, f) then l
    else
      var id := f.nextId;
      l.(tables := l.tables.(files := l.tables.files[id := FileRow(wspace, name, 1)],
                             data := l.tables.data[id := l.disk[name]]),
         cache := if id in l.cache then l.cache else l.cache[id := Info(id, 1, name, name)])
  }

  predicate CanUpdate(l: Local, path: string, f: UpdateSteps) {
    path in l.disk && f.rowOk && f.dataOk && f.commitOk
  }

  /** updateDBFile on a cached file: all of it or nothing. */
  function Updated(l: Local, id: int, f: UpdateSteps): Local
    requires id in l.cache
  {
    var info := l.cache[id];
    if !CanUpdate(l, info.path, f) then l
    else
      var files := l.tables.files;
      l.(tables := l.tables.(
           files := if info.id in files then files[info.id := files[info.id].(version := info.version + 1)] else files,
           data := if info.id in l.tables.data then l.tables.data[info.id := l.disk[info.path]] else l.tables.data),
         cache := l.cache[id := info.(version := info.version + 1)])
  }

  /** removeDBFile: a refused delete changes nothing. */
  function Removed(l: Local, id: int, ok: bool): Local {
    if !ok then l
    else l.(tables := l.tables.(files := l.tables.files - {id}), cache := l.cache - {id})
  }

  // A row of the join that loadFiles selects from.
  predicate Joined(t: Tables, id: int) { id in t.files && id in t.data }

  // One turn of the loop of loadFiles.
  function LoadedOne(l: Local, id: int): Local
    requires Joined(l.tables, id)
  {
    var row := l.tables.files[id];
    var info := if id in l.cache then l.cache[id].(version := row.version, name := row.name)
                else Info(id, row.version, row.name, row.name);
    l.(cache := l.cache[id := info], disk := l.disk[row.name := l.tables.data[id]])
  }

  /** loadFiles, on the rows the query returned; a failed query returns none. */
  function Loaded(l: Local, ids: seq<int>): Local
    requires forall id :: id in ids ==> Joined(l.tables, id)
    decreases |ids|
  {
    if ids == [] then l else Loaded(LoadedOne(l, ids[0]), ids[1..])
  }

  /** The delete branch of processDBNotification. */
  function Forgotten(l: Local, id: int): Local {
    if id !in l.cache then l
    else l.(cache := l.cache - {id}, disk := l.disk - {l.cache[id].path})
  }

  /** The local state, with the names whose files were edited since they last
      agreed with the database, and the rows other sessions have changed since
      the last notification about them. */
  datatype Site = Site(local: Local, dirty: set<string>, pending: set<int>)

  datatype Action =
    | Edit(name: string, bytes: Bytes)
    | Erase(name: string)
    | Insert(name: string, insertSteps: InsertSteps)
    | Update(id: int, updateSteps: UpdateSteps)
    | Remove(id: int, ok: bool)
    | Load(id: int)
    | DeleteNote(id: int)
    | OtherInsert(id: int, name: string, bytes: Bytes)
    | OtherUpdate(id: int, bytes: Bytes)
    | OtherDelete(id: int)

  predicate Ours(t: Tables, wspace: int, id: int) { id in t.files && t.files[id].wspace == wspace }

  ghost predicate NameFree(l: Local, wspace: int, name: string) {
    && (forall id :: id in l.cache ==> l.cache[id].name != name)
    && (forall id :: Ours(l.tables, wspace, id) ==> l.tables.files[id].name != name)
  }

  /** When an action can happen: an insert comes for a name nobody has and with
      an id never used, notifications tell the truth, and a row belongs to the
      workspace its notification names. */
  ghost predicate Enabled(wspace: int, s: Site, a: Action) {
    var l := s.local;
    match a
    case Edit(_, _) => true
    case Erase(_) => true
    case Insert(name, f) => NameFree(l, wspace, name) && f.nextId !in l.cache && f.nextId !in s.pending
    case Update(id, _) => id in l.cache
    case Remove(id, _) => id in l.cache
    case Load(id) => Joined(l.tables, id) && Ours(l.tables, wspace, id)
    case DeleteNote(id) => id !in l.tables.files
    case OtherInsert(id, name, _) =>
      NameFree(l, wspace, name) && id !in l.tables.files && id !in l.tables.data && id !in l.cache
    case OtherUpdate(id, _) => Ours(l.tables, wspace, id) && Joined(l.tables, id)
    case OtherDelete(id) => Ours(l.tables, wspace, id)
  }

  function Do(wspace: int, s: Site, a: Action): Site
    requires a.Update? ==> a.id in s.local.cache
    requires a.Load? || a.OtherUpdate? ==> Joined(s.local.tables, a.id)
  {
    var l, t := s.local, s.local.tables;
    match a
    case Edit(name, bytes) => s.(local := l.(disk := l.disk[name := bytes]), dirty := s.dirty + {name})
    case Erase(name) => s.(local := l.(disk := l.disk - {name}), dirty := s.dirty + {name})
    case Insert(name, f) =>
      s.(local := Inserted(l, wspace, name, f), dirty := if CanInsert(l, name, f) then s.dirty - {name} else s.dirty)
    case Update(id, f) =>
      var done := CanUpdate(l, l.cache[id].path, f);
      s.(local := Updated(l, id, f),
         dirty := if done then s.dirty - {l.cache[id].path} else s.dirty,
         pending := if done && id in t.files then s.pending - {id} else s.pending)
    case Remove(id, ok) => s.(local := Removed(l, id, ok), pending := if ok then s.pending - {id} else s.pending)
    case Load(id) =>
      s.(local := LoadedOne(l, id), dirty := s.dirty - {t.files[id].name}, pending := s.pending - {id})
    case DeleteNote(id) => s.(local := Forgotten(l, id), pending := s.pending - {id})
    case OtherInsert(id, name, bytes) =>
      s.(local := l.(tables := t.(files := t.files[id := FileRow(wspace, name, 1)], data := t.data[id := bytes])),
         pending := s.pending + {id})
    case OtherUpdate(id, bytes) =>
      s.(local := l.(tables := t.(files := t.files[id := t.files[id].(version := t.files[id].version + 1)],
                                  data := t.data[id := bytes])),
         pending := s.pending + {id})
    case OtherDelete(id) =>
      s.(local := l.(tables := t.(files := t.files - {id})), pending := s.pending + {id})
  }

  /** The database row, the cache record and the file on disk agree. */
  predicate Synced(l: Local, id: int)
    requires id in l.cache
  {
    var info := l.cache[id];
    && Joined(l.tables, id)
    && l.tables.files[id].name == info.name && l.tables.files[id].version == info.version
    && info.path in l.disk && l.disk[info.path] == l.tables.data[id]
  }

  // What a run keeps of one cached file.
  ghost predicate CachedOk(wspace: int, s: Site, id: int)
    requires id in s.local.cache
  {
    var l := s.local;
    var info := l.cache[id];
    && info.id == id && info.path == info.name
    && (id in l.tables.files ==> l.tables.files[id].wspace == wspace && l.tables.files[id].name == info.name)
    && (id !in s.pending ==> id in l.tables.files && (info.name !in s.dirty ==> Synced(l, id)))
  }

  ghost predicate NamesApart(wspace: int, l: Local) {
    && (forall i, j :: i in l.cache && j in l.cache && i != j ==> l.cache[i].name != l.cache[j].name)
    && (forall i, j :: i in l.cache && Ours(l.tables, wspace, j) && i != j ==>
          l.cache[i].name != l.tables.files[j].name)
    && (forall i, j :: Ours(l.tables, wspace, i) && Ours(l.tables, wspace, j) && i != j ==>
          l.tables.files[i].name != l.tables.files[j].name)
  }

  ghost predicate Coherent(wspace: int, s: Site) {
    var l := s.local;
    && (forall id :: id in l.cache ==> CachedOk(wspace, s, id))
    && NamesApart(wspace, l)
    && (forall id :: Ours(l.tables, wspace, id) ==> id in l.tables.data && (id in s.pending || id in l.cache))
  }

  lemma ChangeOfDisk(wspace: int, s: Site, a: Action)
    requires Coherent(wspace, s) && (a.Edit? || a.Erase?)
    ensures Coherent(wspace, Do(wspace, s, a))
  {
    var s' := Do(wspace, s, a);
    forall id | id in s'.local.cache ensures CachedOk(wspace, s', id) {
      assert CachedOk(wspace, s, id);
    }
  }

  lemma InsertKeeps(wspace: int, s: Site, a: Action)
    requires Coherent(wspace, s) && a.Insert? && Enabled(wspace, s, a)
    ensures Coherent(wspace, Do(wspace, s, a))
  {
    var s' := Do(wspace, s, a);
    forall id | id in s'.local.cache ensures CachedOk(wspace, s', id) {
      if id in s.local.cache { assert CachedOk(wspace, s, id); }
    }
  }

  lemma UpdateKeeps(wspace: int, s: Site, a: Action)
    requires Coherent(wspace, s) && a.Update? && Enabled(wspace, s, a)
    ensures Coherent(wspace, Do(wspace, s, a))
  {
    var s' := Do(wspace, s, a);
    assert CachedOk(wspace, s, a.id);
    forall id | id in s'.local.cache ensures CachedOk(wspace, s', id) {
      assert CachedOk(wspace, s, id);
    }
  }

  lemma RemoveKeeps(wspace: int, s: Site, a: Action)
    requires Coherent(wspace, s) && a.Remove? && Enabled(wspace, s, a)
    ensures Coherent(wspace, Do(wspace, s, a))
  {
    var s' := Do(wspace, s, a);
    forall id | id in s'.local.cache ensures CachedOk(wspace, s', id) {
      assert CachedOk(wspace, s, id);
    }
  }

  lemma LoadKeeps(wspace: int, s: Site, a: Action)
    requires Coherent(wspace, s) && a.Load? && Enabled(wspace, s, a)
    ensures Coherent(wspace, Do(wspace, s, a))
  {
    var s' := Do(wspace, s, a);
    forall id | id in s'.local.cache ensures CachedOk(wspace, s', id) {
      if id in s.local.cache { assert CachedOk(wspace, s, id); }
    }
  }

  lemma NoteKeeps(wspace: int, s: Site, a: Action)
    requires Coherent(wspace, s) && a.DeleteNote? && Enabled(wspace, s, a)
    ensures Coherent(wspace, Do(wspace, s, a))
  {
    var s' := Do(wspace, s, a);
    if a.id in s.local.cache { assert CachedOk(wspace, s, a.id); }
    forall id | id in s'.local.cache ensures CachedOk(wspace, s', id) {
      assert CachedOk(wspace, s, id);
    }
  }

  lemma OtherKeeps(wspace: int, s: Site, a: Action)
    requires Coherent(wspace, s) && (a.OtherInsert? || a.OtherUpdate? || a.OtherDelete?) && Enabled(wspace, s, a)
    ensures Coherent(wspace, Do(wspace, s, a))
  {
    var s' := Do(wspace, s, a);
    forall id | id in s'.local.cache ensures CachedOk(wspace, s', id) {
      assert CachedOk(wspace, s, id);
    }
  }

  lemma StepKeeps(wspace: int, s: Site, a: Action)
    requires Coherent(wspace, s) && Enabled(wspace, s, a)
    ensures Coherent(wspace, Do(wspace, s, a))
  {
    match a
    case Edit(_, _) => ChangeOfDisk(wspace, s, a);
    case Erase(_) => ChangeOfDisk(wspace, s, a);
    case Insert(_, _) => InsertKeeps(wspace, s, a);
    case Update(_, _) => UpdateKeeps(wspace, s, a);
    case Remove(_, _) => RemoveKeeps(wspace, s, a);
    case Load(_) => LoadKeeps(wspace, s, a);
    case DeleteNote(_) => NoteKeeps(wspace, s, a);
    case OtherInsert(_, _, _) => OtherKeeps(wspace, s, a);
    case OtherUpdate(_, _) => OtherKeeps(wspace, s, a);
    case OtherDelete(_) => OtherKeeps(wspace, s, a);
  }

  // A run: each action is possible when its turn comes.
  ghost predicate CanRun(wspace: int, s: Site, run: seq<Action>)
    decreases |run|
  {
    run == [] || (Enabled(wspace, s, run[0]) && CanRun(wspace, Do(wspace, s, run[0]), run[1..]))
  }

  ghost function After(wspace: int, s: Site, run: seq<Action>): Site
    requires CanRun(wspace, s, run)
    decreases |run|
  {
    if run == [] then s else After(wspace, Do(wspace, s, run[0]), run[1..])
  }

  /** Three-way coherence over every run: at its end every cached file that was
      not edited since and has no notification outstanding agrees with its row
      and its bytes, and no two cached files have one name. */
  lemma {:induction false} RunCoherent(wspace: int, s: Site, run: seq<Action>)
    requires Coherent(wspace, s) && CanRun(wspace, s, run)
    ensures Coherent(wspace, After(wspace, s, run))
    decreases |run|
  {
    if run == [] {
    } else {
      StepKeeps(wspace, s, run[0]);
      RunCoherent(wspace, Do(wspace, s, run[0]), run[1..]);
    }
  }

  /** Where a run begins: nothing is cached, and every row of the workspace is
      still to be loaded. */
  lemma StartCoherent(wspace: int, tables: Tables, disk: map<string, Bytes>)
    requires forall i, j :: Ours(tables, wspace, i) && Ours(tables, wspace, j) && i != j ==>
      tables.files[i].name != tables.files[j].name
    requires forall i :: Ours(tables, wspace, i) ==> i in tables.data
    ensures Coherent(wspace, Site(Local(tables, map[], disk), {}, set i | i in tables.files
      && tables.files[i].wspace == wspace))
  {
  }

  /** With nothing edited and nothing outstanding, the cache is exactly the
      rows of the workspace, and all three copies of each file agree. */
  lemma QuietAgrees(wspace: int, s: Site)
    requires Coherent(wspace, s) && s.dirty == {} && s.pending == {}
    ensures forall id :: id in s.local.cache <==> Ours(s.local.tables, wspace, id)
    ensures forall id :: id in s.local.cache ==> Synced(s.local, id)
  {
    forall id | id in s.local.cache ensures Synced(s.local, id) && Ours(s.local.tables, wspace, id) {
      assert CachedOk(wspace, s, id);
    }
  }

  function Loads(ids: seq<int>): seq<Action> {
    if ids == [] then [] else [Load(ids[0])] + Loads(ids[1..])
  }

  lemma {:induction false} LoadedIsRun(wspace: int, s: Site, ids: seq<int>)
    requires forall i :: 0 <= i < |ids| ==> Joined(s.local.tables, ids[i]) && Ours(s.local.tables, wspace, ids[i])
    ensures forall id :: id in ids ==> Joined(s.local.tables, id)
    ensures CanRun(wspace, s, Loads(ids))
    ensures After(wspace, s, Loads(ids)).local == Loaded(s.local, ids)
    ensures After(wspace, s, Loads(ids)).pending == s.pending - set id | id in ids
    ensures After(wspace, s, Loads(ids)).dirty <= s.dirty
    decreases |ids|
  {
    if ids == [] {
    } else {
      var s' := Do(wspace, s, Load(ids[0]));
      assert Loads(ids)[1..] == Loads(ids[1..]);
      LoadedIsRun(wspace, s', ids[1..]);
      assert (set id | id in ids) == {ids[0]} + set id | id in ids[1..] by {
        assert ids == [ids[0]] + ids[1..];
      }
    }
  }

  /** Connecting: loading all rows of the workspace into any directory makes the
      cache, the rows and the files agree. */
  lemma ConnectAgrees(wspace: int, tables: Tables, disk: map<string, Bytes>, ids: seq<int>)
    requires forall i, j :: Ours(tables, wspace, i) && Ours(tables, wspace, j) && i != j ==>
      tables.files[i].name != tables.files[j].name
    requires forall i :: Ours(tables, wspace, i) ==> i in tables.data && i in ids
    requires forall i :: 0 <= i < |ids| ==> Joined(tables, ids[i]) && Ours(tables, wspace, ids[i])
    ensures forall id :: id in ids ==> Joined(tables, id)
    ensures var l := Loaded(Local(tables, map[], disk), ids);
      && l.tables == tables && Coherent(wspace, Site(l, {}, {}))
      && (forall id :: id in l.cache <==> Ours(tables, wspace, id))
      && (forall id :: id in l.cache ==> Synced(l, id))
  {
    var s := Site(Local(tables, map[], disk), {}, set i | i in tables.files && tables.files[i].wspace == wspace);
    StartCoherent(wspace, tables, disk);
    LoadedIsRun(wspace, s, ids);
    RunCoherent(wspace, s, Loads(ids));
    var s' := After(wspace, s, Loads(ids));
    assert s'.pending == {} by {
      forall i | i in s.pending ensures i in ids { assert Ours(tables, wspace, i); }
    }
    QuietAgrees(wspace, s');
    LoadedTables(Local(tables, map[], disk), ids);
  }

  lemma {:induction false} LoadedTables(l: Local, ids: seq<int>)
    requires forall id :: id in ids ==> Joined(l.tables, id)
    ensures Loaded(l, ids).tables == l.tables
    decreases |ids|
  {
    if ids == [] {
    } else {
      LoadedTables(LoadedOne(l, ids[0]), ids[1..]);
    }
  }

  // Which of the steps of saveRData the server accepts.
  datatype SaveSteps = SaveSteps(lockOk: bool, updateOk: bool, insertOk: bool, commitOk: bool)

  const RDATA := ".RData"

  predicate CanSave(l: Local, wspace: int, f: SaveSteps) {
    && RDATA in l.disk && f.lockOk && f.updateOk && f.commitOk
    && (HasSaved(l.tables.saved, wspace) || f.insertOk)
  }

  /** saveRData: all of it or nothing. */
  function SavedRData(l: Local, wspace: int, f: SaveSteps): Local {
    if !CanSave(l, wspace, f) then l
    else
      var rows := l.tables.saved;
      l.(tables := l.tables.(saved :=
        if HasSaved(rows, wspace) then UpdateSaved(rows, wspace, l.disk[RDATA])
        else rows + [SavedRow(wspace, l.disk[RDATA])]))
  }

  // The first row the select returns.
  function FirstSaved(rows: seq<SavedRow>, wspace: int): (r: seq<SavedRow>)
    ensures |r| <= 1 && (r != [] <==> HasSaved(rows, wspace))
    ensures r != [] ==> r[0] in rows && r[0].wspace == wspace
  {
    if rows == [] then []
    else if rows[0].wspace == wspace then
      assert HasSaved(rows, wspace);
      [rows[0]]
    else
      assert forall i :: 1 <= i < |rows| ==> rows[i] == rows[1..][i - 1];
      assert HasSaved(rows, wspace) <==> HasSaved(rows[1..], wspace);
      FirstSaved(rows[1..], wspace)
  }

  /** loadRData: the bytes are written to the file if there are any. */
  function LoadedRData(l: Local, wspace: int, queryOk: bool): Local {
    var rows := FirstSaved(l.tables.saved, wspace);
    if queryOk && rows != [] && rows[0].data != [] then l.(disk := l.disk[RDATA := rows[0].data]) else l
  }

  ghost predicate OneRowEach(rows: seq<SavedRow>) {
    forall i, j :: 0 <= i < j < |rows| ==> rows[i].wspace != rows[j].wspace
  }

  // The rows of all other workspaces, in order.
  function Others(rows: seq<SavedRow>, wspace: int): seq<SavedRow> {
    if rows == [] then []
    else (if rows[0].wspace == wspace then [] else [rows[0]]) + Others(rows[1..], wspace)
  }

  lemma {:induction false} OthersUpdated(rows: seq<SavedRow>, wspace: int, data: Bytes)
    ensures Others(UpdateSaved(rows, wspace, data), wspace) == Others(rows, wspace)
  {
    if rows == [] {
    } else {
      assert UpdateSaved(rows, wspace, data)[1..] == UpdateSaved(rows[1..], wspace, data);
      OthersUpdated(rows[1..], wspace, data);
    }
  }

  lemma {:induction false} OthersAppended(rows: seq<SavedRow>, row: SavedRow)
    ensures Others(rows + [row], row.wspace) == Others(rows, row.wspace)
  {
    if rows == [] {
      assert [row][1..] == [];
    } else {
      assert (rows + [row])[1..] == rows[1..] + [row];
      OthersAppended(rows[1..], row);
    }
  }

  // What a save leaves in the table.
  lemma SavedRows(rows: seq<SavedRow>, wspace: int, data: Bytes)
    requires OneRowEach(rows)
    ensures var rows' := if HasSaved(rows, wspace) then UpdateSaved(rows, wspace, data)
      else rows + [SavedRow(wspace, data)];
      && OneRowEach(rows') && HasSaved(rows', wspace)
      && forall i :: 0 <= i < |rows'| && rows'[i].wspace == wspace ==> rows'[i].data == data
  {
    var rows' := if HasSaved(rows, wspace) then UpdateSaved(rows, wspace, data) else rows + [SavedRow(wspace, data)];
    if HasSaved(rows, wspace) {
      var i :| 0 <= i < |rows| && rows[i].wspace == wspace;
      assert rows'[i].wspace == wspace;
    } else {
      assert rows'[|rows|].wspace == wspace;
    }
  }

  lemma SavedOthers(rows: seq<SavedRow>, wspace: int, data: Bytes)
    ensures var rows' := if HasSaved(rows, wspace) then UpdateSaved(rows, wspace, data)
      else rows + [SavedRow(wspace, data)];
      Others(rows', wspace) == Others(rows, wspace)
  {
    OthersUpdated(rows, wspace, data);
    OthersAppended(rows, SavedRow(wspace, data));
  }

  /** A save keeps one row a workspace and leaves other workspaces alone, and a
      load after it, into any directory, brings the same bytes back. */
  lemma SaveThenLoad(l: Local, wspace: int, f: SaveSteps, disk: map<string, Bytes>)
    requires OneRowEach(l.tables.saved) && CanSave(l, wspace, f)
    ensures var rows := SavedRData(l, wspace, f).tables.saved;
      OneRowEach(rows) && Others(rows, wspace) == Others(l.tables.saved, wspace)
    ensures l.disk[RDATA] != [] ==>
      var back := LoadedRData(SavedRData(l, wspace, f).(disk := disk), wspace, true);
      back.disk == disk[RDATA := l.disk[RDATA]]
  {
    SavedRows(l.tables.saved, wspace, l.disk[RDATA]);
    SavedOthers(l.tables.saved, wspace, l.disk[RDATA]);
  }
}
