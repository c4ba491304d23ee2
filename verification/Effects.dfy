/** What each reaction of the file manager does to rows, records and files, told
    field by field: what is stored and where, when the server accepts it, and that
    nothing else changes. */
module Effects {
  import opened Database
  import opened FileSync
  import opened Manager
  import I = Images

  // A row of the workspace with its bytes.
  predicate RowIs(t: Tables, id: int, wspace: int, name: string, version: int, bytes: Bytes) {
    && id in t.files && t.files[id].wspace == wspace && t.files[id].name == name && t.files[id].version == version
    && id in t.data && t.data[id] == bytes
  }

  predicate RecordIs(l: Local, id: int, name: string, path: string, version: int) {
    id in l.cache && l.cache[id].id == id && l.cache[id].name == name && l.cache[id].path == path
    && l.cache[id].version == version
  }

  predicate SameAt<K, V(==)>(a: map<K, V>, b: map<K, V>, k: K) {
    (k in a <==> k in b) && (k in a && k in b ==> a[k] == b[k])
  }

  // Nothing changes but the row, the bytes and the record with this id.
  ghost predicate OnlyId(l: Local, l': Local, id: int) {
    && (forall i :: i != id ==>
          SameAt(l.tables.files, l'.tables.files, i) && SameAt(l.tables.data, l'.tables.data, i)
          && SameAt(l.cache, l'.cache, i))
    && l'.tables.saved == l.tables.saved && l'.tables.images == l.tables.images && l'.disk == l.disk
  }

  /** An insert succeeds exactly if the file is there and the server accepts every
      step of it. Then it leaves the row of the file at version 1, with the bytes the
      file has, and a record of it; any other changes nothing. */
  lemma InsertEffect(l: Local, wspace: int, name: string, f: InsertSteps)
    ensures CanInsert(l, name, f) <==>
      && name in l.disk && f.nextId !in l.tables.files && f.nextId !in l.tables.data
      && f.sequenceOk && f.rowOk && f.dataOk && f.commitOk
    ensures var l' := Inserted(l, wspace, name, f);
      if CanInsert(l, name, f) then
        && RowIs(l'.tables, f.nextId, wspace, name, 1, l.disk[name]) && OnlyId(l, l', f.nextId)
        && (f.nextId !in l.cache ==> RecordIs(l', f.nextId, name, name, 1))
        && (f.nextId in l.cache ==> l'.cache == l.cache)
      else l' == l
  {
  }

  /** An update succeeds exactly if the file is there and the server accepts every
      step. Then it moves row and record on to the next version, with the bytes the
      file has; any other changes nothing. */
  lemma UpdateEffect(l: Local, id: int, f: UpdateSteps)
    requires id in l.cache && l.cache[id].id == id
    ensures CanUpdate(l, l.cache[id].path, f) <==> l.cache[id].path in l.disk && f.rowOk && f.dataOk && f.commitOk
    ensures var l', info := Updated(l, id, f), l.cache[id];
      if CanUpdate(l, info.path, f) then
        && RecordIs(l', id, info.name, info.path, info.version + 1) && OnlyId(l, l', id)
        && (id in l'.tables.files <==> id in l.tables.files) && (id in l'.tables.data <==> id in l.tables.data)
        && (id in l.tables.files && id in l.tables.data ==>
              RowIs(l'.tables, id, l.tables.files[id].wspace, l.tables.files[id].name, info.version + 1,
                    l.disk[info.path]))
      else l' == l
  {
  }

  /** A delete that is accepted leaves neither row nor record; any other changes
      nothing. */
  lemma RemoveEffect(l: Local, id: int, ok: bool)
    ensures var l' := Removed(l, id, ok);
      if ok then
        id !in l'.tables.files && id !in l'.cache && OnlyId(l, l', id) && l'.tables.data == l.tables.data
      else l' == l
  {
  }

  /** A save succeeds exactly if `.RData` is there and the server accepts each step,
      the insert only where the workspace has no row yet. Then the row of the workspace
      has its bytes; any other save changes nothing. */
  lemma SaveEffect(l: Local, wspace: int, f: SaveSteps)
    ensures CanSave(l, wspace, f) <==>
      && RDATA in l.disk && f.lockOk && f.updateOk && f.commitOk
      && (f.insertOk || exists row :: row in l.tables.saved && row.wspace == wspace)
    ensures var l' := SavedRData(l, wspace, f);
      && l' == l.(tables := l.tables.(saved := l'.tables.saved))
      && if CanSave(l, wspace, f) then SavedAs(l.tables.saved, l'.tables.saved, wspace, l.disk[RDATA]) else l' == l
  {
    SavedIn(l.tables.saved, wspace);
    if CanSave(l, wspace, f) { SaveRows(l.tables.saved, wspace, l.disk[RDATA]); }
  }

  // The workspace has a row, all its rows have these bytes, and other rows stay.
  ghost predicate SavedAs(rows: seq<SavedRow>, rows': seq<SavedRow>, wspace: int, data: Bytes) {
    && (exists row :: row in rows' && row.wspace == wspace)
    && (forall row :: row in rows' && row.wspace == wspace ==> row.data == data)
    && (forall row: SavedRow :: row.wspace != wspace ==> (row in rows' <==> row in rows))
  }

  lemma SavedIn(rows: seq<SavedRow>, wspace: int)
    ensures HasSaved(rows, wspace) <==> exists row :: row in rows && row.wspace == wspace
  {
    if HasSaved(rows, wspace) {
      var i :| 0 <= i < |rows| && rows[i].wspace == wspace;
      assert rows[i] in rows;
    }
  }

  lemma SaveRows(rows: seq<SavedRow>, wspace: int, data: Bytes)
    ensures SavedAs(rows,
                    if HasSaved(rows, wspace) then UpdateSaved(rows, wspace, data) else rows + [SavedRow(wspace, data)],
                    wspace, data)
  {
    if HasSaved(rows, wspace) {
      var rows' := UpdateSaved(rows, wspace, data);
      var i :| 0 <= i < |rows| && rows[i].wspace == wspace;
      assert rows'[i] in rows' && rows'[i].wspace == wspace;
      forall row | row in rows && row.wspace != wspace ensures row in rows' {
        var j :| 0 <= j < |rows| && rows[j] == row;
        assert rows'[j] == row;
      }
    } else {
      assert SavedRow(wspace, data) in rows + [SavedRow(wspace, data)];
      SavedIn(rows, wspace);
    }
  }

  // The row at position i is the first of its workspace.
  ghost predicate FirstRow(rows: seq<SavedRow>, wspace: int, i: nat) {
    i < |rows| && rows[i].wspace == wspace && forall j :: 0 <= j < i ==> rows[j].wspace != wspace
  }

  /** Restoring writes the bytes of the workspace's first row, if it has one and that
      has any, and nothing else. */
  lemma RestoreEffect(l: Local, wspace: int, queryOk: bool)
    ensures var rows, l' := l.tables.saved, LoadedRData(l, wspace, queryOk);
      && (forall i: nat :: FirstRow(rows, wspace, i) ==>
            l' == if queryOk && rows[i].data != [] then l.(disk := l.disk[RDATA := rows[i].data]) else l)
      && ((forall row :: row in rows ==> row.wspace != wspace) ==> l' == l)
  {
    var rows := l.tables.saved;
    forall i: nat | FirstRow(rows, wspace, i) ensures FirstSaved(rows, wspace) == [rows[i]] {
      FirstOf(rows, wspace, i);
    }
    SavedIn(rows, wspace);
  }

  lemma {:induction false} FirstOf(rows: seq<SavedRow>, wspace: int, i: nat)
    requires FirstRow(rows, wspace, i)
    ensures FirstSaved(rows, wspace) == [rows[i]]
    decreases i
  {
    if i == 0 {
    } else {
      assert rows[1..][i - 1] == rows[i] && forall j :: 0 <= j < i - 1 ==> rows[1..][j] == rows[j + 1];
      FirstOf(rows[1..], wspace, i - 1);
    }
  }

  /** Which names are images: rc2img, at least one digit, any character, png. */
  lemma ImageNames(name: string)
    ensures IsImageName(name) <==>
      exists digits: string, c: char ::
        name == "rc2img" + digits + [c] + "png" && digits != "" && forall d :: d in digits ==> '0' <= d <= '9'
  {
    if IsImageName(name) {
      var digits, c := name[6..|name| - 4], name[|name| - 4];
      assert name == name[..6] + digits + [c] + name[|name| - 3..];
      assert digits != "" && forall d :: d in digits ==> '0' <= d <= '9';
    }
    forall digits: string, c: char | name == "rc2img" + digits + [c] + "png" && digits != ""
      && (forall d :: d in digits ==> '0' <= d <= '9')
      ensures IsImageName(name)
    {
      assert name[..6] == "rc2img" && name[|name| - 3..] == "png";
      assert forall i :: 6 <= i < |name| - 4 ==> name[i] == digits[i - 6] && digits[i - 6] in digits;
    }
  }

  // A new file that is for the database: no directory, no dot file, no image, and
  // with a name that was not asked for and that no cached file has.
  ghost predicate NewFile(m: ManagerState, e: DirEvent) {
    && e.Create? && !e.isDir && (e.name == "" || e.name[0] != '.') && !IsImageName(e.name)
    && e.name !in m.manual && forall id :: id in m.local.cache ==> m.local.cache[id].name != e.name
  }

  // A new image whose watch the kernel has set.
  predicate NewImage(m: ManagerState, e: DirEvent) {
    e.Create? && !e.isDir && IsImageName(e.name) && e.newWd != -1 && e.newWd !in m.watched
  }

  /** A created file reaches the database: if the server accepts it, its row, its
      bytes and its record are there. A created image is watched. Any other creation
      changes nothing. */
  lemma CreateEffect(m: ManagerState, e: DirEvent)
    requires e.Create?
    ensures var m', f := HandleOne(m, e), e.insertSteps;
      if NewFile(m, e) then
        && m' == m.(local := m'.local)
        && if CanInsert(m.local, e.name, f) then
             && RowIs(m'.local.tables, f.nextId, m.wspace, e.name, 1, m.local.disk[e.name])
             && OnlyId(m.local, m'.local, f.nextId)
             && (f.nextId !in m.local.cache ==> RecordIs(m'.local, f.nextId, e.name, e.name, 1))
           else m' == m
      else if NewImage(m, e) then m' == m.(watched := m.watched[e.newWd := e.name])
      else m' == m
  {
    InsertEffect(m.local, m.wspace, e.name, e.insertSteps);
    ImageNames(e.name);
    assert IsImageName(e.name) ==> e.name[0] == e.name[..6][0];
  }

  /** A file closed after writing: a watched image is stored and its watch forgotten
      if that succeeds; a cached file is updated; anything else changes nothing. */
  lemma CloseWriteEffect(m: ManagerState, e: DirEvent)
    requires e.CloseWrite? && (e.fileId in m.local.cache ==> m.local.cache[e.fileId].id == e.fileId)
    ensures var m', f := HandleOne(m, e), e.updateSteps;
      if e.wd in m.watched then
        m' == ImageClosed(m, e.wd, I.InsertImage(Gallery(m), m.session, m.watched[e.wd], e.imageSteps))
      else if e.fileId in m.local.cache then
        var info := m.local.cache[e.fileId];
        && m' == m.(local := m'.local)
        && if CanUpdate(m.local, info.path, f) then
             && RecordIs(m'.local, e.fileId, info.name, info.path, info.version + 1)
             && OnlyId(m.local, m'.local, e.fileId)
             && (e.fileId in m.local.tables.files && e.fileId in m.local.tables.data ==>
                   RowIs(m'.local.tables, e.fileId, m.local.tables.files[e.fileId].wspace,
                         m.local.tables.files[e.fileId].name, info.version + 1, m.local.disk[info.path]))
           else m' == m
      else m' == m
  {
    if e.wd !in m.watched && e.fileId in m.local.cache { UpdateEffect(m.local, e.fileId, e.updateSteps); }
  }

  // An image stored, as StoreEffect tells, with the flag up if a row went in.
  ghost function ImageClosed(m: ManagerState, wd: int, r: I.Ended): ManagerState {
    var l := m.local.(tables := m.local.tables.(images := r.gallery.images), disk := r.gallery.disk);
    var raised := r.gallery.images != m.local.tables.images && !m.ignoring;
    m.(local := l, batch := r.gallery.batch, imageIds := r.gallery.imageIds,
       watched := if r.raised then m.watched else m.watched - {wd},
       ignoring := m.ignoring || raised, timers := if raised then m.timers + 1 else m.timers)
  }

  /** A deleted file leaves the database: if the server accepts it, neither row nor
      record is left; of a file that is not cached nothing is known. */
  lemma DeleteEffect(m: ManagerState, e: DirEvent)
    requires e.DeleteSelf? && (e.deletedId in m.local.cache ==> m.local.cache[e.deletedId].id == e.deletedId)
    ensures var m' := HandleOne(m, e);
      if e.deletedId in m.local.cache && e.deleteOk then
        && m' == m.(local := m'.local) && OnlyId(m.local, m'.local, e.deletedId)
        && e.deletedId !in m'.local.tables.files && e.deletedId !in m'.local.cache
      else m' == m
  {
    if e.deletedId in m.local.cache { RemoveEffect(m.local, e.deletedId, e.deleteOk); }
  }

  /** An image that can be stored is: its bytes are the last row, in the current
      batch or in the first of the session, its id is listed, and its file is gone
      unless that fails. A missing file and a refused step raise an exception and
      store nothing; an empty file is passed over. */
  lemma StoreEffect(g: I.Gallery, session: int, name: string, f: I.ImageSteps)
    ensures var r := I.InsertImage(g, session, name, f);
      && r.gallery.watched == g.watched
      && if name in g.disk && g.disk[name] != [] && StoreAccepted(g, f) then
           && r.gallery.images == g.images + [ImageRow(f.nextId, session, r.gallery.batch, g.disk[name])]
           && r.gallery.imageIds == g.imageIds + [f.nextId]
           && r.gallery.disk == (if f.removeOk then g.disk - {name} else g.disk) && r.raised == !f.removeOk
           && (if g.batch > 0 then r.gallery.batch == g.batch else BatchBegins(g.images, session, r.gallery.batch))
         else
           && r.gallery.images == g.images && r.gallery.imageIds == g.imageIds && r.gallery.disk == g.disk
           && (r.raised <==> !(name in g.disk && g.disk[name] == []))
  {
  }

  // The server accepts every step of storing an image.
  ghost predicate StoreAccepted(g: I.Gallery, f: I.ImageSteps) {
    && f.sequenceOk && f.nextId > 0 && (g.batch <= 0 ==> f.maxOk) && f.rowOk
    && forall row :: row in g.images ==> row.id != f.nextId
  }

  // The first number after those of the session: 1 if it has no rows.
  ghost predicate BatchBegins(rows: seq<ImageRow>, session: int, batch: int) {
    && (forall row :: row in rows && row.session == session ==> row.batch < batch)
    && if exists row :: row in rows && row.session == session then
         exists row :: row in rows && row.session == session && row.batch == batch - 1
       else batch == 1
  }

  // Every file watched is there, and every step of storing them succeeds.
  ghost predicate CleanupAccepted(g: I.Gallery, wds: seq<int>, steps: seq<I.ImageSteps>)
    requires |steps| == |wds| && I.AllWatched(g, wds)
  {
    && (forall i :: 0 <= i < |wds| ==>
          && g.watched[wds[i]] in g.disk && steps[i].sequenceOk && steps[i].nextId > 0 && steps[i].maxOk
          && steps[i].rowOk && steps[i].removeOk && !HasImage(g.images, steps[i].nextId))
    && (forall i, j :: 0 <= i < j < |wds| ==>
          steps[i].nextId != steps[j].nextId && g.watched[wds[i]] != g.watched[wds[j]])
  }

  /** A cleanup whose steps all succeed returns; one that ends in an exception keeps
      its watches. */
  lemma {:induction false} CleanupReturns(g: I.Gallery, session: int, wds: seq<int>, steps: seq<I.ImageSteps>)
    requires |steps| == |wds| && I.AllWatched(g, wds)
    ensures var r := I.Cleanup(g, session, wds, steps);
      (CleanupAccepted(g, wds, steps) ==> !r.raised) && (r.raised ==> r.gallery.watched == g.watched)
    decreases |wds|
  {
    if wds == [] {
    } else {
      var file, f := g.watched[wds[0]], steps[0];
      var r := I.InsertImage(g, session, file, f);
      StoreEffect(g, session, file, f);
      if !r.raised {
        CleanupReturns(r.gallery, session, wds[1..], steps[1..]);
        if CleanupAccepted(g, wds, steps) { CleanupLater(g, r.gallery, wds, steps); }
      }
      if CleanupAccepted(g, wds, steps) { FirstStored(g, session, wds, steps); }
    }
  }

  lemma FirstStored(g: I.Gallery, session: int, wds: seq<int>, steps: seq<I.ImageSteps>)
    requires |steps| == |wds| > 0 && I.AllWatched(g, wds) && CleanupAccepted(g, wds, steps)
    ensures !I.InsertImage(g, session, g.watched[wds[0]], steps[0]).raised
  {
    StoreEffect(g, session, g.watched[wds[0]], steps[0]);
  }

  lemma CleanupLater(g: I.Gallery, g': I.Gallery, wds: seq<int>, steps: seq<I.ImageSteps>)
    requires |steps| == |wds| > 0 && I.AllWatched(g, wds) && CleanupAccepted(g, wds, steps)
    requires g'.watched == g.watched && g'.disk in [g.disk, g.disk - {g.watched[wds[0]]}]
    requires |g'.images| <= |g.images| + 1 && g.images <= g'.images
    requires |g'.images| > |g.images| ==> g'.images[|g.images|].id == steps[0].nextId
    ensures I.AllWatched(g', wds[1..]) && CleanupAccepted(g', wds[1..], steps[1..])
  {
    var wds', steps' := wds[1..], steps[1..];
    forall i | 0 <= i < |wds'| ensures wds'[i] == wds[i + 1] && steps'[i] == steps[i + 1] {}
    forall i | 0 <= i < |wds'| ensures !HasImage(g'.images, steps'[i].nextId) {
      assert steps[0].nextId != steps[i + 1].nextId && !HasImage(g.images, steps[i + 1].nextId);
      forall k | 0 <= k < |g'.images| ensures g'.images[k].id != steps'[i].nextId {
        if k < |g.images| { assert g'.images[k] == g.images[k]; }
      }
    }
  }

  // The notification is about a file of this workspace.
  predicate Concerns(m: ManagerState, n: Notice) { n.fileWspace == m.wspace }

  /** A notification of this workspace: about a new row, or a changed one that is
      cached, it brings record and file in line with the row, with the flag up; about
      a deleted one it takes away record and file. Any other changes nothing. */
  lemma NoticeEffect(m: ManagerState, n: Notice)
    requires forall id :: id in m.local.cache ==> m.local.cache[id].id == id
    ensures var m', id, l := HandleNotice(m, n), n.fileId, m.local;
      && m'.local.tables == l.tables
      && (forall i :: i != id ==> SameAt(l.cache, m'.local.cache, i))
      && if !Concerns(m, n) || (n.note.UpdateNote? && id !in l.cache) then m' == m
         else if n.note.DeletedNote? then
           && m' == m.(local := m'.local) && id !in m'.local.cache
           && (if id in l.cache then m'.local.disk == l.disk - {l.cache[id].path} else m' == m)
         else
           && m'.ignoring && m'.timers == (if m.ignoring then m.timers else m.timers + 1)
           && m' == m.(local := m'.local, ignoring := m'.ignoring, timers := m'.timers)
           && if id in l.tables.files && id in l.tables.data then
                && RecordIs(m'.local, id, l.tables.files[id].name,
                            if id in l.cache then l.cache[id].path
                              else l.tables.files[id].name, l.tables.files[id].version)
                && m'.local.disk == l.disk[l.tables.files[id].name := l.tables.data[id]]
              else m'.local == l
  {
    var rows := RowsOf(m.local.tables, n.fileId);
    if rows != [] {
      assert rows[1..] == [];
      assert Loaded(m.local, rows) == LoadedOne(m.local, n.fileId);
    }
  }

  // A created file of a name for the database.
  predicate PlainCreate(e: DirEvent) {
    e.Create? && !e.isDir && (e.name == "" || e.name[0] != '.') && !IsImageName(e.name)
  }

  /** Every created file handled is accounted for: unless a file is deleted
      afterwards, its name is cached at the end, or was asked for, or the server has
      refused it, or the file was gone, when it was handled. */
  lemma CreatesReach(m: ManagerState, events: seq<DirEvent>, i: nat)
    requires i < |events| && PlainCreate(events[i]) && forall j :: i < j < |events| ==> !events[j].DeleteSelf?
    requires events[i].insertSteps.nextId !in HandleAll(m, events[..i]).local.cache
    ensures var e := events[i];
      || NameCached(HandleAll(m, events).local, e.name) || e.name in m.manual
      || !CanInsert(HandleAll(m, events[..i]).local, e.name, e.insertSteps)
  {
    var e, before := events[i], HandleAll(m, events[..i]);
    HandledSplit(m, events, i);
    ManualKept(m, events[..i]);
    if e.name !in m.manual && CanInsert(before.local, e.name, e.insertSteps) {
      CreateEffect(before, e);
      assert NameCached(HandleOne(before, e).local, e.name);
      NamesStay(HandleOne(before, e), events[i + 1..], e.name);
    }
  }

  lemma {:induction false} HandledSplit(m: ManagerState, events: seq<DirEvent>, i: nat)
    requires i < |events|
    ensures HandleAll(m, events) == HandleAll(HandleOne(HandleAll(m, events[..i]), events[i]), events[i + 1..])
    decreases i
  {
    if i == 0 {
      assert events[..0] == [];
    } else {
      HandledSplit(HandleOne(m, events[0]), events[1..], i - 1);
      assert events[..i][0] == events[0] && events[..i][1..] == events[1..][..i - 1];
      assert events[1..][i - 1] == events[i] && events[1..][i..] == events[i + 1..];
    }
  }

  lemma {:induction false} ManualKept(m: ManagerState, events: seq<DirEvent>)
    ensures HandleAll(m, events).manual == m.manual && HandleAll(m, events).wspace == m.wspace
    decreases |events|
  {
    if events == [] {
    } else {
      ManualKept(HandleOne(m, events[0]), events[1..]);
    }
  }

  // Without a deletion a cached name stays cached.
  lemma {:induction false} NamesStay(m: ManagerState, events: seq<DirEvent>, name: string)
    requires NameCached(m.local, name) && forall j :: 0 <= j < |events| ==> !events[j].DeleteSelf?
    ensures NameCached(HandleAll(m, events).local, name)
    decreases |events|
  {
    if events == [] {
    } else {
      NameStays(m, events[0], name);
      NamesStay(HandleOne(m, events[0]), events[1..], name);
    }
  }

  lemma NameStays(m: ManagerState, e: DirEvent, name: string)
    requires NameCached(m.local, name) && !e.DeleteSelf?
    ensures NameCached(HandleOne(m, e).local, name)
  {
    var id :| id in m.local.cache && m.local.cache[id].name == name;
    assert id in HandleOne(m, e).local.cache && HandleOne(m, e).local.cache[id].name == name;
  }
}
