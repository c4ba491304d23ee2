/** Whole runs of a session's file manager: directory events wait in a queue,
    some of them caused by the manager itself, and editors and other sessions
    come in between. Files and images stay right together. */
module ManagerRuns {
  import opened Database
  import opened FileSync
  import opened Manager
  import I = Images

  /** A directory event in the queue. `own` says that the manager caused it by
      writing or deleting a file, which the manager itself cannot see. */
  datatype Queued = Queued(event: DirEvent, own: bool)

  /** The manager's state, with what module FileSync keeps track of (the names
      edited since, and the rows changed by others since), the queue, and every
      event so far that was handled and not dropped. */
  datatype System = System(
    manager: ManagerState, dirty: set<string>, pending: set<int>, queue: seq<Queued>, handled: seq<Queued>)

  function SiteOf(s: System): Site { Site(s.manager.local, s.dirty, s.pending) }

  // `echoes` are the events that the manager's own writes and deletes cause.
  datatype Happening =
    | Read(n: nat, echoes: seq<DirEvent>)
    | Request(name: string, steps: InsertSteps)
    | Notified(notices: seq<Notice>, echoes: seq<DirEvent>)
    | ResetWatch
    | CleanUp(wds: seq<int>, imageSteps: seq<I.ImageSteps>, echoes: seq<DirEvent>)
    | SaveRData(saveSteps: SaveSteps)
    | LoadRData(queryOk: bool, echoes: seq<DirEvent>)
    | Timer
    // an editor or another session, and the events an editor causes
    | Outside(action: Action, events: seq<DirEvent>)
    | OtherImage(row: ImageRow)

  function WithSite(s: System, m: ManagerState, site: Site): System {
    s.(manager := m, dirty := site.dirty, pending := site.pending)
  }

  predicate Inserts(m: ManagerState, e: DirEvent) {
    && e.Create? && !e.isDir && (e.name == "" || e.name[0] != '.') && !IsImageName(e.name)
    && e.name !in m.manual && !NameCached(m.local, e.name)
  }

  // What an event means for the edited names and the changed rows.
  function EventSite(s: System, e: DirEvent): Site {
    var m, site := s.manager, SiteOf(s);
    if Inserts(m, e) then Do(m.wspace, site, Insert(e.name, e.insertSteps))
    else if e.CloseWrite? && e.wd in m.watched then site.(dirty := s.dirty + {m.watched[e.wd]})
    else if e.CloseWrite? && e.fileId in m.local.cache then Do(m.wspace, site, Update(e.fileId, e.updateSteps))
    else if e.DeleteSelf? && e.deletedId in m.local.cache then
      Do(m.wspace, site, Remove(m.local.cache[e.deletedId].id, e.deleteOk))
    else site
  }

  function AfterEvent(s: System, e: DirEvent): System {
    WithSite(s, HandleOne(s.manager, e), EventSite(s, e))
  }

  function AfterEvents(s: System, events: seq<DirEvent>): System
    decreases |events|
  {
    if events == [] then s else AfterEvents(AfterEvent(s, events[0]), events[1..])
  }

  lemma {:induction false} AfterEventsHandled(s: System, events: seq<DirEvent>)
    ensures AfterEvents(s, events).manager == HandleAll(s.manager, events)
    ensures AfterEvents(s, events).queue == s.queue && AfterEvents(s, events).handled == s.handled
    decreases |events|
  {
    if events == [] {
    } else {
      AfterEventsHandled(AfterEvent(s, events[0]), events[1..]);
    }
  }

  function NoticeSite(s: System, n: Notice): Site {
    var m, site := s.manager, SiteOf(s);
    if n.fileWspace != m.wspace then site
    else if n.note.DeletedNote? then Do(m.wspace, site, DeleteNote(n.fileId))
    else if Joined(m.local.tables, n.fileId) && (n.note.InsertNote? || n.fileId in m.local.cache) then
      Do(m.wspace, site, Load(n.fileId))
    else site
  }

  function AfterNotice(s: System, n: Notice): System {
    WithSite(s, HandleNotice(s.manager, n), NoticeSite(s, n))
  }

  function AfterNotices(s: System, notices: seq<Notice>): System
    decreases |notices|
  {
    if notices == [] then s else AfterNotices(AfterNotice(s, notices[0]), notices[1..])
  }

  lemma {:induction false} AfterNoticesHandled(s: System, notices: seq<Notice>)
    ensures AfterNotices(s, notices).manager == HandleNotices(s.manager, notices)
    ensures AfterNotices(s, notices).queue == s.queue && AfterNotices(s, notices).handled == s.handled
    decreases |notices|
  {
    if notices == [] {
    } else {
      AfterNoticesHandled(AfterNotice(s, notices[0]), notices[1..]);
    }
  }

  function EventsOf(queued: seq<Queued>): (events: seq<DirEvent>)
    ensures |events| == |queued|
  {
    seq(|queued|, i requires 0 <= i < |queued| => queued[i].event)
  }

  function Origin(events: seq<DirEvent>, own: bool): (queued: seq<Queued>)
    ensures |queued| == |events|
  {
    seq(|events|, i requires 0 <= i < |events| => Queued(events[i], own))
  }

  // The names of watched files, which an image cleanup may take away.
  function WatchedNames(m: ManagerState): set<string> { set wd | wd in m.watched :: m.watched[wd] }

  predicate FromOutside(a: Action) { a.Edit? || a.Erase? || a.OtherInsert? || a.OtherUpdate? || a.OtherDelete? }

  predicate CanTake(s: System, t: Happening) {
    match t
    case Read(n, _) => n <= |s.queue|
    case CleanUp(wds, steps, _) => |steps| == |wds| && I.AllWatched(Gallery(s.manager), wds)
    case Timer => s.manager.timers > 0
    case Outside(a, _) => FromOutside(a) && (a.OtherUpdate? ==> Joined(s.manager.local.tables, a.id))
    case _ => true
  }

  // A turn as the manager takes it, before what it causes is queued.
  function Manage(s: System, t: Happening): System
    requires CanTake(s, t)
  {
    var m, site := s.manager, SiteOf(s);
    match t
    case Read(n, _) =>
      var s' := s.(queue := s.queue[n..]);
      if m.ignoring then s'
      else AfterEvents(s'.(manager := Ignore(m), handled := s.handled + s.queue[..n]), EventsOf(s.queue[..n]))
    case Request(name, f) =>
      if NameCached(m.local, name) then s
      else
        WithSite(s, m.(local := Inserted(m.local, m.wspace, name, f),
                       manual := if CanInsert(m.local, name, f) then m.manual + {name} else m.manual),
                 Do(m.wspace, site, Insert(name, f)))
    case Notified(notices, _) => AfterNotices(s.(manager := Ignore(m)), notices)
    case ResetWatch => s.(manager := ResetBatch(m))
    case CleanUp(wds, steps, _) => s.(manager := CleanedUp(m, wds, steps).1, dirty := s.dirty + WatchedNames(m))
    case SaveRData(f) => s.(manager := m.(local := SavedRData(m.local, m.wspace, f)))
    case LoadRData(ok, _) => s.(manager := m.(local := LoadedRData(m.local, m.wspace, ok)), dirty := s.dirty + {RDATA})
    case Timer => s.(manager := TurnOff(m))
    case Outside(a, _) => var site' := Do(m.wspace, site, a); WithSite(s, m.(local := site'.local), site')
    case OtherImage(row) =>
      s.(manager := m.(local := m.local.(tables := m.local.tables.(images := m.local.tables.images + [row]))))
  }

  function Caused(t: Happening): seq<Queued> {
    match t
    case Read(_, echoes) => Origin(echoes, true)
    case Notified(_, echoes) => Origin(echoes, true)
    case CleanUp(_, _, echoes) => Origin(echoes, true)
    case LoadRData(_, echoes) => Origin(echoes, true)
    case Outside(_, events) => Origin(events, false)
    case _ => []
  }

  function Take(s: System, t: Happening): System
    requires CanTake(s, t)
  {
    var s' := Manage(s, t);
    s'.(queue := s'.queue + Caused(t))
  }

  /** A turn is the manager's reaction of module Manager. */
  lemma TakeHandles(s: System, t: Happening)
    requires CanTake(s, t)
    ensures t.Read? ==> Take(s, t).manager == HandleEvents(s.manager, EventsOf(s.queue[..t.n]))
    ensures t.Read? ==> Take(s, t).handled == s.handled + if s.manager.ignoring then [] else s.queue[..t.n]
    ensures t.Notified? ==> Take(s, t).manager == HandleDBNotifications(s.manager, t.notices)
    ensures !t.Read? ==> Take(s, t).handled == s.handled && Take(s, t).queue == s.queue + Caused(t)
    ensures t.Read? ==> Take(s, t).queue == s.queue[t.n..] + Caused(t)
  {
    if t.Read? {
      var s' := s.(queue := s.queue[t.n..]);
      AfterEventsHandled(s'.(manager := Ignore(s.manager), handled := s.handled + s.queue[..t.n]),
                         EventsOf(s.queue[..t.n]));
    } else if t.Notified? {
      AfterNoticesHandled(s.(manager := Ignore(s.manager)), t.notices);
    }
  }

  ghost predicate EventPossible(s: System, e: DirEvent) {
    Inserts(s.manager, e) ==> Enabled(s.manager.wspace, SiteOf(s), Insert(e.name, e.insertSteps))
  }

  ghost predicate EventsPossible(s: System, events: seq<DirEvent>)
    decreases |events|
  {
    events == [] || (EventPossible(s, events[0]) && EventsPossible(AfterEvent(s, events[0]), events[1..]))
  }

  ghost predicate NoticeTrue(s: System, n: Notice) {
    var m := s.manager;
    n.fileWspace == m.wspace ==>
      if n.note.DeletedNote? then n.fileId !in m.local.tables.files
      else n.fileId in m.local.tables.files ==> Ours(m.local.tables, m.wspace, n.fileId)
  }

  ghost predicate NoticesTrue(s: System, notices: seq<Notice>)
    decreases |notices|
  {
    notices == [] || (NoticeTrue(s, notices[0]) && NoticesTrue(AfterNotice(s, notices[0]), notices[1..]))
  }

  /** When a turn can be taken: as in module FileSync, inserts come for free names
      and fresh ids, and notifications tell the truth. */
  ghost predicate Possible(s: System, t: Happening) {
    var m, site := s.manager, SiteOf(s);
    CanTake(s, t) &&
    match t
    case Read(n, _) =>
      m.ignoring || EventsPossible(s.(queue := s.queue[n..], manager := Ignore(m), handled := s.handled + s.queue[..n]),
                                   EventsOf(s.queue[..n]))
    case Request(name, f) => !NameCached(m.local, name) ==> Enabled(m.wspace, site, Insert(name, f))
    case Notified(notices, _) => NoticesTrue(s.(manager := Ignore(m)), notices)
    case Outside(a, _) => Enabled(m.wspace, site, a)
    case OtherImage(row) => I.Enabled(Gallery(m), m.session, I.OtherSession(row))
    case _ => true
  }

  /** Files agree as far as they can, and images are indexed. */
  ghost predicate Healthy(s: System) {
    && Coherent(s.manager.wspace, SiteOf(s))
    && I.Inv(Gallery(s.manager), s.manager.session)
  }

  // Image rows, saved workspaces and edited files are nothing to the records of
  // the other files.
  lemma FilesApart(wspace: int, s: Site, s': Site)
    requires Coherent(wspace, s)
    requires s'.local.cache == s.local.cache && s'.pending == s.pending && s.dirty <= s'.dirty
    requires s'.local.tables.files == s.local.tables.files && s'.local.tables.data == s.local.tables.data
    requires forall name :: name !in s'.dirty && name in s.local.disk ==>
      name in s'.local.disk && s'.local.disk[name] == s.local.disk[name]
    ensures Coherent(wspace, s')
  {
    assert forall id :: Ours(s'.local.tables, wspace, id) <==> Ours(s.local.tables, wspace, id);
    forall id | id in s'.local.cache ensures CachedOk(wspace, s', id) {
      assert CachedOk(wspace, s, id);
    }
  }

  // Storing an image takes away its own file and no other.
  lemma StoreSpares(g: I.Gallery, session: int, file: string, f: I.ImageSteps, name: string)
    requires name != file && name in g.disk
    ensures var g' := I.InsertImage(g, session, file, f).gallery;
      name in g'.disk && g'.disk[name] == g.disk[name]
  {
  }

  lemma {:induction false} CleanupSpares(g: I.Gallery, session: int, wds: seq<int>, steps: seq<I.ImageSteps>,
                                         name: string)
    requires |steps| == |wds| && I.AllWatched(g, wds)
    requires name in g.disk && forall wd :: wd in g.watched ==> g.watched[wd] != name
    ensures var g' := I.Cleanup(g, session, wds, steps).gallery;
      name in g'.disk && g'.disk[name] == g.disk[name]
    decreases |wds|
  {
    if wds == [] {
    } else {
      var wd := wds[0];
      assert wd in g.watched;
      var file := g.watched[wd];
      StoreSpares(g, session, file, steps[0], name);
      I.StoreElsewhere(g, session, file, steps[0]);
      var r := I.InsertImage(g, session, file, steps[0]);
      if !r.raised { CleanupSpares(r.gallery, session, wds[1..], steps[1..], name); }
    }
  }

  // A watched image is closed.
  lemma ImageStored(s: System, e: DirEvent)
    requires Healthy(s) && e.CloseWrite? && e.wd in s.manager.watched
    ensures Coherent(s.manager.wspace, SiteOf(AfterEvent(s, e)))
  {
    var m, file := s.manager, s.manager.watched[e.wd];
    forall name | name in m.local.disk && name != file
      ensures var g' := I.InsertImage(Gallery(m), m.session, file, e.imageSteps).gallery;
        name in g'.disk && g'.disk[name] == m.local.disk[name]
    {
      StoreSpares(Gallery(m), m.session, file, e.imageSteps, name);
    }
    FilesApart(m.wspace, SiteOf(s), SiteOf(AfterEvent(s, e)));
  }

  lemma EventHealthy(s: System, e: DirEvent)
    requires Healthy(s) && EventPossible(s, e)
    ensures Healthy(AfterEvent(s, e))
  {
    var m, site := s.manager, SiteOf(s);
    HandleOneIndexed(m, e);
    if Inserts(m, e) {
      StepKeeps(m.wspace, site, Insert(e.name, e.insertSteps));
    } else if e.CloseWrite? && e.wd in m.watched {
      ImageStored(s, e);
    } else if e.CloseWrite? && e.fileId in m.local.cache {
      StepKeeps(m.wspace, site, Update(e.fileId, e.updateSteps));
    } else if e.DeleteSelf? && e.deletedId in m.local.cache {
      assert CachedOk(m.wspace, site, e.deletedId);
      StepKeeps(m.wspace, site, Remove(e.deletedId, e.deleteOk));
    }
  }

  lemma {:induction false} EventsHealthy(s: System, events: seq<DirEvent>)
    requires Healthy(s) && EventsPossible(s, events)
    ensures Healthy(AfterEvents(s, events))
    decreases |events|
  {
    if events == [] {
    } else {
      EventHealthy(s, events[0]);
      EventsHealthy(AfterEvent(s, events[0]), events[1..]);
    }
  }

  lemma NoticeHealthy(s: System, n: Notice)
    requires Healthy(s) && NoticeTrue(s, n)
    ensures Healthy(AfterNotice(s, n))
  {
    var m, site := s.manager, SiteOf(s);
    if n.fileWspace == m.wspace {
      if n.note.DeletedNote? {
        StepKeeps(m.wspace, site, DeleteNote(n.fileId));
      } else if Joined(m.local.tables, n.fileId) && (n.note.InsertNote? || n.fileId in m.local.cache) {
        StepKeeps(m.wspace, site, Load(n.fileId));
        assert RowsOf(m.local.tables, n.fileId)[1..] == [];
        assert Loaded(LoadedOne(m.local, n.fileId), []) == LoadedOne(m.local, n.fileId);
      }
    }
  }

  lemma {:induction false} NoticesHealthy(s: System, notices: seq<Notice>)
    requires Healthy(s) && NoticesTrue(s, notices)
    ensures Healthy(AfterNotices(s, notices))
    decreases |notices|
  {
    if notices == [] {
    } else {
      NoticeHealthy(s, notices[0]);
      NoticesHealthy(AfterNotice(s, notices[0]), notices[1..]);
    }
  }

  lemma CleanUpHealthy(s: System, t: Happening)
    requires Healthy(s) && Possible(s, t) && t.CleanUp?
    ensures Healthy(Manage(s, t))
  {
    var m := s.manager;
    I.CleanupKeeps(Gallery(m), m.session, t.wds, t.imageSteps);
    CleanUpSpares(m, t.wds, t.imageSteps);
    FilesApart(m.wspace, SiteOf(s), SiteOf(Manage(s, t)));
  }

  lemma CleanUpSpares(m: ManagerState, wds: seq<int>, steps: seq<I.ImageSteps>)
    requires |steps| == |wds| && I.AllWatched(Gallery(m), wds)
    ensures var disk := CleanedUp(m, wds, steps).1.local.disk;
      forall name :: name in m.local.disk && name !in WatchedNames(m) ==>
        name in disk && disk[name] == m.local.disk[name]
  {
    var disk := CleanedUp(m, wds, steps).1.local.disk;
    forall name | name in m.local.disk && name !in WatchedNames(m)
      ensures name in disk && disk[name] == m.local.disk[name]
    {
      assert forall wd :: wd in m.watched ==> m.watched[wd] != name;
      CleanupSpares(Gallery(m), m.session, wds, steps, name);
    }
  }

  lemma RDataHealthy(s: System, t: Happening)
    requires Healthy(s) && Possible(s, t) && (t.SaveRData? || t.LoadRData?)
    ensures Healthy(Manage(s, t))
  {
    FilesApart(s.manager.wspace, SiteOf(s), SiteOf(Manage(s, t)));
  }

  lemma OtherImageHealthy(s: System, t: Happening)
    requires Healthy(s) && Possible(s, t) && t.OtherImage?
    ensures Healthy(Manage(s, t))
  {
    I.StepKeeps(Gallery(s.manager), s.manager.session, I.OtherSession(t.row));
    FilesApart(s.manager.wspace, SiteOf(s), SiteOf(Manage(s, t)));
  }

  /** Every turn keeps files and images right. */
  lemma TurnHealthy(s: System, t: Happening)
    requires Healthy(s) && Possible(s, t)
    ensures Healthy(Take(s, t))
  {
    var m := s.manager;
    match t
    case Read(n, _) =>
      if !m.ignoring {
        EventsHealthy(s.(queue := s.queue[n..], manager := Ignore(m), handled := s.handled + s.queue[..n]),
                      EventsOf(s.queue[..n]));
      }
    case Request(name, f) =>
      if !NameCached(m.local, name) { StepKeeps(m.wspace, SiteOf(s), Insert(name, f)); }
    case Notified(notices, _) => NoticesHealthy(s.(manager := Ignore(m)), notices);
    case ResetWatch => I.ResetKeeps(Gallery(m), m.session);
    case CleanUp(_, _, _) => CleanUpHealthy(s, t);
    case SaveRData(_) => RDataHealthy(s, t);
    case LoadRData(_, _) => RDataHealthy(s, t);
    case Timer =>
    case Outside(a, _) => StepKeeps(m.wspace, SiteOf(s), a);
    case OtherImage(_) => OtherImageHealthy(s, t);
  }

  /** A session begins healthy: connecting loads every row of the workspace, and
      the image numbers must not have gone below zero. */
  lemma ConnectHealthy(tables: Tables, disk: map<string, Bytes>, ids: seq<int>, wspace: int, session: int)
    requires forall i, j :: Ours(tables, wspace, i) && Ours(tables, wspace, j) && i != j ==>
      tables.files[i].name != tables.files[j].name
    requires forall i :: Ours(tables, wspace, i) ==> i in tables.data && i in ids
    requires forall i :: 0 <= i < |ids| ==> Joined(tables, ids[i]) && Ours(tables, wspace, ids[i])
    requires !I.HasRows(tables.images, session) || I.MaxBatch(tables.images, session) >= 0
    ensures forall id :: id in ids ==> Joined(tables, id)
    ensures var l := Loaded(Local(tables, map[], disk), ids);
      Healthy(System(ManagerState(l, wspace, session, 0, [], map[], {}, false, 0), {}, {}, [], []))
  {
    ConnectAgrees(wspace, tables, disk, ids);
  }

  ghost predicate CanRun(s: System, run: seq<Happening>)
    decreases |run|
  {
    run == [] || (Possible(s, run[0]) && CanRun(Take(s, run[0]), run[1..]))
  }

  ghost function After(s: System, run: seq<Happening>): System
    requires CanRun(s, run)
    decreases |run|
  {
    if run == [] then s else After(Take(s, run[0]), run[1..])
  }

  /** Over every run of reads, requests, notifications, image cleanups and
      batches, saves, restores and timers, with editors and other sessions in
      between, files stay coherent and the image list stays an exact index, both
      at once. */
  lemma {:induction false} RunHealthy(s: System, run: seq<Happening>)
    requires Healthy(s) && CanRun(s, run)
    ensures Healthy(After(s, run))
    decreases |run|
  {
    if run == [] {
    } else {
      TurnHealthy(s, run[0]);
      RunHealthy(Take(s, run[0]), run[1..]);
    }
  }

  /** So whenever nothing is edited and nothing outstanding after a run, all
      copies of every file agree, and the images told to the client are those of
      the batch. */
  lemma RunSettles(s: System, run: seq<Happening>)
    requires Healthy(s) && CanRun(s, run) && After(s, run).dirty == {} && After(s, run).pending == {}
    ensures var m := After(s, run).manager;
      && (forall id :: id in m.local.cache <==> Ours(m.local.tables, m.wspace, id))
      && (forall id :: id in m.local.cache ==> Synced(m.local, id))
      && (m.batch > 0 ==> m.imageIds == I.InBatch(m.local.tables.images, m.session, m.batch))
  {
    RunHealthy(s, run);
    QuietAgrees(After(s, run).manager.wspace, SiteOf(After(s, run)));
  }

  // An image is still in the directory as it was, or is a row of the session.
  ghost predicate Kept(s: System, name: string, data: Bytes) {
    I.Safe(Gallery(s.manager), s.manager.session, name, data)
  }

  // A notification for a workspace file of this name, which its handling writes
  // or deletes.
  predicate NoticeFor(s: System, n: Notice, name: string) {
    var l := s.manager.local;
    && n.fileWspace == s.manager.wspace
    && if n.note.DeletedNote? then n.fileId in l.cache && l.cache[n.fileId].path == name
       else Joined(l.tables, n.fileId) && l.tables.files[n.fileId].name == name
  }

  predicate NoticesSpare(s: System, notices: seq<Notice>, name: string)
    decreases |notices|
  {
    notices == [] || (!NoticeFor(s, notices[0], name) && NoticesSpare(AfterNotice(s, notices[0]), notices[1..], name))
  }

  /** Whether a turn leaves the file of this name to the image code: no editor
      touches it, and no file of the workspace, nor the saved data, has its name. */
  predicate Spares(s: System, t: Happening, name: string) {
    match t
    case Notified(notices, _) => NoticesSpare(s.(manager := Ignore(s.manager)), notices, name)
    case LoadRData(_, _) => name != RDATA
    case Outside(a, _) => (a.Edit? ==> a.name != name) && (a.Erase? ==> a.name != name)
    case _ => true
  }

  ghost predicate RunSpares(s: System, run: seq<Happening>, name: string)
    requires CanRun(s, run)
    decreases |run|
  {
    run == [] || (Spares(s, run[0], name) && RunSpares(Take(s, run[0]), run[1..], name))
  }

  lemma {:induction false} EventsKeep(s: System, events: seq<DirEvent>, name: string, data: Bytes)
    requires data != [] && Kept(s, name, data)
    ensures Kept(AfterEvents(s, events), name, data)
    decreases |events|
  {
    if events == [] {
    } else {
      var m, e := s.manager, events[0];
      if e.CloseWrite? && e.wd in m.watched {
        I.StoreSafe(Gallery(m), m.session, m.watched[e.wd], e.imageSteps, name, data);
      }
      EventsKeep(AfterEvent(s, e), events[1..], name, data);
    }
  }

  lemma NoticeKeeps(s: System, n: Notice, name: string, data: Bytes)
    requires Kept(s, name, data) && !NoticeFor(s, n, name)
    ensures Kept(AfterNotice(s, n), name, data)
  {
    var rows := RowsOf(s.manager.local.tables, n.fileId);
    if rows != [] {
      assert rows[1..] == [];
      assert Loaded(s.manager.local, rows) == LoadedOne(s.manager.local, n.fileId);
    }
  }

  lemma {:induction false} NoticesKeep(s: System, notices: seq<Notice>, name: string, data: Bytes)
    requires Kept(s, name, data) && NoticesSpare(s, notices, name)
    ensures Kept(AfterNotices(s, notices), name, data)
    decreases |notices|
  {
    if notices == [] {
    } else {
      NoticeKeeps(s, notices[0], name, data);
      NoticesKeep(AfterNotice(s, notices[0]), notices[1..], name, data);
    }
  }

  lemma TurnKeeps(s: System, t: Happening, name: string, data: Bytes)
    requires Possible(s, t) && Spares(s, t, name) && data != [] && Kept(s, name, data)
    ensures Kept(Take(s, t), name, data)
  {
    var m := s.manager;
    match t
    case Read(n, _) =>
      if !m.ignoring {
        EventsKeep(s.(queue := s.queue[n..], manager := Ignore(m), handled := s.handled + s.queue[..n]),
                   EventsOf(s.queue[..n]), name, data);
      }
    case Notified(notices, _) => NoticesKeep(s.(manager := Ignore(m)), notices, name, data);
    case CleanUp(wds, steps, _) => I.CleanupSafe(Gallery(m), m.session, wds, steps, name, data);
    case OtherImage(row) =>
      if I.Stored(m.local.tables.images, m.session, data) {
        I.StoredStays(m.local.tables.images, m.local.tables.images + [row], m.session, data);
      }
    case _ =>
  }

  /** No image is lost over any run of the manager in which nobody else writes or
      deletes the file: neither an editor nor the synchronisation of a workspace
      file of the same name. */
  lemma {:induction false} RunKeeps(s: System, run: seq<Happening>, name: string, data: Bytes)
    requires CanRun(s, run) && RunSpares(s, run, name) && data != [] && Kept(s, name, data)
    ensures Kept(After(s, run), name, data)
    decreases |run|
  {
    if run == [] {
    } else {
      TurnKeeps(s, run[0], name, data);
      RunKeeps(Take(s, run[0]), run[1..], name, data);
    }
  }
}
