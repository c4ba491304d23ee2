/** Keeping the session's own writes out of the database: the flag that makes
    the manager drop directory events, and the low-priority timer that turns it
    off again. Proved of the manager's turns of module ManagerRuns. */
module Echo {
  import opened Database
  import opened FileSync
  import opened Manager
  import opened ManagerRuns
  import R = ManagerRuns
  import I = Images

  // A row of this workspace is written to its file, whether or not it changes it.
  predicate LoadsRow(s: System, n: Notice) {
    && n.fileWspace == s.manager.wspace && !n.note.DeletedNote? && Joined(s.manager.local.tables, n.fileId)
    && (n.note.UpdateNote? ==> n.fileId in s.manager.local.cache)
  }

  predicate LoadsRows(s: System, notices: seq<Notice>)
    decreases |notices|
  {
    notices != [] && (LoadsRow(s, notices[0]) || LoadsRows(AfterNotice(s, notices[0]), notices[1..]))
  }

  predicate RestoresRData(s: System, t: Happening) {
    t.LoadRData? && t.queryOk
    && exists row :: row in FirstSaved(s.manager.local.tables.saved, s.manager.wspace) && row.data != []
  }

  /** Whether the manager writes or deletes a file of the directory in a turn,
      told from the directory alone and from what is written unchanged. */
  predicate Writes(s: System, t: Happening)
    requires CanTake(s, t)
  {
    !t.Outside? &&
    (|| Take(s, t).manager.local.disk != s.manager.local.disk
     || (t.Notified? && LoadsRows(s.(manager := Ignore(s.manager)), t.notices))
     || RestoresRData(s, t))
  }

  // An event that writing or deleting this file can cause.
  predicate EchoOf(m: ManagerState, name: string, e: DirEvent) {
    match e
    case Create(n, _, _, _) => n == name
    case CloseWrite(wd, id, _, _) =>
      if wd in m.watched then m.watched[wd] == name else id in m.local.cache && m.local.cache[id].path == name
    case DeleteSelf(id, _) => id in m.local.cache && m.local.cache[id].path == name
    case NoChange => true
  }

  // The events a turn causes come from files it writes or deletes; restoring the
  // saved data writes just one.
  predicate Echoes(s: System, t: Happening)
    requires CanTake(s, t)
  {
    && (Caused(t) != [] && !t.Outside? ==> Writes(s, t))
    && (t.LoadRData? ==> forall i :: 0 <= i < |t.echoes| ==> EchoOf(s.manager, RDATA, t.echoes[i]))
  }

  // The saved data is neither a file of the workspace nor a watched image.
  predicate RDataApart(m: ManagerState) {
    CacheApart(m) && WatchesApart(m)
  }

  predicate CacheApart(m: ManagerState) {
    forall id :: id in m.local.cache ==> m.local.cache[id].path != RDATA
  }

  predicate WatchesApart(m: ManagerState) {
    forall wd :: wd in m.watched ==> m.watched[wd] != RDATA
  }

  /** Whether saved data can be restored without an echo: the flag is up, or
      nothing is written, or what is written is nobody's file. */
  predicate MayRestore(s: System, queryOk: bool) {
    s.manager.ignoring || !Writes(s, LoadRData(queryOk, [])) || RDataApart(s.manager)
  }

  /** A turn as the event loop takes it: the timer waits for the queue, as its
      lower priority promises, and saved data is restored only where it may be. */
  ghost predicate Served(s: System, t: Happening) {
    && Possible(s, t) && Echoes(s, t)
    && (t.Timer? ==> s.queue == [])
    && (t.LoadRData? ==> MayRestore(s, t.queryOk))
  }

  predicate Timed(m: ManagerState) { m.timers == if m.ignoring then 1 else 0 }

  // Images go to the database before their file is deleted.
  lemma StoreMarks(g: I.Gallery, session: int, name: string, f: I.ImageSteps)
    ensures var g' := I.InsertImage(g, session, name, f).gallery;
      g.images <= g'.images && (g'.images == g.images ==> g'.disk == g.disk)
  {
  }

  lemma {:induction false} CleanupMarks(g: I.Gallery, session: int, wds: seq<int>, steps: seq<I.ImageSteps>)
    requires |steps| == |wds| && I.AllWatched(g, wds)
    ensures var g' := I.Cleanup(g, session, wds, steps).gallery;
      g.images <= g'.images && (g'.images == g.images ==> g'.disk == g.disk)
    decreases |wds|
  {
    if wds == [] {
    } else {
      var r := I.InsertImage(g, session, g.watched[wds[0]], steps[0]);
      StoreMarks(g, session, g.watched[wds[0]], steps[0]);
      if !r.raised {
        I.StoreElsewhere(g, session, g.watched[wds[0]], steps[0]);
        CleanupMarks(r.gallery, session, wds[1..], steps[1..]);
        var g' := I.Cleanup(g, session, wds, steps).gallery;
        assert g'.images == g.images ==> |r.gallery.images| == |g.images|;
      }
    }
  }

  lemma TurnTimed(s: System, t: Happening)
    requires Timed(s.manager) && CanTake(s, t)
    ensures Timed(Take(s, t).manager)
    ensures s.manager.ignoring && !t.Timer? ==> Take(s, t).manager.ignoring
    ensures t.Read? || t.Notified? ==> Take(s, t).manager.ignoring
  {
    TakeHandles(s, t);
    if t.Read? {
      HandleEventsGate(s.manager, EventsOf(s.queue[..t.n]));
    } else if t.Notified? {
      HandleNoticesGate(Ignore(s.manager), t.notices);
    }
  }

  /** Every write and delete of the manager happens with the flag up and one timer
      to turn it off, but for the restoring of saved data. */
  lemma WritesFlagged(s: System, t: Happening)
    requires Timed(s.manager) && CanTake(s, t) && Writes(s, t) && !t.LoadRData?
    ensures Take(s, t).manager.ignoring && Take(s, t).manager.timers == 1
  {
    TurnTimed(s, t);
    if t.CleanUp? { CleanupMarks(Gallery(s.manager), s.manager.session, t.wds, t.imageSteps); }
  }

  predicate Harmless(q: Queued) { q.own ==> !Consequential(q.event) }

  predicate AllHarmless(queued: seq<Queued>) { forall i :: 0 <= i < |queued| ==> Harmless(queued[i]) }

  /** The flag is up exactly while one timer is outstanding, while it is down the
      queue holds no event of the manager's own that could matter, and none such
      was ever handled. */
  predicate Sealed(s: System) {
    && Timed(s.manager)
    && (!s.manager.ignoring ==> AllHarmless(s.queue))
    && AllHarmless(s.handled)
  }

  lemma CausedHarmless(s: System, t: Happening)
    requires Timed(s.manager) && Served(s, t) && !Take(s, t).manager.ignoring
    ensures AllHarmless(Caused(t))
  {
    if !t.Outside? && !t.LoadRData? && Caused(t) != [] { WritesFlagged(s, t); }
  }

  lemma TurnSealed(s: System, t: Happening)
    requires Sealed(s) && Served(s, t)
    ensures Sealed(Take(s, t))
  {
    TakeHandles(s, t);
    TurnTimed(s, t);
    if !Take(s, t).manager.ignoring { CausedHarmless(s, t); }
  }

  // A number that no watch has.
  lemma {:induction false} FreeDescriptor(wds: set<int>) returns (n: int)
    ensures forall wd :: wd in wds ==> wd < n
    decreases wds
  {
    if wd :| wd in wds {
      var m := FreeDescriptor(wds - {wd});
      n := if m <= wd then wd + 1 else m;
      forall d | d in wds ensures d < n {
        if d != wd { assert d in wds - {wd}; }
      }
    } else {
      n := 0;
    }
  }

  const ANY_IMAGE := I.ImageSteps(1, true, true, true, true)
  const ANY_UPDATE := UpdateSteps(true, true, true)

  // The event of the file that the saved data overwrites.
  lemma WrittenOver(m: ManagerState) returns (e: DirEvent)
    requires !RDataApart(m)
    ensures EchoOf(m, RDATA, e) && e.CloseWrite?
  {
    if !WatchesApart(m) {
      var wd :| wd in m.watched && m.watched[wd] == RDATA;
      e := CloseWrite(wd, 0, ANY_IMAGE, ANY_UPDATE);
    } else {
      var id :| id in m.local.cache && m.local.cache[id].path == RDATA;
      var wd := FreeDescriptor(m.watched.Keys);
      assert wd !in m.watched.Keys;
      e := CloseWrite(wd, id, ANY_IMAGE, ANY_UPDATE);
    }
  }

  /** Exactly there: whatever events the restoring causes, nothing is broken by
      them if and only if saved data may be restored. */
  lemma RestoreExact(s: System, queryOk: bool)
    requires Sealed(s)
    ensures (forall echoes :: Echoes(s, LoadRData(queryOk, echoes)) ==> Sealed(Take(s, LoadRData(queryOk, echoes))))
       <==> MayRestore(s, queryOk)
  {
    if MayRestore(s, queryOk) {
      forall echoes | Echoes(s, LoadRData(queryOk, echoes)) ensures Sealed(Take(s, LoadRData(queryOk, echoes))) {
        assert Served(s, LoadRData(queryOk, echoes));
        TurnSealed(s, LoadRData(queryOk, echoes));
      }
    } else {
      var e := WrittenOver(s.manager);
      BreaksSeal(s, LoadRData(queryOk, [e]));
    }
  }

  lemma BreaksSeal(s: System, t: Happening)
    requires t.LoadRData? && |t.echoes| == 1 && EchoOf(s.manager, RDATA, t.echoes[0]) && t.echoes[0].CloseWrite?
    requires !s.manager.ignoring && Writes(s, LoadRData(t.queryOk, []))
    ensures Echoes(s, t) && !Sealed(Take(s, t))
  {
    var s' := Take(s, t);
    assert s'.manager == Take(s, LoadRData(t.queryOk, [])).manager;
    assert s'.queue[|s.queue|] == Queued(t.echoes[0], true);
  }

  ghost predicate AllServed(s: System, run: seq<Happening>)
    requires R.CanRun(s, run)
    decreases |run|
  {
    run == [] || (Served(s, run[0]) && AllServed(Take(s, run[0]), run[1..]))
  }

  /** No echo reaches the database: in every run in which queued events are
      served before the timer, no event that the manager caused itself and that
      could lead to the database is ever handled. */
  lemma {:induction false} RunSealed(s: System, run: seq<Happening>)
    requires Sealed(s) && R.CanRun(s, run) && AllServed(s, run)
    ensures Sealed(R.After(s, run))
    decreases |run|
  {
    if run == [] {
    } else {
      TurnSealed(s, run[0]);
      RunSealed(Take(s, run[0]), run[1..]);
    }
  }

  // A session with one cached file and its row.
  function OneFile(name: string, saved: seq<SavedRow>, disk: map<string, Bytes>): System {
    System(ManagerState(
             Local(Tables(map[1 := FileRow(7, name, 1)], map[1 := [0]], saved, []), map[1 := Info(1, 1, name, name)],
                   disk),
             7, 1, 0, [], map[], {}, false, 0),
           {}, {}, [], [])
  }

  const WRITTEN := CloseWrite(5, 1, ANY_IMAGE, ANY_UPDATE)

  lemma ReadsEcho(s: System)
    requires s.queue == [Queued(WRITTEN, true)] && !s.manager.ignoring && 5 !in s.manager.watched
    ensures Possible(s, Read(1, [])) && Echoes(s, Read(1, []))
    ensures Take(s, Read(1, [])).handled == s.handled + [Queued(WRITTEN, true)]
    ensures Take(s, Read(1, [])).manager == HandleOne(Ignore(s.manager), WRITTEN)
  {
    var t := Read(1, []);
    TakeHandles(s, t);
    assert s.queue[..1] == s.queue && EventsOf(s.queue) == [WRITTEN] && [WRITTEN][1..] == [];
    var m := Ignore(s.manager);
    assert HandleAll(m, [WRITTEN]) == HandleAll(HandleOne(m, WRITTEN), []) == HandleOne(m, WRITTEN);
    var s' := s.(queue := s.queue[1..], manager := m, handled := s.handled + s.queue[..1]);
    assert EventsPossible(AfterEvent(s', WRITTEN), []);
    assert EventsPossible(s', [WRITTEN]);
  }

  const PLOT := OneFile("plot.R", [], map["plot.R" := [0]])
  const NOTED := Notified([Notice(UpdateNote, 1, 7)], [WRITTEN])

  // The file is written again as it was.
  lemma RowReloaded(s: System)
    requires s == PLOT.(manager := Ignore(PLOT.manager))
    ensures AfterNotice(s, Notice(UpdateNote, 1, 7)) == s
    ensures LoadsRow(s, Notice(UpdateNote, 1, 7)) && NoticeTrue(s, Notice(UpdateNote, 1, 7))
  {
    var local := s.manager.local;
    assert RowsOf(local.tables, 1) == [1] && [1][1..] == [];
    assert LoadedOne(local, 1) == local;
    assert Loaded(local, [1]) == Loaded(LoadedOne(local, 1), []) == local;
    assert s.pending - {1} == s.pending && s.dirty - {"plot.R"} == s.dirty;
  }

  // A notification about the file: its write is queued.
  lemma NotedFile()
    ensures Served(PLOT, NOTED)
    ensures Take(PLOT, NOTED) == PLOT.(manager := Ignore(PLOT.manager), queue := [Queued(WRITTEN, true)])
  {
    var notices := [Notice(UpdateNote, 1, 7)];
    var s := PLOT.(manager := Ignore(PLOT.manager));
    RowReloaded(s);
    assert notices[0] == Notice(UpdateNote, 1, 7) && notices[1..] == [];
    assert NoticesTrue(s, []) && AfterNotices(s, []) == s;
    assert NoticesTrue(s, notices) && AfterNotices(s, notices) == s && LoadsRows(s, notices);
    assert Origin([WRITTEN], true) == [Queued(WRITTEN, true)];
  }

  lemma TimerServed()
    ensures var s := PLOT.(manager := Ignore(PLOT.manager), queue := [Queued(WRITTEN, true)]);
      Possible(s, Timer) && Take(s, Timer) == PLOT.(queue := [Queued(WRITTEN, true)])
  {
  }

  lemma WrittenUpdates()
    ensures HandleOne(Ignore(PLOT.manager), WRITTEN).local.tables.files == map[1 := FileRow(7, "plot.R", 2)]
  {
  }

  /** The order of service is what it rests on: if the timer may overtake the
      queue, a file written for a notification comes back as an update. */
  lemma OvertakingTimerEchoes()
    ensures Sealed(PLOT) && Served(PLOT, NOTED) && Possible(Take(PLOT, NOTED), Timer)
    ensures var s := Take(Take(PLOT, NOTED), Timer);
      && Possible(s, Read(1, [])) && Echoes(s, Read(1, []))
      && !Sealed(Take(s, Read(1, [])))
      && Take(s, Read(1, [])).manager.local.tables.files == map[1 := FileRow(7, "plot.R", 2)]
  {
    NotedFile();
    var s := PLOT.(queue := [Queued(WRITTEN, true)]);
    TimerServed();
    ReadsEcho(s);
    WrittenUpdates();
    assert Take(s, Read(1, [])).handled[0] == Queued(WRITTEN, true);
  }

  /** And restoring the saved data must not meet a file of the workspace: that
      file's own write comes back as an update. */
  lemma RestoredFileEchoes()
    ensures var s := OneFile(RDATA, [SavedRow(7, [1])], map[RDATA := [0]]);
      var restore := LoadRData(true, [WRITTEN]);
      && Sealed(s) && Possible(s, restore) && Echoes(s, restore) && !RDataApart(s.manager)
      && var s' := Take(s, restore);
      && Possible(s', Read(1, [])) && Echoes(s', Read(1, []))
      && !Sealed(Take(s', Read(1, [])))
      && Take(s', Read(1, [])).manager.local.tables.data == map[1 := [1]]
  {
    var s := OneFile(RDATA, [SavedRow(7, [1])], map[RDATA := [0]]);
    var restore := LoadRData(true, [WRITTEN]);
    var s' := Take(s, restore);
    assert FirstSaved(s.manager.local.tables.saved, 7) == [SavedRow(7, [1])];
    assert s'.manager.local.disk[RDATA] == [1] != s.manager.local.disk[RDATA];
    assert s'.queue == [Queued(WRITTEN, true)];
    ReadsEcho(s');
    assert Take(s', Read(1, [])).handled[0] == Queued(WRITTEN, true);
  }
}
