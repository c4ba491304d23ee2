/** The file manager as an object. Each method is proved against module Manager. */
module FileManagers {
  import opened Database
  import opened FileSync
  import opened DBFileSources
  import opened Manager
  import I = Images

  class FileManager {
    const source: DBFileSource
    const wspaceId: int
    const sessionRecId: int
    var sessionImageBatch: int
    var imageIds: seq<int>
    var pendingImages: map<int, string>
    var manuallyAddedFiles: set<string>
    var ignoring: bool
    var timers: nat

    constructor (source: DBFileSource, sessionRecId: int)
      ensures this.source == source && wspaceId == source.wspaceId && this.sessionRecId == sessionRecId
      ensures State() == ManagerState(source.State(), source.wspaceId, sessionRecId, 0, [], map[], {}, false, 0)
    {
      this.source, wspaceId, this.sessionRecId := source, source.wspaceId, sessionRecId;
      sessionImageBatch, imageIds, pendingImages := 0, [], map[];
      manuallyAddedFiles, ignoring, timers := {}, false, 0;
    }

    function State(): ManagerState
      reads this, source, source.con, source.dir
    {
      ManagerState(source.State(), wspaceId, sessionRecId, sessionImageBatch, imageIds, pendingImages,
                      manuallyAddedFiles, ignoring, timers)
    }

    method IgnoreFSNotifications()
      modifies this`ignoring, this`timers
      ensures State() == Ignore(old(State()))
      ensures ignoring && (old(timers == if ignoring then 1 else 0) ==> timers == 1)
    {
      if ignoring { return; }
      ignoring := true;
      timers := timers + 1;
    }

    method HandleIgnoreFSNotesOff()
      requires timers > 0
      modifies this`ignoring, this`timers
      ensures State() == TurnOff(old(State()))
      ensures !ignoring && (old(timers == if ignoring then 1 else 0) ==> timers == 0)
    {
      ignoring := false;
      timers := timers - 1;
    }

    /** insertImage; true means an exception. */
    method InsertImage(name: string, f: I.ImageSteps) returns (raised: bool)
      modifies this`sessionImageBatch, this`imageIds, this`ignoring, this`timers, source.con, source.dir
      ensures raised == StoreImage(old(State()), name, f).0
      ensures State() == StoreImage(old(State()), name, f).1
    {
      if name !in source.dir.files { return true; }
      var data := source.dir.files[name];
      if |data| < 1 { return false; }
      if !f.sequenceOk || f.nextId <= 0 { return true; }
      if sessionImageBatch <= 0 {
        if !f.maxOk { return true; }
        sessionImageBatch := I.NextBatch(source.con.tables.images, sessionRecId);
      }
      var ok := source.con.InsertImage(ImageRow(f.nextId, sessionRecId, sessionImageBatch, data), f.rowOk);
      if !ok { return true; }
      imageIds := imageIds + [f.nextId];
      assert |source.con.tables.images| > |old(source.con.tables).images|;
      IgnoreFSNotifications();
      if !f.removeOk { return true; }
      source.dir.files := source.dir.files - {name};
      return false;
    }

    /** startImageWatch; true means an exception. */
    method StartImageWatch(name: string, wd: int) returns (raised: bool)
      modifies this`pendingImages
      ensures raised == (wd == -1)
      ensures State() == if wd == -1 || wd in old(pendingImages) then old(State())
                         else old(State()).(watched := old(pendingImages)[wd := name])
    {
      if wd == -1 { return true; }
      if wd !in pendingImages { pendingImages := pendingImages[wd := name]; }
      return false;
    }

    method StopImageWatch(wd: int)
      modifies this`pendingImages
      ensures State() == old(State()).(watched := old(pendingImages) - {wd})
    {
      pendingImages := pendingImages - {wd};
    }

    /** cleanupImageWatch over the watches in map order. */
    method CleanupImageWatch(wds: seq<int>, steps: seq<I.ImageSteps>) returns (raised: bool)
      requires |steps| == |wds| && I.AllWatched(Gallery(State()), wds)
      modifies this`sessionImageBatch, this`imageIds, this`ignoring, this`timers, this`pendingImages,
               source.con, source.dir
      ensures raised == CleanedUp(old(State()), wds, steps).0
      ensures State() == CleanedUp(old(State()), wds, steps).1
    {
      ghost var m := State();
      assert wds[0..] == wds && steps[0..] == steps;
      for i := 0 to |wds|
        invariant State() == Marked(m, Gallery(State())) && m.local.tables.images <= Gallery(State()).images
        invariant Gallery(State()).watched == m.watched
        invariant I.Cleanup(Gallery(State()), sessionRecId, wds[i..], steps[i..])
               == I.Cleanup(Gallery(m), sessionRecId, wds, steps)
      {
        ghost var g := Gallery(State());
        assert wds[i..][0] == wds[i] && steps[i..][0] == steps[i];
        assert wds[i..][1..] == wds[i + 1..] && steps[i..][1..] == steps[i + 1..];
        I.StoreElsewhere(g, sessionRecId, pendingImages[wds[i]], steps[i]);
        MarkedTwice(m, g, I.InsertImage(g, sessionRecId, pendingImages[wds[i]], steps[i]).gallery);
        raised := InsertImage(pendingImages[wds[i]], steps[i]);
        if raised { return; }
      }
      pendingImages := map[];
      raised := false;
    }

    method ResetWatch()
      modifies this`sessionImageBatch, this`imageIds, this`manuallyAddedFiles
      ensures State() == ResetBatch(old(State()))
      ensures imageIds == [] && manuallyAddedFiles == {}
      ensures sessionImageBatch == old(sessionImageBatch) + if old(imageIds) == [] then 0 else 1
      ensures old(I.Inv(Gallery(State()), sessionRecId)) ==> I.Inv(Gallery(State()), sessionRecId)
    {
      if I.Inv(Gallery(State()), sessionRecId) { I.ResetKeeps(Gallery(State()), sessionRecId); }
      if |imageIds| > 0 { sessionImageBatch := sessionImageBatch + 1; }
      imageIds := [];
      manuallyAddedFiles := {};
    }

    method CheckWatch() returns (ids: seq<int>, batchId: int)
      ensures ids == imageIds && batchId == sessionImageBatch
      ensures I.Inv(Gallery(State()), sessionRecId) && batchId > 0 ==>
        ids == I.InBatch(source.con.tables.images, sessionRecId, batchId)
    {
      ids, batchId := imageIds, sessionImageBatch;
    }

    // The loop over the files by id.
    method FileExistsWithName(name: string) returns (found: bool)
      ensures found == NameCached(source.State(), name)
    {
      var todo, more := source.filesById.Keys, true;
      while more
        invariant todo <= source.filesById.Keys
        invariant forall id :: id in source.filesById && id !in todo ==> source.filesById[id].name != name
        invariant !more ==> forall id :: id in source.filesById ==> source.filesById[id].name != name
        decreases |todo|, more
      {
        if id :| id in todo {
          if source.filesById[id].name == name { return true; }
          todo := todo - {id};
        } else {
          more := false;
        }
      }
      return false;
    }

    /** findOrAddFile; the answer is empty when an exception was raised. */
    method FindOrAddFile(name: string, f: InsertSteps) returns (answer: seq<Info>)
      requires wspaceId == source.wspaceId && f.nextId !in source.filesById
      modifies this`manuallyAddedFiles, source`filesById, source.con
      ensures FindsOrAdds(old(State()), name, f, answer, State())
      ensures |answer| <= 1 && forall info :: info in answer ==> info.name == name && info in source.filesById.Values
      ensures manuallyAddedFiles == old(manuallyAddedFiles)
                                    + if answer == [] || old(NameCached(source.State(), name)) then {} else {name}
    {
      var todo, more := source.filesById.Keys, true;
      while more
        invariant todo <= source.filesById.Keys
        invariant forall id :: id in source.filesById && id !in todo ==> source.filesById[id].name != name
        invariant !more ==> forall id :: id in source.filesById ==> source.filesById[id].name != name
        decreases |todo|, more
        modifies {}
      {
        if id :| id in todo {
          if source.filesById[id].name == name {
            assert State().local.cache[id] == source.filesById[id];
            return [source.filesById[id]];
          }
          todo := todo - {id};
        } else {
          more := false;
        }
      }
      assert !NameCached(State().local, name);
      var r := source.InsertDBFile(name, f);
      if r.Raised? { return []; }
      manuallyAddedFiles := manuallyAddedFiles + {name};
      return [source.filesById[f.nextId]];
    }

    /** One event of the loop in handleInotifyEvent, with its catch clause. */
    method HandleEvent(e: DirEvent)
      requires wspaceId == source.wspaceId
      modifies this, source`filesById, source.con, source.dir
      ensures State() == HandleOne(old(State()), e)
    {
      match e {
        case Create(name, isDir, wd, f) =>
          if !isDir && (name == "" || name[0] != '.') {
            if IsImageName(name) {
              var raised := StartImageWatch(name, wd);
            } else if name !in manuallyAddedFiles {
              var found := FileExistsWithName(name);
              if !found {
                var r := source.InsertDBFile(name, f);
              }
            }
          }
        case CloseWrite(wd, id, imageSteps, f) =>
          if wd in pendingImages {
            var raised := InsertImage(pendingImages[wd], imageSteps);
            if !raised { StopImageWatch(wd); }
          } else if id in source.filesById {
            var r := source.UpdateDBFile(id, f);
          }
        case DeleteSelf(id, ok) =>
          if id in source.filesById {
            source.RemoveDBFile(source.filesById[id].id, ok);
          }
        case NoChange =>
      }
    }

    /** handleInotifyEvent on the events read. */
    method HandleInotifyEvents(events: seq<DirEvent>)
      requires wspaceId == source.wspaceId
      modifies this, source`filesById, source.con, source.dir
      ensures State() == HandleEvents(old(State()), events)
    {
      if ignoring { return; }
      IgnoreFSNotifications();
      ghost var m := State();
      assert events[0..] == events;
      for i := 0 to |events|
        invariant HandleAll(State(), events[i..]) == HandleAll(m, events)
      {
        assert events[i..][0] == events[i] && events[i..][1..] == events[i + 1..];
        HandleEvent(events[i]);
      }
    }

    /** processDBNotification once the message is taken apart. */
    method ProcessDBNotification(note: NoteType, fileId: int, fileWspace: int, rows: seq<int>)
      requires forall id :: id in rows ==> Joined(source.con.tables, id)
      modifies this`ignoring, this`timers, source`filesById, source.dir
      ensures State() == HandleNote(old(State()), note, fileId, fileWspace, rows)
    {
      if wspaceId != fileWspace { return; }
      match note {
        case DeletedNote =>
          if fileId in source.filesById {
            var info := source.filesById[fileId];
            source.filesById := source.filesById - {fileId};
            source.dir.files := source.dir.files - {info.path};
          }
        case InsertNote =>
          IgnoreFSNotifications();
          source.LoadFiles(rows);
        case UpdateNote =>
          if fileId in source.filesById {
            IgnoreFSNotifications();
            source.LoadFiles(rows);
          }
      }
    }

    /** handleDBNotifications on the messages received. */
    method HandleDBNotifications(notices: seq<Notice>)
      modifies this`ignoring, this`timers, source`filesById, source.dir
      ensures State() == Manager.HandleDBNotifications(old(State()), notices)
      ensures ignoring && (old(timers == if ignoring then 1 else 0) ==> timers == 1)
    {
      IgnoreFSNotifications();
      ghost var m := State();
      HandleNoticesGate(m, notices);
      assert notices[0..] == notices;
      for i := 0 to |notices|
        invariant HandleNotices(State(), notices[i..]) == HandleNotices(m, notices)
      {
        assert notices[i..][0] == notices[i] && notices[i..][1..] == notices[i + 1..];
        var rows := RowsOf(source.con.tables, notices[i].fileId);
        ProcessDBNotification(notices[i].note, notices[i].fileId, notices[i].fileWspace, rows);
      }
    }
  }
}
