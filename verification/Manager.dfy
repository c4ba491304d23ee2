/** The file manager's reactions, as functions: what one directory event, one
    database notification or one request for a file does to the session. */
module Manager {
  import opened Database
  import opened FileSync
  import I = Images

  /** The manager's state. `watched` are the images waiting to be closed, and
      `manual` the names added by request. */
  datatype ManagerState = ManagerState(
    local: Local, wspace: int, session: int,
    batch: int, imageIds: seq<int>, watched: map<int, string>, manual: set<string>,
    ignoring: bool, timers: nat)

  function Gallery(m: ManagerState): I.Gallery {
    I.Gallery(m.local.tables.images, m.local.disk, m.batch, m.imageIds, m.watched)
  }

  function WithGallery(m: ManagerState, g: I.Gallery): ManagerState {
    m.(local := m.local.(tables := m.local.tables.(images := g.images), disk := g.disk),
       batch := g.batch, imageIds := g.imageIds, watched := g.watched)
  }

  function Ignore(m: ManagerState): ManagerState {
    if m.ignoring then m else m.(ignoring := true, timers := m.timers + 1)
  }

  // The gallery's new state, with the flag up if a row went in.
  function Marked(m: ManagerState, g: I.Gallery): ManagerState {
    if g.images != m.local.tables.images then Ignore(WithGallery(m, g)) else WithGallery(m, g)
  }

  /** insertImage; the flag goes up once the row is in, before the file goes. */
  function StoreImage(m: ManagerState, name: string, f: I.ImageSteps): (bool, ManagerState) {
    var e := I.InsertImage(Gallery(m), m.session, name, f);
    (e.raised, Marked(m, e.gallery))
  }

  /** cleanupImageWatch */
  function CleanedUp(m: ManagerState, wds: seq<int>, steps: seq<I.ImageSteps>): (bool, ManagerState)
    requires |steps| == |wds| && I.AllWatched(Gallery(m), wds)
  {
    var e := I.Cleanup(Gallery(m), m.session, wds, steps);
    (e.raised, Marked(m, e.gallery))
  }

  /** resetWatch */
  function ResetBatch(m: ManagerState): ManagerState {
    WithGallery(m, I.Reset(Gallery(m))).(manual := {})
  }

  // Marking twice is marking once, as rows are only added.
  lemma MarkedTwice(m: ManagerState, g: I.Gallery, g': I.Gallery)
    requires m.local.tables.images <= g.images <= g'.images
    ensures Marked(Marked(m, g), g') == Marked(m, g')
  {
    assert g'.images == m.local.tables.images ==> |g.images| == |g'.images|;
  }

  predicate NameCached(l: Local, name: string) {
    exists id :: id in l.cache && l.cache[id].name == name
  }

  predicate Digit(c: char) { '0' <= c <= '9' }

  // The expression rc2img(\d+).png, whose dot stands for any character.
  predicate IsImageName(name: string) {
    && |name| >= 11 && name[..6] == "rc2img" && name[|name| - 3..] == "png"
    && forall i :: 6 <= i < |name| - 4 ==> Digit(name[i])
  }

  /** A directory event with what its handling meets on the way: the watch
      descriptor the kernel hands out (-1 for none), the file a descriptor stands
      for, and the steps the server accepts. */
  datatype DirEvent =
    | Create(name: string, isDir: bool, newWd: int, insertSteps: InsertSteps)
    | CloseWrite(wd: int, fileId: int, imageSteps: I.ImageSteps, updateSteps: UpdateSteps)
    | DeleteSelf(deletedId: int, deleteOk: bool)
    | NoChange

  /** One event. An exception ends its handling and no more. */
  function HandleOne(m: ManagerState, e: DirEvent): ManagerState {
    match e
    case Create(name, isDir, wd, f) =>
      if isDir || (name != "" && name[0] == '.') then m
      else if IsImageName(name) then
        if wd == -1 || wd in m.watched then m else m.(watched := m.watched[wd := name])
      else if name in m.manual || NameCached(m.local, name) then m
      else m.(local := Inserted(m.local, m.wspace, name, f))
    case CloseWrite(wd, id, imageSteps, f) =>
      if wd in m.watched then
        var r := StoreImage(m, m.watched[wd], imageSteps);
        if r.0 then r.1 else r.1.(watched := r.1.watched - {wd})
      else if id in m.local.cache then m.(local := Updated(m.local, id, f))
      else m
    case DeleteSelf(id, ok) =>
      if id in m.local.cache then m.(local := Removed(m.local, m.local.cache[id].id, ok)) else m
    case NoChange => m
  }

  function HandleAll(m: ManagerState, events: seq<DirEvent>): ManagerState
    decreases |events|
  {
    if events == [] then m else HandleAll(HandleOne(m, events[0]), events[1..])
  }

  /** handleInotifyEvent: dropped while ignoring, else handled one by one with
      the flag up. */
  function HandleEvents(m: ManagerState, events: seq<DirEvent>): ManagerState {
    if m.ignoring then m else HandleAll(Ignore(m), events)
  }

  // No two cached files have one name.
  ghost predicate NamesDistinct(l: Local) {
    forall i, j :: i in l.cache && j in l.cache && i != j ==> l.cache[i].name != l.cache[j].name
  }

  /** findOrAddFile: a cached file of that name, or else a new one. The answer
      is empty when the insert raises an exception. */
  ghost predicate FindsOrAdds(m: ManagerState, name: string, f: InsertSteps, answer: seq<Info>, m': ManagerState) {
    if NameCached(m.local, name) then
      && m' == m && |answer| == 1 && answer[0].name == name
      && exists id :: id in m.local.cache && m.local.cache[id] == answer[0]
    else
      && m' == m.(local := Inserted(m.local, m.wspace, name, f),
                  manual := if CanInsert(m.local, name, f) then m.manual + {name} else m.manual)
      && answer == if CanInsert(m.local, name, f) then [m'.local.cache[f.nextId]] else []
  }

  /** Asking twice gives the same file, and the second time nothing is inserted. */
  lemma FindOrAddAgain(m: ManagerState, name: string, f: InsertSteps, answer: seq<Info>, m': ManagerState,
                       f': InsertSteps, answer': seq<Info>, m'': ManagerState)
    requires NamesDistinct(m.local) && f.nextId !in m.local.cache
    requires FindsOrAdds(m, name, f, answer, m') && answer != []
    requires FindsOrAdds(m', name, f', answer', m'')
    ensures answer' == answer && m'' == m'
  {
    if !NameCached(m.local, name) {
      assert m'.local.cache[f.nextId].name == name;
    }
    assert NameCached(m'.local, name);
  }

  /** Whether an event may lead to the database: a new file that is not a
      directory or a dot file, a file closed after writing, or a file deleted. */
  predicate Consequential(e: DirEvent) {
    match e
    case Create(name, isDir, _, _) => !isDir && (name == "" || name[0] != '.')
    case CloseWrite(_, _, _, _) => true
    case DeleteSelf(_, _) => true
    case NoChange => false
  }

  /** Any other event leaves everything as it is. */
  lemma InconsequentialDoesNothing(m: ManagerState, e: DirEvent)
    requires !Consequential(e)
    ensures HandleOne(m, e) == m
  {
  }

  lemma HandleOneNames(m: ManagerState, e: DirEvent)
    requires NamesDistinct(m.local) && (forall id :: id in m.local.cache ==> m.local.cache[id].id == id)
    ensures NamesDistinct(HandleOne(m, e).local)
    ensures forall id :: id in HandleOne(m, e).local.cache ==> HandleOne(m, e).local.cache[id].id == id
  {
  }

  // Requests and events in any order.
  datatype Turn = Event(event: DirEvent) | Request(name: string, steps: InsertSteps)

  function TakeTurn(m: ManagerState, t: Turn): ManagerState {
    match t
    case Event(e) => HandleOne(m, e)
    case Request(name, f) =>
      if NameCached(m.local, name) then m
      else m.(local := Inserted(m.local, m.wspace, name, f),
              manual := if CanInsert(m.local, name, f) then m.manual + {name} else m.manual)
  }

  function TakeTurns(m: ManagerState, turns: seq<Turn>): ManagerState
    decreases |turns|
  {
    if turns == [] then m else TakeTurns(TakeTurn(m, turns[0]), turns[1..])
  }

  /** File names stay unique over every run of directory events and requests. */
  lemma {:induction false} RunNames(m: ManagerState, turns: seq<Turn>)
    requires NamesDistinct(m.local) && (forall id :: id in m.local.cache ==> m.local.cache[id].id == id)
    ensures NamesDistinct(TakeTurns(m, turns).local)
    decreases |turns|
  {
    if turns == [] {
    } else {
      if turns[0].Event? { HandleOneNames(m, turns[0].event); }
      RunNames(TakeTurn(m, turns[0]), turns[1..]);
    }
  }

  /** The existence check makes an insert possible in the sense of FileSync: once
      every row of the workspace is cached, a name no cached file has is free. */
  lemma CheckedNameFree(wspace: int, s: Site, name: string)
    requires Coherent(wspace, s) && !NameCached(s.local, name)
    requires forall id :: Ours(s.local.tables, wspace, id) ==> id in s.local.cache
    ensures NameFree(s.local, wspace, name)
  {
    forall id | Ours(s.local.tables, wspace, id) ensures s.local.tables.files[id].name != name {
      assert CachedOk(wspace, s, id);
    }
  }

  /** Handling events keeps the image index of module Images. */
  lemma HandleOneIndexed(m: ManagerState, e: DirEvent)
    requires I.Inv(Gallery(m), m.session)
    ensures I.Inv(Gallery(HandleOne(m, e)), m.session)
    ensures HandleOne(m, e).batch >= m.batch && HandleOne(m, e).session == m.session
  {
    if e.CloseWrite? && e.wd in m.watched {
      I.StoreKeeps(Gallery(m), m.session, m.watched[e.wd], e.imageSteps);
    }
  }

  /** While the manager ignores, a batch of events changes nothing; otherwise
      the flag is up afterwards with one timer more. */
  lemma {:induction false} HandleEventsGate(m: ManagerState, events: seq<DirEvent>)
    ensures m.ignoring ==> HandleEvents(m, events) == m
    ensures HandleEvents(m, events).ignoring
    ensures HandleEvents(m, events).timers == m.timers + (if m.ignoring then 0 else 1)
  {
    if !m.ignoring { HandleAllGate(Ignore(m), events); }
  }

  lemma {:induction false} HandleAllGate(m: ManagerState, events: seq<DirEvent>)
    requires m.ignoring
    ensures HandleAll(m, events).ignoring && HandleAll(m, events).timers == m.timers
    decreases |events|
  {
    if events == [] {
    } else {
      HandleAllGate(HandleOne(m, events[0]), events[1..]);
    }
  }

  datatype NoteType = InsertNote | UpdateNote | DeletedNote

  /** processDBNotification on a well-formed message; `rows` is what the query
      for the file returned. */
  function HandleNote(m: ManagerState, note: NoteType, fileId: int, fileWspace: int, rows: seq<int>): ManagerState
    requires forall id :: id in rows ==> Joined(m.local.tables, id)
  {
    if fileWspace != m.wspace then m
    else
      match note
      case DeletedNote => m.(local := Forgotten(m.local, fileId))
      case InsertNote => Ignore(m).(local := Loaded(m.local, rows))
      case UpdateNote => if fileId in m.local.cache then Ignore(m).(local := Loaded(m.local, rows)) else m
  }

  /** A notification, taken apart. */
  datatype Notice = Notice(note: NoteType, fileId: int, fileWspace: int)

  // The rows the query for one file returns.
  function RowsOf(t: Tables, id: int): seq<int> { if Joined(t, id) then [id] else [] }

  function HandleNotice(m: ManagerState, n: Notice): ManagerState {
    HandleNote(m, n.note, n.fileId, n.fileWspace, RowsOf(m.local.tables, n.fileId))
  }

  function HandleNotices(m: ManagerState, notices: seq<Notice>): ManagerState
    decreases |notices|
  {
    if notices == [] then m else HandleNotices(HandleNotice(m, notices[0]), notices[1..])
  }

  /** handleDBNotifications: the flag goes up before the first message is read. */
  function HandleDBNotifications(m: ManagerState, notices: seq<Notice>): ManagerState {
    HandleNotices(Ignore(m), notices)
  }

  /** handleIgnoreFSNotesOff */
  function TurnOff(m: ManagerState): ManagerState
    requires m.timers > 0
  {
    m.(ignoring := false, timers := m.timers - 1)
  }

  lemma {:induction false} HandleNoticesGate(m: ManagerState, notices: seq<Notice>)
    requires m.ignoring
    ensures HandleNotices(m, notices).ignoring && HandleNotices(m, notices).timers == m.timers
    decreases |notices|
  {
    if notices == [] {
    } else {
      HandleNoticesGate(HandleNotice(m, notices[0]), notices[1..]);
    }
  }
}
