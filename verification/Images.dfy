/** Images of a session: files that R writes into the working directory are
    moved into the database, in numbered batches. */
module Images {
  import opened Database

  /** The image rows, the directory, the current batch with the ids stored in
      it, and the files watched until they are closed, by watch descriptor. */
  datatype Gallery = Gallery(
    images: seq<ImageRow>, disk: map<string, Bytes>, batch: int, imageIds: seq<int>, watched: map<int, string>)

  // The id the sequence hands out, and which of the steps succeed.
  datatype ImageSteps = ImageSteps(nextId: int, sequenceOk: bool, maxOk: bool, rowOk: bool, removeOk: bool)

  predicate HasRows(rows: seq<ImageRow>, session: int) {
    exists i :: 0 <= i < |rows| && rows[i].session == session
  }

  // select max(batchid); the empty answer reads as 0
  function MaxBatch(rows: seq<ImageRow>, session: int): (m: int)
    ensures HasRows(rows, session) ==> exists i :: 0 <= i < |rows| && rows[i].session == session && rows[i].batch == m
    ensures !HasRows(rows, session) ==> m == 0
    ensures forall i :: 0 <= i < |rows| && rows[i].session == session ==> rows[i].batch <= m
  {
    if rows == [] then 0
    else
      var n := |rows| - 1;
      var before := MaxBatch(rows[..n], session);
      assert forall i :: 0 <= i < n ==> rows[i] == rows[..n][i];
      assert HasRows(rows[..n], session) ==> HasRows(rows, session);
      if rows[n].session != session then before
      else if HasRows(rows[..n], session) && before >= rows[n].batch then before
      else rows[n].batch
  }

  function NextBatch(rows: seq<ImageRow>, session: int): int { MaxBatch(rows, session) + 1 }

  // The ids of the session's rows with this batch number, in order of insertion.
  function InBatch(rows: seq<ImageRow>, session: int, batch: int): seq<int> {
    if rows == [] then []
    else
      var last := rows[|rows| - 1];
      InBatch(rows[..|rows| - 1], session, batch)
      + if last.session == session && last.batch == batch then [last.id] else []
  }

  // How insertImage ends: with an exception or not, and in which state.
  datatype Ended = Ended(raised: bool, gallery: Gallery)

  /** insertImage */
  function InsertImage(g: Gallery, session: int, name: string, f: ImageSteps): Ended {
    if name !in g.disk then Ended(true, g)
    else if g.disk[name] == [] then Ended(false, g)
    else if !f.sequenceOk || f.nextId <= 0 then Ended(true, g)
    else if g.batch <= 0 && !f.maxOk then Ended(true, g)
    else
      var g1 := g.(batch := if g.batch <= 0 then NextBatch(g.images, session) else g.batch);
      if !f.rowOk || HasImage(g.images, f.nextId) then Ended(true, g1)
      else
        var g2 := g1.(images := g.images + [ImageRow(f.nextId, session, g1.batch, g.disk[name])],
                      imageIds := g.imageIds + [f.nextId]);
        if f.removeOk then Ended(false, g2.(disk := g.disk - {name})) else Ended(true, g2)
  }

  /** resetWatch */
  function Reset(g: Gallery): Gallery {
    g.(batch := if |g.imageIds| > 0 then g.batch + 1 else g.batch, imageIds := [])
  }

  predicate AllWatched(g: Gallery, wds: seq<int>) {
    forall i :: 0 <= i < |wds| ==> wds[i] in g.watched
  }

  /** The loop of cleanupImageWatch over the watched files; it ends at the first
      exception, and forgets the watches only if there was none. */
  function Cleanup(g: Gallery, session: int, wds: seq<int>, steps: seq<ImageSteps>): Ended
    requires |steps| == |wds| && AllWatched(g, wds)
    decreases |wds|
  {
    if wds == [] then Ended(false, g.(watched := map[]))
    else
      var r := InsertImage(g, session, g.watched[wds[0]], steps[0]);
      if r.raised then r else Cleanup(r.gallery, session, wds[1..], steps[1..])
  }

  /** The image list is an exact index of the current batch. */
  ghost predicate Indexed(g: Gallery, session: int) {
    g.batch > 0 ==>
      && g.imageIds == InBatch(g.images, session, g.batch)
      && forall i :: 0 <= i < |g.images| && g.images[i].session == session ==> g.images[i].batch <= g.batch
  }

  // The invariant behind it: before the first image of a session the list is
  // empty, and the first batch number will be positive.
  ghost predicate Inv(g: Gallery, session: int) {
    Indexed(g, session) && (g.batch <= 0 ==> g.imageIds == [] && NextBatch(g.images, session) >= 1)
  }

  datatype Action =
    | Store(name: string, steps: ImageSteps)
    | ResetWatch
    | CleanUp(wds: seq<int>, allSteps: seq<ImageSteps>)
    | StartWatch(wd: int, file: string)
    | StopWatch(stopped: int)
    | Write(written: string, bytes: Bytes)
    | Delete(deleted: string)
    | OtherSession(row: ImageRow)

  ghost predicate Enabled(g: Gallery, session: int, a: Action) {
    match a
    case CleanUp(wds, steps) => |steps| == |wds| && AllWatched(g, wds) && forall wd :: wd in g.watched ==> wd in wds
    case OtherSession(row) => row.session != session && !HasImage(g.images, row.id)
    case _ => true
  }

  function Do(g: Gallery, session: int, a: Action): Gallery
    requires a.CleanUp? ==> |a.allSteps| == |a.wds| && AllWatched(g, a.wds)
  {
    match a
    case Store(name, f) => InsertImage(g, session, name, f).gallery
    case ResetWatch => Reset(g)
    case CleanUp(wds, steps) => Cleanup(g, session, wds, steps).gallery
    // an insert into the map of watches does not replace
    case StartWatch(wd, file) => if wd in g.watched then g else g.(watched := g.watched[wd := file])
    case StopWatch(wd) => g.(watched := g.watched - {wd})
    case Write(name, bytes) => g.(disk := g.disk[name := bytes])
    case Delete(name) => g.(disk := g.disk - {name})
    case OtherSession(row) => g.(images := g.images + [row])
  }

  lemma {:induction false} NoneInBatch(rows: seq<ImageRow>, session: int, batch: int)
    requires forall i :: 0 <= i < |rows| && rows[i].session == session ==> rows[i].batch < batch
    ensures InBatch(rows, session, batch) == []
  {
    if rows == [] {
    } else {
      NoneInBatch(rows[..|rows| - 1], session, batch);
    }
  }

  lemma InBatchAppend(rows: seq<ImageRow>, row: ImageRow, session: int, batch: int)
    ensures InBatch(rows + [row], session, batch)
         == InBatch(rows, session, batch) + (if row.session == session && row.batch == batch then [row.id] else [])
  {
    assert (rows + [row])[..|rows|] == rows;
  }

  lemma MaxBatchOther(rows: seq<ImageRow>, row: ImageRow, session: int)
    requires row.session != session
    ensures MaxBatch(rows + [row], session) == MaxBatch(rows, session)
  {
    assert (rows + [row])[..|rows|] == rows;
  }

  /** Storing keeps the index exact, and the batch number does not go down. */
  lemma StoreKeeps(g: Gallery, session: int, name: string, f: ImageSteps)
    requires Inv(g, session)
    ensures var g' := InsertImage(g, session, name, f).gallery;
      Inv(g', session) && g'.batch >= g.batch
  {
    var g' := InsertImage(g, session, name, f).gallery;
    if g'.batch != g.batch {
      NoneInBatch(g.images, session, g'.batch);
    }
    if g'.images != g.images {
      InBatchAppend(g.images, g'.images[|g.images|], session, g'.batch);
    }
  }

  lemma ResetKeeps(g: Gallery, session: int)
    requires Inv(g, session)
    ensures Inv(Reset(g), session) && Reset(g).batch >= g.batch
  {
    if g.batch > 0 && |g.imageIds| > 0 { NoneInBatch(g.images, session, g.batch + 1); }
  }

  lemma {:induction false} CleanupKeeps(g: Gallery, session: int, wds: seq<int>, steps: seq<ImageSteps>)
    requires Inv(g, session) && |steps| == |wds| && AllWatched(g, wds)
    ensures var g' := Cleanup(g, session, wds, steps).gallery;
      Inv(g', session) && g'.batch >= g.batch
    decreases |wds|
  {
    if wds == [] {
    } else {
      var r := InsertImage(g, session, g.watched[wds[0]], steps[0]);
      StoreKeeps(g, session, g.watched[wds[0]], steps[0]);
      if !r.raised { CleanupKeeps(r.gallery, session, wds[1..], steps[1..]); }
    }
  }

  lemma StepKeeps(g: Gallery, session: int, a: Action)
    requires Inv(g, session) && Enabled(g, session, a)
    ensures Inv(Do(g, session, a), session) && Do(g, session, a).batch >= g.batch
  {
    match a
    case Store(name, f) => StoreKeeps(g, session, name, f);
    case ResetWatch => ResetKeeps(g, session);
    case CleanUp(wds, steps) => CleanupKeeps(g, session, wds, steps);
    case OtherSession(row) =>
      InBatchAppend(g.images, row, session, g.batch);
      MaxBatchOther(g.images, row, session);
    case _ =>
  }

  ghost predicate CanRun(g: Gallery, session: int, run: seq<Action>)
    decreases |run|
  {
    run == [] || (Enabled(g, session, run[0]) && CanRun(Do(g, session, run[0]), session, run[1..]))
  }

  ghost function After(g: Gallery, session: int, run: seq<Action>): Gallery
    requires CanRun(g, session, run)
    decreases |run|
  {
    if run == [] then g else After(Do(g, session, run[0]), session, run[1..])
  }

  /** Over every run of inserts, failed inserts, resets, cleanups, other
      sessions' inserts and R's own writes: the list stays an exact index of
      the batch, no row of the session is in a later one, and the batch number
      never goes down. */
  lemma {:induction false} RunIndexed(g: Gallery, session: int, run: seq<Action>)
    requires Inv(g, session) && CanRun(g, session, run)
    ensures Indexed(After(g, session, run), session) && After(g, session, run).batch >= g.batch
    decreases |run|
  {
    if run == [] {
    } else {
      StepKeeps(g, session, run[0]);
      RunIndexed(Do(g, session, run[0]), session, run[1..]);
    }
  }

  function FreshId(rows: seq<ImageRow>): (id: int)
    ensures id > 0 && !HasImage(rows, id)
    ensures forall i :: 0 <= i < |rows| ==> rows[i].id < id
  {
    if rows == [] then 1
    else
      var n := |rows| - 1;
      var id := FreshId(rows[..n]);
      assert forall i :: 0 <= i < n ==> rows[i] == rows[..n][i];
      if rows[n].id >= id then rows[n].id + 1 else id
  }

  // R writes an image and it is stored without a fault.
  function OneImage(g: Gallery): seq<Action> {
    [Write("rc2img1.png", [0]), Store("rc2img1.png", ImageSteps(FreshId(g.images), true, true, true, true))]
  }

  lemma OneImageStored(g: Gallery, session: int) returns (g': Gallery)
    ensures CanRun(g, session, OneImage(g)) && After(g, session, OneImage(g)) == g'
    ensures g'.batch == if g.batch <= 0 then NextBatch(g.images, session) else g.batch
    ensures g'.imageIds == g.imageIds + [FreshId(g.images)]
    ensures g'.images == g.images + [ImageRow(FreshId(g.images), session, g'.batch, [0])]
  {
    var run := OneImage(g);
    var g1 := Do(g, session, run[0]);
    g' := Do(g1, session, run[1]);
    assert run[1..] == [run[1]] && run[1..][1..] == [];
    assert After(g', session, []) == g';
    assert After(g1, session, [run[1]]) == g';
  }

  lemma {:induction false} RunThen(g: Gallery, session: int, run: seq<Action>, more: seq<Action>)
    requires CanRun(g, session, run) && CanRun(After(g, session, run), session, more)
    ensures CanRun(g, session, run + more)
    ensures After(g, session, run + more) == After(After(g, session, run), session, more)
    decreases |run|
  {
    if run == [] {
      assert run + more == more;
    } else {
      assert (run + more)[1..] == run[1..] + more;
      RunThen(Do(g, session, run[0]), session, run[1..], more);
    }
  }

  lemma NextAfter(rows: seq<ImageRow>, row: ImageRow, session: int)
    requires row.session == session && row.batch == NextBatch(rows, session)
    ensures NextBatch(rows + [row], session) == row.batch + 1
  {
    var all := rows + [row];
    assert all[..|rows|] == rows;
    assert all[|rows|].session == session;
  }

  /** If the largest batch number of the session is negative, the numbers climb
      through 0, which reads as "no batch yet", and the list keeps ids of the
      batches before. */
  lemma {:induction false} NegativeBatchesBreak(g: Gallery, session: int) returns (run: seq<Action>)
    requires g.batch <= 0 && NextBatch(g.images, session) <= 0
    ensures CanRun(g, session, run) && !Indexed(After(g, session, run), session)
    decreases -NextBatch(g.images, session)
  {
    var next := NextBatch(g.images, session);
    var g1 := OneImageStored(g, session);
    var row := g1.images[|g.images|];
    NextAfter(g.images, row, session);
    var more: seq<Action>;
    if next < 0 {
      more := NegativeBatchesBreak(g1, session);
    } else {
      more := OneImage(g1);
      var g2 := OneImageStored(g1, session);
      NoneInBatch(g1.images, session, 1);
      InBatchAppend(g1.images, g2.images[|g1.images|], session, 1);
      assert |g2.imageIds| >= 2 && |InBatch(g2.images, session, 1)| == 1;
    }
    run := OneImage(g) + more;
    RunThen(g, session, OneImage(g), more);
  }

  /** Exactly when the index can be relied on in every run of a new session
      object: if and only if the session has no rows, or its largest batch
      number is not negative. */
  lemma IndexedIff(g: Gallery, session: int)
    requires g.batch == 0 && g.imageIds == []
    ensures (forall run :: CanRun(g, session, run) ==> Indexed(After(g, session, run), session))
       <==> !HasRows(g.images, session) || MaxBatch(g.images, session) >= 0
  {
    if NextBatch(g.images, session) >= 1 {
      forall run | CanRun(g, session, run) ensures Indexed(After(g, session, run), session) {
        RunIndexed(g, session, run);
      }
    } else {
      var run := NegativeBatchesBreak(g, session);
    }
  }

  ghost predicate Stored(rows: seq<ImageRow>, session: int, data: Bytes) {
    exists i :: 0 <= i < |rows| && rows[i].session == session && rows[i].data == data
  }

  // A file is still in the directory as it was, or its bytes are a row.
  ghost predicate Safe(g: Gallery, session: int, name: string, data: Bytes) {
    (name in g.disk && g.disk[name] == data) || Stored(g.images, session, data)
  }

  // Rows are only ever added.
  lemma StoredStays(rows: seq<ImageRow>, rows': seq<ImageRow>, session: int, data: Bytes)
    requires rows <= rows' && Stored(rows, session, data)
    ensures Stored(rows', session, data)
  {
    var i :| 0 <= i < |rows| && rows[i].session == session && rows[i].data == data;
    assert rows'[i] == rows[i];
  }

  lemma StoreSafe(g: Gallery, session: int, file: string, f: ImageSteps, name: string, data: Bytes)
    requires data != [] && Safe(g, session, name, data)
    ensures Safe(InsertImage(g, session, file, f).gallery, session, name, data)
    ensures g.images <= InsertImage(g, session, file, f).gallery.images
  {
    var g' := InsertImage(g, session, file, f).gallery;
    if Stored(g.images, session, data) {
      StoredStays(g.images, g'.images, session, data);
    } else if name !in g'.disk {
      assert g'.images[|g.images|].data == data;
    }
  }

  lemma {:induction false} CleanupSafe(g: Gallery, session: int, wds: seq<int>, steps: seq<ImageSteps>, name: string,
                                       data: Bytes)
    requires |steps| == |wds| && AllWatched(g, wds)
    requires data != [] && Safe(g, session, name, data)
    ensures Safe(Cleanup(g, session, wds, steps).gallery, session, name, data)
    decreases |wds|
  {
    if wds == [] {
    } else {
      var r := InsertImage(g, session, g.watched[wds[0]], steps[0]);
      StoreSafe(g, session, g.watched[wds[0]], steps[0], name, data);
      if !r.raised { CleanupSafe(r.gallery, session, wds[1..], steps[1..], name, data); }
    }
  }

  // Storing an image changes no file but its own, and adds none.
  lemma StoreElsewhere(g: Gallery, session: int, file: string, f: ImageSteps)
    ensures var r := InsertImage(g, session, file, f);
      && r.gallery.watched == g.watched && g.images <= r.gallery.images
      && (forall name :: name in r.gallery.disk ==> name in g.disk && r.gallery.disk[name] == g.disk[name])
      && (!r.raised ==> file in g.disk)
      && (!r.raised && g.disk[file] != [] ==>
            file !in r.gallery.disk && Stored(r.gallery.images, session, g.disk[file]))
  {
    var r := InsertImage(g, session, file, f);
    if !r.raised && g.disk[file] != [] {
      assert r.gallery.images[|g.images|].data == g.disk[file];
    }
  }

  // The file was there, and unless it was empty it is now a row instead.
  ghost predicate Moved(g: Gallery, g': Gallery, session: int, file: string) {
    && file in g.disk
    && (g.disk[file] != [] ==> file !in g'.disk && Stored(g'.images, session, g.disk[file]))
  }

  /** A cleanup that returns normally leaves nothing watched, and every watched
      file that was not empty is a row of the session and gone from the directory. */
  lemma {:induction false} CleanupStores(g: Gallery, session: int, wds: seq<int>, steps: seq<ImageSteps>)
    requires |steps| == |wds| && AllWatched(g, wds)
    requires !Cleanup(g, session, wds, steps).raised
    ensures var g' := Cleanup(g, session, wds, steps).gallery;
      && g'.watched == map[] && g.images <= g'.images
      && (forall name :: name in g'.disk ==> name in g.disk && g'.disk[name] == g.disk[name])
      && forall i :: 0 <= i < |wds| ==> Moved(g, g', session, g.watched[wds[i]])
    decreases |wds|
  {
    if wds == [] {
    } else {
      var file := g.watched[wds[0]];
      var r := InsertImage(g, session, file, steps[0]);
      StoreElsewhere(g, session, file, steps[0]);
      CleanupStores(r.gallery, session, wds[1..], steps[1..]);
      var g' := Cleanup(g, session, wds, steps).gallery;
      if g.disk[file] != [] { StoredStays(r.gallery.images, g'.images, session, g.disk[file]); }
      forall i | 0 <= i < |wds| ensures Moved(g, g', session, g.watched[wds[i]]) {
        if i > 0 {
          assert wds[i] == wds[1..][i - 1];
          assert Moved(r.gallery, g', session, r.gallery.watched[wds[1..][i - 1]]);
        }
      }
    }
  }
}
