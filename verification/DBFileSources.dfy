/** The file source as an object: cache, working directory and connection, with
    the transactions written out. Each method is proved against module FileSync. */
module DBFileSources {
  import opened Database
  import opened FileSync

  /** The working directory of the session. */
  class Directory {
    var files: map<string, Bytes>

    constructor (files: map<string, Bytes>)
      ensures this.files == files
    {
      this.files := files;
    }
  }

  // An exception, or the value returned.
  datatype Result<T> = Ok(value: T) | Raised

  class DBFileSource {
    const con: Connection
    const dir: Directory
    const wspaceId: int
    var filesById: map<int, Info>

    constructor (con: Connection, dir: Directory, wspaceId: int)
      ensures this.con == con && this.dir == dir && this.wspaceId == wspaceId && filesById == map[]
    {
      this.con, this.dir, this.wspaceId, filesById := con, dir, wspaceId, map[];
    }

    function State(): Local
      reads this, con, dir
    {
      Local(con.tables, filesById, dir.files)
    }

    /** Rows are taken in the order in which the query returned them. */
    method LoadFiles(rows: seq<int>)
      requires forall id :: id in rows ==> Joined(con.tables, id)
      modifies this`filesById, dir
      ensures State() == Loaded(old(State()), rows)
    {
      assert rows[0..] == rows;
      for i := 0 to |rows|
        invariant con.tables == old(con.tables)
        invariant Loaded(State(), rows[i..]) == Loaded(old(State()), rows)
      {
        assert rows[i..][0] == rows[i] && rows[i..][1..] == rows[i + 1..];
        var id := rows[i];
        assert id in rows;
        var row, data := con.tables.files[id], con.tables.data[id];
        var info;
        if id in filesById {
          info := filesById[id].(version := row.version, name := row.name);
        } else {
          info := Info(id, row.version, row.name, row.name);
        }
        filesById := filesById[id := info];
        dir.files := dir.files[row.name := data];
      }
    }

    /** insertDBFile. Every way out but the last leaves tables and cache as they were. */
    method InsertDBFile(name: string, f: InsertSteps) returns (r: Result<int>)
      modifies this`filesById, con
      ensures State() == Inserted(old(State()), wspaceId, name, f)
      ensures r == if CanInsert(old(State()), name, f) then Ok(f.nextId) else Raised
    {
      var trans := new DBTransaction(con);
      if !f.sequenceOk { trans.Leave(); return Raised; }
      if name !in dir.files { trans.Leave(); return Raised; }
      var data := dir.files[name];
      var ok := con.InsertFile(f.nextId, FileRow(wspaceId, name, 1), f.rowOk);
      if !ok { trans.Leave(); return Raised; }
      ok := con.InsertData(f.nextId, data, f.dataOk);
      if !ok { trans.Leave(); return Raised; }
      ok := trans.Commit(f.commitOk);
      if !ok { trans.Leave(); return Raised; }
      if f.nextId !in filesById {
        filesById := filesById[f.nextId := Info(f.nextId, 1, name, name)];
      }
      trans.Leave();
      return Ok(f.nextId);
    }

    /** updateDBFile on a cached file. */
    method UpdateDBFile(id: int, f: UpdateSteps) returns (r: Result<int>)
      requires id in filesById
      modifies this`filesById, con
      ensures State() == Updated(old(State()), id, f)
      ensures r == if CanUpdate(old(State()), old(filesById)[id].path, f) then Ok(old(filesById)[id].version + 1)
        else Raised
    {
      var info := filesById[id];
      var newVersion := info.version + 1;
      if info.path !in dir.files { return Raised; }
      var data := dir.files[info.path];
      var trans := new DBTransaction(con);
      var ok := con.UpdateFile(info.id, newVersion, f.rowOk);
      if !ok { trans.Leave(); return Raised; }
      ok := con.UpdateData(info.id, data, f.dataOk);
      if !ok { trans.Leave(); return Raised; }
      ok := trans.Commit(f.commitOk);
      if !ok { trans.Leave(); return Raised; }
      filesById := filesById[id := info.(version := newVersion)];
      trans.Leave();
      return Ok(newVersion);
    }

    method RemoveDBFile(id: int, ok: bool)
      modifies this`filesById, con
      ensures State() == Removed(old(State()), id, ok)
    {
      var accepted := con.DeleteFile(id, ok);
      if accepted { filesById := filesById - {id}; }
    }

    /** saveRData. `r` is true when the save was committed. */
    method SaveRData(f: SaveSteps) returns (r: Result<bool>)
      modifies con
      ensures State() == SavedRData(old(State()), wspaceId, f)
      ensures r == Ok(true) <==> CanSave(old(State()), wspaceId, f)
    {
      if RDATA !in dir.files { return Ok(false); }
      var data := dir.files[RDATA];
      var trans := new DBTransaction(con);
      if !f.lockOk { trans.Leave(); return Ok(false); }
      var ok, rowsAffected := con.UpdateSavedData(wspaceId, data, f.updateOk);
      if !ok { trans.Leave(); return Raised; }
      if rowsAffected < 1 {
        assert UpdateSaved(trans.start.saved, wspaceId, data) == trans.start.saved;
        ok := con.InsertSavedData(wspaceId, data, f.insertOk);
        if !ok { trans.Leave(); return Raised; }
      }
      ok := trans.Commit(f.commitOk);
      if !ok { trans.Leave(); return Raised; }
      trans.Leave();
      return Ok(true);
    }

    method LoadRData(queryOk: bool) returns (loaded: bool)
      modifies dir
      ensures State() == LoadedRData(old(State()), wspaceId, queryOk)
      ensures loaded <==> queryOk && exists row :: row in FirstSaved(con.tables.saved, wspaceId) && row.data != []
    {
      if queryOk {
        var rows := FirstSaved(con.tables.saved, wspaceId);
        if |rows| > 0 && |rows[0].data| > 0 {
          dir.files := dir.files[RDATA := rows[0].data];
          assert rows[0] in rows;
          return true;
        }
      }
      return false;
    }
  }
}
