/** The tables this session works on, and transactions on them. A statement is
    given, as `ok`, whether the server accepts it; what it does if accepted is
    fixed here. */
module Database {

  type Bytes = seq<bv8>

  /** A row of rcfile; its bytes are the row of rcfiledata with the same id. */
  datatype FileRow = FileRow(wspace: int, name: string, version: int)

  /** A row of rcworkspacedata. */
  datatype SavedRow = SavedRow(wspace: int, data: Bytes)

  /** A row of sessionimage; the table lists rows in the order of insertion. */
  datatype ImageRow = ImageRow(id: int, session: int, batch: int, data: Bytes)

  datatype Tables = Tables(
    files: map<int, FileRow>, data: map<int, Bytes>, saved: seq<SavedRow>, images: seq<ImageRow>)

  predicate HasImage(images: seq<ImageRow>, id: int) {
    exists i :: 0 <= i < |images| && images[i].id == id
  }

  // update ... where id, on the rows of one workspace
  function UpdateSaved(rows: seq<SavedRow>, wspace: int, data: Bytes): (r: seq<SavedRow>)
    ensures |r| == |rows|
  {
    seq(|rows|, i requires 0 <= i < |rows| => if rows[i].wspace == wspace then SavedRow(wspace, data) else rows[i])
  }

  predicate HasSaved(rows: seq<SavedRow>, wspace: int) {
    exists i :: 0 <= i < |rows| && rows[i].wspace == wspace
  }

  class Connection {
    var tables: Tables

    constructor (tables: Tables)
      ensures this.tables == tables
    {
      this.tables := tables;
    }

    method InsertFile(id: int, row: FileRow, ok: bool) returns (commandOK: bool)
      modifies this`tables
      ensures commandOK == (ok && id !in old(tables).files)
      ensures tables == if commandOK then old(tables).(files := old(tables).files[id := row]) else old(tables)
    {
      commandOK := ok && id !in tables.files;
      if commandOK { tables := tables.(files := tables.files[id := row]); }
    }

    method InsertData(id: int, data: Bytes, ok: bool) returns (commandOK: bool)
      modifies this`tables
      ensures commandOK == (ok && id !in old(tables).data)
      ensures tables == if commandOK then old(tables).(data := old(tables).data[id := data]) else old(tables)
    {
      commandOK := ok && id !in tables.data;
      if commandOK { tables := tables.(data := tables.data[id := data]); }
    }

    // An update that finds no row is accepted too.
    method UpdateFile(id: int, version: int, ok: bool) returns (commandOK: bool)
      modifies this`tables
      ensures commandOK == ok
      ensures tables == if ok && id in old(tables).files
                        then old(tables).(files := old(tables).files[id := old(tables).files[id].(version := version)])
                        else old(tables)
    {
      commandOK := ok;
      if ok && id in tables.files {
        tables := tables.(files := tables.files[id := tables.files[id].(version := version)]);
      }
    }

    method UpdateData(id: int, data: Bytes, ok: bool) returns (commandOK: bool)
      modifies this`tables
      ensures commandOK == ok
      ensures tables == if ok && id in old(tables).data
                        then old(tables).(data := old(tables).data[id := data]) else old(tables)
    {
      commandOK := ok;
      if ok && id in tables.data { tables := tables.(data := tables.data[id := data]); }
    }

    method DeleteFile(id: int, ok: bool) returns (commandOK: bool)
      modifies this`tables
      ensures commandOK == ok
      ensures tables == if ok then old(tables).(files := old(tables).files - {id}) else old(tables)
    {
      commandOK := ok;
      if ok { tables := tables.(files := tables.files - {id}); }
    }

    method UpdateSavedData(wspace: int, data: Bytes, ok: bool) returns (commandOK: bool, rowsAffected: nat)
      modifies this`tables
      ensures commandOK == ok
      ensures tables == if ok then old(tables).(saved := UpdateSaved(old(tables).saved, wspace, data)) else old(tables)
      ensures ok ==> (rowsAffected > 0 <==> HasSaved(old(tables).saved, wspace))
    {
      commandOK, rowsAffected := ok, 0;
      if ok {
        if HasSaved(tables.saved, wspace) { rowsAffected := 1; }
        tables := tables.(saved := UpdateSaved(tables.saved, wspace, data));
      }
    }

    method InsertSavedData(wspace: int, data: Bytes, ok: bool) returns (commandOK: bool)
      modifies this`tables
      ensures commandOK == ok
      ensures tables == if ok then old(tables).(saved := old(tables).saved + [SavedRow(wspace, data)]) else old(tables)
    {
      commandOK := ok;
      if ok { tables := tables.(saved := tables.saved + [SavedRow(wspace, data)]); }
    }

    method InsertImage(row: ImageRow, ok: bool) returns (commandOK: bool)
      modifies this`tables
      ensures commandOK == (ok && !HasImage(old(tables).images, row.id))
      ensures tables == if commandOK then old(tables).(images := old(tables).images + [row]) else old(tables)
    {
      commandOK := ok && !HasImage(tables.images, row.id);
      if commandOK { tables := tables.(images := tables.images + [row]); }
    }
  }

  /** A transaction on a connection. Leaving the scope without a commit rolls
      back; `Leave` is what the destructor does. */
  class DBTransaction {
    const con: Connection
    var open: bool
    const start: Tables

    constructor (con: Connection)
      ensures this.con == con && open && start == con.tables
    {
      this.con, open, start := con, true, con.tables;
    }

    // A commit the server refuses leaves the transaction open.
    method Commit(ok: bool) returns (commandOK: bool)
      modifies this
      ensures commandOK == ok && open == !ok
    {
      open := !ok;
      commandOK := ok;
    }

    method Leave()
      modifies con`tables
      ensures con.tables == if open then start else old(con.tables)
    {
      if open { con.tables := start; }
    }
  }
}
