/**
 * The `Sorter` of todoist_sorter.py as a class. The SQLite database file is
 * the committed table (`committed`) plus a flag saying whether the table has
 * been created; an open connection is a `Connection` object holding the table
 * as that connection sees it. The Todoist API is an append-only log of the
 * calls made to it (`calls`); what it returns is passed in as parameters.
 */
module TodoistSorter {
  import opened Wrappers
  import opened Ascii
  import opened TableNaming
  import opened SectionMemory

  /** A call the sorter makes to the Todoist API. */
  datatype ApiCall =
    | UpdateTask(taskId: TaskId, content: string)
    | MoveTask(taskId: TaskId, sectionId: SectionId)

  /** What `capitalize_item` raises: indexing the first character of an empty title. */
  datatype SorterError = IndexError

  /**
   * An open SQLite connection to the project's table: the rows it sees, its
   * own uncommitted writes included.
   */
  class Connection {
    var rows: seq<Row>

    constructor (rows: seq<Row>)
      ensures this.rows == rows
    {
      this.rows := rows;
    }

    /** `INSERT INTO ... VALUES (?,?,?,?)`: the new row goes after every existing one. */
    method Insert(row: Row)
      modifies this
      ensures rows == old(rows) + [row]
    {
      rows := rows + [row];
    }

    /** `UPDATE ... SET item_section = ?, last_updated = ? WHERE item_content = ? AND item_project = ?`. */
    method Update(section: SectionId, now: string, key: string, project: ProjectId)
      modifies this
      ensures |rows| == |old(rows)|
      ensures forall i :: 0 <= i < |rows| ==>
        rows[i] == if Matches(old(rows)[i], key, project)
                   then old(rows)[i].(itemSection := section, lastUpdated := now)
                   else old(rows)[i]
    {
      rows := UpdateRows(rows, key, project, section, now);
    }
  }

  class Sorter {
    const projectId: ProjectId
    /** `self.dbtablename`. */
    const tableName: string
    /** Whether the database file holds the project's table. */
    var tableExists: bool
    /** The project's table as committed to the database file, in table order. */
    var committed: seq<Row>
    /** Every call made to the Todoist API so far, oldest first. */
    var calls: seq<ApiCall>

    ghost predicate Valid()
      reads this
    {
      tableName == TableName(projectId) && (!tableExists ==> committed == [])
    }

    /**
     * `Sorter(api_token, project_id)` over a database file whose table for the
     * project holds `stored`, or which has no such table (`None`).
     */
    constructor (projectId: ProjectId, stored: Option<seq<Row>>)
      ensures Valid() && this.projectId == projectId && tableName == TableName(projectId)
      ensures tableExists == stored.Some?
      ensures committed == (if stored.Some? then stored.value else [])
      ensures calls == []
    {
      this.projectId := projectId;
      tableName := TableName(projectId);
      tableExists := stored.Some?;
      committed := if stored.Some? then stored.value else [];
      calls := [];
    }

    /**
     * `initialize_db`: creates the table if it does not exist (an existing
     * table is left as it is) and opens a connection to it.
     */
    method InitializeDb() returns (conn: Connection)
      requires Valid()
      modifies this`tableExists
      ensures Valid() && tableExists && committed == old(committed)
      ensures fresh(conn) && conn.rows == committed
    {
      tableExists := true;
      conn := new Connection(committed);
    }

    /** `conn.commit()`: the connection's view of the table becomes the committed table. */
    method Commit(conn: Connection)
      requires Valid() && tableExists
      modifies this`committed
      ensures Valid() && committed == conn.rows
    {
      committed := conn.rows;
    }

    /**
     * `get_historic_section(item_name=itemName)` on a connection of its own:
     * the section of the first committed row whose content is the
     * lower-cased name, or `None`.
     */
    method GetHistoricSection(itemName: string) returns (section: Option<SectionId>)
      requires Valid()
      modifies this`tableExists
      ensures Valid() && tableExists && committed == old(committed)
      ensures section.None? <==> forall j :: 0 <= j < |committed| ==> committed[j].itemContent != Lower(itemName)
      ensures forall j :: IsFirstWithContent(committed, j, Lower(itemName)) ==> section == Some(committed[j].itemSection)
    {
      var conn := InitializeDb();
      section := HistoricSection(conn.rows, itemName);
      // The connection only read, so committing and closing it changes nothing.
    }

    /**
     * `capitalize_item`: when the first character of the title is not an
     * upper-case letter, asks Todoist to store the title with that character
     * upper-cased. An empty title raises.
     */
    method CapitalizeItem(itemId: TaskId, itemContent: string) returns (outcome: Outcome<SorterError>)
      modifies this`calls
      ensures |itemContent| == 0 ==> outcome == Fail(IndexError) && calls == old(calls)
      ensures |itemContent| > 0 && IsUpper(itemContent[0]) ==> outcome == Pass && calls == old(calls)
      ensures |itemContent| > 0 && !IsUpper(itemContent[0]) ==>
        outcome == Pass && calls == old(calls) + [UpdateTask(itemId, Capitalized(itemContent))]
    {
      if |itemContent| == 0 {
        return Fail(IndexError);
      }
      if !IsUpper(itemContent[0]) {
        var newContent := Capitalized(itemContent);
        calls := calls + [UpdateTask(itemId, newContent)];
      }
      outcome := Pass;
    }

    /**
     * `learn(item, conn)`. A task without a section changes nothing. Otherwise
     * the section is looked up in the committed table; when none is found the
     * task's row is INSERTed, else the rows with its title and project are
     * UPDATEd, also when the stored section already equals the task's. With
     * no connection the write is committed at once; with the batch connection
     * of `learn_all` it stays on that connection, uncommitted.
     */
    method Learn(item: Task, now: string, conn: Connection?)
      requires Valid()
      modifies this, conn
      ensures Valid() && calls == old(calls)
      ensures tableExists == (old(tableExists) || item.sectionId.Some?)
      ensures conn == null ==> committed == Learned(old(committed), item, now)
      ensures conn != null ==> committed == old(committed)
      ensures conn != null ==>
        conn.rows == LearnStep(old(conn.rows), HistoricSection(old(committed), item.content), item, now)
    {
      if item.sectionId.Some? {
        var historicSection := GetHistoricSection(item.content);
        // An equal section is not a reason to skip the write below.
        var c: Connection;
        var closeWhenDone: bool;
        if conn == null {
          c := InitializeDb();
          closeWhenDone := true;
        } else {
          c := conn;
          closeWhenDone := false;
        }
        if historicSection.None? {
          c.Insert(Row(item.projectId, Lower(item.content), item.sectionId.value, now));
        } else {
          c.Update(item.sectionId.value, now, Lower(item.content), item.projectId);
        }
        if closeWhenDone {
          Commit(c);
        }
      }
    }

    /**
     * `learn_all`: learns every task of `tasks` (what the Todoist API delivers
     * for the project) in delivery order on one connection, and commits once
     * at the end. The lookups of the pass read the table as committed before
     * it. `clock(i)` is the time read while learning the i-th task.
     */
    method LearnAll(tasks: seq<Task>, clock: nat -> string)
      requires Valid()
      modifies this
      ensures Valid() && tableExists && calls == old(calls)
      ensures committed == LearnPass(old(committed), old(committed), tasks, clock)
    {
      var conn := InitializeDb();
      var i := 0;
      while i < |tasks|
        invariant 0 <= i <= |tasks|
        invariant Valid() && tableExists && fresh(conn)
        invariant committed == old(committed) && calls == old(calls)
        invariant conn.rows == LearnPass(old(committed), old(committed), tasks[..i], clock)
      {
        assert tasks[..i + 1][..i] == tasks[..i];
        Learn(tasks[i], clock(i), conn);
        i := i + 1;
      }
      assert tasks[..i] == tasks;
      Commit(conn);
    }

    /**
     * `adjust_item_section`: when the task's title has a remembered section,
     * asks Todoist to move the task there; otherwise does nothing. The table
     * is never written.
     */
    method AdjustItemSection(item: Task)
      requires Valid()
      modifies this`tableExists, this`calls
      ensures Valid() && tableExists && committed == old(committed)
      ensures match HistoricSection(committed, item.content)
        case None => calls == old(calls)
        case Some(s) => calls == old(calls) + [MoveTask(item.id, s)]
    {
      var newSection := GetHistoricSection(item.content);
      if newSection.Some? {
        calls := calls + [MoveTask(item.id, newSection.value)];
      }
    }
  }

  /**
   * A task titled "eggs" is first seen outside any section, then in section
   * 5; a new task "Eggs" outside any section is then moved to section 5.
   */
  method EggsScenario(project: ProjectId, now: string) returns (calls: seq<ApiCall>, table: seq<Row>)
    ensures calls == [MoveTask("2", 5)]
    ensures table == [Row(project, "eggs", 5, now)]
  {
    var sorter := new Sorter(project, None);
    var eggs := Task("1", project, "eggs", None);
    sorter.AdjustItemSection(eggs);
    sorter.Learn(eggs, now, null);
    assert sorter.committed == [] && sorter.calls == [];
    sorter.Learn(eggs.(sectionId := Some(5)), now, null);
    assert Lower("eggs") == "eggs";
    assert sorter.committed == [Row(project, "eggs", 5, now)];
    var newEggs := Task("2", project, "Eggs", None);
    assert Lower("Eggs") == "eggs";
    assert IsFirstWithContent(sorter.committed, 0, Lower(newEggs.content));
    sorter.AdjustItemSection(newEggs);
    calls, table := sorter.calls, sorter.committed;
  }
}
