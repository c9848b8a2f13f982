/**
 * The section memory as values: a project's table is a sequence of rows in
 * table (insertion) order, and each query or statement the sorter runs on it
 * is a function here. The class in todoist_sorter.dfy runs these against
 * the committed table and against an open connection's view of it.
 */
module SectionMemory {
  import opened Wrappers
  import opened Ascii

  type ProjectId = int
  type SectionId = int
  type TaskId = string

  /** One row of the table: columns item_project, item_content, item_section, last_updated. */
  datatype Row = Row(itemProject: ProjectId, itemContent: string, itemSection: SectionId, lastUpdated: string)

  /** A task as the Todoist API delivers it; `sectionId` is `None` for a task outside any section. */
  datatype Task = Task(id: TaskId, projectId: ProjectId, content: string, sectionId: Option<SectionId>)

  /** Rows keep their identity: the two key columns are never rewritten. */
  predicate SameKey(a: Row, b: Row) {
    a.itemProject == b.itemProject && a.itemContent == b.itemContent
  }

  /** Row `j` is the first row in table order whose content is `key`. */
  predicate IsFirstWithContent(rows: seq<Row>, j: int, key: string) {
    0 <= j < |rows| && rows[j].itemContent == key &&
    forall k :: 0 <= k < j ==> rows[k].itemContent != key
  }

  /** At most one row per (project, normalised title) pair. */
  predicate UniqueKeys(rows: seq<Row>) {
    forall i, j :: 0 <= i < j < |rows| ==> !SameKey(rows[i], rows[j])
  }

  /** Every row belongs to project `p`. */
  predicate AllInProject(rows: seq<Row>, p: ProjectId) {
    forall i :: 0 <= i < |rows| ==> rows[i].itemProject == p
  }

  /** `WHERE item_content = ? LIMIT 1`: the index of the first row whose content is `key`. */
  function FirstMatch(rows: seq<Row>, key: string): (r: Option<nat>)
    ensures r.Some? ==> IsFirstWithContent(rows, r.value, key)
    ensures r.None? <==> forall j :: 0 <= j < |rows| ==> rows[j].itemContent != key
  {
    if |rows| == 0 then None
    else if rows[0].itemContent == key then Some(0)
    else match FirstMatch(rows[1..], key)
      case None => None
      case Some(i) => Some(i + 1)
  }

  /**
   * `get_historic_section(item_name=name)`: the section stored in the first
   * row whose content equals `name.lower()`, whatever that row's project,
   * or `None` when no row has that content.
   */
  function HistoricSection(rows: seq<Row>, name: string): (r: Option<SectionId>)
    ensures r.None? <==> forall j :: 0 <= j < |rows| ==> rows[j].itemContent != Lower(name)
    ensures forall j :: IsFirstWithContent(rows, j, Lower(name)) ==> r == Some(rows[j].itemSection)
  {
    match FirstMatch(rows, Lower(name))
    case None => None
    case Some(j) => Some(rows[j].itemSection)
  }

  /** The row selected by the UPDATE statement's `WHERE item_content = ? AND item_project = ?`. */
  predicate Matches(row: Row, key: string, project: ProjectId) {
    row.itemContent == key && row.itemProject == project
  }

  /**
   * `UPDATE ... SET item_section = ?, last_updated = ? WHERE item_content = ?
   * AND item_project = ?`: every matching row gets the new section and time,
   * every other row is left as it was.
   */
  function UpdateRows(rows: seq<Row>, key: string, project: ProjectId, section: SectionId, now: string): (r: seq<Row>)
    ensures |r| == |rows|
    ensures forall i :: 0 <= i < |rows| && Matches(rows[i], key, project) ==>
      r[i] == rows[i].(itemSection := section, lastUpdated := now)
    ensures forall i :: 0 <= i < |rows| && !Matches(rows[i], key, project) ==> r[i] == rows[i]
  {
    if |rows| == 0 then []
    else
      var head := if Matches(rows[0], key, project) then rows[0].(itemSection := section, lastUpdated := now) else rows[0];
      [head] + UpdateRows(rows[1..], key, project, section, now)
  }

  /**
   * The write `learn` makes for one task, given the section its lookup
   * returned: nothing for a task without a section; otherwise an INSERT when
   * the lookup found nothing, and an UPDATE when it found a section, even one
   * equal to the task's own.
   */
  function LearnStep(view: seq<Row>, historic: Option<SectionId>, task: Task, now: string): (r: seq<Row>)
    ensures |view| <= |r| <= |view| + 1
    ensures forall i :: 0 <= i < |view| ==> SameKey(r[i], view[i])
  {
    match task.sectionId
    case None => view
    case Some(section) =>
      if historic.None? then view + [Row(task.projectId, Lower(task.content), section, now)]
      else UpdateRows(view, Lower(task.content), task.projectId, section, now)
  }

  /** A `learn` outside a batch: the lookup and the write both see the same committed table. */
  function Learned(rows: seq<Row>, task: Task, now: string): (r: seq<Row>)
    ensures |rows| <= |r| <= |rows| + 1
    ensures task.sectionId.None? ==> r == rows
  {
    LearnStep(rows, HistoricSection(rows, task.content), task, now)
  }

  /**
   * `learn_all` over `tasks` in delivery order: every lookup reads `snapshot`,
   * the table as committed before the pass, while the writes accumulate on
   * `view`, the batch connection's table. `clock(i)` is the time read for
   * the i-th task.
   */
  function LearnPass(view: seq<Row>, snapshot: seq<Row>, tasks: seq<Task>, clock: nat -> string): (r: seq<Row>)
    ensures |view| <= |r| <= |view| + |tasks|
    ensures forall i :: 0 <= i < |view| ==> SameKey(r[i], view[i])
    decreases |tasks|
  {
    if |tasks| == 0 then view
    else
      var n := |tasks| - 1;
      LearnStep(LearnPass(view, snapshot, tasks[..n], clock), HistoricSection(snapshot, tasks[n].content), tasks[n], clock(n))
  }

  /** The same tasks learned by separate `learn` calls, each committed before the next lookup. */
  function LearnEach(rows: seq<Row>, tasks: seq<Task>, clock: nat -> string): (r: seq<Row>)
    ensures |rows| <= |r| <= |rows| + |tasks|
    ensures forall i :: 0 <= i < |rows| ==> SameKey(r[i], rows[i])
    decreases |tasks|
  {
    if |tasks| == 0 then rows
    else
      var n := |tasks| - 1;
      Learned(LearnEach(rows, tasks[..n], clock), tasks[n], clock(n))
  }

  /** No two tasks of the list share a lower-cased title. */
  predicate DistinctTitles(tasks: seq<Task>) {
    forall i, j :: 0 <= i < j < |tasks| ==> Lower(tasks[i].content) != Lower(tasks[j].content)
  }

  // ---------------------------------------------------------------------
  // Lookup

  /** Lookup is case-insensitive: a title and its lower-cased form find the same section. */
  lemma HistoricSectionCaseInsensitive(rows: seq<Row>, name: string)
    ensures HistoricSection(rows, name) == HistoricSection(rows, Lower(name))
  {
    LowerIdempotent(name);
  }

  /** Two titles that differ only in letter case find the same section. */
  lemma HistoricSectionIgnoresCase(rows: seq<Row>, a: string, b: string)
    requires |a| == |b|
    requires forall i :: 0 <= i < |a| ==> ToLower(a[i]) == ToLower(b[i])
    ensures HistoricSection(rows, a) == HistoricSection(rows, b)
  {
    LowerEqualIff(a, b);
  }

  // ---------------------------------------------------------------------
  // One learn

  /** A task without a section teaches nothing: the table is left as it is. */
  lemma LearnUnsectionedKeepsTable(rows: seq<Row>, task: Task, now: string)
    requires task.sectionId.None?
    ensures Learned(rows, task, now) == rows
  {
  }

  /**
   * The INSERT case: when no row has the task's lower-cased title, exactly
   * one row `(project, title.lower(), section, now)` is appended and every
   * existing row stays as it was.
   */
  lemma LearnInsertsWhenUnseen(rows: seq<Row>, task: Task, now: string)
    requires task.sectionId.Some?
    requires forall j :: 0 <= j < |rows| ==> rows[j].itemContent != Lower(task.content)
    ensures Learned(rows, task, now) == rows + [Row(task.projectId, Lower(task.content), task.sectionId.value, now)]
  {
  }

  /**
   * The UPDATE case: when some row has the task's lower-cased title, no row is
   * added; the rows with that title AND the task's project get the task's
   * section and `now`; every other row is unchanged.
   */
  lemma LearnUpdatesWhenSeen(rows: seq<Row>, task: Task, now: string)
    requires task.sectionId.Some?
    requires exists j :: 0 <= j < |rows| && rows[j].itemContent == Lower(task.content)
    ensures var r := Learned(rows, task, now);
      |r| == |rows| &&
      forall i :: 0 <= i < |rows| ==>
        r[i] == if Matches(rows[i], Lower(task.content), task.projectId)
                then rows[i].(itemSection := task.sectionId.value, lastUpdated := now)
                else rows[i]
  {
  }

  /**
   * Lookup ignores the project but UPDATE filters on it: when every row with
   * the title belongs to another project, `learn` changes nothing at all.
   */
  lemma LearnIgnoresForeignRows(rows: seq<Row>, task: Task, now: string)
    requires task.sectionId.Some?
    requires exists j :: 0 <= j < |rows| && rows[j].itemContent == Lower(task.content)
    requires forall j :: 0 <= j < |rows| && rows[j].itemContent == Lower(task.content) ==> rows[j].itemProject != task.projectId
    ensures Learned(rows, task, now) == rows
  {
    var r := Learned(rows, task, now);
    assert forall i :: 0 <= i < |rows| ==> r[i] == rows[i];
  }

  /**
   * No short-circuit on an equal section: in a table of one project with one
   * row per title, learning the section already stored rewrites that row, so
   * the projection onto sections (and keys) is unchanged and only
   * `last_updated` of the row with the title becomes `now`.
   */
  lemma LearnSameSectionRefreshesOnly(rows: seq<Row>, task: Task, now: string)
    requires AllInProject(rows, task.projectId) && UniqueKeys(rows)
    requires task.sectionId.Some? && HistoricSection(rows, task.content) == task.sectionId
    ensures var r := Learned(rows, task, now);
      |r| == |rows| &&
      (forall i :: 0 <= i < |rows| ==> SameKey(r[i], rows[i]) && r[i].itemSection == rows[i].itemSection) &&
      (forall i :: 0 <= i < |rows| ==>
        r[i].lastUpdated == if rows[i].itemContent == Lower(task.content) then now else rows[i].lastUpdated)
  {
    var key := Lower(task.content);
    var j := FirstMatch(rows, key).value;
    forall i | 0 <= i < |rows| && rows[i].itemContent == key
      ensures rows[i].itemSection == task.sectionId.value
    {
    }
  }

  lemma UpdateRowsOverwrites(rows: seq<Row>, key: string, project: ProjectId, s1: SectionId, s2: SectionId, t1: string, t2: string)
    ensures UpdateRows(UpdateRows(rows, key, project, s1, t1), key, project, s2, t2) == UpdateRows(rows, key, project, s2, t2)
  {
    var once := UpdateRows(rows, key, project, s1, t1);
    var twice := UpdateRows(once, key, project, s2, t2);
    var direct := UpdateRows(rows, key, project, s2, t2);
    forall i | 0 <= i < |rows| ensures twice[i] == direct[i] {
      assert Matches(once[i], key, project) == Matches(rows[i], key, project);
    }
  }

  /**
   * Relearning the same observation overrides the first: learning a task at
   * `first` and again at `second` leaves the table exactly as learning it once
   * at `second`. With `first == second` this is idempotence.
   */
  lemma LearnRelearnOverrides(rows: seq<Row>, task: Task, first: string, second: string)
    ensures Learned(Learned(rows, task, first), task, second) == Learned(rows, task, second)
  {
    var key := Lower(task.content);
    if task.sectionId.Some? {
      var s := task.sectionId.value;
      var once := Learned(rows, task, first);
      if HistoricSection(rows, task.content).None? {
        var inserted := Row(task.projectId, key, s, first);
        assert once == rows + [inserted];
        assert IsFirstWithContent(once, |rows|, key);
        var twice := Learned(once, task, second);
        assert twice == UpdateRows(once, key, task.projectId, s, second);
        assert twice == rows + [inserted.(lastUpdated := second)] by {
          assert forall i :: 0 <= i < |rows| ==> twice[i] == rows[i];
          assert twice[|rows|] == inserted.(lastUpdated := second);
        }
      } else {
        var j := FirstMatch(rows, key).value;
        assert once[j].itemContent == key;
        UpdateRowsOverwrites(rows, key, task.projectId, s, s, first, second);
      }
    }
  }

  /** Learning keeps at most one row per (project, title). */
  lemma LearnKeepsUniqueKeys(rows: seq<Row>, task: Task, now: string)
    requires UniqueKeys(rows)
    ensures UniqueKeys(Learned(rows, task, now))
  {
    var r := Learned(rows, task, now);
    if task.sectionId.Some? && HistoricSection(rows, task.content).None? {
      forall i, j | 0 <= i < j < |r| ensures !SameKey(r[i], r[j]) {
        if j == |rows| {
          assert r[j].itemContent == Lower(task.content);
          assert r[i] == rows[i];
        } else {
          assert SameKey(r[i], rows[i]) && SameKey(r[j], rows[j]);
        }
      }
    } else {
      forall i, j | 0 <= i < j < |r| ensures !SameKey(r[i], r[j]) {
        assert SameKey(r[i], rows[i]) && SameKey(r[j], rows[j]);
      }
    }
  }

  /** A task learned into its own project's table keeps every row in that project. */
  lemma LearnKeepsProject(rows: seq<Row>, task: Task, now: string)
    requires AllInProject(rows, task.projectId)
    ensures AllInProject(Learned(rows, task, now), task.projectId)
  {
    var r := Learned(rows, task, now);
    forall i | 0 <= i < |r| ensures r[i].itemProject == task.projectId {
      if i < |rows| {
        assert SameKey(r[i], rows[i]);
      }
    }
  }

  /**
   * Last observation wins: in a table of the task's project, after learning a
   * task with a section, looking its title up returns that section.
   */
  lemma LearnThenLookup(rows: seq<Row>, task: Task, now: string)
    requires AllInProject(rows, task.projectId)
    requires task.sectionId.Some?
    ensures HistoricSection(Learned(rows, task, now), task.content) == task.sectionId
  {
    var key := Lower(task.content);
    var r := Learned(rows, task, now);
    match FirstMatch(rows, key)
    case None =>
      assert IsFirstWithContent(r, |rows|, key);
    case Some(j) =>
      assert Matches(rows[j], key, task.projectId);
      assert forall k :: 0 <= k < j ==> SameKey(r[k], rows[k]);
      assert IsFirstWithContent(r, j, key);
  }

  /** A write for one title never changes what another title looks up. */
  lemma LearnStepKeepsOtherLookups(view: seq<Row>, historic: Option<SectionId>, task: Task, now: string, name: string)
    requires Lower(name) != Lower(task.content)
    ensures HistoricSection(LearnStep(view, historic, task, now), name) == HistoricSection(view, name)
  {
    var r := LearnStep(view, historic, task, now);
    var key := Lower(name);
    assert forall i :: 0 <= i < |r| ==> (r[i].itemContent == key <==> i < |view| && view[i].itemContent == key) by {
      forall i | 0 <= i < |r| ensures r[i].itemContent == key <==> i < |view| && view[i].itemContent == key {
        if i < |view| {
          assert SameKey(r[i], view[i]);
        }
      }
    }
    match FirstMatch(view, key)
    case None =>
    case Some(j) =>
      assert IsFirstWithContent(r, j, key);
      if task.sectionId.Some? && historic.Some? {
        assert !Matches(view[j], Lower(task.content), task.projectId);
      }
  }

  // ---------------------------------------------------------------------
  // learn_all

  /** A pass whose tasks never carry a title leaves that title's lookup as it was. */
  lemma {:induction false} LearnPassKeepsOtherLookups(view: seq<Row>, snapshot: seq<Row>, tasks: seq<Task>, clock: nat -> string, name: string)
    requires forall k :: 0 <= k < |tasks| ==> Lower(tasks[k].content) != Lower(name)
    ensures HistoricSection(LearnPass(view, snapshot, tasks, clock), name) == HistoricSection(view, name)
    decreases |tasks|
  {
    if |tasks| > 0 {
      var n := |tasks| - 1;
      LearnPassKeepsOtherLookups(view, snapshot, tasks[..n], clock, name);
      LearnStepKeepsOtherLookups(LearnPass(view, snapshot, tasks[..n], clock), HistoricSection(snapshot, tasks[n].content), tasks[n], clock(n), name);
    }
  }

  /**
   * The stale snapshot is harmless when titles are distinct: a `learn_all`
   * pass over tasks with pairwise distinct lower-cased titles leaves the
   * table exactly as separate, individually committed `learn` calls would.
   */
  lemma {:induction false} LearnPassDistinctIsLearnEach(rows: seq<Row>, tasks: seq<Task>, clock: nat -> string)
    requires DistinctTitles(tasks)
    ensures LearnPass(rows, rows, tasks, clock) == LearnEach(rows, tasks, clock)
    decreases |tasks|
  {
    if |tasks| > 0 {
      var n := |tasks| - 1;
      var prefix := tasks[..n];
      assert DistinctTitles(prefix);
      LearnPassDistinctIsLearnEach(rows, prefix, clock);
      LearnPassKeepsOtherLookups(rows, rows, prefix, clock, tasks[n].content);
    }
  }

  /**
   * ... and harmful when they are not: two same-titled tasks in one pass over
   * a table without that title both INSERT, leaving two rows for one
   * (project, title) pair, while separate `learn` calls leave one.
   */
  lemma LearnPassMayDuplicate()
    ensures var tasks := [Task("1", 7, "Milk", Some(1)), Task("2", 7, "milk", Some(2))];
      var clock := (i: nat) => "2024-01-01 10:00";
      var pass := LearnPass([], [], tasks, clock);
      pass == [Row(7, "milk", 1, "2024-01-01 10:00"), Row(7, "milk", 2, "2024-01-01 10:00")] &&
      !UniqueKeys(pass) &&
      LearnEach([], tasks, clock) == [Row(7, "milk", 2, "2024-01-01 10:00")]
  {
    var tasks := [Task("1", 7, "Milk", Some(1)), Task("2", 7, "milk", Some(2))];
    var clock := (i: nat) => "2024-01-01 10:00";
    assert Lower("Milk") == "milk";
    assert Lower("milk") == "milk";
    assert tasks[..1][..0] == [];
    assert tasks[..1] == [tasks[0]];
    var first := LearnPass([], [], tasks[..1], clock);
    assert first == [Row(7, "milk", 1, "2024-01-01 10:00")];
    assert LearnEach([], tasks[..1], clock) == first;
    assert IsFirstWithContent(first, 0, "milk");
    var pass := LearnPass([], [], tasks, clock);
    assert SameKey(pass[0], pass[1]);
  }

  /**
   * With duplicate rows (as a pass can leave them), learning the section the
   * lookup already finds is not harmless: the UPDATE sets every row with the
   * title and project to it, so the second row's section changes.
   */
  lemma LearnSameSectionOverwritesDuplicates()
    ensures var rows := [Row(7, "milk", 1, "2024-01-01 10:00"), Row(7, "milk", 2, "2024-01-01 10:00")];
      var task := Task("3", 7, "milk", Some(1));
      HistoricSection(rows, task.content) == task.sectionId &&
      Learned(rows, task, "2024-01-02 09:00") ==
        [Row(7, "milk", 1, "2024-01-02 09:00"), Row(7, "milk", 1, "2024-01-02 09:00")]
  {
    var rows := [Row(7, "milk", 1, "2024-01-01 10:00"), Row(7, "milk", 2, "2024-01-01 10:00")];
    assert Lower("milk") == "milk";
    assert IsFirstWithContent(rows, 0, "milk");
  }

  /** `row` is the row a task with a section writes for itself. */
  predicate LearnedFrom(row: Row, task: Task) {
    task.sectionId == Some(row.itemSection) &&
    row.itemContent == Lower(task.content) && row.itemProject == task.projectId
  }

  /** Each row of `r` beyond the first |view| was learned from one of `tasks`. */
  predicate AddedRowsLearned(view: seq<Row>, r: seq<Row>, tasks: seq<Task>) {
    forall i :: |view| <= i < |r| ==> exists k :: 0 <= k < |tasks| && LearnedFrom(r[i], tasks[k])
  }

  /**
   * Every row a pass adds is the INSERT of one of its tasks: it carries that
   * task's project, lower-cased title and section (an UPDATE later in the
   * pass can move it to the section of a later task with the same title).
   */
  lemma {:induction false} LearnPassAddsOnlyLearnedRows(view: seq<Row>, snapshot: seq<Row>, tasks: seq<Task>, clock: nat -> string)
    ensures AddedRowsLearned(view, LearnPass(view, snapshot, tasks, clock), tasks)
    decreases |tasks|
  {
    if |tasks| > 0 {
      var n := |tasks| - 1;
      var before := LearnPass(view, snapshot, tasks[..n], clock);
      LearnPassAddsOnlyLearnedRows(view, snapshot, tasks[..n], clock);
      var r := LearnPass(view, snapshot, tasks, clock);
      forall i | |view| <= i < |r|
        ensures exists k :: 0 <= k < |tasks| && LearnedFrom(r[i], tasks[k])
      {
        if i < |before| {
          var k :| 0 <= k < n && LearnedFrom(before[i], tasks[..n][k]);
          assert tasks[..n][k] == tasks[k];
          if r[i] != before[i] {
            assert LearnedFrom(r[i], tasks[n]);
          } else {
            assert LearnedFrom(r[i], tasks[k]);
          }
        } else {
          assert LearnedFrom(r[i], tasks[n]);
        }
      }
    }
  }
}
