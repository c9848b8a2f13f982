# Todoist sorter: section memory

A Dafny model of the `Sorter` class of the Todoist sorter. The sorter keeps,
per Todoist project, a SQLite table `Sections_<project id>` whose rows
`(item_project, item_content, item_section, last_updated)` remember in which
section a task with a given lower-cased title was last seen. It learns from
observed tasks (`learn`, `learn_all`), re-capitalises titles
(`capitalize_item`) and moves a task to the section remembered for its title
(`adjust_item_section`).

Files, one module each:

- `wrappers.dfy` (`Wrappers`): `Option` for Python's `None`, `Outcome` for an operation that may raise.
- `ascii.dfy` (`Ascii`): `str.lower()`, `str.upper()`, `str.isupper()` on ASCII, and the capitalised title.
- `table_naming.dfy` (`TableNaming`): `str(project_id)` and the table name; distinct projects get distinct tables.
- `section_memory.dfy` (`SectionMemory`): the table as a sequence of rows in table order, the SELECT and UPDATE
  statements as functions, the write one `learn` makes (`LearnStep`), a standalone `learn` (`Learned`) and a
  `learn_all` pass (`LearnPass`), with the lemmas about them.
- `todoist_sorter.dfy` (`TodoistSorter`): the `Sorter` class. `committed` is the table as committed to the database
  file, `tableExists` says whether `CREATE TABLE IF NOT EXISTS` has run, a `Connection` object is an open connection
  holding the table as it sees it (its uncommitted writes included), and `calls` logs the calls made to the Todoist
  API. Each method's `ensures` gives the new state in terms of the functions of `SectionMemory`.

Behaviour the model keeps as the code has it:

- No short-circuit on an equal section: the "no update needed" branch does nothing, so an equal stored section
  still leads to an UPDATE that rewrites `last_updated` (`LearnSameSectionRefreshesOnly`).
- The lookup filters on the title only, the UPDATE on title and project: when every row with the title belongs to
  another project, `learn` changes nothing (`LearnIgnoresForeignRows`).
- In `learn_all` every lookup opens its own connection, so it sees only the table committed before the pass, while
  the writes wait on the batch connection until the one commit at the end. With distinct titles this is the same
  as separate `learn` calls (`LearnPassDistinctIsLearnEach`); two tasks with one title in a pass over a table
  without it both INSERT, giving two rows for one (project, title) (`LearnPassMayDuplicate`).
- Once a (project, title) has two rows, the missing short-circuit also rewrites sections: learning the section
  of the first row sets the second row to it as well (`LearnSameSectionOverwritesDuplicates`).
- `capitalize_item` tests `isupper()`, not "is lower-case", so a title that starts with a digit or punctuation
  still leads to an update call, whose content is the title unchanged (`Capitalized` returns its input then).

Further behaviour of the code the model keeps: an empty title makes `capitalize_item` raise `IndexError` when it
indexes `[0]` (todoist_sorter.py:75), modelled as `Fail(IndexError)`; and `learn_all` only learns, it neither
capitalises titles nor moves tasks (todoist_sorter.py:140-149).

## Model

| member | source | states |
|---|---|---|
| `Ascii.ToLower` | todoist_sorter.py:63 | the lower-cased character is never an upper-case letter, each upper-case letter becomes the same letter in lower case, anything else is kept |
| `Ascii.ToUpper` | todoist_sorter.py:76 | the upper-cased character is never a lower-case letter, each lower-case letter becomes the same letter in upper case, it agrees with the input after lower-casing, and only lower-case letters change |
| `Ascii.Lower` | todoist_sorter.py:63 | `s.lower()` has the length of `s` and lower-cases every character in place |
| `Ascii.IsUpper` | todoist_sorter.py:75 | `c.isupper()` on one character, true exactly for `A`-`Z`; a definition with no contract, used by `Sorter.CapitalizeItem` |
| `Ascii.Capitalized` | todoist_sorter.py:76 | `s[0].upper() + s[1:]`: same length, suffix `s[1:]` untouched, first character not lower-case, and the title itself when its first character is not a lower-case letter |
| `Ascii.LowerIdempotent` | todoist_sorter.py:63 | lower-casing a lower-cased title changes nothing |
| `Ascii.LowerEqualIff` | todoist_sorter.py:63 | two titles lower-case alike exactly when they have one length and agree character by character up to case |
| `Ascii.CapitalizedSameLower` | todoist_sorter.py:75-79 | the capitalised title has the same lower-cased form, so capitalising never changes which row a title finds |
| `Ascii.CapitalizedIdempotent` | todoist_sorter.py:75-76 | capitalising a capitalised title changes nothing |
| `TableNaming.NatToString` | todoist_sorter.py:18 | decimal digits only, at least one, two or more exactly from 10 up, last digit `n % 10` |
| `TableNaming.IntToString` | todoist_sorter.py:18 | `str(i)` is non-empty and starts with `-` exactly for negative `i` |
| `TableNaming.TableName` | todoist_sorter.py:17-18 | the table name is `Sections_` followed by `str(project_id)` |
| `TableNaming.NatToStringInjective` | todoist_sorter.py:18 | distinct naturals have distinct decimal renderings |
| `TableNaming.IntToStringInjective` | todoist_sorter.py:18 | distinct integers have distinct `str` renderings |
| `TableNaming.TableNameInjective` | todoist_sorter.py:17-18 | two projects share a table name only if they are the same project |
| `SectionMemory.FirstMatch` | todoist_sorter.py:52-65 | the index of the first row in table order whose content is the key, or `None` exactly when no row has it |
| `SectionMemory.HistoricSection` | todoist_sorter.py:50-71 | the section of the first row whose content equals `name.lower()`, whatever its project; `None` exactly when no row has that content |
| `SectionMemory.Matches` | todoist_sorter.py:121-122 | the UPDATE's filter `item_content = ? AND item_project = ?`; a definition with no contract, used by `UpdateRows` and the lemmas about it |
| `SectionMemory.UpdateRows` | todoist_sorter.py:116-132 | the UPDATE keeps the row count, sets section and `last_updated` on every row matching title and project, and leaves every other row as it was |
| `SectionMemory.LearnStep` | todoist_sorter.py:83-132 | one `learn` adds at most one row, deletes none and never rewrites a row's project or title |
| `SectionMemory.Learned` | todoist_sorter.py:81-137 | `learn(item)` with no connection: the lookup and the write see the same committed table; it adds at most one row and leaves the table as it was for a task without a section; which rows it writes is stated by `LearnUnsectionedKeepsTable`, `LearnInsertsWhenUnseen` and `LearnUpdatesWhenSeen` |
| `SectionMemory.LearnEach` | todoist_sorter.py:81-137 | separate `learn` calls, each committed before the next; the reference that `LearnPassDistinctIsLearnEach` compares `learn_all` with; it ends with at least the rows it started with and at most one more per task |
| `SectionMemory.LearnPass` | todoist_sorter.py:140-149 | a `learn_all` pass ends with at least the rows it started with and at most one more per task and never rewrites the project or title of an existing row |
| `SectionMemory.HistoricSectionCaseInsensitive` | todoist_sorter.py:52-65 | looking up a title and its lower-cased form gives the same section |
| `SectionMemory.HistoricSectionIgnoresCase` | todoist_sorter.py:52-65 | two titles that differ only in letter case give the same section |
| `SectionMemory.LearnUnsectionedKeepsTable` | todoist_sorter.py:83 | a task whose `section_id` is `None` leaves the table unchanged |
| `SectionMemory.LearnInsertsWhenUnseen` | todoist_sorter.py:99-113 | with no row for the lower-cased title, exactly the row `(project, title.lower(), section, now)` is appended and the old rows are unchanged |
| `SectionMemory.LearnUpdatesWhenSeen` | todoist_sorter.py:115-132 | with a row for the title, no row is added; exactly the rows matching title and project get the task's section and `now`; all others are unchanged |
| `SectionMemory.LearnIgnoresForeignRows` | todoist_sorter.py:52-132 | when every row with the title belongs to another project, `learn` leaves the table exactly as it was |
| `SectionMemory.LearnSameSectionRefreshesOnly` | todoist_sorter.py:88-132 | in a table of one project with one row per (project, title), learning the section already stored keeps every key and every section, and only `last_updated` of the title's row becomes `now` |
| `SectionMemory.UpdateRowsOverwrites` | todoist_sorter.py:116-132 | a second UPDATE with the same filter overrides the first completely |
| `SectionMemory.LearnRelearnOverrides` | todoist_sorter.py:81-137 | learning a task twice equals learning it once at the later time; at one time this is idempotence |
| `SectionMemory.LearnKeepsUniqueKeys` | todoist_sorter.py:81-137 | a standalone `learn` keeps at most one row per (project, title) |
| `SectionMemory.LearnKeepsProject` | todoist_sorter.py:99-132 | learning a task of the table's project keeps every row in that project |
| `SectionMemory.LearnThenLookup` | todoist_sorter.py:44-137 | in a table of the task's project, the lookup of a just-learned title returns the section just learned |
| `SectionMemory.LearnStepKeepsOtherLookups` | todoist_sorter.py:52-132 | a write for one title never changes what a different title looks up |
| `SectionMemory.LearnPassKeepsOtherLookups` | todoist_sorter.py:140-149 | a pass none of whose tasks has a title leaves that title's lookup unchanged |
| `SectionMemory.LearnPassDistinctIsLearnEach` | todoist_sorter.py:140-149 | with pairwise distinct lower-cased titles, a pass reading the stale snapshot ends as separate, committed `learn` calls would |
| `SectionMemory.LearnPassMayDuplicate` | todoist_sorter.py:140-149 | "Milk" and "milk" in one pass over an empty table give two rows for one (project, title), separate `learn` calls one |
| `SectionMemory.LearnSameSectionOverwritesDuplicates` | todoist_sorter.py:88-132 | with two rows for "milk" in sections 1 and 2, learning "milk" in section 1 finds 1 and still sets both rows to section 1 |
| `SectionMemory.LearnPassAddsOnlyLearnedRows` | todoist_sorter.py:140-149 | every row a pass adds carries the project, lower-cased title and section of one of the pass's tasks |
| `TodoistSorter.Connection.Insert` | todoist_sorter.py:100-113 | the INSERT appends the row after all existing ones |
| `TodoistSorter.Connection.Update` | todoist_sorter.py:116-132 | the UPDATE rewrites section and `last_updated` of the rows matching title and project only |
| `TodoistSorter.Sorter.constructor` | todoist_sorter.py:11-18 | the sorter is for the given project, its table name is derived from it, no call has been made |
| `TodoistSorter.Sorter.InitializeDb` | todoist_sorter.py:20-33 | the table exists afterwards, an existing table is unchanged, and the new connection sees the committed rows |
| `TodoistSorter.Sorter.Commit` | todoist_sorter.py:148 | the connection's view of the table becomes the committed table |
| `TodoistSorter.Sorter.GetHistoricSection` | todoist_sorter.py:44-71 | returns the section of the first committed row with the lower-cased title, `None` exactly when there is none; the table is unchanged |
| `TodoistSorter.Sorter.CapitalizeItem` | todoist_sorter.py:73-79 | an empty title raises `IndexError`; a title starting with an upper-case letter issues no call; any other issues exactly one update with the capitalised title |
| `TodoistSorter.Sorter.Learn` | todoist_sorter.py:81-137 | with no connection the committed table becomes `Learned(old table)`; with the batch connection the committed table stays as it was and the connection's rows change by the write chosen from the committed table's lookup; either way the table is created if missing when the task has a section; no API call |
| `TodoistSorter.Sorter.LearnAll` | todoist_sorter.py:140-149 | the committed table becomes the pass over the tasks in delivery order, lookups reading the table committed before the pass; one commit at the end |
| `TodoistSorter.Sorter.AdjustItemSection` | todoist_sorter.py:152-156 | exactly one move to the remembered section when there is one, no call otherwise; the table is unchanged |
| `TodoistSorter.EggsScenario` | todoist_sorter.py:81-156 | "eggs" seen unsectioned, then in section 5, makes a new "Eggs" task move to section 5 and leaves one row |

## Left out

- `web_service.py` (Flask routing, environment variables, JSON decoding, the 200/422 dispatch) is not part of this model; its calls into `Sorter` do not match the signatures modelled here.
- The Todoist API is not modelled: `get_tasks` becomes the `tasks` parameter of `LearnAll`, `update_task` and `move_task` become entries of the `calls` log, and the `item_id` branch of `get_historic_section`, which fetches the task over the network, is left out.
- SQLite beyond rows, connections and commit: SQL text, cursors, closing connections, the database file path and column type affinity. "The first row" of `LIMIT 1` without `ORDER BY` is taken to be the first in insertion order.
- The SELECT at todoist_sorter.py:62-64 binds `(item_name.lower())`, a string rather than a one-element tuple; the model binds the single lower-cased title, as evidently intended.
- Ascii.ToLower: Python's `str.lower()` maps every Unicode letter; the model maps only `A`-`Z`.
- Ascii.ToUpper: Python's `str.upper()` maps every Unicode letter (some to several characters); the model maps only `a`-`z`.
- Ascii.IsUpper: Python's `isupper()` is true for every upper-case Unicode letter; the model's only for `A`-`Z`. So for a title such as "Émile" `Sorter.CapitalizeItem` logs an `UpdateTask` with the title unchanged, where the code makes no call.
- Ascii.Lower: only ASCII letters are lower-cased, for the reason above.
- TableNaming.TableName: for a negative project id the name (`Sections_-5`) is not a valid SQL identifier, and the code puts it unquoted into `CREATE TABLE IF NOT EXISTS`, so every table operation of that sorter raises; the model accepts the name and does not model that failure.
- The timestamp `datetime.now().strftime(...)` is an opaque string: `Learn` takes it as `now`, `LearnAll` as `clock(i)` for the i-th task.
- The API token, the API client and the database file name of the constructor are not modelled.
- Task, project and section identifiers are plain values (`string` for tasks, `int` for projects and sections); their formats are not modelled.
- The commented-out `get_section_name` is not code and is not modelled.
- Concurrency between webhook handling and `learn_all`, timers, timeouts, retries and per-task error isolation do not appear in this code and are not modelled.
