# Dump scripts: keep-last-N retention and the dump producers

This project models the logic of a small set of database backup
scripts. Three producer scripts (`download_bopo_dump.py`,
`download_ext_production_dump.py` and `download_kavya_dump.py`) each
connect to a server over SSH and run `mysqldump` into a file named
`dump_YYYYMMDD_HHMMSS.sql`. If the dump command exits with status 0,
the script copies the file into its local folder, deletes it on the
server and closes the connection. A scheduler (`scheduled_dumps.py`)
goes through a fixed table of sources. For each one it prunes the
source's folder to its ten newest `.sql` files and then launches the
source's producer.

The model has seven modules:

- `Retention` (retention.dfy) is the pure core of `cleanup_old_dumps`. A
  folder is a finite map from file name to modification time. A listing
  is the order in which `os.listdir` returned the names. The module
  defines the `.sql` filter, a stable newest-first insertion sort (the
  result `list.sort(key=getmtime, reverse=True)` gives), the slice
  `files[keep:]` and the pruned folder. It proves facts about each of
  them.
- `Scheduler` (scheduler.dfy) holds the folder table and the keep
  constants. A `FileSystem` class has a mutable `dirs` map and the calls
  `os.listdir` and `os.remove`. `CleanupOldDumps` is written as a loop
  that deletes one file at a time. `RunAllDumps` is the fixed
  prune-then-launch sequence.
- `DumpNaming` (naming.dfy) renders `strftime("%Y%m%d_%H%M%S")` as
  zero-padded fixed-width fields. It builds the dump name and the local
  path `os.path.join(folder, name)`, and gives their inverses
  (`ParseTimestamp`, `ParseDumpName` and `Split`).
- `DumpSession` (session.dfy) models `download_db_dump` as a trace of
  uninterpreted remote calls: connect, run the dump, download, remove,
  close. The network's behaviour comes in as inputs: whether the
  connection succeeds, the exit status, and whether the copy succeeds.
- `BopoDump`, `ExtProductionDump` and `KavyaDump` (bopo.dfy,
  ext_production.dfy, kavya.dfy) hold each script's folder, its remote
  and local file, its `download_db_dump`, and how its folder relates to
  the scheduler's table.
- `Wrappers` (wrappers.dfy) holds `Option` and a map lookup.

The three producer scripts have the same naming code and the same
`download_db_dump`. The naming code is at download_bopo_dump.py:27-29,
download_ext_production_dump.py:23-25 and download_kavya_dump.py:23-25.
`download_db_dump` is at download_bopo_dump.py:43-67 and at lines 34-59
of the other two scripts. Each is modelled once, in `DumpNaming` and in
`DumpSession`. The table cites the bopo lines for these shared members.
Each script's own module then uses them with that script's folder.

Points worth noting about the scripts:

- **Prune before, not after.** The scheduler prunes a folder *before*
  the new dump arrives. So after a run a folder can hold keep + 1 `.sql`
  files, not at most keep. `RunLeavesAtMostKeepPlusOne` proves the
  bound keep + 1. `RunCanLeaveKeepPlusOne` shows that a run can reach
  it.
- **Local copies only.** The scripts keep local copies only.
- **Keep count.** The keep count is by number of files, not by age,
  although a comment calls it "last 10 days". `run_all_dumps` never
  passes `KEEP_LAST` (scheduled_dumps.py:18, `Scheduler.KeepLast`), so
  every cleanup uses the parameter's default (scheduled_dumps.py:20,
  `Scheduler.DefaultKeep`). Both values are 10. The folder table
  `DUMP_FOLDERS` (scheduled_dumps.py:11-15) is the constant
  `Scheduler.DumpFolders`.
- **KAVYA_test is never pruned.** `KAVYA_test` is not in the folder
  table, and `KavyaDump.OutputIsNotRetained` proves it. No scheduled
  cleanup ever prunes that folder.
- **Failed copies.** When the copy raises, nothing catches the
  exception. `ssh.close()` is then never called, and the dump stays
  on the server. `DumpSession.Describes` states this case too.

## Model

| member | source | states |
|---|---|---|
| `Retention.Candidates` | scheduled_dumps.py:26 | the candidates are exactly the names of the listing that end in `.sql`, and there are no more of them than names in the listing |
| `Retention.IsSqlSuffix` | scheduled_dumps.py:26 | a name passes `f.endswith(".sql")` exactly when it is some stem, possibly empty, followed by `.sql`, and every such name passes |
| `Retention.NewestFirst` | scheduled_dumps.py:29 | the sorted list holds exactly the names it was given; `NewestFirstFacts` proves the rest of what the sort promises |
| `Retention.NewestFirstFacts` | scheduled_dumps.py:29 | sorting by mtime in reverse gives a permutation (equal multisets, equal length) of the candidates whose mtimes never increase from front to back |
| `Retention.Victims` | scheduled_dumps.py:32 | every file the slice `files[keep:]` selects is a `.sql` name from the listing |
| `Retention.Prune` | scheduled_dumps.py:32-34 | the folder after the delete loop holds only files of the old folder, each with its old mtime, and still holds every file not ending in `.sql` |
| `Retention.CleanupCounts` | scheduled_dumps.py:29-34 | with n `.sql` files in the folder, cleanup deletes max(0, n - keep) of them and leaves min(n, keep) |
| `Retention.CleanupDeletesOnlySql` | scheduled_dumps.py:26-34 | the deleted names are `.sql` files of the folder; the pruned folder is the old one minus exactly those names; every surviving file keeps its mtime |
| `Retention.NonSqlUntouched` | scheduled_dumps.py:26 | a file whose name does not end in `.sql` survives cleanup with its mtime unchanged |
| `Retention.RetainedAreNewest` | scheduled_dumps.py:29-34 | every `.sql` file that survives has an mtime at least that of every deleted file |
| `Retention.KeepZeroDeletesAllSql` | scheduled_dumps.py:32 | with keep = 0 every `.sql` file is deleted and none remains |
| `Retention.KeepAtLeastCountDeletesNone` | scheduled_dumps.py:32 | with keep >= n nothing is deleted and the folder is unchanged |
| `Retention.CleanupIdempotent` | scheduled_dumps.py:29-34 | a second cleanup with no file added in between deletes nothing, whatever order the second `os.listdir` returns |
| `Retention.VictimsByCounting` | scheduled_dumps.py:29-34 | a deleted file has at least keep other `.sql` files at least as new as itself; a surviving `.sql` file has fewer than keep strictly newer ones |
| `Retention.VictimsWithDistinctMtimes` | scheduled_dumps.py:29-34 | when no two `.sql` files share an mtime, a file is deleted exactly when at least keep `.sql` files are newer than it |
| `Scheduler.FolderTableInjective` | scheduled_dumps.py:11-15 | the table has the sources `bopo`, `ext_test` and `ext_prod`, and no two of them share a folder, so one source's cleanup never deletes another's dumps |
| `Scheduler.FileSystem.ListDir` | scheduled_dumps.py:26 | `os.listdir` returns every name of the folder exactly once, in an order the caller cannot rely on |
| `Scheduler.FileSystem.Remove` | scheduled_dumps.py:34 | `os.remove` takes exactly one existing name out of one folder and changes nothing else |
| `Scheduler.CleanupOldDumps` | scheduled_dumps.py:20-34 | a missing folder is left alone and nothing is deleted; otherwise the returned deletions are the slice at position >= keep of the newest-first `.sql` list for the listing it read, and the folder becomes the pruned folder, with every other folder unchanged |
| `Scheduler.AfterProducer` | scheduled_dumps.py:43 | a producer that wrote nothing leaves its folder as it was; one that wrote a dump adds exactly that file, creating the folder if needed, and keeps every other file |
| `Scheduler.Launch` | scheduled_dumps.py:43 | launching a producer changes only that producer's folder, as AfterProducer says, and reports no exit code to the caller |
| `Scheduler.SourceTurn` | scheduled_dumps.py:41-43 | one source's turn logs its cleanup and then its launch; the logged deletions are exactly the victims of some listing of its folder, the folder is pruned under that listing and then receives the producer's output; a missing folder logs no deletion; other folders stay unchanged |
| `Scheduler.RunAllDumps` | scheduled_dumps.py:37-55 | the run logs, in order, the cleanup of `BOPO_test`, the bopo launch, the cleanup of `EXT_test`, the EXT test launch, the cleanup of `EXT_production` and the EXT production launch, whatever each producer did; each table folder is pruned with the default keep of 10 before its producer's output is added, and its logged deletions are exactly the files that pruning removed; each ends with at most 11 `.sql` files; folders outside the table are unchanged |
| `Scheduler.RunLeavesAtMostKeepPlusOne` | scheduled_dumps.py:41-53 | after prune-then-produce a folder holds at most keep + 1 `.sql` files |
| `Scheduler.RunCanLeaveKeepPlusOne` | scheduled_dumps.py:41-43 | a folder that already holds at least keep `.sql` files ends with exactly keep + 1 when the producer adds a new `.sql` file, so the bound keep is exceeded |
| `DumpNaming.Timestamp` | download_bopo_dump.py:27 | the timestamp is 15 characters, `_` at position 8 and a decimal digit everywhere else |
| `DumpNaming.Pad` | download_bopo_dump.py:27 | a number below 10^w is written in exactly w decimal digits, leading zeros included |
| `DumpNaming.ParsePad` | download_bopo_dump.py:27 | a zero-padded field reads back as the number it renders |
| `DumpNaming.PadParse` | download_bopo_dump.py:27 | every string of w digits is the padded rendering of its value |
| `DumpNaming.PadOrder` | download_bopo_dump.py:27 | two padded fields of one width compare as strings exactly as their numbers compare |
| `DumpNaming.ParseTimestampOfTimestamp` | download_bopo_dump.py:27 | parsing the rendered timestamp of a valid date-time gives it back |
| `DumpNaming.TimestampOfParseTimestamp` | download_bopo_dump.py:27 | every string that parses as a timestamp is the rendering of the date-time it parses to |
| `DumpNaming.DumpName` | download_bopo_dump.py:28 | the name is 24 characters: `dump_`, then the 15-character timestamp, then `.sql` |
| `DumpNaming.DumpNameRoundTrip` | download_bopo_dump.py:28 | parsing the dump name of a valid date-time gives it back |
| `DumpNaming.ParseDumpNameRoundTrip` | download_bopo_dump.py:28 | every string accepted as a dump name is the dump name of the date-time it parses to |
| `DumpNaming.DumpNameInjective` | download_bopo_dump.py:27-28 | two date-times give the same dump name exactly when they are equal |
| `DumpNaming.NameOrderIsTimeOrder` | download_bopo_dump.py:27-28 | for valid date-times, one dump name is lexicographically smaller than another exactly when its date-time is earlier |
| `DumpNaming.DumpNameIsSql` | download_bopo_dump.py:28 | every dump name passes the scheduler's `.endswith(".sql")` filter |
| `DumpNaming.Join` | download_bopo_dump.py:29 | `os.path.join(dir, name)` starts with `dir` and ends with `name`; it puts one separator between them when `dir` is non-empty and does not end in one, and nothing otherwise |
| `DumpNaming.SplitJoin` | download_bopo_dump.py:29 | splitting `os.path.join(dir, name)` at its last separator (`Split`, the inverse of `Join`; not `os.path.split`) gives `dir` and `name` back when `name` has no separator |
| `DumpNaming.LocalPath` | download_bopo_dump.py:29 | the local path starts with the producer's folder and ends with the 24-character dump name |
| `DumpNaming.LocalPathSplits` | download_bopo_dump.py:29 | the local path splits into the producer's folder and the same name as the remote file, for either platform's separator |
| `DumpSession.DownloadDbDump` | download_bopo_dump.py:43-67 | the calls made for each outcome: connection failure, non-zero exit (connect, dump, close), copy failure, success (connect, dump, download of the same name, remove of the same name, close); with `Describes`: nothing is copied or removed unless the exit status is 0, and a normal return closes the connection once, as the last call |
| `BopoDump.RemoteFile` | download_bopo_dump.py:27-28 | the remote file name is 24 characters, ends in `.sql` and parses back to the clock reading |
| `BopoDump.LocalFile` | download_bopo_dump.py:23-29 | the local path is `BOPO_test` joined with the remote file name |
| `BopoDump.DownloadDbDump` | download_bopo_dump.py:43-67 | on a non-zero exit status, exactly connect, dump, close and no exception; on success, exactly connect, dump into the remote name, download of it to the local path, removal of it, close |
| `BopoDump.OutputIsRetained` | download_bopo_dump.py:23-28 | the download's folder is `DUMP_FOLDERS["bopo"]` and its name ends in `.sql`, so the scheduler prunes it |
| `ExtProductionDump.RemoteFile` | download_ext_production_dump.py:23-24 | the remote file name is 24 characters, ends in `.sql` and parses back to the clock reading |
| `ExtProductionDump.LocalFile` | download_ext_production_dump.py:20-25 | the local path is `EXT_production` joined with the remote file name |
| `ExtProductionDump.DownloadDbDump` | download_ext_production_dump.py:34-59 | on a non-zero exit status, exactly connect, dump, close; on success, download of the same remote name, then its removal, then close |
| `ExtProductionDump.OutputIsRetained` | download_ext_production_dump.py:20-24 | the download's folder is `DUMP_FOLDERS["ext_prod"]` and its name ends in `.sql` |
| `KavyaDump.RemoteFile` | download_kavya_dump.py:23-24 | the remote file name is 24 characters, ends in `.sql` and parses back to the clock reading |
| `KavyaDump.LocalFile` | download_kavya_dump.py:20-25 | the local path is `KAVYA_test` joined with the remote file name |
| `KavyaDump.DownloadDbDump` | download_kavya_dump.py:34-59 | on a non-zero exit status, exactly connect, dump, close; on success, download of the same remote name, then its removal, then close |
| `KavyaDump.OutputIsNotRetained` | download_kavya_dump.py:20 | the download's folder `KAVYA_test` is not a folder of `DUMP_FOLDERS`, so no scheduled cleanup reaches it |

## Left out

- Scheduling: `schedule.every().day.at("02:00")`, the endless `while True` / `time.sleep` loop and the log lines printed with `datetime.now()` are external libraries and wall-clock I/O. Only the order of calls inside `run_all_dumps` is modelled.
- Launching producers: `subprocess.run` and the interpreter path are OS process creation. A producer is modelled only by the dump file it may leave in its folder (`Option<NewDump>`). The folder it creates with `os.makedirs` when it writes no dump is not modelled, since an empty folder has no effect on retention.
- The EXT test producer: `download_EXT_dump.py` is not part of this model. Only the cleanup of its folder and its launch are modelled. The model assumes it writes at most one file, into `EXT_test`.
- SSH and SCP: connecting, loading keys, running `mysqldump` remotely and the transfer itself are library I/O. They are events in a trace, and their outcomes are inputs. The password, user, host and port are not modelled, and `scp.close()` is folded into the download event. The `rm` command's own exit status is never read by the source, and the model does not read it either. `exec_command`, for the dump and for the `rm`, is taken never to raise, and every remote call, `recv_exit_status()` included, is taken to return: the only failures modelled are a failed connection and a failed copy. So the model does not cover a run that raises at the `rm` after a good copy and then never calls `ssh.close()`.
- Environment: loading `.env`, the `os.getenv` calls and the `int(...)` parse of the port happen at import time and may fail before anything is modelled. They are left out.
- The clock: `datetime.now()` is the parameter `now`. Modification times are natural numbers rather than floats, and the model says nothing about how the clock sets them.
- The filesystem: `os.path.exists`, `os.listdir`, `os.path.getmtime` and `os.remove` work on the abstract folder map. Subdirectories whose names end in `.sql`, files changing during a cleanup, and removal errors are not modelled. The folder map is keyed by name, so `os.path.join(folder, f)` inside the cleanup is the pair (folder, f).
- Path syntax: `os.path.join` is modelled for a relative name and one separator character (`/` or `\`). Drive letters and absolute second arguments are not modelled.
- `DumpNaming.Timestamp`: years are rendered as four zero-padded digits over 1..9999. On platforms whose C library does not pad `%Y` (for example glibc), years below 1000 would give a shorter name. Such years cannot come from `datetime.now()` in practice.
- Ties in mtime: the sort is stable and keeps `os.listdir` order among equal mtimes, as Python's sort does. Stability itself is not stated as a lemma. The cleanup facts hold for every listing order.
- A negative keep count: `cleanup_old_dumps` is only called with its default 10, so keep is a natural number. A negative slice start is not modelled.
- `gdrive_auth.py`: a wrapper around an OAuth library, outside the core.
