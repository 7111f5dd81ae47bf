/** download_bopo_dump.py: the four module-level constants and `download_db_dump`
    for the BOPO test database. The clock reading `datetime.now()` taken
    when the script starts is the parameter `now`; `sep` is the host's
    path separator. */
module BopoDump {
  import opened Wrappers
  import opened DumpNaming
  import opened DumpSession
  import Retention
  import Scheduler

  /** `DUMP_FOLDER` */
  const DumpFolder: string := "BOPO_test"

  /** `DUMP_FILE_REMOTE`: names the clock reading exactly, and is a `.sql`
      file. */
  function RemoteFile(now: DateTime): (r: string)
    requires ValidDateTime(now)
    ensures |r| == 24 && Retention.IsSql(r)
    ensures ParseDumpName(r) == Some(now)
  {
    DumpNameRoundTrip(now);
    DumpNameIsSql(now);
    DumpName(now)
  }

  /** `DUMP_FILE_LOCAL`: the remote name, inside `DUMP_FOLDER`. */
  function LocalFile(now: DateTime, sep: char): (p: string)
    requires ValidDateTime(now)
    requires sep == '/' || sep == '\\'
    ensures Split(p, sep) == (DumpFolder, RemoteFile(now))
  {
    LocalPathSplits(DumpFolder, now, sep);
    LocalPath(DumpFolder, now, sep)
  }

  /** `download_db_dump()`: on a non-zero exit status the connection is
      closed and nothing is copied or deleted; on 0 the file the dump
      command wrote is copied to LocalFile, deleted on the server, and
      the connection closed, in that order. */
  method DownloadDbDump(now: DateTime, sep: char, connects: bool, exitStatus: int, transfers: bool)
    returns (trace: seq<Event>, raised: bool)
    requires ValidDateTime(now)
    requires sep == '/' || sep == '\\'
    ensures Describes(trace, raised, RemoteFile(now), LocalFile(now, sep), connects, exitStatus, transfers)
    ensures connects && exitStatus != 0 ==>
      !raised && trace == [Connect, ExecDump(RemoteFile(now), exitStatus), Close]
    ensures connects && exitStatus == 0 && transfers ==>
      !raised && trace == [Connect, ExecDump(RemoteFile(now), 0),
        Download(RemoteFile(now), LocalFile(now, sep)), ExecRemove(RemoteFile(now)), Close]
  {
    var remote, local := RemoteFile(now), LocalFile(now, sep);
    trace, raised := DumpSession.DownloadDbDump(remote, local, connects, exitStatus, transfers);
  }

  /** The download lands where the scheduler prunes: the folder is
      `DUMP_FOLDERS["bopo"]` and the name passes the `.sql` filter. */
  lemma OutputIsRetained(now: DateTime, sep: char)
    requires ValidDateTime(now)
    requires sep == '/' || sep == '\\'
    ensures Split(LocalFile(now, sep), sep).0 == Scheduler.DumpFolders["bopo"]
    ensures Retention.IsSql(Split(LocalFile(now, sep), sep).1)
  {
  }
}
