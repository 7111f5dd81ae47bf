/** `download_db_dump`, shared by the three producer scripts: connect over
    SSH, run `mysqldump ... > name` on the server, and only if its exit
    status is 0 copy the file down, delete it on the server and close.

    The remote calls are uninterpreted events; each run is recorded as the
    sequence of calls it makes. What the network does is given as inputs:
    whether the connection comes up, the exit status the dump command
    reports, and whether the copy succeeds. Those are the only failures
    modelled: a failing connection or copy raises an exception that
    nothing catches, which ends the run on the spot. Running a remote
    command is taken never to raise, and every remote call returns.
 */
module DumpSession {

  datatype Event =
    | Connect                                   // create_ssh_client()
    | ExecDump(target: string, status: int)     // exec_command(mysqldump ... > target); recv_exit_status()
    | Download(remote: string, local: string)   // SCPClient(...).get(remote, local); scp.close()
    | ExecRemove(target: string)                // exec_command(f"rm {target}")
    | Close                                     // ssh.close()

  /** How many times an event occurs in a trace. */
  function Count(trace: seq<Event>, e: Event): nat
  {
    if trace == [] then 0
    else (if trace[0] == e then 1 else 0) + Count(trace[1..], e)
  }

  /** The trace, once the run returns normally, ends by closing the one
      connection it opened. */
  predicate ClosedAtEnd(trace: seq<Event>)
  {
    trace != [] && trace[|trace| - 1] == Close && Count(trace, Close) == 1
  }

  /** Position of the first `e` in the trace. */
  function IndexOf(trace: seq<Event>, e: Event): (i: nat)
    requires e in trace
    ensures i < |trace| && trace[i] == e
    ensures forall j :: 0 <= j < i ==> trace[j] != e
  {
    if trace[0] == e then 0 else 1 + IndexOf(trace[1..], e)
  }

  /** `a` happens before `b`. */
  predicate Before(trace: seq<Event>, a: Event, b: Event)
  {
    a in trace && b in trace && IndexOf(trace, a) < IndexOf(trace, b)
  }

  /** The safety rule the function follows: nothing is copied or deleted
      unless the dump command reported 0, the file copied and deleted is
      the one the command wrote, and the copy comes before the delete. */
  predicate TransferGated(trace: seq<Event>)
  {
    forall i :: 0 <= i < |trace| ==>
      match trace[i]
      case Download(r, _) => exists j :: 0 <= j < i && trace[j] == ExecDump(r, 0)
      case ExecRemove(r) => exists j :: 0 <= j < i && trace[j].Download? && trace[j].remote == r
      case _ => true
  }

  /** What a run of `download_db_dump` promises, given the three network
      outcomes: it raises exactly when the connection or the copy fails
      (the only failures modelled); it always starts by connecting and
      then runs the dump into `name`; a normal return closes the
      connection once, as the last call; a download of `name` to `local`
      happens exactly when the exit status is 0, and a remote delete of
      `name` exactly when the copy also succeeded, in that order, before
      the close. */
  predicate Describes(trace: seq<Event>, raised: bool, name: string, local: string,
                      connects: bool, exitStatus: int, transfers: bool)
  {
    && (raised <==> !connects || (exitStatus == 0 && !transfers))
    && TransferGated(trace)
    && trace != [] && trace[0] == Connect
    && (connects ==> |trace| >= 2 && trace[1] == ExecDump(name, exitStatus))
    && (!raised ==> ClosedAtEnd(trace))
    && (raised ==> Close !in trace)
    && (Download(name, local) in trace <==> connects && exitStatus == 0)
    && (forall e :: e in trace && e.Download? ==> e == Download(name, local))
    && (ExecRemove(name) in trace <==> connects && exitStatus == 0 && transfers)
    && (forall e :: e in trace && e.ExecRemove? ==> e == ExecRemove(name))
    && (connects && exitStatus == 0 && transfers ==>
          Before(trace, Download(name, local), ExecRemove(name)) && Before(trace, ExecRemove(name), Close))
  }

  /** `download_db_dump()` for remote file `name` and local path `local`.
      Returns the calls made and whether an exception escaped. */
  method DownloadDbDump(name: string, local: string, connects: bool, exitStatus: int, transfers: bool)
    returns (trace: seq<Event>, raised: bool)
    ensures !connects ==> trace == [Connect]
    ensures connects && exitStatus != 0 ==> trace == [Connect, ExecDump(name, exitStatus), Close]
    ensures connects && exitStatus == 0 && !transfers ==>
      trace == [Connect, ExecDump(name, 0), Download(name, local)]
    ensures connects && exitStatus == 0 && transfers ==>
      trace == [Connect, ExecDump(name, 0), Download(name, local), ExecRemove(name), Close]
    ensures Describes(trace, raised, name, local, connects, exitStatus, transfers)
  {
    trace := [Connect];
    if !connects {
      raised := true;
      NoConnection(name, local, exitStatus, transfers);
      return;
    }
    trace := trace + [ExecDump(name, exitStatus)];
    if exitStatus != 0 {
      trace := trace + [Close];
      raised := false;
      DumpFailed(name, local, exitStatus, transfers);
      assert trace == [Connect, ExecDump(name, exitStatus), Close];
      return;
    }
    trace := trace + [Download(name, local)];
    if !transfers {
      raised := true;
      TransferFailed(name, local);
      assert trace == [Connect, ExecDump(name, 0), Download(name, local)];
      return;
    }
    trace := trace + [ExecRemove(name), Close];
    raised := false;
    Completed(name, local);
    assert trace == [Connect, ExecDump(name, 0), Download(name, local), ExecRemove(name), Close];
  }

  lemma NoConnection(name: string, local: string, exitStatus: int, transfers: bool)
    ensures Describes([Connect], true, name, local, false, exitStatus, transfers)
  {
  }

  lemma DumpFailed(name: string, local: string, exitStatus: int, transfers: bool)
    requires exitStatus != 0
    ensures Describes([Connect, ExecDump(name, exitStatus), Close], false, name, local,
                      true, exitStatus, transfers)
  {
    var t := [Connect, ExecDump(name, exitStatus), Close];
    assert t[1..] == [ExecDump(name, exitStatus), Close];
    assert t[1..][1..] == [Close];
    assert [Close][1..] == [];
    assert Count([Close], Close) == 1;
    assert Count(t[1..], Close) == 1;
  }

  lemma TransferFailed(name: string, local: string)
    ensures Describes([Connect, ExecDump(name, 0), Download(name, local)], true, name, local,
                      true, 0, false)
  {
    var t := [Connect, ExecDump(name, 0), Download(name, local)];
    assert t[1] == ExecDump(name, 0);
  }

  lemma Completed(name: string, local: string)
    ensures Describes([Connect, ExecDump(name, 0), Download(name, local), ExecRemove(name), Close],
                      false, name, local, true, 0, true)
  {
    var t := [Connect, ExecDump(name, 0), Download(name, local), ExecRemove(name), Close];
    assert t[1..] == [ExecDump(name, 0), Download(name, local), ExecRemove(name), Close];
    assert t[1..][1..] == [Download(name, local), ExecRemove(name), Close];
    assert t[1..][1..][1..] == [ExecRemove(name), Close];
    assert t[1..][1..][1..][1..] == [Close];
    assert [Close][1..] == [];
    assert Count([Close], Close) == 1;
    assert Count([ExecRemove(name), Close], Close) == 1;
    assert Count(t[1..][1..], Close) == 1;
    assert Count(t[1..], Close) == 1;
    assert t[1] == ExecDump(name, 0) && t[2].Download? && t[2].remote == name;
    assert IndexOf(t, Download(name, local)) == 2;
    assert IndexOf(t, ExecRemove(name)) == 3;
    assert IndexOf(t, Close) == 4;
  }
}
