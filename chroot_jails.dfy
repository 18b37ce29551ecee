/**
 * The chroot jail cron job (Froxlor\Cron\System\ChrootJails).  The job reads
 * the customers with chroot enabled, and for each one runs at most one of
 * create / remove / update, each a fixed sequence of shell commands.  Shell
 * execution and logging become two logs the class appends to; the database
 * queries become inputs.
 */
module ChrootJails {

  /** The directory every jail lives under. */
  const JailsBase: string := "/var/jails/"

  /** getChrootDirectory: the jail of a user is the user name under the jails directory. */
  function GetChrootDirectory(username: string): (r: string)
    ensures |r| == |JailsBase| + |username|
    ensures r[..|JailsBase|] == JailsBase && r[|JailsBase|..] == username
  {
    JailsBase + username
  }

  /** Distinct user names get distinct jails. */
  lemma ChrootDirectoryInjective(a: string, b: string)
    requires GetChrootDirectory(a) == GetChrootDirectory(b)
    ensures a == b
  {
    assert a == GetChrootDirectory(a)[|JailsBase|..];
  }

  // ---------------------------------------------------------------------------
  // The shell commands
  // ---------------------------------------------------------------------------

  function CreateCommand(folder: string, username: string): (command: string)
  {
    "sudo bash ./JailBin/make_jail.sh " + folder + " " + username
  }

  function UnmountCommand(folder: string, username: string): (command: string)
  {
    "umount " + folder + "/home/" + username
  }

  function RemoveCommand(folder: string): (command: string)
  {
    "sudo rm -r " + folder
  }

  /** The commands jailCreate runs. */
  function CreateCommands(folder: string, username: string): (commands: seq<string>)
  {
    [CreateCommand(folder, username)]
  }

  /** The commands jailDelete runs: unmount the home bind, then remove the jail. */
  function DeleteCommands(folder: string, username: string): (commands: seq<string>)
  {
    [UnmountCommand(folder, username), RemoveCommand(folder)]
  }

  /** The commands jailUpdate runs: all of jailDelete's, then jailCreate's, with no check in between. */
  function UpdateCommands(folder: string, username: string): (commands: seq<string>)
  {
    DeleteCommands(folder, username) + CreateCommands(folder, username)
  }

  /** `t` occurs in `s` starting at index `i`. */
  predicate OccursAt(s: string, t: string, i: int)
  {
    0 <= i <= |s| - |t| && s[i..i + |t|] == t
  }

  /** `t` occurs in `s` as a contiguous piece. */
  ghost predicate Contains(s: string, t: string)
  {
    exists i :: OccursAt(s, t, i)
  }

  lemma ContainsAt(s: string, t: string, i: nat)
    requires i + |t| <= |s| && s[i..i + |t|] == t
    ensures Contains(s, t)
  {
    assert OccursAt(s, t, i);
  }

  /** A string contains each piece it is built from. */
  lemma ContainsPiece(p: string, t: string, q: string)
    ensures Contains(p + t + q, t)
  {
    assert (p + t + q)[|p|..|p| + |t|] == t;
    ContainsAt(p + t + q, t, |p|);
  }

  /** Each command names the folder it was given; the unmount also names the user's home inside it. */
  lemma CommandsNameTheirJail(folder: string, username: string)
    ensures Contains(CreateCommand(folder, username), folder)
    ensures Contains(CreateCommand(folder, username), username)
    ensures Contains(UnmountCommand(folder, username), folder + "/home/" + username)
    ensures Contains(UnmountCommand(folder, username), folder)
    ensures Contains(RemoveCommand(folder), folder)
  {
    var create := "sudo bash ./JailBin/make_jail.sh ";
    AppendAssociative(create + folder, " ", username);
    assert CreateCommand(folder, username) == create + folder + (" " + username);
    ContainsPiece(create, folder, " " + username);
    assert CreateCommand(folder, username) + "" == CreateCommand(folder, username);
    ContainsPiece(create + folder + " ", username, "");
    var home := folder + "/home/" + username;
    assert "umount " + home + "" == UnmountCommand(folder, username) by {
      AppendAssociative("umount ", folder, "/home/");
      AppendAssociative("umount ", folder + "/home/", username);
    }
    ContainsPiece("umount ", home, "");
    AppendAssociative("umount " + folder, "/home/", username);
    assert UnmountCommand(folder, username) == "umount " + folder + ("/home/" + username);
    ContainsPiece("umount ", folder, "/home/" + username);
    assert RemoveCommand(folder) + "" == RemoveCommand(folder);
    ContainsPiece("sudo rm -r ", folder, "");
  }

  /**
   * jailDelete unmounts before it removes, and jailUpdate removes the whole
   * jail before it creates it again.
   */
  lemma DeleteAndUpdateOrder(folder: string, username: string)
    ensures var d := DeleteCommands(folder, username);
      |d| == 2 && d[0][..|"umount "|] == "umount " && d[1][..|"sudo rm -r "|] == "sudo rm -r "
    ensures var u := UpdateCommands(folder, username);
      |u| == 3 && u[..2] == DeleteCommands(folder, username) && u[2] == CreateCommand(folder, username)
  {
  }

  // ---------------------------------------------------------------------------
  // Query results and logs
  // ---------------------------------------------------------------------------

  /**
   * The result of the per-customer query: it threw (with its message), or it
   * returned the customer's login name and the three jail flags.
   */
  datatype CustomerInfo =
    | QueryFailed(message: string)
    | Row(loginname: string, createJail: bool, removeJail: bool, updateJail: bool)

  /** The result of the query for the ids of the customers with chroot enabled. */
  datatype IdQuery = IdQueryFailed | Ids(rows: seq<int>)

  datatype Level = Info | Error

  datatype LogEntry = LogEntry(level: Level, message: string)

  const StartMessage: string := "ChrootCron: started - creating customer chroot jail"
  const IdQueryMessage: string := "ChrootCron: err - retrieve customer id"
  const InfoQueryMessage: string := "ChrootCron: err - retrieve customer info "

  /** The jail commands runCustomer issues for a customer: create wins over remove, remove over update. */
  function CustomerCommands(info: CustomerInfo): (commands: seq<string>)
  {
    match info
    case QueryFailed(_) => []
    case Row(loginname, createJail, removeJail, updateJail) =>
      var folder := GetChrootDirectory(loginname);
      if createJail then CreateCommands(folder, loginname)
      else if removeJail then DeleteCommands(folder, loginname)
      else if updateJail then UpdateCommands(folder, loginname)
      else []
  }

  /** What runCustomer logs: only a failed query is logged. */
  function CustomerLog(info: CustomerInfo): (entries: seq<LogEntry>)
  {
    match info
    case QueryFailed(message) => [LogEntry(Error, InfoQueryMessage + message)]
    case Row(_, _, _, _) => []
  }

  /** The commands of all customers, in the order of the rows. */
  function RunCommands(ids: seq<int>, lookup: int -> CustomerInfo): (commands: seq<string>)
  {
    if ids == [] then [] else RunCommands(ids[..|ids| - 1], lookup) + CustomerCommands(lookup(ids[|ids| - 1]))
  }

  /** The log lines of all customers, in the order of the rows. */
  function RunLog(ids: seq<int>, lookup: int -> CustomerInfo): (entries: seq<LogEntry>)
  {
    if ids == [] then [] else RunLog(ids[..|ids| - 1], lookup) + CustomerLog(lookup(ids[|ids| - 1]))
  }

  /**
   * A customer runs at most one action, chosen by priority, always on the
   * jail of its own login name; a customer whose query failed runs none.
   */
  lemma CustomerDispatch(info: CustomerInfo)
    ensures info.QueryFailed? ==> CustomerCommands(info) == []
    ensures info.Row? ==> var folder := GetChrootDirectory(info.loginname);
      && (info.createJail ==> CustomerCommands(info) == CreateCommands(folder, info.loginname))
      && (!info.createJail && info.removeJail ==> CustomerCommands(info) == DeleteCommands(folder, info.loginname))
      && (!info.createJail && !info.removeJail && info.updateJail ==>
            CustomerCommands(info) == UpdateCommands(folder, info.loginname))
      && (!info.createJail && !info.removeJail && !info.updateJail ==> CustomerCommands(info) == [])
    ensures |CustomerCommands(info)| <= 3
    ensures forall c :: c in CustomerCommands(info) ==> Contains(c, JailsBase + info.loginname)
  {
    if info.Row? {
      var folder := GetChrootDirectory(info.loginname);
      CommandsNameTheirJail(folder, info.loginname);
      assert forall c :: c in UpdateCommands(folder, info.loginname) ==>
        c == UnmountCommand(folder, info.loginname) || c == RemoveCommand(folder) ||
        c == CreateCommand(folder, info.loginname);
    }
  }

  lemma AppendAssociative<T>(a: seq<T>, b: seq<T>, c: seq<T>)
    ensures a + b + c == a + (b + c)
  {
  }

  /** The commands of a run split at any point between customers. */
  lemma {:induction false} RunCommandsAppend(a: seq<int>, b: seq<int>, lookup: int -> CustomerInfo)
    ensures RunCommands(a + b, lookup) == RunCommands(a, lookup) + RunCommands(b, lookup)
    decreases |b|
  {
    if b == [] {
      assert a + b == a;
    } else {
      var init, last := b[..|b| - 1], b[|b| - 1];
      RunCommandsAppend(a, init, lookup);
      assert (a + b)[..|a + b| - 1] == a + init;
      assert (a + b)[|a + b| - 1] == last;
      AppendAssociative(RunCommands(a, lookup), RunCommands(init, lookup), CustomerCommands(lookup(last)));
    }
  }

  lemma RunCommandsSingle(id: int, lookup: int -> CustomerInfo)
    ensures RunCommands([id], lookup) == CustomerCommands(lookup(id))
  {
    assert [id][..0] == [];
  }

  /** One more row adds that customer's commands and log lines at the end. */
  lemma RunPrefixStep(rows: seq<int>, lookup: int -> CustomerInfo, i: nat)
    requires i < |rows|
    ensures RunCommands(rows[..i + 1], lookup) == RunCommands(rows[..i], lookup) + CustomerCommands(lookup(rows[i]))
    ensures RunLog(rows[..i + 1], lookup) == RunLog(rows[..i], lookup) + CustomerLog(lookup(rows[i]))
  {
    assert rows[..i + 1][..i] == rows[..i];
  }

  /**
   * A customer whose query fails is skipped and the run goes on: the commands
   * are exactly those of the customers before it followed by those after it.
   */
  lemma {:induction false} FailedCustomerIsolated(ids: seq<int>, lookup: int -> CustomerInfo, k: nat)
    requires k < |ids| && lookup(ids[k]).QueryFailed?
    ensures RunCommands(ids, lookup) == RunCommands(ids[..k], lookup) + RunCommands(ids[k + 1..], lookup)
  {
    var before, failed, after := ids[..k], [ids[k]], ids[k + 1..];
    assert ids == before + (failed + after);
    RunCommandsAppend(before, failed + after, lookup);
    RunCommandsAppend(failed, after, lookup);
    RunCommandsSingle(ids[k], lookup);
    assert RunCommands(failed + after, lookup) == RunCommands(after, lookup);
  }

  /**
   * With no jail flag set on any row (the customer query does not select
   * them), a run issues no command at all.
   */
  lemma {:induction false} NoFlagsNoCommands(ids: seq<int>, lookup: int -> CustomerInfo)
    requires forall id :: lookup(id).Row? ==>
      !lookup(id).createJail && !lookup(id).removeJail && !lookup(id).updateJail
    ensures RunCommands(ids, lookup) == []
  {
    if ids != [] {
      NoFlagsNoCommands(ids[..|ids| - 1], lookup);
    }
  }

  /** The cron job, with `FileDir::safe_exec` and the logger replaced by the logs they would write. */
  class Cron {
    var commands: seq<string>
    var log: seq<LogEntry>

    constructor ()
      ensures commands == [] && log == []
    {
      commands := [];
      log := [];
    }

    /** FileDir::safe_exec: the command is issued; its outcome is not looked at. */
    method SafeExec(command: string)
      modifies this
      ensures commands == old(commands) + [command] && log == old(log)
    {
      commands := commands + [command];
    }

    method LogAction(level: Level, message: string)
      modifies this
      ensures log == old(log) + [LogEntry(level, message)] && commands == old(commands)
    {
      log := log + [LogEntry(level, message)];
    }

    method JailCreate(folder: string, username: string)
      modifies this
      ensures commands == old(commands) + CreateCommands(folder, username) && log == old(log)
    {
      SafeExec(CreateCommand(folder, username));
    }

    method JailDelete(folder: string, username: string)
      modifies this
      ensures commands == old(commands) + DeleteCommands(folder, username) && log == old(log)
    {
      SafeExec(UnmountCommand(folder, username));
      SafeExec(RemoveCommand(folder));
    }

    method JailUpdate(folder: string, username: string)
      modifies this
      ensures commands == old(commands) + UpdateCommands(folder, username) && log == old(log)
    {
      JailDelete(folder, username);
      JailCreate(folder, username);
    }

    /** runCustomer: `info` is what the customer query yields for this customer. */
    method RunCustomer(info: CustomerInfo)
      modifies this
      ensures commands == old(commands) + CustomerCommands(info)
      ensures log == old(log) + CustomerLog(info)
    {
      if info.QueryFailed? {
        LogAction(Error, InfoQueryMessage + info.message);
        return;
      }
      var chrootFolder := GetChrootDirectory(info.loginname);
      if info.createJail {
        JailCreate(chrootFolder, info.loginname);
      } else if info.removeJail {
        JailDelete(chrootFolder, info.loginname);
      } else if info.updateJail {
        JailUpdate(chrootFolder, info.loginname);
      }
    }

    /**
     * run: log the start; if the id query fails, log it and stop; otherwise
     * run every customer in row order, each on its own query result.
     */
    method Run(idQuery: IdQuery, lookup: int -> CustomerInfo)
      modifies this
      ensures idQuery.IdQueryFailed? ==> commands == old(commands)
      ensures idQuery.IdQueryFailed? ==>
        log == old(log) + [LogEntry(Info, StartMessage), LogEntry(Error, IdQueryMessage)]
      ensures idQuery.Ids? ==> commands == old(commands) + RunCommands(idQuery.rows, lookup)
      ensures idQuery.Ids? ==> log == old(log) + [LogEntry(Info, StartMessage)] + RunLog(idQuery.rows, lookup)
    {
      LogAction(Info, StartMessage);
      if idQuery.IdQueryFailed? {
        LogAction(Error, IdQueryMessage);
        return;
      }
      var rows := idQuery.rows;
      ghost var commands0 := commands;
      ghost var log0 := log;
      for i := 0 to |rows|
        invariant commands == commands0 + RunCommands(rows[..i], lookup)
        invariant log == log0 + RunLog(rows[..i], lookup)
      {
        var info := lookup(rows[i]);
        RunPrefixStep(rows, lookup, i);
        RunCustomer(info);
        AppendAssociative(commands0, RunCommands(rows[..i], lookup), CustomerCommands(info));
        AppendAssociative(log0, RunLog(rows[..i], lookup), CustomerLog(info));
      }
      assert rows[..|rows|] == rows;
    }
  }
}
