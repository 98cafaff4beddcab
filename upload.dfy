/** `upload_ftps` of the database builder: publish a local file under a
    remote name through a temporary `.part` name, a best-effort delete of
    the old file, a rename, and a SIZE check, with QUIT on every way out
    once connected. The names are those of the files in the target
    directory. The diagnostic LIST is not modelled. */
module Upload {
  import opened Wrappers
  import opened Remote
  import opened Paths

  /** Which remote steps of one run fail, and what SIZE answers. */
  datatype Faults = Faults(
    connect: bool,
    cwd: bool,
    mkd: bool,
    cwdAgain: bool,
    deleteTemp: bool,
    store: bool,
    deleteFinal: bool,
    rename: bool,
    size: SizeReply,
    deleteBad: bool,
    quit: bool)

  /** The exceptions `upload_ftps` lets out. */
  datatype UploadError =
    | ConnectFailed
    | DirFailed
    | StoreFailed
    | RenameFailed
    | SizeFailed
    | SizeMismatch(remote: Option<int>, local: int)

  /** The session reaches the target directory: a first CWD succeeds, or
      (after an MKD whose failure is ignored) a second one does. */
  predicate ReachesDir(dirs: set<string>, dir: string, f: Faults) {
    !f.connect && ((!f.cwd && dir in dirs) || (!f.cwdAgain && (dir in dirs || !f.mkd)))
  }

  predicate SizeMatches(reply: SizeReply, local: seq<bv8>) {
    reply.SizeIs? && reply.n == |local|
  }

  /** How a run ends, step by step: the first step that raises decides. */
  function Outcome(dirs: set<string>, dir: string, local: seq<bv8>, f: Faults): Result<(), UploadError> {
    if f.connect then Err(ConnectFailed)
    else if !ReachesDir(dirs, dir, f) then Err(DirFailed)
    else if f.store then Err(StoreFailed)
    else if f.rename then Err(RenameFailed)
    else if f.size.SizeError? then Err(SizeFailed)
    else if !SizeMatches(f.size, local) then
      Err(SizeMismatch(if f.size.NoSize? then None else Some(f.size.n), |local|))
    else Ok(())
  }

  /** DELE on a map of files: gone when it succeeds, unchanged otherwise. */
  function Deleted(files: map<string, seq<bv8>>, name: string, fault: bool): map<string, seq<bv8>> {
    if !fault && name in files then files - {name} else files
  }

  /** The files of the target directory after the steps that follow
      reaching it: orphan delete, STOR to the temporary, delete of the
      final, rename, and the delete after a size mismatch. */
  function Published(files: map<string, seq<bv8>>, local: seq<bv8>, remote: string, f: Faults): map<string, seq<bv8>> {
    var tmp := TempName(remote);
    var cleaned := Deleted(files, tmp, f.deleteTemp);
    if f.store then cleaned
    else
      var stored := cleaned[tmp := local];
      var cleared := Deleted(stored, remote, f.deleteFinal);
      if f.rename then cleared
      else
        var renamed := (cleared - {tmp})[remote := cleared[tmp]];
        if f.size.SizeError? || SizeMatches(f.size, local) then renamed
        else Deleted(renamed, remote, f.deleteBad)
  }

  /** The files after a whole run. */
  function FinalFiles(files: map<string, seq<bv8>>, dirs: set<string>, dir: string, local: seq<bv8>,
                      remote: string, f: Faults): map<string, seq<bv8>> {
    if ReachesDir(dirs, dir, f) then Published(files, local, remote, f) else files
  }

  /** The commands sent to reach the target directory. */
  function DirCommands(dirs: set<string>, dir: string, f: Faults): seq<Command> {
    if !f.cwd && dir in dirs then [ChangeDir(dir)] else [ChangeDir(dir), MakeDir(dir), ChangeDir(dir)]
  }

  /** The commands sent inside the target directory. */
  function PlaceCommands(local: seq<bv8>, remote: string, f: Faults): seq<Command> {
    var tmp := TempName(remote);
    var stored := [Delete(tmp), Store(tmp)];
    if f.store then stored
    else
      var swapped := stored + [Delete(remote), Rename(tmp, remote)];
      if f.rename then swapped
      else
        var checked := swapped + [Size(remote)];
        if f.size.SizeError? || SizeMatches(f.size, local) then checked else checked + [Delete(remote)]
  }

  /** The commands of a whole run: after a successful connect, QUIT closes
      the session whatever happened in between. */
  function SessionCommands(dirs: set<string>, dir: string, local: seq<bv8>, remote: string, f: Faults): seq<Command> {
    if f.connect then [Connect]
    else
      [Connect] + DirCommands(dirs, dir, f) +
      (if ReachesDir(dirs, dir, f) then PlaceCommands(local, remote, f) else []) +
      [Quit]
  }

  // ---------------------------------------------------------------------
  // What a run promises
  // ---------------------------------------------------------------------

  /** A run succeeds exactly when the directory is reached, the store and
      the rename succeed and SIZE reports the local size: the failures of
      the three best-effort deletes and of QUIT never decide it. */
  lemma OutcomeOkIff(dirs: set<string>, dir: string, local: seq<bv8>, f: Faults, g: Faults)
    requires g == f.(deleteTemp := g.deleteTemp, deleteFinal := g.deleteFinal, deleteBad := g.deleteBad, quit := g.quit)
    ensures Outcome(dirs, dir, local, f).Ok? <==>
              (ReachesDir(dirs, dir, f) && !f.store && !f.rename && SizeMatches(f.size, local))
    ensures Outcome(dirs, dir, local, f) == Outcome(dirs, dir, local, g)
  {
  }

  /** Whatever happens, only the final and the temporary names change. */
  lemma OthersUntouched(files: map<string, seq<bv8>>, dirs: set<string>, dir: string, local: seq<bv8>,
                        remote: string, f: Faults)
    ensures var after := FinalFiles(files, dirs, dir, local, remote, f);
            after - {remote, TempName(remote)} == files - {remote, TempName(remote)}
  {
  }

  /** On success the final name holds the local bytes and no temporary is
      left; everything else is as before. */
  lemma SuccessPublishes(files: map<string, seq<bv8>>, dirs: set<string>, dir: string, local: seq<bv8>,
                         remote: string, f: Faults)
    requires Outcome(dirs, dir, local, f).Ok?
    ensures FinalFiles(files, dirs, dir, local, remote, f) == (files - {TempName(remote)})[remote := local]
  {
    TempNames("", remote, remote);
  }

  /** A failed rename leaves the upload under the temporary name and no
      final file at all, unless the delete before it failed too: the final
      name is never guaranteed to hold either the old or the new bytes. */
  lemma RenameFailureLosesFinal(files: map<string, seq<bv8>>, dirs: set<string>, dir: string, local: seq<bv8>,
                                remote: string, f: Faults)
    requires Outcome(dirs, dir, local, f) == Err(RenameFailed)
    ensures var after := FinalFiles(files, dirs, dir, local, remote, f);
            TempName(remote) in after && after[TempName(remote)] == local &&
            (remote in after <==> remote in files && f.deleteFinal)
  {
    TempNames("", remote, remote);
  }

  /** A SIZE reply that is missing or differs from the local size ends the
      run with `SizeMismatch`, after the final name has been deleted
      unless that delete failed; no temporary is left. */
  lemma MismatchDeletesFinal(files: map<string, seq<bv8>>, dirs: set<string>, dir: string, local: seq<bv8>,
                             remote: string, f: Faults)
    requires ReachesDir(dirs, dir, f) && !f.store && !f.rename
    requires f.size == NoSize || (f.size.SizeIs? && f.size.n != |local|)
    ensures Outcome(dirs, dir, local, f).Err? && Outcome(dirs, dir, local, f).error.SizeMismatch?
    ensures var after := FinalFiles(files, dirs, dir, local, remote, f);
            TempName(remote) !in after && (remote in after <==> f.deleteBad)
  {
    TempNames("", remote, remote);
  }

  /** Once connected, QUIT is the last command of every run, and it is
      sent exactly once. */
  lemma QuitLast(dirs: set<string>, dir: string, local: seq<bv8>, remote: string, f: Faults)
    ensures var cs := SessionCommands(dirs, dir, local, remote, f);
            (cs[|cs| - 1] == Quit <==> !f.connect) &&
            forall i :: 0 <= i < |cs| - 1 ==> cs[i] != Quit
  {
  }

  /** Every STOR in `cs` is to `tmp`, and every rename is from `tmp` to
      `remote`. */
  ghost predicate Confined(cs: seq<Command>, tmp: string, remote: string) {
    forall i :: 0 <= i < |cs| ==>
      (cs[i].Store? ==> cs[i].name == tmp) && (cs[i].Rename? ==> cs[i].from == tmp && cs[i].to == remote)
  }

  lemma ConfinedAppend(a: seq<Command>, b: seq<Command>, tmp: string, remote: string)
    requires Confined(a, tmp, remote) && Confined(b, tmp, remote)
    ensures Confined(a + b, tmp, remote)
  {
    forall i | 0 <= i < |a + b|
      ensures ((a + b)[i].Store? ==> (a + b)[i].name == tmp) &&
              ((a + b)[i].Rename? ==> (a + b)[i].from == tmp && (a + b)[i].to == remote)
    {
      if i >= |a| {
        assert (a + b)[i] == b[i - |a|];
      }
    }
  }

  /** The only name a run stores to is `remote_name + ".part"`, and every
      rename is from it to `remote_name`. */
  lemma OnlyTempStored(dirs: set<string>, dir: string, local: seq<bv8>, remote: string, f: Faults)
    ensures forall c :: c in SessionCommands(dirs, dir, local, remote, f) && c.Store? ==> c.name == TempName(remote)
    ensures forall c :: c in SessionCommands(dirs, dir, local, remote, f) && c.Rename? ==>
              c.from == TempName(remote) && c.to == remote
  {
    var tmp := TempName(remote);
    var cs := SessionCommands(dirs, dir, local, remote, f);
    if !f.connect {
      var ds := DirCommands(dirs, dir, f);
      var ps := if ReachesDir(dirs, dir, f) then PlaceCommands(local, remote, f) else [];
      assert Confined(ps, tmp, remote);
      ConfinedAppend([Connect], ds, tmp, remote);
      ConfinedAppend([Connect] + ds, ps, tmp, remote);
      ConfinedAppend([Connect] + ds + ps, [Quit], tmp, remote);
    }
    assert Confined(cs, tmp, remote);
  }

  // ---------------------------------------------------------------------
  // The session
  // ---------------------------------------------------------------------

  /** Reaching the target directory: CWD, or MKD (its failure ignored)
      and CWD again. Only the directory set can change: a missing
      directory is created exactly when the MKD succeeds. */
  method EnterDir(srv: Server, dir: string, f: Faults) returns (inDir: bool)
    requires !f.connect
    modifies srv
    ensures inDir == ReachesDir(old(srv.dirs), dir, f)
    ensures srv.files == old(srv.files)
    ensures srv.dirs == if dir !in old(srv.dirs) && !f.mkd then old(srv.dirs) + {dir} else old(srv.dirs)
    ensures srv.sent == old(srv.sent) + DirCommands(old(srv.dirs), dir, f)
  {
    inDir := srv.ChangeDirectory(dir, f.cwd);
    if !inDir {
      var made := srv.MakeDirectory(dir, f.mkd);
      inDir := srv.ChangeDirectory(dir, f.cwdAgain);
    }
  }

  /** Inside the target directory: remove an orphaned temporary, store to
      the temporary name, delete the old final name (best effort), rename,
      and check the size, deleting the final name again on a mismatch. */
  method PlaceFile(srv: Server, ghost dirs: set<string>, dir: string, local: seq<bv8>, remote: string, f: Faults)
    returns (r: Result<(), UploadError>)
    requires ReachesDir(dirs, dir, f)
    modifies srv
    ensures r == Outcome(dirs, dir, local, f)
    ensures srv.files == Published(old(srv.files), local, remote, f)
    ensures srv.dirs == old(srv.dirs)
    ensures srv.sent == old(srv.sent) + PlaceCommands(local, remote, f)
  {
    var tmp := TempName(remote);
    ghost var files0, sent0 := srv.files, srv.sent;
    r := Ok(());
    var cleaned := srv.DeleteFile(tmp, f.deleteTemp);
    ghost var files1 := srv.files;
    assert files1 == Deleted(files0, tmp, f.deleteTemp);
    var stored := srv.StoreFile(tmp, local, f.store);
    ghost var sent2 := srv.sent;
    assert sent2 == sent0 + [Delete(tmp), Store(tmp)];
    if !stored {
      return Err(StoreFailed);
    }
    assert srv.files == files1[tmp := local];
    var deleted := srv.DeleteFile(remote, f.deleteFinal);
    ghost var files3 := srv.files;
    assert files3 == Deleted(files1[tmp := local], remote, f.deleteFinal);
    var renamed := srv.RenameFile(tmp, remote, f.rename);
    ghost var sent4 := srv.sent;
    assert sent4 == sent0 + ([Delete(tmp), Store(tmp)] + [Delete(remote), Rename(tmp, remote)]);
    if !renamed {
      return Err(RenameFailed);
    }
    assert srv.files == (files3 - {tmp})[remote := files3[tmp]];
    var size := srv.FileSize(remote, f.size);
    ghost var checked := [Delete(tmp), Store(tmp)] + [Delete(remote), Rename(tmp, remote)] + [Size(remote)];
    assert srv.sent == sent0 + checked;
    if size.SizeError? {
      r := Err(SizeFailed);
    } else if size.NoSize? || size.n != |local| {
      var removed := srv.DeleteFile(remote, f.deleteBad);
      assert srv.sent == sent0 + (checked + [Delete(remote)]);
      r := Err(SizeMismatch(if size.NoSize? then None else Some(size.n), |local|));
    }
  }

  /** `upload_ftps(local_path, remote_name)` with the local file's bytes:
      it ends as `Outcome` says, leaves the files `FinalFiles` says, sends
      the commands `SessionCommands` says, and creates the directory when
      it was missing and the MKD succeeds. */
  method UploadFtps(srv: Server, dir: string, local: seq<bv8>, remote: string, f: Faults)
    returns (r: Result<(), UploadError>)
    modifies srv
    ensures r == Outcome(old(srv.dirs), dir, local, f)
    ensures srv.files == FinalFiles(old(srv.files), old(srv.dirs), dir, local, remote, f)
    ensures srv.dirs == if !f.connect && dir !in old(srv.dirs) && !f.mkd then old(srv.dirs) + {dir} else old(srv.dirs)
    ensures srv.sent == old(srv.sent) + SessionCommands(old(srv.dirs), dir, local, remote, f)
  {
    var connected := srv.Open(f.connect);
    if !connected {
      return Err(ConnectFailed);
    }
    ghost var dirs0 := old(srv.dirs);
    var inDir := EnterDir(srv, dir, f);
    if !inDir {
      r := Err(DirFailed);
    } else {
      r := PlaceFile(srv, dirs0, dir, local, remote, f);
    }
    var quit := srv.Close(f.quit);
  }
}
