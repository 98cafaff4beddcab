/** `Main` of both exporters: after the local export, connect, create the
    remote directory, upload to `{dir}/{name}.part`, accept the status
    `Success` or `Skipped`, delete an existing final file, rename the
    temporary to `{dir}/{name}`, and disconnect. Any exception ends the run
    with exit code 1; the explicit `Disconnect` is reached only on the way
    to exit code 0. */
module Publish {
  import opened Wrappers
  import opened Remote
  import opened Paths

  /** The statuses `UploadFile` returns. */
  datatype FtpStatus = Success | Skipped | Failed

  /** Which steps of one run throw, and what `UploadFile` returns (`None`
      when it throws). `local` stands for the local part before the
      connection: the SQL export, and the gzip of the purchases exporter. */
  datatype ClientFaults = ClientFaults(
    local: bool,
    connect: bool,
    createDir: bool,
    upload: Option<FtpStatus>,
    probe: bool,
    delete: bool,
    rename: bool,
    disconnect: bool)

  /** The status check after the upload lets the run go on. */
  predicate Accepted(f: ClientFaults) {
    f.upload == Some(Success) || f.upload == Some(Skipped)
  }

  /** The run reaches the upload: the local export, the connection and
      the directory creation did not throw. */
  predicate Connected(f: ClientFaults) {
    !f.local && !f.connect && !f.createDir
  }

  /** The files after `UploadFile`: only `Success` stores the bytes. */
  function Uploaded(files: map<string, seq<bv8>>, tmp: string, data: seq<bv8>, f: ClientFaults): map<string, seq<bv8>> {
    if f.upload == Some(Success) then files[tmp := data] else files
  }

  /** The files after the steps that follow an accepted upload: the
      final is deleted when it exists, then the temporary, whatever it
      holds, is renamed. */
  function Replaced(up: map<string, seq<bv8>>, tmp: string, final: string, f: ClientFaults): map<string, seq<bv8>> {
    if f.probe || (final in up && f.delete) then up
    else
      var cleared := up - {final};
      if f.rename || tmp !in cleared then cleared
      else (cleared - {tmp})[final := cleared[tmp]]
  }

  /** The files after the steps from the upload on. */
  function Swapped(files: map<string, seq<bv8>>, tmp: string, final: string, data: seq<bv8>,
                   f: ClientFaults): map<string, seq<bv8>> {
    var up := Uploaded(files, tmp, data, f);
    if Accepted(f) then Replaced(up, tmp, final, f) else up
  }

  /** The rename to the final name succeeds. */
  predicate RenameSucceeds(files: map<string, seq<bv8>>, tmp: string, final: string, data: seq<bv8>,
                           f: ClientFaults) {
    var up := Uploaded(files, tmp, data, f);
    Connected(f) && Accepted(f) && !f.probe && !(final in up && f.delete) &&
    !f.rename && tmp in up - {final}
  }

  /** The files after a whole run. */
  function PublishedFiles(files: map<string, seq<bv8>>, tmp: string, final: string, data: seq<bv8>,
                          f: ClientFaults): map<string, seq<bv8>> {
    if Connected(f) then Swapped(files, tmp, final, data, f) else files
  }

  /** The value `Main` returns. */
  function ExitCode(files: map<string, seq<bv8>>, tmp: string, final: string, data: seq<bv8>,
                    f: ClientFaults): int {
    if RenameSucceeds(files, tmp, final, data, f) && !f.disconnect then 0 else 1
  }

  /** The commands sent after an accepted upload. */
  function ReplaceCommands(up: map<string, seq<bv8>>, tmp: string, final: string, f: ClientFaults): seq<Command> {
    var probed := [Exists(final)];
    if f.probe then probed
    else
      var cleared := if final in up then probed + [Delete(final)] else probed;
      if final in up && f.delete then cleared
      else
        var moved := cleared + [Rename(tmp, final)];
        if f.rename || tmp !in up - {final} then moved else moved + [Quit]
  }

  /** The commands sent from the upload on. `Store(tmp)` stands for the
      `UploadFile` call, whatever its status: with `Skipped` (or when it
      throws) no bytes reach the server. */
  function SwapCommands(files: map<string, seq<bv8>>, tmp: string, final: string, data: seq<bv8>,
                        f: ClientFaults): seq<Command> {
    [Store(tmp)] + (if Accepted(f) then ReplaceCommands(Uploaded(files, tmp, data, f), tmp, final, f) else [])
  }

  /** The commands of a whole run; `dir` is the argument of
      `CreateDirectory`. */
  function ClientCommands(files: map<string, seq<bv8>>, dir: string, tmp: string, final: string,
                          data: seq<bv8>, f: ClientFaults): seq<Command> {
    if f.local then []
    else if f.connect then [Connect]
    else if f.createDir then [Connect, MakeDir(dir)]
    else [Connect, MakeDir(dir)] + SwapCommands(files, tmp, final, data, f)
  }

  // ---------------------------------------------------------------------
  // What a run promises
  // ---------------------------------------------------------------------

  /** A run exits with 0 exactly when nothing threw up to the rename, the
      status was accepted, the temporary existed after the upload, and the
      disconnect succeeded. */
  lemma ExitZeroIff(files: map<string, seq<bv8>>, tmp: string, final: string, data: seq<bv8>, f: ClientFaults)
    requires tmp != final
    ensures ExitCode(files, tmp, final, data, f) == 0 <==>
              (!f.local && !f.connect && !f.createDir && Accepted(f) && !f.probe &&
               !(final in files && f.delete) && !f.rename &&
               (f.upload == Some(Success) || tmp in files) && !f.disconnect)
  {
  }

  /** An upload status other than `Success` or `Skipped`, or an upload
      that throws, ends the run with 1 before any rename: the files are
      as before and no RNFR/RNTO is sent. */
  lemma BadStatusNoRename(files: map<string, seq<bv8>>, dir: string, tmp: string, final: string,
                          data: seq<bv8>, f: ClientFaults)
    requires !Accepted(f)
    ensures ExitCode(files, tmp, final, data, f) == 1
    ensures PublishedFiles(files, tmp, final, data, f) == files
    ensures forall c :: c in ClientCommands(files, dir, tmp, final, data, f) ==> !c.Rename?
  {
  }

  /** After a `Success` upload and a successful rename, the final name
      holds the uploaded bytes, no temporary is left, and nothing else
      changed, whether or not the disconnect then throws. */
  lemma SuccessReplaces(files: map<string, seq<bv8>>, tmp: string, final: string, data: seq<bv8>, f: ClientFaults)
    requires tmp != final
    requires RenameSucceeds(files, tmp, final, data, f) && f.upload == Some(Success)
    ensures PublishedFiles(files, tmp, final, data, f) == (files - {tmp})[final := data]
    ensures ExitCode(files, tmp, final, data, f) == 0 <==> !f.disconnect
  {
    var up := files[tmp := data];
    assert (up - {final}) - {tmp} == files - {tmp} - {final};
  }

  /** `Skipped` stores nothing, yet the run carries on: a temporary left
      over from an earlier run is published in place of the new bytes, and
      without one the final file is deleted and the run fails. */
  lemma SkippedPublishesStale(files: map<string, seq<bv8>>, tmp: string, final: string, data: seq<bv8>,
                              f: ClientFaults)
    requires tmp != final
    requires Connected(f) && f.upload == Some(Skipped) && !f.probe && !f.delete && !f.rename
    ensures tmp in files ==>
              PublishedFiles(files, tmp, final, data, f) == (files - {tmp})[final := files[tmp]]
    ensures tmp !in files ==>
              final !in PublishedFiles(files, tmp, final, data, f) &&
              PublishedFiles(files, tmp, final, data, f) == files - {final} &&
              ExitCode(files, tmp, final, data, f) == 1
  {
    if tmp in files {
      assert (files - {final}) - {tmp} == files - {tmp} - {final};
    }
  }

  /** A rename that throws after the final file was deleted leaves no
      final file: the run never guarantees the old or the new bytes under
      the final name. */
  lemma RenameFailureLosesFinal(files: map<string, seq<bv8>>, tmp: string, final: string, data: seq<bv8>,
                                f: ClientFaults)
    requires tmp != final
    requires Connected(f) && Accepted(f) && !f.probe && !f.delete && f.rename
    ensures final !in PublishedFiles(files, tmp, final, data, f)
    ensures ExitCode(files, tmp, final, data, f) == 1
    ensures f.upload == Some(Success) ==>
              tmp in PublishedFiles(files, tmp, final, data, f) &&
              PublishedFiles(files, tmp, final, data, f)[tmp] == data
  {
  }

  /** A failing disconnect changes only the exit code: the files and the
      commands are those of the run where it succeeds. */
  lemma DisconnectOnlyDecidesExit(files: map<string, seq<bv8>>, dir: string, tmp: string, final: string,
                                  data: seq<bv8>, f: ClientFaults)
    ensures var g := f.(disconnect := !f.disconnect);
            PublishedFiles(files, tmp, final, data, f) == PublishedFiles(files, tmp, final, data, g) &&
            ClientCommands(files, dir, tmp, final, data, f) == ClientCommands(files, dir, tmp, final, data, g)
    ensures f.disconnect ==> ExitCode(files, tmp, final, data, f) == 1
  {
  }

  /** Whatever happens, only the temporary and the final names change. */
  lemma OthersUntouched(files: map<string, seq<bv8>>, tmp: string, final: string, data: seq<bv8>, f: ClientFaults)
    ensures var after := PublishedFiles(files, tmp, final, data, f);
            after - {tmp, final} == files - {tmp, final}
  {
  }

  /** `Disconnect` is sent exactly when the rename succeeded, and then
      last. */
  lemma DisconnectAfterRename(files: map<string, seq<bv8>>, dir: string, tmp: string, final: string,
                              data: seq<bv8>, f: ClientFaults)
    ensures var cs := ClientCommands(files, dir, tmp, final, data, f);
            (Quit in cs <==> RenameSucceeds(files, tmp, final, data, f)) &&
            (Quit in cs ==> cs[|cs| - 1] == Quit)
  {
    var cs := ClientCommands(files, dir, tmp, final, data, f);
    if Connected(f) {
      var ss := SwapCommands(files, tmp, final, data, f);
      assert cs == [Connect, MakeDir(dir)] + ss;
      assert Quit in cs <==> Quit in ss;
    }
  }

  // ---------------------------------------------------------------------
  // The run
  // ---------------------------------------------------------------------

  /** From the existence test of the final name to the disconnect, on
      the files `up` the upload left. */
  method Replace(srv: Server, tmp: string, final: string, f: ClientFaults) returns (renamed: bool, closed: bool)
    modifies srv
    ensures renamed == (!f.probe && !(final in old(srv.files) && f.delete) && !f.rename &&
                        tmp in old(srv.files) - {final})
    ensures closed == (renamed && !f.disconnect)
    ensures srv.files == Replaced(old(srv.files), tmp, final, f)
    ensures srv.dirs == old(srv.dirs)
    ensures srv.sent == old(srv.sent) + ReplaceCommands(old(srv.files), tmp, final, f)
  {
    ghost var up, sent0 := srv.files, srv.sent;
    renamed, closed := false, false;
    var ok, present := srv.FileExists(final, f.probe);
    if !ok {
      return;
    }
    ghost var cleared := [Exists(final)];
    if present {
      var deleted := srv.DeleteFile(final, f.delete);
      cleared := [Exists(final)] + [Delete(final)];
      if !deleted {
        return;
      }
    }
    assert srv.files == up - {final};
    assert srv.sent == sent0 + cleared;
    renamed := srv.RenameFile(tmp, final, f.rename);
    if !renamed {
      assert srv.sent == sent0 + (cleared + [Rename(tmp, final)]);
      return;
    }
    closed := srv.Close(f.disconnect);
    assert srv.sent == sent0 + (cleared + [Rename(tmp, final)] + [Quit]);
  }

  /** From the upload to the disconnect. */
  method Swap(srv: Server, tmp: string, final: string, data: seq<bv8>, f: ClientFaults) returns (exit: int)
    requires Connected(f)
    modifies srv
    ensures exit == ExitCode(old(srv.files), tmp, final, data, f)
    ensures srv.files == Swapped(old(srv.files), tmp, final, data, f)
    ensures srv.dirs == old(srv.dirs)
    ensures srv.sent == old(srv.sent) + SwapCommands(old(srv.files), tmp, final, data, f)
  {
    var status := f.upload;
    // The `UploadFile` call: only `Success` stores the bytes; the logged
    // `Store(tmp)` records the call, not a STOR the server carried out.
    var stored := srv.StoreFile(tmp, data, status != Some(Success));
    if status.None? || status == Some(Failed) {
      return 1;
    }
    assert Accepted(f) by {
      assert status.value == Success || status.value == Skipped;
    }
    assert srv.files == Uploaded(old(srv.files), tmp, data, f);
    var renamed, closed := Replace(srv, tmp, final, f);
    exit := if closed then 0 else 1;
  }

  /** The sequence both `Main`s share, with `dir` the argument they give
      `CreateDirectory` and the bytes of the local file as `data`. */
  method PublishFile(srv: Server, dir: string, tmp: string, final: string, data: seq<bv8>, f: ClientFaults)
    returns (exit: int)
    modifies srv
    ensures exit == ExitCode(old(srv.files), tmp, final, data, f)
    ensures srv.files == PublishedFiles(old(srv.files), tmp, final, data, f)
    ensures srv.dirs == if Connected(f) then old(srv.dirs) + {dir} else old(srv.dirs)
    ensures srv.sent == old(srv.sent) + ClientCommands(old(srv.files), dir, tmp, final, data, f)
  {
    if f.local {
      return 1;
    }
    var connected := srv.Open(f.connect);
    if !connected {
      return 1;
    }
    var made := srv.EnsureDirectory(dir, f.createDir);
    if !made {
      return 1;
    }
    exit := Swap(srv, tmp, final, data, f);
  }

  /** `Main` of the inventory exporter: the directory it creates and the
      one its remote paths use are both `TrimSlash(RemoteDir)`. */
  method InventoryMain(srv: Server, remoteDir: string, csvName: string, data: seq<bv8>, f: ClientFaults)
    returns (exit: int)
    modifies srv
    ensures var dir := TrimSlash(Some(remoteDir));
            exit == ExitCode(old(srv.files), TempPath(dir, csvName), FinalPath(dir, csvName), data, f) &&
            srv.files == PublishedFiles(old(srv.files), TempPath(dir, csvName), FinalPath(dir, csvName), data, f)
    ensures srv.dirs == if Connected(f) then old(srv.dirs) + {TrimSlash(Some(remoteDir))} else old(srv.dirs)
    ensures var dir := TrimSlash(Some(remoteDir));
            srv.sent == old(srv.sent) +
              ClientCommands(old(srv.files), dir, TempPath(dir, csvName), FinalPath(dir, csvName), data, f)
  {
    var dir := TrimSlash(Some(remoteDir));
    exit := PublishFile(srv, dir, TempPath(dir, csvName), FinalPath(dir, csvName), data, f);
  }

  /** `Main` of the purchases exporter: the remote paths use
      `TrimSlash(RemoteDir)`, but `CreateDirectory` is given `RemoteDir`
      as configured. */
  method PurchasesMain(srv: Server, remoteDir: string, gzipName: string, data: seq<bv8>, f: ClientFaults)
    returns (exit: int)
    modifies srv
    ensures var dir := TrimSlash(Some(remoteDir));
            exit == ExitCode(old(srv.files), TempPath(dir, gzipName), FinalPath(dir, gzipName), data, f) &&
            srv.files == PublishedFiles(old(srv.files), TempPath(dir, gzipName), FinalPath(dir, gzipName), data, f)
    ensures srv.dirs == if Connected(f) then old(srv.dirs) + {remoteDir} else old(srv.dirs)
    ensures var dir := TrimSlash(Some(remoteDir));
            srv.sent == old(srv.sent) +
              ClientCommands(old(srv.files), remoteDir, TempPath(dir, gzipName), FinalPath(dir, gzipName), data, f)
  {
    var dir := TrimSlash(Some(remoteDir));
    exit := PublishFile(srv, remoteDir, TempPath(dir, gzipName), FinalPath(dir, gzipName), data, f);
  }

  /** Both `Main`s publish under a temporary name distinct from the final
      one, so the lemmas above, which need that, apply to them. */
  lemma MainPathsDistinct(remoteDir: string, name: string)
    ensures var dir := TrimSlash(Some(remoteDir));
            TempPath(dir, name) != FinalPath(dir, name)
  {
    TempNames(TrimSlash(Some(remoteDir)), name, name);
  }
}
