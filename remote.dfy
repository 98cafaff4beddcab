/** An FTP server as the publishers see it: a map from remote path to file
    bytes, a set of directories, and the commands both clients send. Every
    command that can fail takes its failure as a parameter (`fault`), so the
    outcome of a publish run is a function of the faults it meets. The
    transport, TLS and login are not modelled. */
module Remote {
  /** The commands, in the order a session sends them. */
  datatype Command =
    | Connect
    | ChangeDir(dir: string)
    | MakeDir(dir: string)
    | Delete(name: string)
    | Store(name: string)
    | Rename(from: string, to: string)
    | Size(name: string)
    | Exists(name: string)
    | Quit

  /** What the server answers to SIZE: an error, no number, or a number. */
  datatype SizeReply = SizeError | NoSize | SizeIs(n: int)

  class Server {
    /** The files, by the path the client names them with. */
    var files: map<string, seq<bv8>>
    var dirs: set<string>
    /** Every command the client has sent, in order. */
    ghost var sent: seq<Command>

    constructor (files0: map<string, seq<bv8>>, dirs0: set<string>)
      ensures files == files0 && dirs == dirs0 && sent == []
    {
      files := files0;
      dirs := dirs0;
      sent := [];
    }

    /** The control connection, with TLS and login. */
    method Open(fault: bool) returns (ok: bool)
      modifies this
      ensures ok == !fault
      ensures files == old(files) && dirs == old(dirs) && sent == old(sent) + [Connect]
    {
      ok := !fault;
      sent := sent + [Connect];
    }

    /** CWD: fails when the directory does not exist. */
    method ChangeDirectory(dir: string, fault: bool) returns (ok: bool)
      modifies this
      ensures ok == (!fault && dir in old(dirs))
      ensures files == old(files) && dirs == old(dirs) && sent == old(sent) + [ChangeDir(dir)]
    {
      ok := !fault && dir in dirs;
      sent := sent + [ChangeDir(dir)];
    }

    /** MKD: fails when the directory already exists. */
    method MakeDirectory(dir: string, fault: bool) returns (ok: bool)
      modifies this
      ensures ok == (!fault && dir !in old(dirs))
      ensures dirs == if ok then old(dirs) + {dir} else old(dirs)
      ensures files == old(files) && sent == old(sent) + [MakeDir(dir)]
    {
      ok := !fault && dir !in dirs;
      if ok {
        dirs := dirs + {dir};
      }
      sent := sent + [MakeDir(dir)];
    }

    /** A client-side "create the directory and its parents": it fails only
        by a fault, and creating an existing directory is no error. */
    method EnsureDirectory(dir: string, fault: bool) returns (ok: bool)
      modifies this
      ensures ok == !fault
      ensures dirs == if ok then old(dirs) + {dir} else old(dirs)
      ensures files == old(files) && sent == old(sent) + [MakeDir(dir)]
    {
      ok := !fault;
      if ok {
        dirs := dirs + {dir};
      }
      sent := sent + [MakeDir(dir)];
    }

    /** DELE: fails when there is no such file. */
    method DeleteFile(name: string, fault: bool) returns (ok: bool)
      modifies this
      ensures ok == (!fault && name in old(files))
      ensures files == if ok then old(files) - {name} else old(files)
      ensures dirs == old(dirs) && sent == old(sent) + [Delete(name)]
    {
      ok := !fault && name in files;
      if ok {
        files := files - {name};
      }
      sent := sent + [Delete(name)];
    }

    /** STOR: the file is created or replaced with the bytes. A failed
        transfer is modelled as storing nothing. */
    method StoreFile(name: string, data: seq<bv8>, fault: bool) returns (ok: bool)
      modifies this
      ensures ok == !fault
      ensures files == if ok then old(files)[name := data] else old(files)
      ensures dirs == old(dirs) && sent == old(sent) + [Store(name)]
    {
      ok := !fault;
      if ok {
        files := files[name := data];
      }
      sent := sent + [Store(name)];
    }

    /** RNFR/RNTO (section 4.1.3 of RFC 959): fails when the source does
        not exist; the target, if any, is replaced. */
    method RenameFile(from: string, to: string, fault: bool) returns (ok: bool)
      modifies this
      ensures ok == (!fault && from in old(files))
      ensures files == if ok then (old(files) - {from})[to := old(files)[from]] else old(files)
      ensures dirs == old(dirs) && sent == old(sent) + [Rename(from, to)]
    {
      ok := !fault && from in files;
      if ok {
        files := (files - {from})[to := files[from]];
      }
      sent := sent + [Rename(from, to)];
    }

    /** SIZE (section 4 of RFC 3659): the reply is whatever the server
        says, given as `reply`, so a server that misreports can be
        modelled. */
    method FileSize(name: string, reply: SizeReply) returns (r: SizeReply)
      modifies this
      ensures r == reply
      ensures files == old(files) && dirs == old(dirs) && sent == old(sent) + [Size(name)]
    {
      r := reply;
      sent := sent + [Size(name)];
    }

    /** A client-side existence test. */
    method FileExists(name: string, fault: bool) returns (ok: bool, present: bool)
      modifies this
      ensures ok == !fault && present == (name in old(files))
      ensures files == old(files) && dirs == old(dirs) && sent == old(sent) + [Exists(name)]
    {
      ok := !fault;
      present := name in files;
      sent := sent + [Exists(name)];
    }

    /** QUIT, or the client's disconnect. */
    method Close(fault: bool) returns (ok: bool)
      modifies this
      ensures ok == !fault
      ensures files == old(files) && dirs == old(dirs) && sent == old(sent) + [Quit]
    {
      ok := !fault;
      sent := sent + [Quit];
    }
  }
}
