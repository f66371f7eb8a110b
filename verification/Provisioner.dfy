/** One provisioning call from lock to commit, with its file. */
module Provisioner {
  import opened Tables
  import opened Netip
  import opened Provisioning
  import opened Database

  class FileSystem {
    var files: map<Path, string>
    // Whether the disk refuses the next write.
    var failWrite: bool

    constructor (files: map<Path, string>)
      ensures this.files == files && !failWrite
    {
      this.files, failWrite := files, false;
    }

    /** Exclusive creation: an existing file is left alone, and a failed write leaves nothing behind. */
    method WriteExclusive(path: Path, config: string) returns (ok: bool)
      modifies this`files
      ensures ok <==> path !in old(files) && !failWrite
      ensures files == if ok then old(files)[path := config] else old(files)
    {
      if path in files {
        return false;
      }
      files := files[path := ""];
      ok := false;
      if !failWrite {
        files := files[path := config];
        ok := true;
      }
      if !ok {
        files := files - {path};
      }
    }

    method Remove(path: Path)
      modifies this`files
      ensures files == old(files) - {path}
    {
      files := files - {path};
    }
  }

  /** The statements inside the transaction; whether the file was created outlives an error. */
  method InsertNode(db: Store, fs: FileSystem, o: Options, ids: NewIds) returns (ok: bool, created: bool)
    requires MaskedPools(db.rows) && IsMasked(o.cidr)
    modifies db`rows, fs`files
    ensures ok <==> Available(old(db.rows), o) && o.File() !in old(fs.files) && !fs.failWrite
    ensures ok ==> created && db.rows == WithNode(old(db.rows), o, ids)
    ensures created ==> o.File() !in old(fs.files)
    ensures fs.files == if created then old(fs.files)[o.File() := o.config] else old(fs.files)
  {
    if !Available(db.rows, o) {
      return false, false;
    }
    db.rows := db.rows.(profiles := db.rows.profiles[ids.profile := o.profile]);
    db.rows := db.rows.(nodes := db.rows.nodes[ids.node := NewNode(o, ids.profile)]);
    db.rows := db.rows.(pools := db.rows.pools[ids.pool := Pool(o.tenant, ids.node, o.cidr, Invalid)]);
    created := fs.WriteExclusive(o.File(), o.config);
    ok := created;
  }

  /** Either the three rows and the file are there, or nothing has changed. */
  method ProvisionNode(db: Store, fs: FileSystem, o: Options, ids: NewIds, commitFails: bool) returns (ok: bool)
    requires MaskedPools(db.rows) && IsMasked(o.cidr)
    modifies db`rows, fs`files
    ensures ok <==> Available(old(db.rows), o) && o.File() !in old(fs.files) && !fs.failWrite && !commitFails
    ensures ok ==> db.rows == WithNode(old(db.rows), o, ids) && fs.files == old(fs.files)[o.File() := o.config]
    ensures !ok ==> db.rows == old(db.rows) && fs.files == old(fs.files)
  {
    var saved := db.rows;
    var inserted, created := InsertNode(db, fs, o, ids);
    ok := inserted && !commitFails;
    if !ok {
      db.rows := saved;
      if created {
        fs.Remove(o.File());
      }
    }
  }
}
