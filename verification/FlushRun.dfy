/** `Io` and `flush::run` as they execute (src/storage/io.rs, src/storage/flush.rs): the recorded log
    of a flush is the operation sequence whose every prefix the durability proof covers. */
module FlushRun {
  import opened Seqs
  import opened Disk
  import opened Crash

  lemma TablesPush(fs: Fs, tables: seq<Table>, i: nat)
    requires i < |tables|
    ensures var t, done := tables[i], WriteOps(fs, tables[..i]);
            WriteOps(fs, tables[..i + 1]) == done + (MkdirOps(ExecAll(fs, done), t.dir) + FileOps(t.dir, t.files))
    ensures Segments(tables[..i + 1]) == Segments(tables[..i]) + FileSegments(tables[i].dir, tables[i].files)
    ensures var dirs := DirsOf(tables[..i]);
            DirsOf(tables[..i + 1]) == if tables[i].dir in dirs then dirs else dirs + [tables[i].dir]
  {
    assert tables[..i + 1][..i] == tables[..i];
  }

  /** The segments of the newest version after a run of flushes. */
  function Flushed(flushes: seq<seq<Table>>): seq<Segment>
  {
    Newest(StoreFrom(New, Flushes(flushes)))
  }

  lemma FlushesPush(flushes: seq<seq<Table>>, j: nat)
    requires j < |flushes|
    ensures var prior, base := LogOf(Flushes(flushes[..j])), Flushed(flushes[..j]);
            && LogOf(Flushes(flushes[..j + 1])) == prior + FlushOps(ExecAll(Empty, prior), flushes[j], j + 1, base)
            && Flushed(flushes[..j + 1]) == base + Segments(flushes[j])
  {
    assert flushes[..j + 1][..j] == flushes[..j];
    FlushesRun(flushes[..j + 1]);
  }

  class Io {
    var fs: Fs
    var log: seq<Op>

    /** The log is what was done to the disk since it was empty. */
    ghost predicate Valid()
      reads this
    {
      fs == ExecAll(Empty, log)
    }

    constructor ()
      ensures Valid() && log == []
    {
      fs, log := Empty, [];
    }

    /** One successful call, recorded after it happened. */
    method Do(op: Op)
      requires Valid()
      modifies this
      ensures Valid() && log == old(log) + [op]
    {
      assert (log + [op])[..|log|] == log;
      fs := Exec(fs, op);
      log := log + [op];
    }

    method DoTwo(x: Op, y: Op)
      requires Valid()
      modifies this
      ensures Valid() && log == old(log) + [x, y]
    {
      Do(x);
      Do(y);
    }

    /** Creates every missing ancestor top-down, syncing each new directory's parent. */
    method CreateDirAll(d: seq<Name>)
      requires Valid()
      modifies this
      ensures Valid() && log == old(log) + MkdirOps(old(fs), d)
    {
      ghost var start := fs;
      var missing: seq<seq<Name>> := [];
      var m := |d|;
      while !IsDir(fs, At(d[..m]))
        invariant 0 <= m <= |d| && |missing| == |d| - m
        invariant Valid() && fs == old(fs) && log == old(log)
        invariant forall i :: 0 <= i < |missing| ==> missing[i] == d[..|d| - i] && !IsDir(start, At(missing[i]))
        decreases m
      {
        missing := missing + [d[..m]];
        m := m - 1;
      }
      var i := |missing|;
      assert MkdirOps(start, d[..m]) == [];
      while i > 0
        invariant 0 <= i <= |missing| && |missing| == |d| - m
        invariant forall k :: 0 <= k < |missing| ==> missing[k] == d[..|d| - k] && !IsDir(start, At(missing[k]))
        invariant Valid() && log == old(log) + MkdirOps(start, d[..|d| - i])
      {
        i := i - 1;
        var dir := missing[i];
        var up := dir[..|dir| - 1];
        assert up == d[..|d| - i - 1];
        assert MkdirOps(start, dir) == MkdirOps(start, up) + [CreateDir(At(dir)), SyncDir(At(up))];
        DoTwo(CreateDir(At(dir)), SyncDir(At(up)));
        Assoc(old(log), MkdirOps(start, up), [CreateDir(At(dir)), SyncDir(At(up))]);
      }
      assert d[..|d|] == d;
    }

    method WriteFiles(dir: seq<Name>, files: seq<Out>)
      requires Valid()
      modifies this
      ensures Valid() && log == old(log) + FileOps(dir, files)
    {
      var i := 0;
      assert files[..0] == [];
      while i < |files|
        invariant 0 <= i <= |files| && Valid() && log == old(log) + FileOps(dir, files[..i])
      {
        var p := SegmentPath(dir, files[i].id);
        assert files[..i + 1][..i] == files[..i];
        DoTwo(Write(p, SegmentFile(files[i].rows)), SyncFile(p));
        Assoc(old(log), FileOps(dir, files[..i]), [Write(p, SegmentFile(files[i].rows)), SyncFile(p)]);
        i := i + 1;
      }
      assert files[..i] == files;
    }

    method WriteTable(t: Table)
      requires Valid()
      modifies this
      ensures Valid() && log == old(log) + (MkdirOps(old(fs), t.dir) + FileOps(t.dir, t.files))
    {
      CreateDirAll(t.dir);
      WriteFiles(t.dir, t.files);
      Assoc(old(log), MkdirOps(old(fs), t.dir), FileOps(t.dir, t.files));
    }

    /** Every table's directory and segment files; what was written, and the distinct directories. */
    method WriteTables(tables: seq<Table>) returns (written: seq<Segment>, dirs: seq<seq<Name>>)
      requires Valid()
      modifies this
      ensures Valid() && log == old(log) + WriteOps(old(fs), tables)
      ensures written == Segments(tables) && dirs == DirsOf(tables)
    {
      ghost var start := fs;
      written, dirs := [], [];
      var i := 0;
      assert tables[..0] == [];
      while i < |tables|
        invariant 0 <= i <= |tables| && Valid() && log == old(log) + WriteOps(start, tables[..i])
        invariant written == Segments(tables[..i]) && dirs == DirsOf(tables[..i])
      {
        var t := tables[i];
        ghost var done := WriteOps(start, tables[..i]);
        TablesPush(start, tables, i);
        ExecAllAppend(Empty, old(log), done);
        ghost var mid := fs;
        WriteTable(t);
        Assoc(old(log), done, MkdirOps(mid, t.dir) + FileOps(t.dir, t.files));
        if t.dir !in dirs { dirs := dirs + [t.dir]; }
        written := written + FileSegments(t.dir, t.files);
        i := i + 1;
      }
      assert tables[..i] == tables;
    }

    method SyncDirs(dirs: seq<seq<Name>>)
      requires Valid()
      modifies this
      ensures Valid() && log == old(log) + SyncOps(dirs)
    {
      var i := 0;
      assert dirs[..0] == [];
      while i < |dirs|
        invariant 0 <= i <= |dirs| && Valid() && log == old(log) + SyncOps(dirs[..i])
      {
        assert dirs[..i + 1][..i] == dirs[..i];
        Do(SyncDir(At(dirs[i])));
        Assoc(old(log), SyncOps(dirs[..i]), [SyncDir(At(dirs[i]))]);
        i := i + 1;
      }
      assert dirs[..i] == dirs;
    }

    /** `Publisher::publish` and the acknowledgement that follows. */
    method Publish(version: nat, segments: seq<Segment>)
      requires Valid()
      modifies this
      ensures Valid() && log == old(log) + CommitOps(version, segments)
    {
      var c := ManifestFile(version, Paths(segments));
      DoTwo(Write(Tmp, c), SyncFile(Tmp));
      DoTwo(Rename(Tmp, Main), SyncDir(Root));
      DoTwo(Link(Main, Versioned(version)), Ack(version));
      Assoc(old(log), TmpOps(version, segments), [Rename(Tmp, Main), SyncDir(Root)]);
      Assoc(old(log), TmpOps(version, segments) + [Rename(Tmp, Main), SyncDir(Root)], [Link(Main, Versioned(version)), Ack(version)]);
      assert TmpOps(version, segments) + [Rename(Tmp, Main), SyncDir(Root)] + [Link(Main, Versioned(version)), Ack(version)] == CommitOps(version, segments);
    }

    /** `flush::run`: segments of every table, the distinct directories, publish, ack. */
    method Flush(tables: seq<Table>, version: nat, base: seq<Segment>)
      requires Valid()
      modifies this
      ensures Valid() && log == old(log) + FlushOps(old(fs), tables, version, base)
    {
      ghost var a := WriteOps(fs, tables);
      var written, dirs := WriteTables(tables);
      SyncDirs(dirs);
      Assoc(old(log), a, SyncOps(dirs));
      Publish(version, base + written);
      Assoc(old(log), a + SyncOps(dirs), CommitOps(version, base + written));
    }
  }

  /** The flusher's loop over a run of flushes records exactly the log that `CrashSafe` covers. */
  method RunFlushes(flushes: seq<seq<Table>>) returns (log: seq<Op>)
    ensures log == LogOf(Flushes(flushes))
  {
    var io := new Io();
    var segments: seq<Segment> := [];
    var j := 0;
    assert flushes[..0] == [];
    while j < |flushes|
      invariant 0 <= j <= |flushes| && fresh(io) && io.Valid() && io.log == LogOf(Flushes(flushes[..j]))
      invariant segments == Flushed(flushes[..j])
    {
      FlushesPush(flushes, j);
      io.Flush(flushes[j], j + 1, segments);
      segments := segments + Segments(flushes[j]);
      j := j + 1;
    }
    assert flushes[..j] == flushes;
    log := io.log;
  }
}
