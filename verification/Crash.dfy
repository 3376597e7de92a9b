/** Durability (src/storage/flush.rs, src/storage/manifest/publish.rs, src/storage/io.rs): at whatever
    operation power is lost, in any run of flushes, compactions, migrations, other commits and
    garbage collections, the store reopens on a published manifest at least as new as every
    acknowledgement, with all of its rows. */
module Crash {
  import opened Options
  import opened Disk
  import opened Seqs

  /** A segment file to write: its id and rows. */
  datatype Out = Out(id: nat, rows: seq<Row>)

  /** One table of a flush: its partition directory, and the files the engine made of its batches. */
  datatype Table = Table(dir: seq<Name>, files: seq<Out>)

  /** A segment as a manifest names it. */
  datatype Segment = Segment(path: Path, rows: seq<Row>)

  /** Database, table id, partition. */
  const Depth := 3

  function SegmentPath(dir: seq<Name>, id: nat): Path
  {
    At(dir + [SegmentId(id)])
  }

  // ── The operations of a flush ──────────────────────────────────────────────

  /** `create_dir_all`: top-down, each new directory followed by a sync of its parent. */
  function MkdirOps(fs: Fs, d: seq<Name>): seq<Op>
    decreases |d|
  {
    if IsDir(fs, At(d)) then []
    else MkdirOps(fs, d[..|d| - 1]) + [CreateDir(At(d)), SyncDir(At(d[..|d| - 1]))]
  }

  function FileOps(dir: seq<Name>, files: seq<Out>): seq<Op>
  {
    if files == [] then []
    else
      var f := files[|files| - 1];
      FileOps(dir, files[..|files| - 1]) +
      [Write(SegmentPath(dir, f.id), SegmentFile(f.rows)), SyncFile(SegmentPath(dir, f.id))]
  }

  function WriteOps(fs: Fs, tables: seq<Table>): seq<Op>
  {
    if tables == [] then []
    else
      var t := tables[|tables| - 1];
      var prior := WriteOps(fs, tables[..|tables| - 1]);
      prior + (MkdirOps(ExecAll(fs, prior), t.dir) + FileOps(t.dir, t.files))
  }

  /** The partition directories, each once. */
  function DirsOf(tables: seq<Table>): seq<seq<Name>>
  {
    if tables == [] then []
    else
      var prior := DirsOf(tables[..|tables| - 1]);
      if tables[|tables| - 1].dir in prior then prior else prior + [tables[|tables| - 1].dir]
  }

  function SyncOps(dirs: seq<seq<Name>>): seq<Op>
  {
    if dirs == [] then [] else SyncOps(dirs[..|dirs| - 1]) + [SyncDir(At(dirs[|dirs| - 1]))]
  }

  function Segments(tables: seq<Table>): seq<Segment>
  {
    if tables == [] then []
    else
      var t := tables[|tables| - 1];
      Segments(tables[..|tables| - 1]) + FileSegments(t.dir, t.files)
  }

  function FileSegments(dir: seq<Name>, files: seq<Out>): seq<Segment>
  {
    seq(|files|, i requires 0 <= i < |files| => Segment(SegmentPath(dir, files[i].id), files[i].rows))
  }

  function Paths(segments: seq<Segment>): seq<Path>
  {
    seq(|segments|, i requires 0 <= i < |segments| => segments[i].path)
  }

  function PathSet(segments: seq<Segment>): set<Path>
  {
    set i | 0 <= i < |segments| :: segments[i].path
  }

  /** The operations before a manifest names the new segments. */
  function SegmentOps(fs: Fs, tables: seq<Table>): seq<Op>
  {
    WriteOps(fs, tables) + SyncOps(DirsOf(tables))
  }

  /** `publish`, and the answer to whoever asked for the commit. */
  function CommitOps(version: nat, segments: seq<Segment>): seq<Op>
  {
    TmpOps(version, segments) + PublishOps(version)
  }

  function TmpOps(version: nat, segments: seq<Segment>): seq<Op>
  {
    [Write(Tmp, ManifestFile(version, Paths(segments))), SyncFile(Tmp)]
  }

  function PublishOps(version: nat): seq<Op>
  {
    [Rename(Tmp, Main), SyncDir(Root), Link(Main, Versioned(version)), Ack(version)]
  }

  /** `flush::run`: segments, directories, then `publish`, then the acknowledgement. */
  function FlushOps(fs: Fs, tables: seq<Table>, version: nat, base: seq<Segment>): seq<Op>
  {
    SegmentOps(fs, tables) + CommitOps(version, base + Segments(tables))
  }

  // ── Shape of the store's directory ─────────────────────────────────────────

  predicate DirOk(d: seq<Name>)
  {
    |d| == Depth && forall i :: 0 <= i < |d| ==> d[i].Named?
  }

  /** Directories are at most `Depth` deep, files lie just below; segment ids stay under `bound`. */
  ghost predicate Shape(fs: Fs, bound: nat)
  {
    && Numbered(fs) && At([]) !in fs.view
    && (forall p :: p in fs.view && p.At? ==> (fs.view[p].Dir? <==> |p.names| <= Depth))
    && (forall p :: p in fs.view && p.At? && |p.names| > Depth ==>
          p.names[|p.names| - 1].SegmentId? && p.names[|p.names| - 1].id < bound)
    && (forall p :: p in fs.view && fs.view[p].Dir? ==> p.At? && DurableDir(fs, p))
  }

  /** Ids rise from `from` on, and end below the result. */
  function NextId(files: seq<Out>, from: nat): (r: int)
  {
    if files == [] then from
    else
      var prior := NextId(files[..|files| - 1], from);
      if prior >= 0 && files[|files| - 1].id >= prior then files[|files| - 1].id + 1 else -1
  }

  function NextIdAll(tables: seq<Table>, from: nat): int
  {
    if tables == [] then from
    else
      var prior := NextIdAll(tables[..|tables| - 1], from);
      if prior >= 0 then NextId(tables[|tables| - 1].files, prior) else -1
  }

  /** A flush the store may run: fresh, rising ids and partition directories. */
  ghost predicate FlushOk(tables: seq<Table>, from: nat)
  {
    NextIdAll(tables, from) >= 0 && forall i :: 0 <= i < |tables| ==> DirOk(tables[i].dir)
  }

  // ── Directories ────────────────────────────────────────────────────────────

  /** Operations that only add, and leave the directory in shape. */
  ghost predicate Good(fs: Fs, ops: seq<Op>, bound: nat)
  {
    QuietAll(fs, ops) && Shape(ExecAll(fs, ops), bound)
  }

  lemma GoodAppend(fs: Fs, a: seq<Op>, b: seq<Op>, x: nat, y: nat)
    requires Numbered(fs) && Good(fs, a, x) && Good(ExecAll(fs, a), b, y)
    ensures Good(fs, a + b, y) && ExecAll(fs, a + b) == ExecAll(ExecAll(fs, a), b)
    ensures Extends(ExecAll(fs, a), ExecAll(fs, a + b))
  {
    QuietAllAppend(fs, a, b);
    ExecAllAppend(fs, a, b);
    QuietWhole(ExecAll(fs, a), b);
  }

  lemma TwoOps(fs: Fs, x: Op, y: Op)
    ensures ExecAll(fs, [x, y]) == Exec(Exec(fs, x), y)
    ensures QuietAll(fs, [x, y]) <==> Quiet(fs, x) && Quiet(Exec(fs, x), y)
  {
    var ops := [x, y];
    assert ops[..0] == [] && ops[..1] == [x] && [x][..0] == [];
    assert ExecAll(fs, ops[..0]) == fs && ExecAll(fs, ops[..1]) == Exec(fs, x);
    assert QuietAll(fs, ops) ==> Quiet(ExecAll(fs, ops[..0]), ops[0]) && Quiet(ExecAll(fs, ops[..1]), ops[1]);
  }

  /** Quiet operations that add no directory keep every directory durable. */
  lemma DirsStayDurable(a: Fs, b: Fs, bound: nat, p: Path)
    requires Shape(a, bound) && Extends(a, b) && p in a.view && a.view[p].Dir?
    ensures p.At? && DurableDir(b, p)
  {
    ExtendsKeepsDir(a, b, p);
  }

  /** A directory made and its parent synced is durable when the parent is. */
  lemma NewDirDurable(fs: Fs, bound: nat, d: seq<Name>)
    requires Shape(fs, bound) && 0 < |d| <= Depth && At(d) !in fs.view && IsDir(fs, At(d[..|d| - 1]))
    ensures var ops := [CreateDir(At(d)), SyncDir(At(d[..|d| - 1]))];
            && Good(fs, ops, bound) && IsDir(ExecAll(fs, ops), At(d))
            && ExecAll(fs, ops).view == fs.view[At(d) := Dir]
  {
    var up := At(d[..|d| - 1]);
    var ops := [CreateDir(At(d)), SyncDir(up)];
    TwoOps(fs, ops[0], ops[1]);
    QuietWhole(fs, ops);
    var end := ExecAll(fs, ops);
    assert end.view == fs.view[At(d) := Dir];
    assert DurableDir(end, up) by { ExtendsKeepsDir(fs, end, up); }
    assert Possible(end, At(d)) == {Some(Dir)};
    forall p | p in end.view && end.view[p].Dir? ensures p.At? && DurableDir(end, p) {
      if p != At(d) { DirsStayDurable(fs, end, bound, p); }
    }
  }

  lemma {:induction false} MkdirGood(fs: Fs, bound: nat, d: seq<Name>)
    requires Shape(fs, bound) && |d| <= Depth
    ensures var ops := MkdirOps(fs, d);
            Good(fs, ops, bound) && IsDir(ExecAll(fs, ops), At(d))
    ensures forall p :: p in ExecAll(fs, MkdirOps(fs, d)).view && p !in fs.view ==> p.At? && |p.names| <= |d|
    decreases |d|
  {
    if !IsDir(fs, At(d)) {
      var up := d[..|d| - 1];
      MkdirGood(fs, bound, up);
      var a, b := MkdirOps(fs, up), [CreateDir(At(d)), SyncDir(At(up))];
      var mid := ExecAll(fs, a);
      assert At(d) !in mid.view;
      NewDirDurable(mid, bound, d);
      GoodAppend(fs, a, b, bound, bound);
    }
  }

  // ── Segment files ──────────────────────────────────────────────────────────

  lemma NewFileSynced(fs: Fs, bound: nat, dir: seq<Name>, f: Out)
    requires Shape(fs, bound) && DirOk(dir) && f.id >= bound
    ensures var p := SegmentPath(dir, f.id);
            var ops := [Write(p, SegmentFile(f.rows)), SyncFile(p)];
            && Good(fs, ops, f.id + 1)
            && SyncedFile(ExecAll(fs, ops), p, SegmentFile(f.rows))
  {
    var p := SegmentPath(dir, f.id);
    var ops := [Write(p, SegmentFile(f.rows)), SyncFile(p)];
    assert p.names[|p.names| - 1] == SegmentId(f.id) && p !in fs.view;
    TwoOps(fs, ops[0], ops[1]);
    QuietWhole(fs, ops);
    var end := ExecAll(fs, ops);
    assert end.view == fs.view[p := File(fs.next)];
    forall q | q in end.view && end.view[q].Dir? ensures q.At? && DurableDir(end, q) {
      DirsStayDurable(fs, end, bound, q);
    }
  }

  ghost predicate AllSynced(fs: Fs, segments: seq<Segment>)
  {
    forall i :: 0 <= i < |segments| ==> SyncedFile(fs, segments[i].path, SegmentFile(segments[i].rows))
  }

  lemma SyncedStays(a: Fs, b: Fs, segments: seq<Segment>)
    requires Extends(a, b) && AllSynced(a, segments)
    ensures AllSynced(b, segments)
  {
    forall i | 0 <= i < |segments| ensures SyncedFile(b, segments[i].path, SegmentFile(segments[i].rows)) {
      ExtendsKeepsFile(a, b, segments[i].path, SegmentFile(segments[i].rows));
    }
  }

  lemma SyncedConcat(fs: Fs, a: seq<Segment>, b: seq<Segment>)
    requires AllSynced(fs, a) && AllSynced(fs, b)
    ensures AllSynced(fs, a + b)
  {
  }

  lemma OneSynced(fs: Fs, s: Segment)
    requires SyncedFile(fs, s.path, SegmentFile(s.rows))
    ensures AllSynced(fs, [s])
  {
  }

  lemma FileSegmentsPush(dir: seq<Name>, files: seq<Out>)
    requires files != []
    ensures var f := files[|files| - 1];
            FileSegments(dir, files) == FileSegments(dir, files[..|files| - 1]) + [Segment(SegmentPath(dir, f.id), f.rows)]
  {
  }

  lemma {:induction false} FilesGood(fs: Fs, bound: nat, dir: seq<Name>, files: seq<Out>)
    requires Shape(fs, bound) && DirOk(dir) && NextId(files, bound) >= 0
    ensures var end := ExecAll(fs, FileOps(dir, files));
            && Good(fs, FileOps(dir, files), NextId(files, bound))
            && AllSynced(end, FileSegments(dir, files))
    decreases |files|
  {
    if files != [] {
      var n := |files| - 1;
      var f, a := files[n], FileOps(dir, files[..n]);
      var p := SegmentPath(dir, f.id);
      var b := [Write(p, SegmentFile(f.rows)), SyncFile(p)];
      FilesGood(fs, bound, dir, files[..n]);
      var mid := ExecAll(fs, a);
      NewFileSynced(mid, NextId(files[..n], bound), dir, f);
      GoodAppend(fs, a, b, NextId(files[..n], bound), f.id + 1);
      SyncedStays(mid, ExecAll(mid, b), FileSegments(dir, files[..n]));
      FileSegmentsPush(dir, files);
      OneSynced(ExecAll(mid, b), Segment(p, f.rows));
      SyncedConcat(ExecAll(mid, b), FileSegments(dir, files[..n]), [Segment(p, f.rows)]);
    }
  }

  lemma QuietWhole(fs: Fs, ops: seq<Op>)
    requires Numbered(fs) && QuietAll(fs, ops)
    ensures Numbered(ExecAll(fs, ops)) && Extends(fs, ExecAll(fs, ops))
  {
    assert ops[..|ops|] == ops;
    QuietPrefix(fs, ops, |ops|);
  }

  lemma TableGood(fs: Fs, bound: nat, t: Table)
    requires Shape(fs, bound) && DirOk(t.dir) && NextId(t.files, bound) >= 0
    ensures var ops := MkdirOps(fs, t.dir) + FileOps(t.dir, t.files);
            && Good(fs, ops, NextId(t.files, bound))
            && AllSynced(ExecAll(fs, ops), FileSegments(t.dir, t.files))
            && DurableDir(ExecAll(fs, ops), At(t.dir))
  {
    var a, b := MkdirOps(fs, t.dir), FileOps(t.dir, t.files);
    MkdirGood(fs, bound, t.dir);
    var mid := ExecAll(fs, a);
    FilesGood(mid, bound, t.dir, t.files);
    GoodAppend(fs, a, b, bound, NextId(t.files, bound));
    ExtendsKeepsDir(mid, ExecAll(mid, b), At(t.dir));
  }

  ghost predicate DirsDurable(fs: Fs, tables: seq<Table>)
  {
    forall i :: 0 <= i < |tables| ==> DurableDir(fs, At(tables[i].dir))
  }

  lemma {:induction false} WritesGood(fs: Fs, from: nat, tables: seq<Table>)
    requires Shape(fs, from) && FlushOk(tables, from)
    ensures var end := ExecAll(fs, WriteOps(fs, tables));
            && Good(fs, WriteOps(fs, tables), NextIdAll(tables, from))
            && AllSynced(end, Segments(tables)) && DirsDurable(end, tables)
    decreases |tables|
  {
    if tables != [] {
      var n := |tables| - 1;
      var t, a := tables[n], WriteOps(fs, tables[..n]);
      WritesGood(fs, from, tables[..n]);
      var mid := ExecAll(fs, a);
      var b := MkdirOps(mid, t.dir) + FileOps(t.dir, t.files);
      TableGood(mid, NextIdAll(tables[..n], from), t);
      GoodAppend(fs, a, b, NextIdAll(tables[..n], from), NextIdAll(tables, from));
      TableAdds(mid, ExecAll(mid, b), tables);
    }
  }

  lemma TableAdds(mid: Fs, end: Fs, tables: seq<Table>)
    requires tables != [] && Extends(mid, end)
    requires AllSynced(mid, Segments(tables[..|tables| - 1])) && DirsDurable(mid, tables[..|tables| - 1])
    requires var t := tables[|tables| - 1]; AllSynced(end, FileSegments(t.dir, t.files)) && DurableDir(end, At(t.dir))
    ensures AllSynced(end, Segments(tables)) && DirsDurable(end, tables)
  {
    var n := |tables| - 1;
    SyncedStays(mid, end, Segments(tables[..n]));
    SyncedConcat(end, Segments(tables[..n]), FileSegments(tables[n].dir, tables[n].files));
    DirsAdd(mid, end, tables);
  }

  lemma DirsAdd(mid: Fs, end: Fs, tables: seq<Table>)
    requires tables != [] && Extends(mid, end)
    requires DirsDurable(mid, tables[..|tables| - 1]) && DurableDir(end, At(tables[|tables| - 1].dir))
    ensures DirsDurable(end, tables)
  {
    var prior := tables[..|tables| - 1];
    forall i | 0 <= i < |tables| ensures DurableDir(end, At(tables[i].dir)) {
      if i < |prior| { ExtendsKeepsDir(mid, end, At(prior[i].dir)); }
    }
  }

  // ── Directory syncs ────────────────────────────────────────────────────────

  lemma {:induction false} DirsCover(tables: seq<Table>, i: nat)
    requires i < |tables|
    ensures tables[i].dir in DirsOf(tables)
  {
    if i < |tables| - 1 {
      assert tables[..|tables| - 1][i] == tables[i];
      DirsCover(tables[..|tables| - 1], i);
    }
  }

  lemma {:induction false} SyncsGood(fs: Fs, dirs: seq<seq<Name>>)
    requires Numbered(fs)
    ensures QuietAll(fs, SyncOps(dirs))
    ensures var end := ExecAll(fs, SyncOps(dirs));
            && end.view == fs.view && end.data == fs.data && end.synced == fs.synced && end.next == fs.next
            && forall p :: Parent(p).At? && Parent(p).names in dirs ==> Possible(end, p) == {Seen(end, p)}
  {
    if dirs != [] {
      var n := |dirs| - 1;
      SyncsGood(fs, dirs[..n]);
      var a, b := SyncOps(dirs[..n]), [SyncDir(At(dirs[n]))];
      var mid := ExecAll(fs, a);
      assert b[..0] == [];
      QuietAllAppend(fs, a, b);
      ExecAllAppend(fs, a, b);
      var end := ExecAll(fs, SyncOps(dirs));
      assert end == Exec(mid, b[0]);
      forall p | Parent(p).At? && Parent(p).names in dirs ensures Possible(end, p) == {Seen(end, p)} {
        if Parent(p).names in dirs[..n] {
          assert Possible(mid, p) == {Seen(mid, p)};
          assert Possible(end, p) <= Possible(mid, p);
        } else {
          assert Parent(p) == At(dirs[n]);
          assert p !in end.stale;
        }
      }
    }
  }

  ghost predicate AllDurable(fs: Fs, segments: seq<Segment>)
  {
    forall i :: 0 <= i < |segments| ==>
      segments[i].path.At? && DurableFile(fs, segments[i].path, SegmentFile(segments[i].rows))
  }

  lemma DurableStays(a: Fs, b: Fs, segments: seq<Segment>)
    requires Extends(a, b) && AllDurable(a, segments)
    ensures AllDurable(b, segments)
  {
    forall i | 0 <= i < |segments| ensures DurableFile(b, segments[i].path, SegmentFile(segments[i].rows)) {
      ExtendsKeepsFile(a, b, segments[i].path, SegmentFile(segments[i].rows));
    }
  }

  lemma {:induction false} SegmentOwner(tables: seq<Table>, i: nat) returns (k: nat)
    requires i < |Segments(tables)|
    ensures k < |tables| && Segments(tables)[i].path.At? && Parent(Segments(tables)[i].path) == At(tables[k].dir)
  {
    var n := |tables| - 1;
    var t := tables[n];
    var prior := Segments(tables[..n]);
    if i < |prior| {
      k := SegmentOwner(tables[..n], i);
      assert Segments(tables)[i] == prior[i];
    } else {
      k := n;
      var j := i - |prior|;
      assert Segments(tables)[i] == Segment(SegmentPath(t.dir, t.files[j].id), t.files[j].rows);
      assert (t.dir + [SegmentId(t.files[j].id)])[..|t.dir|] == t.dir;
    }
  }

  lemma SyncsShape(fs: Fs, bound: nat, dirs: seq<seq<Name>>)
    requires Shape(fs, bound)
    ensures Shape(ExecAll(fs, SyncOps(dirs)), bound)
  {
    SyncsGood(fs, dirs);
    QuietWhole(fs, SyncOps(dirs));
    var end := ExecAll(fs, SyncOps(dirs));
    forall p | p in end.view && end.view[p].Dir? ensures p.At? && DurableDir(end, p) {
      ExtendsKeepsDir(fs, end, p);
    }
  }

  /** Once the directories are synced every new segment is durable, before any manifest names it. */
  lemma SegmentsDurable(fs: Fs, from: nat, tables: seq<Table>)
    requires Shape(fs, from) && FlushOk(tables, from)
    ensures var ops := WriteOps(fs, tables) + SyncOps(DirsOf(tables));
            && Good(fs, ops, NextIdAll(tables, from))
            && AllDurable(ExecAll(fs, ops), Segments(tables))
  {
    var a, b := WriteOps(fs, tables), SyncOps(DirsOf(tables));
    WritesGood(fs, from, tables);
    var mid := ExecAll(fs, a);
    SyncsGood(mid, DirsOf(tables));
    SyncsShape(mid, NextIdAll(tables, from), DirsOf(tables));
    GoodAppend(fs, a, b, NextIdAll(tables, from), NextIdAll(tables, from));
    var end := ExecAll(mid, b);
    forall i | 0 <= i < |Segments(tables)|
      ensures Segments(tables)[i].path.At? && DurableFile(end, Segments(tables)[i].path, SegmentFile(Segments(tables)[i].rows))
    {
      var s := Segments(tables)[i];
      var k := SegmentOwner(tables, i);
      DirsCover(tables, k);
      ExtendsKeepsFile(mid, end, s.path, SegmentFile(s.rows));
      ExtendsKeepsDir(mid, end, At(tables[k].dir));
    }
  }

  // ── What a crash may find ──────────────────────────────────────────────────

  /** `history[v]` are the segments of manifest version `v`; version 0 is the missing manifest. */
  type History = seq<seq<Segment>>

  /** The manifest name bound to `b` is version `v`, synced, and all its segments are durable. */
  ghost predicate Holds(fs: Fs, history: History, b: Option<Node>, v: nat)
  {
    && v < |history| && AllDurable(fs, history[v])
    && (b.None? ==> v == 0 && history[0] == [])
    && (b.Some? ==> b.value.File? && b.value.inode in fs.synced && b.value.inode in fs.data
                    && fs.data[b.value.inode] == ManifestFile(v, Paths(history[v])))
  }

  /** Whatever the manifest's name turns out to be, it is a version no older than the last ack. */
  ghost predicate Recoverable(fs: Fs, history: History)
  {
    forall b :: b in Possible(fs, Main) ==> exists v :: fs.acked <= v && Holds(fs, history, b, v)
  }

  /** A temporary manifest left by an earlier run has no other name: writing over it in place
      harms neither the manifest nor a segment. */
  ghost predicate Unshared(fs: Fs)
  {
    Tmp in fs.view ==>
      && fs.view[Tmp].File? && Some(fs.view[Tmp]) !in Possible(fs, Main)
      && forall p :: p in fs.view && p.At? ==> fs.view[p] != fs.view[Tmp]
  }

  /** Between flushes: the newest version is published, durable and acknowledged. */
  ghost predicate Ready(fs: Fs, history: History, bound: nat)
  {
    && Shape(fs, bound) && Unshared(fs) && history != [] && history[0] == []
    && fs.acked == |history| - 1
    && Possible(fs, Main) == {Seen(fs, Main)} && Holds(fs, history, Seen(fs, Main), |history| - 1)
  }

  lemma HoldsStays(a: Fs, b: Fs, history: History, longer: History, node: Option<Node>, v: nat)
    requires Extends(a, b) && Holds(a, history, node, v) && history <= longer
    ensures Holds(b, longer, node, v)
  {
    DurableStays(a, b, history[v]);
    assert longer[v] == history[v] && longer[0] == history[0];
  }

  lemma RecoverableStays(a: Fs, b: Fs, history: History, longer: History)
    requires Extends(a, b) && Recoverable(a, history) && history <= longer
    ensures Recoverable(b, longer)
  {
    forall node | node in Possible(b, Main) ensures exists v :: b.acked <= v && Holds(b, longer, node, v) {
      assert node in Possible(a, Main);
      var v :| a.acked <= v && Holds(a, history, node, v);
      HoldsStays(a, b, history, longer, node, v);
    }
  }

  lemma ReadyIsRecoverable(fs: Fs, history: History, bound: nat)
    requires Ready(fs, history, bound)
    ensures Recoverable(fs, history)
  {
    forall b | b in Possible(fs, Main) ensures exists v :: fs.acked <= v && Holds(fs, history, b, v) {
      assert b == Seen(fs, Main);
      assert Holds(fs, history, b, |history| - 1);
    }
  }

  // ── Publishing ─────────────────────────────────────────────────────────────

  /** The new manifest sits synced in the temporary file, and what it names is durable. */
  ghost predicate Prepared(fs: Fs, history: History, next: seq<Segment>, bound: nat)
  {
    && Shape(fs, bound) && history != [] && history[0] == [] && fs.acked == |history| - 1
    && Recoverable(fs, history) && AllDurable(fs, next)
    && SyncedFile(fs, Tmp, ManifestFile(|history|, Paths(next)))
  }

  /** Names alone decide which directories are durable. */
  lemma {:induction false} SameNamesDir(a: Fs, b: Fs, p: Path)
    requires a.view == b.view && a.stale == b.stale && DurableDir(a, p)
    ensures DurableDir(b, p)
    decreases if p.At? then |p.names| else 1
  {
    if p != Root { SameNamesDir(a, b, Parent(p)); }
  }

  /** Truncating the old temporary file and writing it anew. */
  function Truncated(fs: Fs, c: Content): Fs
    requires Tmp in fs.view && fs.view[Tmp].File?
  {
    fs.(data := fs.data[fs.view[Tmp].inode := c], synced := fs.synced - {fs.view[Tmp].inode})
  }

  lemma TruncatedDurable(fs: Fs, c: Content, segments: seq<Segment>)
    requires Unshared(fs) && Tmp in fs.view && AllDurable(fs, segments)
    ensures AllDurable(Truncated(fs, c), segments)
  {
    var t := Truncated(fs, c);
    forall i | 0 <= i < |segments| ensures DurableFile(t, segments[i].path, SegmentFile(segments[i].rows)) {
      var p := segments[i].path;
      assert fs.view[p] != fs.view[Tmp];
      SameNamesDir(fs, t, Parent(p));
    }
  }

  lemma TruncatedRecoverable(fs: Fs, c: Content, history: History)
    requires Unshared(fs) && Tmp in fs.view && Recoverable(fs, history)
    ensures Recoverable(Truncated(fs, c), history)
  {
    var t := Truncated(fs, c);
    forall b | b in Possible(t, Main) ensures exists v :: t.acked <= v && Holds(t, history, b, v) {
      assert b in Possible(fs, Main);
      var v :| fs.acked <= v && Holds(fs, history, b, v);
      TruncatedDurable(fs, c, history[v]);
      assert Holds(t, history, b, v);
    }
  }

  lemma TruncatedShape(fs: Fs, c: Content, bound: nat)
    requires Shape(fs, bound) && Tmp in fs.view && fs.view[Tmp].File?
    ensures Shape(Truncated(fs, c), bound)
  {
    forall p | p in fs.view && fs.view[p].Dir? ensures p.At? && DurableDir(Truncated(fs, c), p) {
      SameNamesDir(fs, Truncated(fs, c), p);
    }
  }

  /** A new temporary file. */
  lemma NewTmp(fs: Fs, bound: nat, c: Content)
    requires Shape(fs, bound) && Tmp !in fs.view
    ensures var b := Exec(fs, Write(Tmp, c)); Numbered(b) && Extends(fs, b) && Shape(b, bound)
  {
    NumberedKept(fs, Write(Tmp, c));
    QuietExtends(fs, Write(Tmp, c));
    var b := Exec(fs, Write(Tmp, c));
    assert b.view == fs.view[Tmp := File(fs.next)];
    forall q | q in b.view && b.view[q].Dir? ensures q.At? && DurableDir(b, q) {
      DirsStayDurable(fs, b, bound, q);
    }
  }

  /** What a preparation keeps safe at every point: the old versions and the new segments. */
  ghost predicate Keeps(fs: Fs, history: History, segments: seq<Segment>, bound: nat)
  {
    Shape(fs, bound) && Recoverable(fs, history) && AllDurable(fs, segments)
  }

  lemma TmpWrite(fs: Fs, bound: nat, history: History, segments: seq<Segment>, c: Content)
    requires Keeps(fs, history, segments, bound) && Unshared(fs)
    ensures var b := Exec(fs, Write(Tmp, c));
            && Keeps(b, history, segments, bound) && b.acked == fs.acked
            && Tmp in b.view && b.view[Tmp].File? && b.view[Tmp].inode in b.data && b.data[b.view[Tmp].inode] == c
  {
    if Tmp in fs.view {
      TruncatedDurable(fs, c, segments);
      TruncatedRecoverable(fs, c, history);
      TruncatedShape(fs, c, bound);
    } else {
      NewTmp(fs, bound, c);
      var b := Exec(fs, Write(Tmp, c));
      RecoverableStays(fs, b, history, history);
      DurableStays(fs, b, segments);
    }
  }

  lemma TmpSync(fs: Fs, bound: nat, history: History, segments: seq<Segment>, c: Content)
    requires Keeps(fs, history, segments, bound)
    requires Tmp in fs.view && fs.view[Tmp].File? && fs.view[Tmp].inode in fs.data && fs.data[fs.view[Tmp].inode] == c
    ensures var b := Exec(fs, SyncFile(Tmp));
            Keeps(b, history, segments, bound) && b.acked == fs.acked && SyncedFile(b, Tmp, c)
  {
    var b := Exec(fs, SyncFile(Tmp));
    QuietExtends(fs, SyncFile(Tmp));
    NumberedKept(fs, SyncFile(Tmp));
    RecoverableStays(fs, b, history, history);
    DurableStays(fs, b, segments);
    forall q | q in b.view && b.view[q].Dir? ensures q.At? && DurableDir(b, q) { DirsStayDurable(fs, b, bound, q); }
  }

  lemma DurableConcat(fs: Fs, a: seq<Segment>, b: seq<Segment>)
    requires AllDurable(fs, a) && AllDurable(fs, b)
    ensures AllDurable(fs, a + b)
  {
  }

  /** Only names below the root are bound. */
  predicate Below(ops: seq<Op>)
  {
    forall i :: 0 <= i < |ops| ==>
      !ops[i].Rename? && !ops[i].Link? && (ops[i].Write? ==> ops[i].p.At?) && (ops[i].CreateDir? ==> ops[i].p.At?)
  }

  lemma UnsharedStep(fs: Fs, op: Op)
    requires Numbered(fs) && Unshared(fs) && Quiet(fs, op) && Below([op])
    ensures Unshared(Exec(fs, op))
  {
    assert Below([op]) ==> !([op][0]).Rename? && !([op][0]).Link? && (([op][0]).Write? ==> ([op][0]).p.At?) && (([op][0]).CreateDir? ==> ([op][0]).p.At?);
    var t := Exec(fs, op);
    assert Possible(t, Main) <= Possible(fs, Main);
  }

  lemma {:induction false} UnsharedStays(fs: Fs, ops: seq<Op>, k: nat)
    requires Numbered(fs) && Unshared(fs) && QuietAll(fs, ops) && Below(ops) && k <= |ops|
    ensures Unshared(ExecAll(fs, ops[..k]))
    decreases k
  {
    if k == 0 {
      assert ops[..0] == [];
    } else {
      UnsharedStays(fs, ops, k - 1);
      QuietPrefix(fs, ops, k - 1);
      assert ops[..k][..k - 1] == ops[..k - 1];
      UnsharedStep(ExecAll(fs, ops[..k - 1]), ops[k - 1]);
    }
  }

  lemma {:induction false} MkdirBelow(fs: Fs, d: seq<Name>)
    ensures Below(MkdirOps(fs, d))
    decreases |d|
  {
    if !IsDir(fs, At(d)) { MkdirBelow(fs, d[..|d| - 1]); }
  }

  lemma {:induction false} FilesBelow(dir: seq<Name>, files: seq<Out>)
    ensures Below(FileOps(dir, files))
  {
    if files != [] { FilesBelow(dir, files[..|files| - 1]); }
  }

  lemma {:induction false} WritesBelow(fs: Fs, tables: seq<Table>)
    ensures Below(WriteOps(fs, tables))
  {
    if tables != [] {
      var prior := WriteOps(fs, tables[..|tables| - 1]);
      WritesBelow(fs, tables[..|tables| - 1]);
      MkdirBelow(ExecAll(fs, prior), tables[|tables| - 1].dir);
      FilesBelow(tables[|tables| - 1].dir, tables[|tables| - 1].files);
    }
  }

  lemma {:induction false} SyncsBelow(dirs: seq<seq<Name>>)
    ensures Below(SyncOps(dirs))
  {
    if dirs != [] { SyncsBelow(dirs[..|dirs| - 1]); }
  }

  lemma SegmentsBelow(fs: Fs, tables: seq<Table>)
    ensures Below(SegmentOps(fs, tables))
  {
    WritesBelow(fs, tables);
    SyncsBelow(DirsOf(tables));
  }

  lemma ReadyStays(a: Fs, b: Fs, history: History, x: nat, y: nat)
    requires Ready(a, history, x) && Extends(a, b) && Shape(b, y) && Unshared(b)
    ensures Ready(b, history, y)
  {
    assert Possible(b, Main) <= Possible(a, Main) && Seen(b, Main) in Possible(b, Main);
    HoldsStays(a, b, history, history, Seen(a, Main), |history| - 1);
  }

  /** The newest version is in place, though not yet beyond loss. */
  ghost predicate Renamed(fs: Fs, history: History, bound: nat)
  {
    && |history| > 1 && history[0] == [] && Shape(fs, bound) && Tmp !in fs.view && Main in fs.view
    && Holds(fs, history, Seen(fs, Main), |history| - 1)
  }

  /** The rename: the manifest's name is the old version or the new one, and both are whole. */
  lemma RenameRecoverable(fs: Fs, history: History, next: seq<Segment>, bound: nat)
    requires Prepared(fs, history, next, bound)
    ensures var t := Exec(fs, Rename(Tmp, Main));
            Recoverable(t, history + [next]) && Renamed(t, history + [next], bound)
  {
    var t := Exec(fs, Rename(Tmp, Main));
    var longer := history + [next];
    assert t.view == fs.view[Main := fs.view[Tmp]] - {Tmp};
    RenameKeeps(fs, next);
    assert Holds(t, longer, Seen(t, Main), |history|);
    forall b | b in Possible(t, Main) ensures exists v :: t.acked <= v && Holds(t, longer, b, v) {
      if b != Seen(t, Main) {
        assert b in Possible(fs, Main);
        var v :| fs.acked <= v && Holds(fs, history, b, v);
        RenameKeeps(fs, history[v]);
        assert longer[v] == history[v] && longer[0] == history[0];
        assert Holds(t, longer, b, v);
      }
    }
    RenameShape(fs, bound);
  }

  lemma {:induction false} RenameKeepsDir(fs: Fs, p: Path)
    requires DurableDir(fs, p)
    ensures DurableDir(Exec(fs, Rename(Tmp, Main)), p)
    decreases if p.At? then |p.names| else 1
  {
    if p != Root { RenameKeepsDir(fs, Parent(p)); }
  }

  lemma RenameKeeps(fs: Fs, segments: seq<Segment>)
    requires AllDurable(fs, segments) && Tmp in fs.view
    ensures AllDurable(Exec(fs, Rename(Tmp, Main)), segments)
  {
    forall i | 0 <= i < |segments|
      ensures DurableFile(Exec(fs, Rename(Tmp, Main)), segments[i].path, SegmentFile(segments[i].rows))
    {
      RenameKeepsDir(fs, Parent(segments[i].path));
    }
  }

  lemma RenameShape(fs: Fs, bound: nat)
    requires Shape(fs, bound) && Tmp in fs.view && fs.view[Tmp].File?
    ensures Shape(Exec(fs, Rename(Tmp, Main)), bound)
  {
    var t := Exec(fs, Rename(Tmp, Main));
    assert t.view == fs.view[Main := fs.view[Tmp]] - {Tmp};
    forall p | p in t.view && t.view[p].Dir? ensures p.At? && DurableDir(t, p) {
      RenameKeepsDir(fs, p);
    }
  }

  lemma LinkedRecoverable(a: Fs, history: History, v: nat)
    requires Numbered(a) && Recoverable(a, history)
    ensures var b := Exec(a, SyncDir(Root));
            var c := Exec(b, Link(Main, Versioned(v)));
            && Recoverable(b, history) && Recoverable(c, history) && Extends(a, c)
            && Possible(c, Main) == {Seen(c, Main)}
  {
    var b := Exec(a, SyncDir(Root));
    var c := Exec(b, Link(Main, Versioned(v)));
    QuietExtends(a, SyncDir(Root));
    RecoverableStays(a, b, history, history);
    NumberedKept(a, SyncDir(Root));
    QuietExtends(b, Link(Main, Versioned(v)));
    RecoverableStays(b, c, history, history);
    ExtendsTransitive(a, b, c);
    assert Main !in b.stale && Main !in c.stale;
  }

  lemma LinkedShape(a: Fs, bound: nat, v: nat)
    requires Shape(a, bound) && Tmp !in a.view && Main in a.view
    ensures var c := Exec(Exec(a, SyncDir(Root)), Link(Main, Versioned(v)));
            Shape(c, bound) && Tmp !in c.view && Seen(c, Main) == Seen(a, Main)
  {
    var b := Exec(a, SyncDir(Root));
    var c := Exec(b, Link(Main, Versioned(v)));
    QuietExtends(a, SyncDir(Root));
    NumberedKept(a, SyncDir(Root));
    QuietExtends(b, Link(Main, Versioned(v)));
    ExtendsTransitive(a, b, c);
    NumberedKept(b, Link(Main, Versioned(v)));
    assert !a.view[Main].Dir?;
    forall p | p in c.view && c.view[p].Dir? ensures p.At? && DurableDir(c, p) {
      assert p in a.view && a.view[p] == c.view[p];
      DirsStayDurable(a, c, bound, p);
    }
  }

  lemma {:induction false} AckKeepsDir(fs: Fs, v: nat, p: Path)
    requires DurableDir(fs, p)
    ensures DurableDir(Exec(fs, Ack(v)), p)
    decreases if p.At? then |p.names| else 1
  {
    if p != Root { AckKeepsDir(fs, v, Parent(p)); }
  }

  lemma AckedReady(fs: Fs, history: History, bound: nat)
    requires Shape(fs, bound) && Tmp !in fs.view && history != [] && history[0] == []
    requires Possible(fs, Main) == {Seen(fs, Main)} && Holds(fs, history, Seen(fs, Main), |history| - 1)
    ensures Ready(Exec(fs, Ack(|history| - 1)), history, bound)
  {
    var t := Exec(fs, Ack(|history| - 1));
    forall p | p in t.view && t.view[p].Dir? ensures p.At? && DurableDir(t, p) { AckKeepsDir(fs, |history| - 1, p); }
    var last := history[|history| - 1];
    forall i | 0 <= i < |last| ensures last[i].path.At? && DurableFile(t, last[i].path, SegmentFile(last[i].rows)) {
      AckKeepsDir(fs, |history| - 1, Parent(last[i].path));
    }
  }

  lemma AckDurable(fs: Fs, v: nat, segments: seq<Segment>)
    requires AllDurable(fs, segments)
    ensures AllDurable(Exec(fs, Ack(v)), segments)
  {
    forall i | 0 <= i < |segments|
      ensures DurableFile(Exec(fs, Ack(v)), segments[i].path, SegmentFile(segments[i].rows))
    {
      AckKeepsDir(fs, v, Parent(segments[i].path));
    }
  }

  // ── One commit, stopped anywhere ───────────────────────────────────────────

  /** What a commit starts from: a ready disk, with the next version's segments, and others that are
      still to be named, out of harm's way. */
  ghost predicate MayCommit(fs: Fs, history: History, next: seq<Segment>, others: seq<Segment>, bound: nat)
  {
    Ready(fs, history, bound) && AllDurable(fs, next) && AllDurable(fs, others)
  }

  lemma DurableParts(fs: Fs, a: seq<Segment>, b: seq<Segment>)
    requires AllDurable(fs, a + b)
    ensures AllDurable(fs, a) && AllDurable(fs, b)
  {
    forall i | 0 <= i < |a| ensures a[i].path.At? && DurableFile(fs, a[i].path, SegmentFile(a[i].rows)) { assert (a + b)[i] == a[i]; }
    forall i | 0 <= i < |b| ensures b[i].path.At? && DurableFile(fs, b[i].path, SegmentFile(b[i].rows)) { assert (a + b)[|a| + i] == b[i]; }
  }

  /** The temporary manifest, written and then synced. */
  lemma TmpWritten(fs: Fs, history: History, next: seq<Segment>, others: seq<Segment>, bound: nat)
    requires MayCommit(fs, history, next, others, bound)
    ensures var c := ManifestFile(|history|, Paths(next));
            var t := Exec(fs, Write(Tmp, c));
            var u := Exec(t, SyncFile(Tmp));
            && Recoverable(t, history) && t.acked == u.acked == fs.acked
            && Prepared(u, history, next, bound) && AllDurable(u, others)
  {
    var c := ManifestFile(|history|, Paths(next));
    ReadyIsRecoverable(fs, history, bound);
    DurableConcat(fs, next, others);
    TmpWrite(fs, bound, history, next + others, c);
    TmpSync(Exec(fs, Write(Tmp, c)), bound, history, next + others, c);
    DurableParts(Exec(Exec(fs, Write(Tmp, c)), SyncFile(Tmp)), next, others);
  }

  lemma TmpPrefix(fs: Fs, history: History, next: seq<Segment>, others: seq<Segment>, bound: nat, k: nat)
    requires MayCommit(fs, history, next, others, bound) && k <= 2
    ensures var t := ExecAll(fs, TmpOps(|history|, next)[..k]);
            && Recoverable(t, history) && t.acked == fs.acked
            && (k == 2 ==> Prepared(t, history, next, bound) && AllDurable(t, others))
  {
    var c := ManifestFile(|history|, Paths(next));
    TwoPrefix(fs, Write(Tmp, c), SyncFile(Tmp), k);
    if k == 0 { ReadyIsRecoverable(fs, history, bound); } else { TmpWritten(fs, history, next, others, bound); }
  }

  lemma TwoPrefix(fs: Fs, x: Op, y: Op, k: nat)
    requires k <= 2
    ensures ExecAll(fs, [x, y][..k]) == if k == 0 then fs else if k == 1 then Exec(fs, x) else Exec(Exec(fs, x), y)
  {
    var ops := [x, y];
    assert ops[..0] == [];
    ExecStep(fs, ops, 0);
    ExecStep(fs, ops, 1);
  }

  lemma {:induction false} FourPrefix(fs: Fs, ops: seq<Op>, k: nat)
    requires |ops| == 4 && 1 <= k <= 4
    ensures ExecAll(fs, ops[..k]) ==
              if k == 1 then Exec(fs, ops[0]) else if k == 2 then Exec(Exec(fs, ops[0]), ops[1])
              else if k == 3 then Exec(Exec(Exec(fs, ops[0]), ops[1]), ops[2])
              else Exec(Exec(Exec(Exec(fs, ops[0]), ops[1]), ops[2]), ops[3])
    decreases k
  {
    ExecStep(fs, ops, k - 1);
    if k > 1 { FourPrefix(fs, ops, k - 1); } else { assert ops[..0] == []; }
  }

  /** After the directory sync only the new version remains; then the link and the ack. */
  lemma FinishReady(a: Fs, history: History, others: seq<Segment>, bound: nat)
    requires Recoverable(a, history) && Renamed(a, history, bound) && AllDurable(a, others)
    ensures var c := Exec(Exec(a, SyncDir(Root)), Link(Main, Versioned(|history| - 1)));
            var d := Exec(c, Ack(|history| - 1));
            Ready(d, history, bound) && AllDurable(d, others)
  {
    var v := |history| - 1;
    LinkedRecoverable(a, history, v);
    LinkedShape(a, bound, v);
    var c := Exec(Exec(a, SyncDir(Root)), Link(Main, Versioned(v)));
    HoldsStays(a, c, history, history, Seen(a, Main), v);
    DurableStays(a, c, others);
    AckedReady(c, history, bound);
    AckDurable(c, v, others);
  }

  /** What each of the four steps leaves. */
  ghost predicate Steady(mid: Fs, t: Fs, history: History)
  {
    Recoverable(t, history) && mid.acked <= t.acked
  }

  lemma {:induction false} RenameSteady(mid: Fs, history: History, next: seq<Segment>, others: seq<Segment>, bound: nat)
    requires Prepared(mid, history, next, bound) && AllDurable(mid, others)
    ensures var t := Exec(mid, Rename(Tmp, Main));
            Steady(mid, t, history + [next]) && Renamed(t, history + [next], bound) && AllDurable(t, others) && t.acked == mid.acked
  {
    RenameRecoverable(mid, history, next, bound);
    RenameKeeps(mid, others);
  }

  lemma {:induction false} LinkSteady(mid: Fs, a: Fs, history: History)
    requires Steady(mid, a, history) && Numbered(a) && history != []
    ensures var b := Exec(a, SyncDir(Root));
            var c := Exec(b, Link(Main, Versioned(|history| - 1)));
            Steady(mid, b, history) && Steady(mid, c, history)
  {
    LinkedRecoverable(a, history, |history| - 1);
  }

  lemma {:induction false} AckSteady(mid: Fs, a: Fs, history: History, others: seq<Segment>, bound: nat)
    requires Recoverable(a, history) && Renamed(a, history, bound) && AllDurable(a, others) && mid.acked < |history|
    ensures var c := Exec(Exec(a, SyncDir(Root)), Link(Main, Versioned(|history| - 1)));
            var d := Exec(c, Ack(|history| - 1));
            Steady(mid, d, history) && Ready(d, history, bound) && AllDurable(d, others)
  {
    PublishEnds(a, history, others, bound);
  }

  lemma {:induction false} PublishPrefix(mid: Fs, history: History, next: seq<Segment>, others: seq<Segment>, bound: nat, k: nat)
    requires Prepared(mid, history, next, bound) && AllDurable(mid, others) && 1 <= k <= 4
    ensures var t := ExecAll(mid, PublishOps(|history|)[..k]);
            Steady(mid, t, history + [next]) && (k == 4 ==> Ready(t, history + [next], bound) && AllDurable(t, others))
  {
    RenameSteady(mid, history, next, others, bound);
    LinkSteady(mid, Exec(mid, Rename(Tmp, Main)), history + [next]);
    AckSteady(mid, Exec(mid, Rename(Tmp, Main)), history + [next], others, bound);
    FourPrefix(mid, PublishOps(|history|), k);
  }

  lemma PublishEnds(a: Fs, history: History, others: seq<Segment>, bound: nat)
    requires Recoverable(a, history) && Renamed(a, history, bound) && AllDurable(a, others)
    ensures var d := Exec(Exec(Exec(a, SyncDir(Root)), Link(Main, Versioned(|history| - 1))), Ack(|history| - 1));
            Ready(d, history, bound) && AllDurable(d, others) && Recoverable(d, history) && d.acked == |history| - 1
  {
    FinishReady(a, history, others, bound);
    ReadyIsRecoverable(Exec(Exec(Exec(a, SyncDir(Root)), Link(Main, Versioned(|history| - 1))), Ack(|history| - 1)), history, bound);
  }

  /** Every prefix of a commit leaves a recoverable disk; the whole commit acknowledges. */
  lemma CommitRecoverable(fs: Fs, history: History, next: seq<Segment>, others: seq<Segment>, bound: nat, k: nat)
    requires MayCommit(fs, history, next, others, bound) && k <= |CommitOps(|history|, next)|
    ensures var t := ExecAll(fs, CommitOps(|history|, next)[..k]);
            && Recoverable(t, history + [next]) && fs.acked <= t.acked
            && (k == |CommitOps(|history|, next)| ==> Ready(t, history + [next], bound) && AllDurable(t, others))
  {
    var a, b := TmpOps(|history|, next), PublishOps(|history|);
    if k <= 2 {
      assert (a + b)[..k] == a[..k];
      TmpPrefix(fs, history, next, others, bound, k);
      LongerHistory(ExecAll(fs, a[..k]), history, history + [next]);
    } else {
      TmpPrefix(fs, history, next, others, bound, 2);
      assert a[..2] == a;
      ExecAllWithin(fs, a, b, k);
      PublishPrefix(ExecAll(fs, a), history, next, others, bound, k - 2);
    }
  }

  // ── A store at work ────────────────────────────────────────────────────────

  /** What a store does to its directory. A flush is a `Stage` and the `Commit` that names what it
      wrote; so are a step of a migration and, with one `Stage` for each plan, a compaction. Other
      commits name nothing new. A collection removes files no manifest in use names. */
  datatype Job =
    | Stage(tables: seq<Table>)
    | Commit(drop: set<Path>, add: set<Path>)
    | Collect(paths: seq<Path>)

  /** The published versions, and the segments written that none of them has named yet. */
  datatype Store = Store(history: History, staged: seq<Segment>)

  function Pick(segments: seq<Segment>, paths: set<Path>, inside: bool): seq<Segment>
  {
    if segments == [] then []
    else
      var n := |segments| - 1;
      Pick(segments[..n], paths, inside) + if (segments[n].path in paths) == inside then [segments[n]] else []
  }

  function Newest(s: Store): seq<Segment>
    requires s.history != []
  {
    s.history[|s.history| - 1]
  }

  function NextSegments(s: Store, drop: set<Path>, add: set<Path>): seq<Segment>
    requires s.history != []
  {
    Pick(Newest(s), drop, false) + Pick(s.staged, add, true)
  }

  function Step(s: Store, job: Job): (t: Store)
    requires s.history != []
    ensures s.history <= t.history
  {
    match job
    case Stage(tables) => s.(staged := s.staged + Segments(tables))
    case Commit(drop, add) => Store(s.history + [NextSegments(s, drop, add)], Pick(s.staged, add, false))
    case Collect(_) => s
  }

  function RemoveOps(paths: seq<Path>): seq<Op>
  {
    seq(|paths|, i requires 0 <= i < |paths| => Remove(paths[i]))
  }

  function JobOps(fs: Fs, s: Store, job: Job): seq<Op>
    requires s.history != []
  {
    match job
    case Stage(tables) => SegmentOps(fs, tables)
    case Commit(drop, add) => CommitOps(|s.history|, NextSegments(s, drop, add))
    case Collect(paths) => RemoveOps(paths)
  }

  /** A file that may be collected: a segment neither the newest version nor a commit to come
      names, or the link of some version. */
  ghost predicate Loose(p: Path, s: Store)
    requires s.history != []
  {
    (p.Versioned? || (p.At? && |p.names| > Depth)) && p !in PathSet(Newest(s)) && p !in PathSet(s.staged)
  }

  ghost predicate JobOk(s: Store, from: nat, job: Job)
    requires s.history != []
  {
    match job
    case Stage(tables) => FlushOk(tables, from)
    case Commit(_, _) => true
    case Collect(paths) => forall i :: 0 <= i < |paths| ==> Loose(paths[i], s)
  }

  function IdAfter(from: nat, job: Job): int
  {
    if job.Stage? then NextIdAll(job.tables, from) else from
  }

  /** Between jobs. */
  ghost predicate Live(fs: Fs, s: Store, bound: nat)
  {
    Ready(fs, s.history, bound) && AllDurable(fs, s.staged)
  }

  lemma {:induction false} PickDurable(fs: Fs, segments: seq<Segment>, paths: set<Path>, inside: bool)
    requires AllDurable(fs, segments)
    ensures AllDurable(fs, Pick(segments, paths, inside))
  {
    if segments != [] {
      var n := |segments| - 1;
      PickDurable(fs, segments[..n], paths, inside);
      var last := if (segments[n].path in paths) == inside then [segments[n]] else [];
      DurableConcat(fs, Pick(segments[..n], paths, inside), last);
    }
  }

  // ── Staging ────────────────────────────────────────────────────────────────

  lemma StageLive(fs: Fs, s: Store, from: nat, tables: seq<Table>)
    requires Live(fs, s, from) && FlushOk(tables, from)
    ensures var t := ExecAll(fs, SegmentOps(fs, tables));
            Live(t, Step(s, Stage(tables)), NextIdAll(tables, from)) && t.acked == fs.acked
  {
    var ops := SegmentOps(fs, tables);
    SegmentsDurable(fs, from, tables);
    SegmentsBelow(fs, tables);
    QuietWhole(fs, ops);
    assert ops[..|ops|] == ops;
    UnsharedStays(fs, ops, |ops|);
    var t := ExecAll(fs, ops);
    ReadyStays(fs, t, s.history, from, NextIdAll(tables, from));
    DurableStays(fs, t, s.staged);
    DurableConcat(t, s.staged, Segments(tables));
  }

  lemma StageRecoverable(fs: Fs, s: Store, from: nat, tables: seq<Table>, k: nat)
    requires Live(fs, s, from) && FlushOk(tables, from) && k <= |SegmentOps(fs, tables)|
    ensures var t := ExecAll(fs, SegmentOps(fs, tables)[..k]); Recoverable(t, s.history) && t.acked == fs.acked
  {
    SegmentsDurable(fs, from, tables);
    QuietPrefix(fs, SegmentOps(fs, tables), k);
    ReadyIsRecoverable(fs, s.history, from);
    RecoverableStays(fs, ExecAll(fs, SegmentOps(fs, tables)[..k]), s.history, s.history);
  }

  // ── Collecting ─────────────────────────────────────────────────────────────

  lemma {:induction false} RemoveKeepsDir(fs: Fs, p: Path, d: Path)
    requires DurableDir(fs, d) && (p in fs.view ==> fs.view[p].File?)
    ensures DurableDir(Exec(fs, Remove(p)), d)
    decreases if d.At? then |d.names| else 1
  {
    if d != Root {
      assert Seen(fs, d) in Possible(fs, d);
      RemoveKeepsDir(fs, p, Parent(d));
    }
  }

  lemma RemoveDurable(fs: Fs, p: Path, segments: seq<Segment>)
    requires AllDurable(fs, segments) && p !in PathSet(segments) && (p in fs.view ==> fs.view[p].File?)
    ensures AllDurable(Exec(fs, Remove(p)), segments)
  {
    var t := Exec(fs, Remove(p));
    forall i | 0 <= i < |segments| ensures DurableFile(t, segments[i].path, SegmentFile(segments[i].rows)) {
      assert segments[i].path != p;
      RemoveKeepsDir(fs, p, Parent(segments[i].path));
    }
  }

  lemma RemoveShape(fs: Fs, p: Path, bound: nat)
    requires Shape(fs, bound) && (p in fs.view ==> fs.view[p].File?)
    ensures Shape(Exec(fs, Remove(p)), bound)
  {
    var t := Exec(fs, Remove(p));
    NumberedKept(fs, Remove(p));
    forall q | q in t.view && t.view[q].Dir? ensures q.At? && DurableDir(t, q) { RemoveKeepsDir(fs, p, q); }
  }

  lemma RemoveLive(fs: Fs, s: Store, bound: nat, p: Path)
    requires Live(fs, s, bound) && Loose(p, s)
    ensures Live(Exec(fs, Remove(p)), s, bound) && Exec(fs, Remove(p)).acked == fs.acked
  {
    var t := Exec(fs, Remove(p));
    RemoveShape(fs, p, bound);
    RemoveDurable(fs, p, Newest(s));
    RemoveDurable(fs, p, s.staged);
    assert Possible(t, Main) == Possible(fs, Main) && Seen(t, Main) == Seen(fs, Main);
  }

  lemma {:induction false} CollectLive(fs: Fs, s: Store, bound: nat, paths: seq<Path>, k: nat)
    requires Live(fs, s, bound) && (forall i :: 0 <= i < |paths| ==> Loose(paths[i], s)) && k <= |paths|
    ensures Live(ExecAll(fs, RemoveOps(paths)[..k]), s, bound) && ExecAll(fs, RemoveOps(paths)[..k]).acked == fs.acked
    decreases k
  {
    if k == 0 {
      assert RemoveOps(paths)[..0] == [];
    } else {
      CollectLive(fs, s, bound, paths, k - 1);
      ExecStep(fs, RemoveOps(paths), k - 1);
      RemoveLive(ExecAll(fs, RemoveOps(paths)[..k - 1]), s, bound, paths[k - 1]);
    }
  }

  // ── One job, stopped anywhere ──────────────────────────────────────────────

  lemma MayCommitNext(fs: Fs, s: Store, from: nat, drop: set<Path>, add: set<Path>)
    requires Live(fs, s, from)
    ensures MayCommit(fs, s.history, NextSegments(s, drop, add), Pick(s.staged, add, false), from)
  {
    PickDurable(fs, Newest(s), drop, false);
    PickDurable(fs, s.staged, add, true);
    PickDurable(fs, s.staged, add, false);
    DurableConcat(fs, Pick(Newest(s), drop, false), Pick(s.staged, add, true));
  }

  /** However far a job got, the disk is recoverable and no acknowledgement is taken back. */
  lemma JobRecoverable(fs: Fs, s: Store, from: nat, job: Job, k: nat)
    requires Live(fs, s, from) && JobOk(s, from, job) && k <= |JobOps(fs, s, job)|
    ensures Recoverable(ExecAll(fs, JobOps(fs, s, job)[..k]), Step(s, job).history)
    ensures fs.acked <= ExecAll(fs, JobOps(fs, s, job)[..k]).acked
  {
    match job {
      case Stage(tables) => StageRecoverable(fs, s, from, tables, k);
      case Commit(drop, add) =>
        MayCommitNext(fs, s, from, drop, add);
        CommitRecoverable(fs, s.history, NextSegments(s, drop, add), Pick(s.staged, add, false), from, k);
      case Collect(paths) =>
        CollectLive(fs, s, from, paths, k);
        ReadyIsRecoverable(ExecAll(fs, RemoveOps(paths)[..k]), s.history, from);
    }
  }

  lemma JobCompletes(fs: Fs, s: Store, from: nat, job: Job)
    requires Live(fs, s, from) && JobOk(s, from, job)
    ensures IdAfter(from, job) >= 0 && Live(ExecAll(fs, JobOps(fs, s, job)), Step(s, job), IdAfter(from, job))
    ensures fs.acked <= ExecAll(fs, JobOps(fs, s, job)).acked
  {
    var ops := JobOps(fs, s, job);
    assert ops[..|ops|] == ops;
    match job {
      case Stage(tables) => StageLive(fs, s, from, tables);
      case Commit(drop, add) =>
        MayCommitNext(fs, s, from, drop, add);
        CommitRecoverable(fs, s.history, NextSegments(s, drop, add), Pick(s.staged, add, false), from, |ops|);
      case Collect(paths) => CollectLive(fs, s, from, paths, |paths|);
    }
  }

  // ── Any run of jobs ────────────────────────────────────────────────────────

  function StoreFrom(s: Store, jobs: seq<Job>): (t: Store)
    requires s.history != []
    ensures s.history <= t.history
  {
    if jobs == [] then s else Step(StoreFrom(s, jobs[..|jobs| - 1]), jobs[|jobs| - 1])
  }

  function LogFrom(fs: Fs, s: Store, jobs: seq<Job>): seq<Op>
    requires s.history != []
  {
    if jobs == [] then []
    else
      var n := |jobs| - 1;
      var prior := LogFrom(fs, s, jobs[..n]);
      prior + JobOps(ExecAll(fs, prior), StoreFrom(s, jobs[..n]), jobs[n])
  }

  function NextIdFrom(from: nat, jobs: seq<Job>): int
  {
    if jobs == [] then from
    else
      var prior := NextIdFrom(from, jobs[..|jobs| - 1]);
      if prior >= 0 then IdAfter(prior, jobs[|jobs| - 1]) else -1
  }

  /** Every job is one the store may do when its turn comes. */
  ghost predicate RunOkFrom(s: Store, from: nat, jobs: seq<Job>)
    requires s.history != []
  {
    jobs == [] ||
      var n := |jobs| - 1;
      && RunOkFrom(s, from, jobs[..n]) && NextIdFrom(from, jobs[..n]) >= 0
      && JobOk(StoreFrom(s, jobs[..n]), NextIdFrom(from, jobs[..n]), jobs[n])
  }

  lemma LogStep(fs: Fs, s: Store, jobs: seq<Job>)
    requires s.history != [] && jobs != []
    ensures var n := |jobs| - 1;
            var prior := LogFrom(fs, s, jobs[..n]);
            LogFrom(fs, s, jobs) == prior + JobOps(ExecAll(fs, prior), StoreFrom(s, jobs[..n]), jobs[n])
  {
  }

  lemma {:induction false} RunLive(fs: Fs, s: Store, from: nat, jobs: seq<Job>)
    requires Live(fs, s, from) && RunOkFrom(s, from, jobs)
    ensures NextIdFrom(from, jobs) >= 0
    ensures Live(ExecAll(fs, LogFrom(fs, s, jobs)), StoreFrom(s, jobs), NextIdFrom(from, jobs))
    ensures fs.acked <= ExecAll(fs, LogFrom(fs, s, jobs)).acked
    decreases |jobs|
  {
    if jobs != [] {
      var n := |jobs| - 1;
      RunLive(fs, s, from, jobs[..n]);
      LogStep(fs, s, jobs);
      var prior, t := LogFrom(fs, s, jobs[..n]), StoreFrom(s, jobs[..n]);
      ExecAllAppend(fs, prior, JobOps(ExecAll(fs, prior), t, jobs[n]));
      JobCompletes(ExecAll(fs, prior), t, NextIdFrom(from, jobs[..n]), jobs[n]);
    }
  }

  /** However far a run got, the disk is recoverable, and no acknowledgement is taken back. */
  lemma {:induction false} RunRecoverable(fs: Fs, s: Store, from: nat, jobs: seq<Job>, k: nat)
    requires Live(fs, s, from) && RunOkFrom(s, from, jobs) && k <= |LogFrom(fs, s, jobs)|
    ensures Recoverable(ExecAll(fs, LogFrom(fs, s, jobs)[..k]), StoreFrom(s, jobs).history)
    ensures fs.acked <= ExecAll(fs, LogFrom(fs, s, jobs)[..k]).acked
    decreases |jobs|
  {
    if jobs == [] {
      ReadyIsRecoverable(fs, s.history, from);
      assert LogFrom(fs, s, jobs)[..k] == [];
    } else if k <= |LogFrom(fs, s, jobs[..|jobs| - 1])| {
      RunRecoverable(fs, s, from, jobs[..|jobs| - 1], k);
      EarlierJob(fs, s, jobs, k);
    } else {
      LastJob(fs, s, from, jobs, k);
    }
  }

  lemma {:induction false} EarlierJob(fs: Fs, s: Store, jobs: seq<Job>, k: nat)
    requires s.history != [] && jobs != [] && k <= |LogFrom(fs, s, jobs[..|jobs| - 1])|
    requires Recoverable(ExecAll(fs, LogFrom(fs, s, jobs[..|jobs| - 1])[..k]), StoreFrom(s, jobs[..|jobs| - 1]).history)
    ensures k <= |LogFrom(fs, s, jobs)| && LogFrom(fs, s, jobs)[..k] == LogFrom(fs, s, jobs[..|jobs| - 1])[..k]
    ensures Recoverable(ExecAll(fs, LogFrom(fs, s, jobs)[..k]), StoreFrom(s, jobs).history)
  {
    var prior, t := LogFrom(fs, s, jobs[..|jobs| - 1]), StoreFrom(s, jobs[..|jobs| - 1]);
    LogStep(fs, s, jobs);
    assert LogFrom(fs, s, jobs)[..k] == prior[..k];
    LongerHistory(ExecAll(fs, prior[..k]), t.history, Step(t, jobs[|jobs| - 1]).history);
  }

  lemma LongerHistory(fs: Fs, history: History, longer: History)
    requires Recoverable(fs, history) && history <= longer
    ensures Recoverable(fs, longer)
  {
    ExtendsSelf(fs);
    RecoverableStays(fs, fs, history, longer);
  }

  lemma {:induction false} LastJob(fs: Fs, s: Store, from: nat, jobs: seq<Job>, k: nat)
    requires Live(fs, s, from) && jobs != [] && RunOkFrom(s, from, jobs)
    requires |LogFrom(fs, s, jobs[..|jobs| - 1])| < k <= |LogFrom(fs, s, jobs)|
    ensures Recoverable(ExecAll(fs, LogFrom(fs, s, jobs)[..k]), StoreFrom(s, jobs).history)
    ensures fs.acked <= ExecAll(fs, LogFrom(fs, s, jobs)[..k]).acked
  {
    var n := |jobs| - 1;
    LogStep(fs, s, jobs);
    RunLive(fs, s, from, jobs[..n]);
    var prior, t := LogFrom(fs, s, jobs[..n]), StoreFrom(s, jobs[..n]);
    var ops := JobOps(ExecAll(fs, prior), t, jobs[n]);
    ExecAllWithin(fs, prior, ops, k);
    JobRecoverable(ExecAll(fs, prior), t, NextIdFrom(from, jobs[..n]), jobs[n], k - |prior|);
  }

  lemma ExtendsSelf(fs: Fs)
    ensures Extends(fs, fs)
  {
  }

  // ── A store's first run ────────────────────────────────────────────────────

  const Nothing: History := [[]]
  const New := Store(Nothing, [])

  function HistoryOf(jobs: seq<Job>): History
  {
    StoreFrom(New, jobs).history
  }

  function LogOf(jobs: seq<Job>): seq<Op>
  {
    LogFrom(Empty, New, jobs)
  }

  ghost predicate RunOk(jobs: seq<Job>)
  {
    RunOkFrom(New, 0, jobs)
  }

  lemma EmptyReady()
    ensures Ready(Empty, Nothing, 0)
  {
    assert Possible(Empty, Main) == {None};
    assert Holds(Empty, Nothing, None, 0);
  }

  // ── Runs of flushes ────────────────────────────────────────────────────────

  /** A flush writes its segments and commits them. */
  function Flush(tables: seq<Table>): seq<Job>
  {
    [Stage(tables), Commit({}, PathSet(Segments(tables)))]
  }

  function Flushes(flushes: seq<seq<Table>>): seq<Job>
  {
    if flushes == [] then [] else Flushes(flushes[..|flushes| - 1]) + Flush(flushes[|flushes| - 1])
  }

  lemma {:induction false} PickAll(segments: seq<Segment>, paths: set<Path>)
    requires forall i :: 0 <= i < |segments| ==> segments[i].path in paths
    ensures Pick(segments, paths, true) == segments && Pick(segments, paths, false) == []
  {
    if segments != [] {
      PickAll(segments[..|segments| - 1], paths);
      assert segments == segments[..|segments| - 1] + [segments[|segments| - 1]];
    }
  }

  lemma {:induction false} PickNone(segments: seq<Segment>)
    ensures Pick(segments, {}, false) == segments
  {
    if segments != [] { PickNone(segments[..|segments| - 1]); }
  }

  lemma TwoJobs(fs: Fs, s: Store, jobs: seq<Job>, a: Job, b: Job)
    requires s.history != []
    ensures var t, log := StoreFrom(s, jobs), LogFrom(fs, s, jobs);
            var mid := log + JobOps(ExecAll(fs, log), t, a);
            && StoreFrom(s, jobs + [a, b]) == Step(Step(t, a), b)
            && LogFrom(fs, s, jobs + [a, b]) == mid + JobOps(ExecAll(fs, mid), Step(t, a), b)
  {
    var one, two := jobs + [a], jobs + [a, b];
    assert two[..|jobs| + 1] == one && one[..|jobs|] == jobs && two[|jobs| + 1] == b && one[|jobs|] == a;
    LogStep(fs, s, one);
    LogStep(fs, s, two);
  }

  lemma FlushSteps(s: Store, tables: seq<Table>)
    requires s.history != [] && s.staged == []
    ensures var t := Step(s, Stage(tables));
            && NextSegments(t, {}, PathSet(Segments(tables))) == Newest(s) + Segments(tables)
            && Step(t, Commit({}, PathSet(Segments(tables)))) == Store(s.history + [Newest(s) + Segments(tables)], [])
  {
    assert [] + Segments(tables) == Segments(tables);
    PickAll(Segments(tables), PathSet(Segments(tables)));
    PickNone(Newest(s));
  }

  /** A run of flushes: each publishes what was there and what it wrote, and leaves nothing staged. */
  lemma {:induction false} FlushesRun(flushes: seq<seq<Table>>)
    ensures StoreFrom(New, Flushes(flushes)).staged == [] && |HistoryOf(Flushes(flushes))| == |flushes| + 1
    ensures flushes != [] ==>
              var n := |flushes| - 1;
              var prior, log := HistoryOf(Flushes(flushes[..n])), LogOf(Flushes(flushes[..n]));
              && |prior| == n + 1 && HistoryOf(Flushes(flushes)) == prior + [prior[n] + Segments(flushes[n])]
              && LogOf(Flushes(flushes)) == log + FlushOps(ExecAll(Empty, log), flushes[n], n + 1, prior[n])
  {
    if flushes != [] {
      var n := |flushes| - 1;
      FlushesRun(flushes[..n]);
      var jobs, tables := Flushes(flushes[..n]), flushes[n];
      var s, log := StoreFrom(New, jobs), LogOf(jobs);
      TwoJobs(Empty, New, jobs, Stage(tables), Commit({}, PathSet(Segments(tables))));
      FlushSteps(s, tables);
      Assoc(log, SegmentOps(ExecAll(Empty, log), tables), CommitOps(n + 1, Newest(s) + Segments(tables)));
    }
  }

  // ── Reopening ──────────────────────────────────────────────────────────────

  ghost function ReadSegments(img: Image, paths: seq<Path>): Option<seq<Row>>
  {
    if paths == [] then Some([])
    else
      var n := |paths| - 1;
      var prior, last := ReadSegments(img, paths[..n]), Read(img, paths[n]);
      if prior.Some? && last.Some? && last.value.SegmentFile? then Some(prior.value + last.value.rows) else None
  }

  /** `Publisher::load` and a scan: a missing manifest is an empty store, anything that does not
      decode, or a segment that cannot be read, is an error. */
  ghost function Reopen(img: Image): Option<seq<Row>>
  {
    var main := Read(img, Main);
    if main.None? then Some([])
    else if main.value.ManifestFile? then ReadSegments(img, main.value.segments)
    else None
  }

  function Rows(segments: seq<Segment>): seq<Row>
  {
    if segments == [] then [] else Rows(segments[..|segments| - 1]) + segments[|segments| - 1].rows
  }

  lemma {:induction false} SegmentsRead(fs: Fs, img: Image, segments: seq<Segment>)
    requires Survives(fs, img) && AllDurable(fs, segments)
    ensures ReadSegments(img, Paths(segments)) == Some(Rows(segments))
  {
    if segments != [] {
      var n := |segments| - 1;
      SegmentsRead(fs, img, segments[..n]);
      assert Paths(segments)[..n] == Paths(segments[..n]);
      DurableFileRead(fs, img, segments[n].path, SegmentFile(segments[n].rows));
    }
  }

  lemma ReopensOn(fs: Fs, history: History, img: Image) returns (v: nat)
    requires Recoverable(fs, history) && Survives(fs, img)
    ensures fs.acked <= v < |history| && Reopen(img) == Some(Rows(history[v]))
  {
    var b := img.names(Main);
    assert b in Possible(fs, Main);
    v :| fs.acked <= v && Holds(fs, history, b, v);
    if b.Some? { SegmentsRead(fs, img, history[v]); }
  }

  /** Crash safety: lose power at any operation of any run, losing any unsynced data and any unsynced
      names; the store reopens without error on exactly the rows of some published version, and that
      version is at least the last one acknowledged. */
  lemma CrashSafe(jobs: seq<Job>, k: nat, img: Image) returns (v: nat)
    requires RunOk(jobs) && k <= |LogOf(jobs)|
    requires Survives(ExecAll(Empty, LogOf(jobs)[..k]), img)
    ensures ExecAll(Empty, LogOf(jobs)[..k]).acked <= v < |HistoryOf(jobs)|
    ensures Reopen(img) == Some(Rows(HistoryOf(jobs)[v]))
  {
    EmptyReady();
    RunRecoverable(Empty, New, 0, jobs, k);
    v := ReopensOn(ExecAll(Empty, LogOf(jobs)[..k]), HistoryOf(jobs), img);
  }
}
