/** Reopening after a power loss, and losing power again: the files an interrupted run left behind
    (orphaned segments, a temporary manifest) and what the next run does to them
    (src/storage/manifest/publish.rs, src/storage/gc.rs, src/storage/io.rs). */
module Reboot {
  import opened Options
  import opened Disk
  import opened Crash

  predicate IsSegment(p: Path)
  {
    p.At? && |p.names| > Depth
  }

  predicate IsDirPath(p: Path)
  {
    p.At? && |p.names| <= Depth
  }

  // ── What names may be, also the lost and the undone ones ───────────────────

  ghost predicate Kinds(fs: Fs)
  {
    && Possible(fs, Root) == {None}
    && forall p, b :: b in Possible(fs, p) && b.Some? ==>
         (b.value.Dir? <==> IsDirPath(p)) && (b.value.File? ==> b.value.inode in fs.data)
  }

  /** No segment shares a file with a manifest, whatever a crash does. */
  ghost predicate Apart(fs: Fs)
  {
    forall p: Path, q: Path, b :: p.At? && !q.At? && b in Possible(fs, p) && b in Possible(fs, q) ==> b.None?
  }

  ghost predicate Orderly(fs: Fs)
  {
    Numbered(fs) && Kinds(fs) && Apart(fs)
  }

  predicate OpKind(op: Op)
  {
    match op
    case Write(p, _) => !IsDirPath(p)
    case CreateDir(p) => IsDirPath(p) && p != Root
    case Remove(p) => p != Root
    case Rename(from, to) => !from.At? && !to.At?
    case Link(from, to) => !from.At? && !to.At?
    case _ => true
  }

  /** One name's possibilities grow by one; the others stay. */
  lemma BindPossible(fs: Fs, p: Path, node: Option<Node>, q: Path)
    ensures Possible(Bind(fs, p, node), q) == if q == p then Possible(fs, p) + {node} else Possible(fs, q)
  {
  }

  lemma BindOrderly(fs: Fs, p: Path, node: Option<Node>)
    requires Orderly(fs) && p != Root
    requires node.Some? ==> (node.value.Dir? <==> IsDirPath(p)) && (node.value.File? ==> node.value.inode in fs.data)
    requires node.Some? ==> forall q: Path :: q.At? != p.At? ==> node !in Possible(fs, q)
    ensures Kinds(Bind(fs, p, node)) && Apart(Bind(fs, p, node))
  {
    var t := Bind(fs, p, node);
    forall q ensures Possible(t, q) == if q == p then Possible(fs, p) + {node} else Possible(fs, q) { BindPossible(fs, p, node, q); }
  }

  lemma {:induction false} WriteOrderly(fs: Fs, p: Path, c: Content)
    requires Orderly(fs) && !IsDirPath(p)
    ensures Orderly(Exec(fs, Write(p, c)))
  {
    var t := Exec(fs, Write(p, c));
    NumberedKept(fs, Write(p, c));
    if p in fs.view && fs.view[p].File? {
      forall q ensures Possible(t, q) == Possible(fs, q) {}
    } else {
      var node := Some(File(fs.next));
      forall q, b | b in Possible(fs, q) && b.Some? && b.value.File? ensures b != node { assert b.value.inode in fs.data; }
      forall q ensures Possible(t, q) == if q == p then Possible(fs, p) + {node} else Possible(fs, q) {
        BindPossible(fs, p, node, q);
        assert Possible(t, q) == Possible(Bind(fs, p, node), q);
      }
    }
  }

  lemma NodeApart(fs: Fs, p: Path, q: Path, node: Option<Node>)
    requires Apart(fs) && p.At? != q.At? && node in Possible(fs, p)
    ensures node in Possible(fs, q) ==> node.None?
  {
  }

  lemma RenameOrderly(fs: Fs, from: Path, to: Path)
    requires Orderly(fs) && !from.At? && !to.At?
    ensures Orderly(Exec(fs, Rename(from, to)))
  {
    NumberedKept(fs, Rename(from, to));
    if from in fs.view {
      var node := Seen(fs, from);
      assert node in Possible(fs, from);
      forall q: Path | q.At? != to.At? ensures node !in Possible(fs, q) { NodeApart(fs, from, q, node); }
      BindOrderly(fs, to, node);
      var mid := Bind(fs, to, node);
      assert Numbered(mid);
      BindOrderly(mid, from, None);
    }
  }

  lemma LinkOrderly(fs: Fs, from: Path, to: Path)
    requires Orderly(fs) && !from.At? && !to.At?
    ensures Orderly(Exec(fs, Link(from, to)))
  {
    NumberedKept(fs, Link(from, to));
    if from in fs.view && to !in fs.view {
      var node := Seen(fs, from);
      assert node in Possible(fs, from);
      forall q: Path | q.At? != to.At? ensures node !in Possible(fs, q) { NodeApart(fs, from, q, node); }
      BindOrderly(fs, to, node);
    }
  }

  lemma SyncOrderly(fs: Fs, t: Fs)
    requires Orderly(fs) && t.view == fs.view && t.data == fs.data && Numbered(t)
    requires forall p :: Possible(t, p) <= Possible(fs, p)
    ensures Orderly(t)
  {
    assert Possible(t, Root) <= {None} && Seen(t, Root) in Possible(t, Root);
  }

  lemma OrderlyStep(fs: Fs, op: Op)
    requires Orderly(fs) && OpKind(op)
    ensures Orderly(Exec(fs, op))
  {
    NumberedKept(fs, op);
    match op {
      case Write(p, c) => WriteOrderly(fs, p, c);
      case Rename(from, to) => RenameOrderly(fs, from, to);
      case Link(from, to) => LinkOrderly(fs, from, to);
      case CreateDir(p) =>
        if p !in fs.view {
          forall q: Path | q.At? != p.At? ensures Some(Dir) !in Possible(fs, q) {}
          BindOrderly(fs, p, Some(Dir));
        }
      case Remove(p) => if p in fs.view { BindOrderly(fs, p, None); }
      case _ => SyncOrderly(fs, Exec(fs, op));
    }
  }

  predicate AllKinds(ops: seq<Op>)
  {
    forall i :: 0 <= i < |ops| ==> OpKind(ops[i])
  }

  lemma {:induction false} OrderlyRun(fs: Fs, ops: seq<Op>)
    requires Orderly(fs) && AllKinds(ops)
    ensures Orderly(ExecAll(fs, ops))
    decreases |ops|
  {
    if ops != [] {
      OrderlyRun(fs, ops[..|ops| - 1]);
      OrderlyStep(ExecAll(fs, ops[..|ops| - 1]), ops[|ops| - 1]);
    }
  }

  lemma {:induction false} MkdirKinds(fs: Fs, d: seq<Name>)
    requires |d| <= Depth
    ensures AllKinds(MkdirOps(fs, d))
    decreases |d|
  {
    if !IsDir(fs, At(d)) { MkdirKinds(fs, d[..|d| - 1]); }
  }

  lemma {:induction false} FilesKinds(dir: seq<Name>, files: seq<Out>)
    requires DirOk(dir)
    ensures AllKinds(FileOps(dir, files))
  {
    if files != [] { FilesKinds(dir, files[..|files| - 1]); }
  }

  lemma {:induction false} WritesKinds(fs: Fs, tables: seq<Table>)
    requires forall i :: 0 <= i < |tables| ==> DirOk(tables[i].dir)
    ensures AllKinds(WriteOps(fs, tables))
  {
    if tables != [] {
      var t, prior := tables[|tables| - 1], WriteOps(fs, tables[..|tables| - 1]);
      WritesKinds(fs, tables[..|tables| - 1]);
      MkdirKinds(ExecAll(fs, prior), t.dir);
      FilesKinds(t.dir, t.files);
    }
  }

  lemma {:induction false} SyncsKinds(dirs: seq<seq<Name>>)
    ensures AllKinds(SyncOps(dirs))
  {
    if dirs != [] { SyncsKinds(dirs[..|dirs| - 1]); }
  }

  lemma KindsAppend(a: seq<Op>, b: seq<Op>)
    requires AllKinds(a) && AllKinds(b)
    ensures AllKinds(a + b)
  {
  }

  lemma JobKinds(fs: Fs, s: Store, from: nat, job: Job)
    requires s.history != [] && JobOk(s, from, job)
    ensures AllKinds(JobOps(fs, s, job))
  {
    match job {
      case Stage(tables) =>
        WritesKinds(fs, tables);
        SyncsKinds(DirsOf(tables));
        KindsAppend(WriteOps(fs, tables), SyncOps(DirsOf(tables)));
      case Commit(_, _) =>
      case Collect(paths) =>
        forall i | 0 <= i < |paths| ensures OpKind(RemoveOps(paths)[i]) { assert Loose(paths[i], s); }
    }
  }

  lemma {:induction false} LogKinds(fs: Fs, s: Store, from: nat, jobs: seq<Job>)
    requires s.history != [] && RunOkFrom(s, from, jobs)
    ensures AllKinds(LogFrom(fs, s, jobs))
    decreases |jobs|
  {
    if jobs != [] {
      var n := |jobs| - 1;
      LogKinds(fs, s, from, jobs[..n]);
      LogStep(fs, s, jobs);
      var prior, t := LogFrom(fs, s, jobs[..n]), StoreFrom(s, jobs[..n]);
      JobKinds(ExecAll(fs, prior), t, NextIdFrom(from, jobs[..n]), jobs[n]);
      KindsAppend(prior, JobOps(ExecAll(fs, prior), t, jobs[n]));
    }
  }

  lemma RunOrderly(fs: Fs, s: Store, from: nat, jobs: seq<Job>, k: nat)
    requires Orderly(fs) && s.history != [] && RunOkFrom(s, from, jobs) && k <= |LogFrom(fs, s, jobs)|
    ensures Orderly(ExecAll(fs, LogFrom(fs, s, jobs)[..k]))
  {
    LogKinds(fs, s, from, jobs);
    OrderlyRun(fs, LogFrom(fs, s, jobs)[..k]);
  }

  // ── Reopening ──────────────────────────────────────────────────────────────

  /** The names a process can reach after the crash. */
  ghost function Found(fs: Fs, img: Image): set<Path>
  {
    set p | p in fs.view.Keys + fs.stale.Keys && img.names(p).Some? && DirFound(img, Parent(p))
  }

  /** The disk as `Store::open` leaves it: what was found is on disk; segments the manifest does not
      name have been removed, and until their directory is synced they may come back. */
  ghost function Rebooted(fs: Fs, img: Image, keep: set<Path>, version: nat): Fs
  {
    Fs(map p | p in Found(fs, img) && (IsSegment(p) ==> p in keep) :: img.names(p).value,
       map p | p in Found(fs, img) && IsSegment(p) && p !in keep :: {img.names(p)},
       map n | n in fs.data :: img.contents(n), fs.data.Keys, fs.next, version)
  }

  lemma NamesCovered(fs: Fs, img: Image, p: Path)
    requires Survives(fs, img) && img.names(p).Some?
    ensures p in fs.view.Keys + fs.stale.Keys && img.names(p) in Possible(fs, p)
  {
    assert img.names(p) in Possible(fs, p);
  }

  lemma RebootedPossible(fs: Fs, img: Image, keep: set<Path>, version: nat, p: Path)
    requires Survives(fs, img)
    ensures var t := Rebooted(fs, img, keep, version);
            && Possible(t, p) <= {None, img.names(p)}
            && ((IsSegment(p) ==> p in keep) ==> Possible(t, p) == {Seen(t, p)})
            && (Seen(t, p).Some? ==> Seen(t, p) == img.names(p))
  {
  }

  lemma {:induction false} FoundDirDurable(fs: Fs, img: Image, keep: set<Path>, version: nat, p: Path)
    requires Survives(fs, img) && Kinds(fs) && DirFound(img, p)
    ensures DurableDir(Rebooted(fs, img, keep, version), p)
    decreases if p.At? then |p.names| else 1
  {
    if p != Root {
      FoundDirKept(fs, img, keep, version, p);
      FoundDirDurable(fs, img, keep, version, Parent(p));
    }
  }

  lemma {:induction false} FoundDirKept(fs: Fs, img: Image, keep: set<Path>, version: nat, p: Path)
    requires Survives(fs, img) && Kinds(fs) && DirFound(img, p) && p != Root
    ensures p.At? && Possible(Rebooted(fs, img, keep, version), p) == {Some(Dir)} && DirFound(img, Parent(p))
  {
    NamesCovered(fs, img, p);
    assert !IsSegment(p);
    RebootedPossible(fs, img, keep, version, p);
    assert p in Found(fs, img);
  }

  lemma RebootedNumbered(fs: Fs, img: Image, keep: set<Path>, version: nat)
    requires Survives(fs, img) && Orderly(fs)
    ensures Numbered(Rebooted(fs, img, keep, version))
  {
    var t := Rebooted(fs, img, keep, version);
    forall p | p in t.view && t.view[p].File? ensures t.view[p].inode in t.data { NamesCovered(fs, img, p); }
  }

  /** Nothing is named that was not possible before. */
  ghost predicate Within(t: Fs, fs: Fs)
  {
    forall p, b :: b in Possible(t, p) && b.Some? ==> b in Possible(fs, p)
  }

  lemma WithinKinds(t: Fs, fs: Fs)
    requires Within(t, fs) && Kinds(fs) && t.data.Keys == fs.data.Keys
    ensures Kinds(t)
  {
    assert Seen(t, Root) in Possible(t, Root);
    assert forall b :: b in Possible(t, Root) && b.Some? ==> b in Possible(fs, Root);
  }

  lemma WithinApart(t: Fs, fs: Fs)
    requires Within(t, fs) && Apart(fs)
    ensures Apart(t)
  {
  }

  lemma RebootedWithin(fs: Fs, img: Image, keep: set<Path>, version: nat)
    requires Survives(fs, img)
    ensures Within(Rebooted(fs, img, keep, version), fs)
  {
    var t := Rebooted(fs, img, keep, version);
    forall p, b | b in Possible(t, p) && b.Some? ensures b in Possible(fs, p) {
      RebootedPossible(fs, img, keep, version, p);
      NamesCovered(fs, img, p);
    }
  }

  lemma RebootedOrderly(fs: Fs, img: Image, keep: set<Path>, version: nat)
    requires Survives(fs, img) && Orderly(fs)
    ensures Orderly(Rebooted(fs, img, keep, version))
  {
    var t := Rebooted(fs, img, keep, version);
    RebootedNumbered(fs, img, keep, version);
    RebootedWithin(fs, img, keep, version);
    WithinKinds(t, fs);
    WithinApart(t, fs);
  }

  /** Segment files in their place, numbered below `from`. */
  ghost predicate IdsBelow(keep: set<Path>, from: nat)
  {
    forall p :: p in keep ==>
      p.At? && |p.names| > Depth && p.names[|p.names| - 1].SegmentId? && p.names[|p.names| - 1].id < from
  }

  lemma ViewKinds(fs: Fs, p: Path)
    requires Kinds(fs) && p in fs.view
    ensures p != Root && (fs.view[p].Dir? <==> IsDirPath(p))
  {
    assert Seen(fs, p) in Possible(fs, p);
  }

  lemma RebootedView(fs: Fs, img: Image, keep: set<Path>, version: nat, p: Path)
    requires p in Rebooted(fs, img, keep, version).view
    ensures img.names(p) == Some(Rebooted(fs, img, keep, version).view[p]) && DirFound(img, Parent(p)) && (IsSegment(p) ==> p in keep)
  {
  }

  lemma RebootedShape(fs: Fs, img: Image, keep: set<Path>, version: nat, from: nat)
    requires Survives(fs, img) && Orderly(fs) && IdsBelow(keep, from)
    ensures Shape(Rebooted(fs, img, keep, version), from)
  {
    var t := Rebooted(fs, img, keep, version);
    RebootedOrderly(fs, img, keep, version);
    forall p | p in t.view ensures EntryOk(t, p, from) { RebootedEntry(fs, img, keep, version, from, p); }
    ShapeOf(t, from);
  }

  lemma ShapeOf(t: Fs, from: nat)
    requires Numbered(t) && Kinds(t) && forall p :: p in t.view ==> EntryOk(t, p, from)
    ensures Shape(t, from)
  {
    if Root in t.view { ViewKinds(t, Root); }
    forall p | p in t.view && t.view[p].Dir? ensures p.At? && DurableDir(t, p) { assert EntryOk(t, p, from); }
  }

  /** What `Shape` says of one name. */
  ghost predicate EntryOk(t: Fs, p: Path, from: nat)
    requires p in t.view
  {
    && (p.At? ==> (t.view[p].Dir? <==> |p.names| <= Depth))
    && (p.At? && |p.names| > Depth ==> p.names[|p.names| - 1].SegmentId? && p.names[|p.names| - 1].id < from)
    && (t.view[p].Dir? ==> p.At? && DurableDir(t, p))
  }

  lemma RebootedEntry(fs: Fs, img: Image, keep: set<Path>, version: nat, from: nat, p: Path)
    requires Survives(fs, img) && Orderly(fs) && IdsBelow(keep, from)
    requires Kinds(Rebooted(fs, img, keep, version)) && p in Rebooted(fs, img, keep, version).view
    ensures EntryOk(Rebooted(fs, img, keep, version), p, from)
  {
    var t := Rebooted(fs, img, keep, version);
    ViewKinds(t, p);
    RebootedView(fs, img, keep, version, p);
    if t.view[p].Dir? { FoundDirDurable(fs, img, keep, version, p); }
  }

  lemma RebootedDurable(fs: Fs, img: Image, keep: set<Path>, segments: seq<Segment>, version: nat)
    requires Survives(fs, img) && Orderly(fs) && AllDurable(fs, segments) && PathSet(segments) <= keep
    ensures AllDurable(Rebooted(fs, img, keep, version), segments)
  {
    var t := Rebooted(fs, img, keep, version);
    forall i | 0 <= i < |segments| ensures DurableFile(t, segments[i].path, SegmentFile(segments[i].rows)) {
      var p := segments[i].path;
      assert p in PathSet(segments) && img.names(p) in Possible(fs, p);
      DurableDirFound(fs, img, Parent(p));
      NamesCovered(fs, img, p);
      RebootedPossible(fs, img, keep, version, p);
      FoundDirDurable(fs, img, keep, version, Parent(p));
    }
  }

  lemma RebootedMain(fs: Fs, img: Image, keep: set<Path>, history: History, v: nat)
    requires Survives(fs, img) && Orderly(fs) && Holds(fs, history, img.names(Main), v) && history[0] == []
    requires PathSet(history[v]) <= keep
    ensures var t := Rebooted(fs, img, keep, v);
            Seen(t, Main) == img.names(Main) && Possible(t, Main) == {Seen(t, Main)} && Holds(t, history[..v + 1], Seen(t, Main), v)
  {
    var t := Rebooted(fs, img, keep, v);
    if img.names(Main).Some? { NamesCovered(fs, img, Main); }
    RebootedPossible(fs, img, keep, v, Main);
    RebootedDurable(fs, img, keep, history[v], v);
  }

  /** The rename that published the manifest was lost half way: both names are there, for one file. */
  predicate Aliased(img: Image)
  {
    img.names(Tmp).Some? && img.names(Tmp) == img.names(Main)
  }

  lemma RebootedUnshared(fs: Fs, img: Image, keep: set<Path>, version: nat)
    requires Survives(fs, img) && Orderly(fs) && !Aliased(img)
    ensures Unshared(Rebooted(fs, img, keep, version))
  {
    var t := Rebooted(fs, img, keep, version);
    if Tmp in t.view {
      RebootedView(fs, img, keep, version, Tmp);
      RebootedPossible(fs, img, keep, version, Main);
      RebootedOrderly(fs, img, keep, version);
      ViewKinds(t, Tmp);
      forall p | p in t.view && p.At? ensures t.view[p] != t.view[Tmp] {
        assert Seen(t, p) in Possible(t, p) && Seen(t, Tmp) in Possible(t, Tmp);
        NodeApart(t, Tmp, p, Seen(t, Tmp));
      }
    }
  }

  /** The version the reopened store finds. */
  ghost function FoundVersion(img: Image): nat
  {
    var main := Read(img, Main);
    if main.Some? && main.value.ManifestFile? then main.value.version else 0
  }

  /** A disk one may reopen from: in order, and its manifest's name is version `v`. */
  ghost predicate Reopens(t: Fs, history: History, img: Image, v: nat)
  {
    Survives(t, img) && Orderly(t) && Holds(t, history, img.names(Main), v) && history[0] == []
  }

  /** What the found manifest still lists: its segments, and the garbage a later collection is to
      remove. */
  ghost function Listed(history: History, img: Image, garbage: set<Path>): set<Path>
    requires FoundVersion(img) < |history|
  {
    PathSet(history[FoundVersion(img)]) + garbage
  }

  /** The disk and the history the next process starts from. */
  ghost function After(fs: Fs, history: History, img: Image, garbage: set<Path>): Fs
    requires FoundVersion(img) < |history|
  {
    Rebooted(fs, img, Listed(history, img, garbage), FoundVersion(img))
  }

  ghost function Known(history: History, img: Image): History
    requires FoundVersion(img) < |history|
  {
    history[..FoundVersion(img) + 1]
  }

  lemma RebootReady(fs: Fs, img: Image, history: History, garbage: set<Path>, from: nat)
    requires Reopens(fs, history, img, FoundVersion(img)) && !Aliased(img) && IdsBelow(Listed(history, img, garbage), from)
    ensures Ready(After(fs, history, img, garbage), Known(history, img), from)
  {
    var v, keep := FoundVersion(img), Listed(history, img, garbage);
    RebootedShape(fs, img, keep, v, from);
    RebootedUnshared(fs, img, keep, v);
    RebootedMain(fs, img, keep, history, v);
    KnownReady(After(fs, history, img, garbage), Known(history, img), from, v);
  }

  lemma {:induction false} KnownReady(t: Fs, known: History, from: nat, v: nat)
    requires Shape(t, from) && Unshared(t) && |known| == v + 1 && known[0] == [] && t.acked == v
    requires Possible(t, Main) == {Seen(t, Main)} && Holds(t, known, Seen(t, Main), v)
    ensures Ready(t, known, from)
  {
  }

  // ── Crash after crash ──────────────────────────────────────────────────────

  /** One process: it works until power is lost at operation `k`, leaving `img`; the manifest found
      there lists `garbage` besides its segments, and numbers new ones from `from`. */
  datatype Epoch = Epoch(jobs: seq<Job>, k: nat, img: Image, garbage: set<Path>, from: nat)

  /** A process starts with nothing staged: what was is an orphan. */
  function Begin(h: History): Store
  {
    Store(h, [])
  }

  ghost function Published(h: History, e: Epoch): History
    requires h != []
  {
    StoreFrom(Begin(h), e.jobs).history
  }

  ghost function End(fs: Fs, h: History, e: Epoch): Fs
    requires h != [] && e.k <= |LogFrom(fs, Begin(h), e.jobs)|
  {
    ExecAll(fs, LogFrom(fs, Begin(h), e.jobs)[..e.k])
  }

  ghost predicate Crashes(fs: Fs, h: History, from: nat, e: Epoch)
  {
    && h != [] && RunOkFrom(Begin(h), from, e.jobs) && e.k <= |LogFrom(fs, Begin(h), e.jobs)|
    && Survives(End(fs, h, e), e.img)
  }

  lemma FindsVersion(fs: Fs, img: Image, history: History, v: nat)
    requires Survives(fs, img) && Holds(fs, history, img.names(Main), v)
    ensures FoundVersion(img) == v && Reopen(img) == Some(Rows(history[v]))
  {
    if img.names(Main).Some? { SegmentsRead(fs, img, history[v]); }
  }

  /** One crash of any ready store: the version found is published, whole, and no older than any
      acknowledgement, of this run or before. */
  lemma CrashOnce(fs: Fs, h: History, from: nat, e: Epoch)
    requires Ready(fs, h, from) && Crashes(fs, h, from, e)
    ensures var v, history := FoundVersion(e.img), Published(h, e);
            && fs.acked <= End(fs, h, e).acked <= v < |history|
            && Reopen(e.img) == Some(Rows(history[v])) && Holds(End(fs, h, e), history, e.img.names(Main), v)
  {
    var t, history := End(fs, h, e), Published(h, e);
    RunRecoverable(fs, Begin(h), from, e.jobs, e.k);
    assert e.img.names(Main) in Possible(t, Main);
    var v :| t.acked <= v && Holds(t, history, e.img.names(Main), v);
    FindsVersion(t, e.img, history, v);
  }

  /** A crash the next process can start from. */
  ghost predicate Restarts(fs: Fs, h: History, from: nat, e: Epoch)
  {
    && Crashes(fs, h, from, e) && !Aliased(e.img)
    && FoundVersion(e.img) < |Published(h, e)| && IdsBelow(Listed(Published(h, e), e.img, e.garbage), e.from)
  }

  lemma RestartReady(fs: Fs, h: History, from: nat, e: Epoch)
    requires Ready(fs, h, from) && Orderly(fs) && Restarts(fs, h, from, e)
    ensures Ready(After(End(fs, h, e), Published(h, e), e.img, e.garbage), Known(Published(h, e), e.img), e.from)
  {
    EndHolds(fs, h, from, e);
    RebootReady(End(fs, h, e), e.img, Published(h, e), e.garbage, e.from);
  }

  lemma EndHolds(fs: Fs, h: History, from: nat, e: Epoch)
    requires Ready(fs, h, from) && Orderly(fs) && Crashes(fs, h, from, e)
    ensures Reopens(End(fs, h, e), Published(h, e), e.img, FoundVersion(e.img))
  {
    CrashHolds(fs, h, from, e);
    RunOrderly(fs, Begin(h), from, e.jobs, e.k);
  }

  lemma CrashHolds(fs: Fs, h: History, from: nat, e: Epoch)
    requires Ready(fs, h, from) && Crashes(fs, h, from, e)
    ensures Published(h, e)[0] == []
    ensures Holds(End(fs, h, e), Published(h, e), e.img.names(Main), FoundVersion(e.img))
  {
    CrashOnce(fs, h, from, e);
  }

  lemma RestartOrderly(fs: Fs, h: History, from: nat, e: Epoch)
    requires Orderly(fs) && Restarts(fs, h, from, e)
    ensures Orderly(After(End(fs, h, e), Published(h, e), e.img, e.garbage))
  {
    RunOrderly(fs, Begin(h), from, e.jobs, e.k);
    RebootedOrderly(End(fs, h, e), e.img, Listed(Published(h, e), e.img, e.garbage), FoundVersion(e.img));
  }

  // ── Process after process ──────────────────────────────────────────────────

  datatype Point = Point(fs: Fs, h: History, from: nat)

  ghost predicate Sound(p: Point)
  {
    Ready(p.fs, p.h, p.from) && Orderly(p.fs)
  }

  ghost function Next(p: Point, e: Epoch): Point
    requires Restarts(p.fs, p.h, p.from, e)
  {
    Point(After(End(p.fs, p.h, e), Published(p.h, e), e.img, e.garbage), Known(Published(p.h, e), e.img), e.from)
  }

  lemma NextSound(p: Point, e: Epoch)
    requires Sound(p) && Restarts(p.fs, p.h, p.from, e)
    ensures Sound(Next(p, e))
  {
    RestartReady(p.fs, p.h, p.from, e);
    RestartOrderly(p.fs, p.h, p.from, e);
  }

  /** One process after another, each ended by a power loss. */
  ghost predicate Life(p: Point, epochs: seq<Epoch>)
    requires epochs != []
    decreases |epochs|
  {
    if |epochs| == 1 then Crashes(p.fs, p.h, p.from, epochs[0])
    else Restarts(p.fs, p.h, p.from, epochs[0]) && Life(Next(p, epochs[0]), epochs[1..])
  }

  /** The newest version acknowledged in any of the runs. */
  ghost function Acknowledged(p: Point, epochs: seq<Epoch>): nat
    requires epochs != [] && Life(p, epochs)
    decreases |epochs|
  {
    var here := End(p.fs, p.h, epochs[0]).acked;
    if |epochs| == 1 then here
    else
      var later := Acknowledged(Next(p, epochs[0]), epochs[1..]);
      if here < later then later else here
  }

  /** The versions published in the last run, after those the earlier crashes left. */
  ghost function FinalHistory(p: Point, epochs: seq<Epoch>): History
    requires epochs != [] && Life(p, epochs)
    decreases |epochs|
  {
    if |epochs| == 1 then Published(p.h, epochs[0]) else FinalHistory(Next(p, epochs[0]), epochs[1..])
  }

  lemma OneEpoch(p: Point, e: Epoch)
    requires Sound(p) && Crashes(p.fs, p.h, p.from, e)
    ensures var v := FoundVersion(e.img);
            && p.fs.acked <= End(p.fs, p.h, e).acked <= v < |Published(p.h, e)|
            && Reopen(e.img) == Some(Rows(Published(p.h, e)[v]))
  {
    CrashOnce(p.fs, p.h, p.from, e);
  }

  /** The store reopens on a version of its history that no acknowledgement is newer than. */
  ghost predicate Survived(p: Point, epochs: seq<Epoch>)
    requires epochs != [] && Life(p, epochs)
  {
    var v, history := FoundVersion(epochs[|epochs| - 1].img), FinalHistory(p, epochs);
    && p.fs.acked <= v < |history| && Acknowledged(p, epochs) <= v
    && Reopen(epochs[|epochs| - 1].img) == Some(Rows(history[v]))
  }

  lemma SurvivedEarlier(p: Point, epochs: seq<Epoch>)
    requires |epochs| > 1 && Sound(p) && Life(p, epochs) && Survived(Next(p, epochs[0]), epochs[1..])
    ensures Survived(p, epochs)
  {
    OneEpoch(p, epochs[0]);
    assert epochs[1..][|epochs| - 2] == epochs[|epochs| - 1];
    assert Next(p, epochs[0]).fs.acked == FoundVersion(epochs[0].img);
  }

  /** Crash safety for a whole life: however often power is lost, and wherever, the last crash too
      leaves a store that reopens without error on exactly the rows of a version of its history,
      at least as new as everything acknowledged in any of its runs. */
  lemma {:induction false} LifeSafe(p: Point, epochs: seq<Epoch>)
    requires epochs != [] && Sound(p) && Life(p, epochs)
    ensures Survived(p, epochs)
    decreases |epochs|
  {
    if |epochs| == 1 {
      OneEpoch(p, epochs[0]);
    } else {
      NextSound(p, epochs[0]);
      LifeSafe(Next(p, epochs[0]), epochs[1..]);
      SurvivedEarlier(p, epochs);
    }
  }

  const Fresh := Point(Empty, Nothing, 0)

  lemma FreshSound()
    ensures Sound(Fresh)
  {
    EmptyReady();
    forall p ensures Possible(Empty, p) == {None} {}
  }

  /** From an empty directory on. */
  lemma CrashesSafe(epochs: seq<Epoch>)
    requires epochs != [] && Life(Fresh, epochs)
    ensures var v, history := FoundVersion(epochs[|epochs| - 1].img), FinalHistory(Fresh, epochs);
            && v < |history| && Acknowledged(Fresh, epochs) <= v
            && Reopen(epochs[|epochs| - 1].img) == Some(Rows(history[v]))
  {
    FreshSound();
    LifeSafe(Fresh, epochs);
  }

  // ── The one image a store must not be left with ────────────────────────────

  /** Writing the next temporary manifest over a leftover one is safe exactly when the leftover is
      not also the manifest itself. */
  lemma NextWriteSafeIff(fs: Fs, img: Image, history: History, garbage: set<Path>, c: Content)
    requires Reopens(fs, history, img, FoundVersion(img)) && exists from :: IdsBelow(Listed(history, img, garbage), from)
    ensures Recoverable(Exec(After(fs, history, img, garbage), Write(Tmp, c)), Known(history, img)) <==> !Aliased(img)
  {
    var t := After(fs, history, img, garbage);
    if Aliased(img) {
      AliasTruncates(fs, img, history, garbage, c);
    } else {
      var from :| IdsBelow(Listed(history, img, garbage), from);
      RebootReady(fs, img, history, garbage, from);
      ReadyIsRecoverable(t, Known(history, img), from);
      TmpWrite(t, from, Known(history, img), [], c);
    }
  }

  lemma AliasTruncates(fs: Fs, img: Image, history: History, garbage: set<Path>, c: Content)
    requires Reopens(fs, history, img, FoundVersion(img)) && Aliased(img)
    ensures !Recoverable(Exec(After(fs, history, img, garbage), Write(Tmp, c)), Known(history, img))
  {
    var t := After(fs, history, img, garbage);
    NamesCovered(fs, img, Tmp);
    NamesCovered(fs, img, Main);
    var b := Exec(t, Write(Tmp, c));
    assert t.view[Tmp] == t.view[Main] && t.view[Tmp].File?;
    assert Seen(b, Main) in Possible(b, Main) && Seen(b, Main) == Some(t.view[Tmp]);
    assert b.view[Main].inode !in b.synced;
  }

  /** Such an image needs a rename of which one name was kept and the other not undone: between the
      rename and the sync of the root directory nothing in the model forbids it. */
  lemma AliasPossible(fs: Fs) returns (img: Image)
    requires Tmp in fs.view && fs.view[Tmp].File?
    ensures Survives(Exec(fs, Rename(Tmp, Main)), img) && Aliased(img)
  {
    var t := Exec(fs, Rename(Tmp, Main));
    var node := Seen(fs, Tmp);
    img := Image(p => if p == Tmp then node else Seen(t, p), n => if n in t.data then t.data[n] else Torn);
    assert node in Possible(t, Tmp) && Seen(t, Main) == node;
  }
}
