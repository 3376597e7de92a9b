/** The filesystem steps of src/storage/io.rs, with what a power loss may do to them: data not yet
    synced may hold anything, and a name whose directory was not synced since it changed may be
    any of the things it was. */
module Disk {
  import opened Options

  /** (batch, index within the batch). */
  type Row = (nat, nat)

  datatype Name = Named(text: string) | SegmentId(id: nat)

  /** Paths under the store's root. */
  datatype Path = Main | Tmp | Versioned(v: nat) | At(names: seq<Name>)

  const Root := At([])

  function Parent(p: Path): Path
  {
    if p.At? && p.names != [] then At(p.names[..|p.names| - 1]) else Root
  }

  datatype Content = ManifestFile(version: nat, segments: seq<Path>) | SegmentFile(rows: seq<Row>) | Torn

  datatype Node = File(inode: nat) | Dir

  datatype Op =
    | Write(p: Path, content: Content)
    | SyncFile(p: Path)
    | SyncDir(d: Path)
    | Rename(from: Path, to: Path)
    | Link(from: Path, to: Path)
    | CreateDir(p: Path)
    | Remove(p: Path)
    | Ack(v: nat)

  /** `view` is what a running process sees; `stale` what a name also was since its directory was
      last synced. */
  datatype Fs = Fs(
    view: map<Path, Node>, stale: map<Path, set<Option<Node>>>,
    data: map<nat, Content>, synced: set<nat>, next: nat, acked: nat)

  const Empty := Fs(map[], map[], map[], {}, 0, 0)

  function Seen(fs: Fs, p: Path): Option<Node>
  {
    if p in fs.view then Some(fs.view[p]) else None
  }

  /** What `p` may be after a crash. */
  function Possible(fs: Fs, p: Path): set<Option<Node>>
  {
    (if p in fs.stale then fs.stale[p] else {}) + {Seen(fs, p)}
  }

  function Bind(fs: Fs, p: Path, node: Option<Node>): Fs
  {
    fs.(stale := fs.stale[p := Possible(fs, p)],
        view := if node.Some? then fs.view[p := node.value] else fs.view - {p})
  }

  predicate IsDir(fs: Fs, p: Path)
  {
    p == Root || Seen(fs, p) == Some(Dir)
  }

  /** One operation. Creating over an existing file truncates it in place. */
  function Exec(fs: Fs, op: Op): Fs
  {
    match op
    case Write(p, content) =>
      if p in fs.view && fs.view[p].File? then
        fs.(data := fs.data[fs.view[p].inode := content], synced := fs.synced - {fs.view[p].inode})
      else
        Bind(fs, p, Some(File(fs.next))).(data := fs.data[fs.next := content], synced := fs.synced - {fs.next},
                                          next := fs.next + 1)
    case SyncFile(p) =>
      if p in fs.view && fs.view[p].File? then fs.(synced := fs.synced + {fs.view[p].inode}) else fs
    case SyncDir(d) => fs.(stale := map p | p in fs.stale && Parent(p) != d :: fs.stale[p])
    case Rename(from, to) => if from in fs.view then Bind(Bind(fs, to, Seen(fs, from)), from, None) else fs
    case Link(from, to) => if from in fs.view && to !in fs.view then Bind(fs, to, Seen(fs, from)) else fs
    case CreateDir(p) => if p in fs.view then fs else Bind(fs, p, Some(Dir))
    case Remove(p) => if p in fs.view then Bind(fs, p, None) else fs
    case Ack(v) => fs.(acked := v)
  }

  function ExecAll(fs: Fs, ops: seq<Op>): Fs
  {
    if ops == [] then fs else Exec(ExecAll(fs, ops[..|ops| - 1]), ops[|ops| - 1])
  }

  lemma {:induction false} ExecAllAppend(fs: Fs, a: seq<Op>, b: seq<Op>)
    ensures ExecAll(fs, a + b) == ExecAll(ExecAll(fs, a), b)
    decreases |b|
  {
    if b == [] {
      assert a + b == a;
    } else {
      assert (a + b)[..|a + b| - 1] == a + b[..|b| - 1];
      ExecAllAppend(fs, a, b[..|b| - 1]);
    }
  }

  lemma {:induction false} ExecStep(fs: Fs, ops: seq<Op>, k: nat)
    requires k < |ops|
    ensures ExecAll(fs, ops[..k + 1]) == Exec(ExecAll(fs, ops[..k]), ops[k])
  {
    assert ops[..k + 1][..k] == ops[..k];
  }

  lemma {:induction false} ExecAllWithin(fs: Fs, a: seq<Op>, b: seq<Op>, k: nat)
    requires |a| <= k <= |a| + |b|
    ensures ExecAll(fs, (a + b)[..k]) == ExecAll(ExecAll(fs, a), b[..k - |a|])
  {
    assert (a + b)[..k] == a + b[..k - |a|];
    ExecAllAppend(fs, a, b[..k - |a|]);
  }

  // ── Power loss ─────────────────────────────────────────────────────────────

  datatype Image = Image(names: Path -> Option<Node>, contents: nat -> Content)

  /** `img` may be what is found after losing power in state `fs`: each name is one of the things
      it may be, independently of the others, and synced data is intact. */
  ghost predicate Survives(fs: Fs, img: Image)
  {
    && (forall p :: img.names(p) in Possible(fs, p))
    && (forall n :: n in fs.synced && n in fs.data ==> img.contents(n) == fs.data[n])
  }

  ghost predicate DirFound(img: Image, p: Path)
    decreases if p.At? then |p.names| else 1
  {
    p == Root || (p.At? && img.names(p) == Some(Dir) && DirFound(img, Parent(p)))
  }

  ghost function Read(img: Image, p: Path): Option<Content>
  {
    var node := img.names(p);
    if DirFound(img, Parent(p)) && node.Some? && node.value.File? then Some(img.contents(node.value.inode)) else None
  }

  // ── What cannot be lost ────────────────────────────────────────────────────

  ghost predicate DurableDir(fs: Fs, p: Path)
    decreases if p.At? then |p.names| else 1
  {
    p == Root || (p.At? && Possible(fs, p) == {Some(Dir)} && DurableDir(fs, Parent(p)))
  }

  /** The running process sees `c`, and the data is synced; the name may still be lost. */
  ghost predicate SyncedFile(fs: Fs, p: Path, c: Content)
  {
    && p in fs.view && fs.view[p].File? && fs.view[p].inode in fs.synced
    && fs.view[p].inode in fs.data && fs.data[fs.view[p].inode] == c
  }

  ghost predicate DurableFile(fs: Fs, p: Path, c: Content)
  {
    SyncedFile(fs, p, c) && Possible(fs, p) == {Seen(fs, p)} && DurableDir(fs, Parent(p))
  }

  lemma {:induction false} DurableDirFound(fs: Fs, img: Image, p: Path)
    requires Survives(fs, img) && DurableDir(fs, p)
    ensures DirFound(img, p)
    decreases if p.At? then |p.names| else 1
  {
    if p != Root {
      assert img.names(p) in Possible(fs, p);
      DurableDirFound(fs, img, Parent(p));
    }
  }

  /** A durable file is read back whatever else is lost. */
  lemma DurableFileRead(fs: Fs, img: Image, p: Path, c: Content)
    requires Survives(fs, img) && DurableFile(fs, p, c)
    ensures Read(img, p) == Some(c)
  {
    DurableDirFound(fs, img, Parent(p));
    assert img.names(p) in Possible(fs, p);
  }

  // ── Operations that take nothing away ──────────────────────────────────────

  /** Everything visible in `a` is still there in `b`, no less durable. */
  ghost predicate Extends(a: Fs, b: Fs)
  {
    && (forall p :: p in a.view || p == Main ==> Seen(b, p) == Seen(a, p) && Possible(b, p) <= Possible(a, p))
    && a.synced <= b.synced && (forall n :: n in a.data && n in a.synced ==> n in b.data && b.data[n] == a.data[n])
    && b.acked == a.acked
  }

  lemma ExtendsTransitive(a: Fs, b: Fs, c: Fs)
    requires Extends(a, b) && Extends(b, c)
    ensures Extends(a, c)
  {
    forall p | p in a.view || p == Main ensures Seen(c, p) == Seen(a, p) && Possible(c, p) <= Possible(a, p) {
      assert p in a.view ==> Seen(a, p).Some? && p in b.view;
    }
  }

  lemma {:induction false} ExtendsKeepsDir(a: Fs, b: Fs, p: Path)
    requires Extends(a, b) && DurableDir(a, p)
    ensures DurableDir(b, p)
    decreases if p.At? then |p.names| else 1
  {
    if p != Root {
      assert Seen(a, p) in Possible(a, p);
      assert p in a.view;
      assert Seen(b, p) in Possible(b, p);
      ExtendsKeepsDir(a, b, Parent(p));
    }
  }

  lemma ExtendsKeepsFile(a: Fs, b: Fs, p: Path, c: Content)
    requires Extends(a, b) && SyncedFile(a, p, c)
    ensures SyncedFile(b, p, c)
    ensures DurableFile(a, p, c) ==> DurableFile(b, p, c)
  {
    assert Seen(a, p).Some? && Seen(b, p) == Seen(a, p);
    assert Seen(b, p) in Possible(b, p);
    if DurableFile(a, p, c) { ExtendsKeepsDir(a, b, Parent(p)); }
  }

  /** New names other than the manifest, and syncs of anything. */
  predicate Quiet(fs: Fs, op: Op)
  {
    match op
    case Write(p, _) => p != Main && p !in fs.view
    case CreateDir(p) => p != Main && p !in fs.view
    case Link(_, to) => to != Main
    case SyncFile(_) => true
    case SyncDir(_) => true
    case _ => false
  }

  /** Inode numbers are handed out once. */
  ghost predicate Numbered(fs: Fs)
  {
    && (forall n :: n in fs.data ==> n < fs.next)
    && (forall n :: n in fs.synced ==> n in fs.data)
    && (forall p :: p in fs.view && fs.view[p].File? ==> fs.view[p].inode in fs.data)
  }

  lemma NumberedKept(fs: Fs, op: Op)
    requires Numbered(fs)
    ensures Numbered(Exec(fs, op))
  {
  }

  lemma QuietExtends(fs: Fs, op: Op)
    requires Numbered(fs) && Quiet(fs, op)
    ensures Extends(fs, Exec(fs, op))
  {
  }

  predicate QuietAll(fs: Fs, ops: seq<Op>)
  {
    forall k :: 0 <= k < |ops| ==> Quiet(ExecAll(fs, ops[..k]), ops[k])
  }

  lemma {:induction false} QuietPrefix(fs: Fs, ops: seq<Op>, k: nat)
    requires Numbered(fs) && QuietAll(fs, ops) && k <= |ops|
    ensures Numbered(ExecAll(fs, ops[..k])) && Extends(fs, ExecAll(fs, ops[..k]))
    decreases k
  {
    if k == 0 {
      assert ops[..0] == [];
    } else {
      QuietPrefix(fs, ops, k - 1);
      assert ops[..k][..k - 1] == ops[..k - 1];
      var mid := ExecAll(fs, ops[..k - 1]);
      NumberedKept(mid, ops[k - 1]);
      QuietExtends(mid, ops[k - 1]);
      ExtendsTransitive(fs, mid, Exec(mid, ops[k - 1]));
    }
  }

  lemma {:induction false} QuietAllAppend(fs: Fs, a: seq<Op>, b: seq<Op>)
    requires QuietAll(fs, a) && QuietAll(ExecAll(fs, a), b)
    ensures QuietAll(fs, a + b)
  {
    var ops := a + b;
    forall k | 0 <= k < |ops| ensures Quiet(ExecAll(fs, ops[..k]), ops[k]) {
      if k < |a| {
        assert ops[..k] == a[..k];
      } else {
        assert ops[..k] == a + b[..k - |a|];
        ExecAllAppend(fs, a, b[..k - |a|]);
      }
    }
  }
}
