/** The crash harness's judgement of a reopened store (harness/src/crash/verdict.rs), and that every
    store the durability proof allows is judged sound. */
module Verdict {
  import opened Options
  import Disk
  import Crash

  type Row = Disk.Row

  datatype Defect =
    | LostAck(batch: nat)
    | TornBatch(batch: nat, present: nat)
    | Phantom(batch: nat)
    | Duplicate(row: Row)

  /** The indexes found for one batch. */
  function Present(rows: seq<Row>, batch: nat): set<nat>
  {
    set i | 0 <= i < |rows| && rows[i].0 == batch :: rows[i].1
  }

  predicate NoDuplicates(rows: seq<Row>)
  {
    forall i, j :: 0 <= i < j < |rows| ==> rows[i] != rows[j]
  }

  predicate Sent(highestSent: Option<nat>, batch: nat)
  {
    highestSent.Some? && batch <= highestSent.value
  }

  function Ceiling(highestSent: Option<nat>): (c: nat)
    ensures forall b: nat :: b < c <==> Sent(highestSent, b)
  {
    if highestSent.Some? then highestSent.value + 1 else 0
  }

  /** A sent batch is complete, or empty and unacknowledged. */
  predicate BatchOk(acked: nat, expected: nat, rows: seq<Row>, batch: nat)
  {
    var n := |Present(rows, batch)|;
    if n == 0 then batch >= acked else n == expected
  }

  /** What a recovered store must look like. */
  ghost predicate Sound(acked: nat, highestSent: Option<nat>, expected: nat, rows: seq<Row>)
  {
    && NoDuplicates(rows)
    && (forall b: nat :: Sent(highestSent, b) ==> BatchOk(acked, expected, rows, b))
    && (forall i :: 0 <= i < |rows| ==> Sent(highestSent, rows[i].0))
  }

  /** The defect is really there. */
  ghost predicate Found(d: Defect, acked: nat, highestSent: Option<nat>, expected: nat, rows: seq<Row>)
  {
    match d
    case LostAck(b) => b < acked && Sent(highestSent, b) && Present(rows, b) == {}
    case TornBatch(b, n) => Sent(highestSent, b) && n == |Present(rows, b)| && n != 0 && n != expected
    case Phantom(b) => !Sent(highestSent, b) && Present(rows, b) != {}
    case Duplicate(row) => exists i, j :: 0 <= i < j < |rows| && rows[i] == row && rows[j] == row
  }

  /** The map of sets holds the batches seen so far. */
  ghost predicate Counted(perBatch: map<nat, set<nat>>, rows: seq<Row>, n: nat)
    requires n <= |rows|
  {
    && (forall b :: b in perBatch ==> perBatch[b] == Present(rows[..n], b) && perBatch[b] != {})
    && (forall b :: b !in perBatch ==> Present(rows[..n], b) == {})
  }

  lemma PresentPush(rows: seq<Row>, n: nat, b: nat)
    requires n < |rows|
    ensures Present(rows[..n + 1], b) == Present(rows[..n], b) + if rows[n].0 == b then {rows[n].1} else {}
  {
    var a, c := rows[..n], rows[..n + 1];
    assert c == a + [rows[n]];
    forall x | x in Present(c, b) ensures x in Present(a, b) + (if rows[n].0 == b then {rows[n].1} else {}) {
      var i :| 0 <= i < |c| && c[i].0 == b && c[i].1 == x;
      if i < n { assert a[i] == c[i]; }
    }
    forall x | x in Present(a, b) ensures x in Present(c, b) {
      var i :| 0 <= i < |a| && a[i].0 == b && a[i].1 == x;
      assert c[i] == a[i];
    }
    if rows[n].0 == b { assert c[n] == rows[n]; }
  }

  lemma SeenBefore(rows: seq<Row>, n: nat)
    requires n < |rows| && rows[n].1 in Present(rows[..n], rows[n].0)
    ensures exists i :: 0 <= i < n && rows[i] == rows[n]
  {
    var a := rows[..n];
    var i :| 0 <= i < |a| && a[i].0 == rows[n].0 && a[i].1 == rows[n].1;
    assert rows[i] == rows[n];
  }

  lemma NotSeenBefore(rows: seq<Row>, n: nat)
    requires n < |rows| && NoDuplicates(rows[..n]) && rows[n].1 !in Present(rows[..n], rows[n].0)
    ensures NoDuplicates(rows[..n + 1])
  {
    var a, c := rows[..n], rows[..n + 1];
    forall i, j | 0 <= i < j < |c| ensures c[i] != c[j] {
      if j < n { assert a[i] == c[i] && a[j] == c[j]; } else { assert a[i] == c[i]; }
    }
  }

  /** `verdict`: accepts exactly the sound stores, and any defect it reports is one. */
  method Judge(acked: nat, highestSent: Option<nat>, expected: nat, rows: seq<Row>) returns (r: Option<Defect>)
    ensures r.None? <==> Sound(acked, highestSent, expected, rows)
    ensures r.Some? ==> Found(r.value, acked, highestSent, expected, rows)
  {
    var perBatch: map<nat, set<nat>> := map[];
    var n := 0;
    while n < |rows|
      invariant 0 <= n <= |rows| && NoDuplicates(rows[..n]) && Counted(perBatch, rows, n)
    {
      var (batch, idx) := rows[n];
      var entry := if batch in perBatch then perBatch[batch] else {};
      if idx in entry {
        SeenBefore(rows, n);
        return Some(Duplicate(rows[n]));
      }
      NotSeenBefore(rows, n);
      forall b ensures Present(rows[..n + 1], b) == Present(rows[..n], b) + if rows[n].0 == b then {rows[n].1} else {} {
        PresentPush(rows, n, b);
      }
      perBatch := perBatch[batch := entry + {idx}];
      n := n + 1;
    }
    assert rows[..n] == rows;
    var ceiling := Ceiling(highestSent);
    var batch := 0;
    while batch < ceiling
      invariant 0 <= batch <= ceiling && forall b :: 0 <= b < batch ==> BatchOk(acked, expected, rows, b)
    {
      var present := if batch in perBatch then |perBatch[batch]| else 0;
      assert present == |Present(rows, batch)|;
      if present == 0 {
        if batch < acked {
          assert !BatchOk(acked, expected, rows, batch);
          return Some(LostAck(batch));
        }
      } else if present != expected {
        assert !BatchOk(acked, expected, rows, batch);
        return Some(TornBatch(batch, present));
      }
      batch := batch + 1;
    }
    r := NoPhantom(perBatch, ceiling, rows, acked, highestSent, expected);
  }

  method NoPhantom(
    perBatch: map<nat, set<nat>>, ceiling: nat, rows: seq<Row>, acked: nat, highestSent: Option<nat>, expected: nat)
    returns (r: Option<Defect>)
    requires rows[..|rows|] == rows && Counted(perBatch, rows, |rows|) && ceiling == Ceiling(highestSent)
    ensures r.None? <==> forall i :: 0 <= i < |rows| ==> rows[i].0 < ceiling
    ensures r.Some? ==> Found(r.value, acked, highestSent, expected, rows)
  {
    var todo := perBatch.Keys;
    while todo != {}
      invariant todo <= perBatch.Keys
      invariant forall b :: b in perBatch && b !in todo ==> b < ceiling
      decreases |todo|
    {
      var b :| b in todo;
      if b >= ceiling {
        assert Present(rows, b) != {};
        var x :| x in Present(rows, b);
        return Some(Phantom(b));
      }
      todo := todo - {b};
    }
    forall i | 0 <= i < |rows| ensures rows[i].0 < ceiling {
      assert rows[i].1 in Present(rows, rows[i].0);
    }
    r := None;
  }

  // ── Recovered stores are sound ─────────────────────────────────────────────

  /** The rows of batch `b`: (b, 0) .. (b, size - 1), each once, in any order. */
  ghost predicate IsBatch(rows: seq<Row>, b: nat, size: nat)
  {
    NoDuplicates(rows) && forall x: Row :: x in rows <==> x.0 == b && x.1 < size
  }

  /** The flushes of a workload: flush `b` writes batch `b`, in whatever order and files the engine
      chooses. */
  ghost predicate Workload(flushes: seq<seq<Crash.Table>>, size: nat)
  {
    forall b :: 0 <= b < |flushes| ==> IsBatch(Crash.Rows(Crash.Segments(flushes[b])), b, size)
  }

  lemma {:induction false} RowsConcat(a: seq<Crash.Segment>, b: seq<Crash.Segment>)
    ensures Crash.Rows(a + b) == Crash.Rows(a) + Crash.Rows(b)
    decreases |b|
  {
    if b == [] {
      assert a + b == a;
    } else {
      assert (a + b)[..|a + b| - 1] == a + b[..|b| - 1];
      RowsConcat(a, b[..|b| - 1]);
    }
  }

  ghost predicate GrowsAt(history: Crash.History, flushes: seq<seq<Crash.Table>>, v: nat)
  {
    v < |flushes| && v + 1 < |history| ==> history[v + 1] == history[v] + Crash.Segments(flushes[v])
  }

  /** Each version has the segments of the one before and those of one more flush. */
  ghost predicate Grows(history: Crash.History, flushes: seq<seq<Crash.Table>>)
  {
    |history| == |flushes| + 1 && history[0] == [] && forall v :: 0 <= v < |flushes| ==> GrowsAt(history, flushes, v)
  }

  lemma {:induction false} GrowsFurther(history: Crash.History, longer: Crash.History, flushes: seq<seq<Crash.Table>>)
    requires flushes != [] && Grows(history, flushes[..|flushes| - 1])
    requires longer == history + [history[|flushes| - 1] + Crash.Segments(flushes[|flushes| - 1])]
    ensures Grows(longer, flushes)
  {
    forall v | 0 <= v < |flushes| ensures GrowsAt(longer, flushes, v) {
      if v < |flushes| - 1 { assert GrowsAt(history, flushes[..|flushes| - 1], v); }
    }
  }

  lemma {:induction false} FlushesGrow(flushes: seq<seq<Crash.Table>>)
    ensures Grows(Crash.HistoryOf(Crash.Flushes(flushes)), flushes)
  {
    if flushes != [] {
      var init := flushes[..|flushes| - 1];
      FlushesGrow(init);
      Crash.FlushesRun(flushes);
      GrowsFurther(Crash.HistoryOf(Crash.Flushes(init)), Crash.HistoryOf(Crash.Flushes(flushes)), flushes);
    }
  }

  /** Whole batches `0 .. v`, each row once, and nothing else. */
  ghost predicate FirstBatches(rows: seq<Row>, v: nat, size: nat)
  {
    NoDuplicates(rows) && forall x: Row :: x in rows <==> x.0 < v && x.1 < size
  }

  lemma {:induction false} PublishedRows(history: Crash.History, flushes: seq<seq<Crash.Table>>, size: nat, v: nat)
    requires Grows(history, flushes) && Workload(flushes, size) && v <= |flushes|
    ensures FirstBatches(Crash.Rows(history[v]), v, size)
    decreases v
  {
    if v > 0 {
      PublishedRows(history, flushes, size, v - 1);
      assert GrowsAt(history, flushes, v - 1);
      RowsConcat(history[v - 1], Crash.Segments(flushes[v - 1]));
      OneMoreBatch(Crash.Rows(history[v - 1]), Crash.Rows(Crash.Segments(flushes[v - 1])), v - 1, size);
    }
  }

  lemma OneMoreBatch(a: seq<Row>, b: seq<Row>, v: nat, size: nat)
    requires FirstBatches(a, v, size) && IsBatch(b, v, size)
    ensures FirstBatches(a + b, v + 1, size)
  {
    var rows := a + b;
    forall i, j | 0 <= i < j < |rows| ensures rows[i] != rows[j] {
      if i < |a| <= j {
        assert a[i] in a && b[j - |a|] in b;
      }
    }
    forall x: Row ensures x in rows <==> x.0 < v + 1 && x.1 < size {
      assert x in rows <==> x in a || x in b;
    }
  }

  function UpTo(n: nat): (s: set<nat>)
    ensures |s| == n && forall i: nat :: i in s <==> i < n
  {
    if n == 0 then {} else UpTo(n - 1) + {n - 1}
  }

  lemma BatchSize(rows: seq<Row>, v: nat, size: nat, b: nat)
    requires FirstBatches(rows, v, size)
    ensures |Present(rows, b)| == if b < v then size else 0
  {
    forall k | 0 <= k < |rows| ensures rows[k].0 < v && rows[k].1 < size { assert rows[k] in rows; }
    if b < v {
      forall i: nat | i < size ensures i in Present(rows, b) {
        assert (b, i) in rows;
        var k :| 0 <= k < |rows| && rows[k] == (b, i);
      }
      assert Present(rows, b) == UpTo(size);
    } else {
      assert Present(rows, b) == {};
    }
  }

  lemma BatchesAreSound(rows: seq<Row>, v: nat, size: nat, seenAcks: nat, highestSent: Option<nat>)
    requires FirstBatches(rows, v, size) && size >= 1 && seenAcks <= v <= Ceiling(highestSent)
    ensures Sound(seenAcks, highestSent, size, rows)
  {
    forall b | 0 <= b < Ceiling(highestSent) ensures BatchOk(seenAcks, size, rows, b) {
      BatchSize(rows, v, size, b);
    }
    forall i | 0 <= i < |rows| ensures rows[i].0 < Ceiling(highestSent) {
      assert rows[i] in rows;
    }
  }

  /** With batches of no rows an acknowledged batch cannot be told from a lost one. */
  lemma EmptyBatchesAlwaysLost(acked: nat, highestSent: Option<nat>)
    ensures Sound(acked, highestSent, 0, []) <==> acked == 0 || highestSent.None?
  {
    assert forall b :: Present([], b) == {};
    if acked > 0 && highestSent.Some? { assert Sent(highestSent, 0); assert !BatchOk(acked, 0, [], 0); }
  }

  lemma HasRow(rows: seq<Row>)
    ensures rows == [] || exists x :: x in rows
  {
    if rows != [] { assert rows[0] in rows; }
  }

  lemma {:induction false} SoundIff(rows: seq<Row>, v: nat, size: nat, seenAcks: nat, highestSent: Option<nat>)
    requires FirstBatches(rows, v, size) && seenAcks <= v <= Ceiling(highestSent)
    ensures Sound(seenAcks, highestSent, size, rows) <==> size > 0 || seenAcks == 0
  {
    if size > 0 {
      BatchesAreSound(rows, v, size, seenAcks, highestSent);
    } else {
      HasRow(rows);
      EmptyBatchesAlwaysLost(seenAcks, highestSent);
    }
  }

  /** The rows of any version a workload publishes. */
  lemma {:induction false} FlushedRows(flushes: seq<seq<Crash.Table>>, size: nat, v: nat)
    requires Workload(flushes, size) && v < |Crash.HistoryOf(Crash.Flushes(flushes))|
    ensures v <= |flushes| && FirstBatches(Crash.Rows(Crash.HistoryOf(Crash.Flushes(flushes))[v]), v, size)
  {
    FlushesGrow(flushes);
    PublishedRows(Crash.HistoryOf(Crash.Flushes(flushes)), flushes, size, v);
  }

  /** Crash a workload anywhere and reopen, for whatever acks and sends the parent happened to
      observe: the store opens, and the verdict on the rows found is clean exactly when batches have
      rows or none was acknowledged. */
  lemma CrashIsJudgedSound(
    flushes: seq<seq<Crash.Table>>, size: nat, k: nat, img: Disk.Image, seenAcks: nat, highestSent: Option<nat>)
    requires Crash.RunOk(Crash.Flushes(flushes)) && Workload(flushes, size) && k <= |Crash.LogOf(Crash.Flushes(flushes))|
    requires Disk.Survives(Disk.ExecAll(Disk.Empty, Crash.LogOf(Crash.Flushes(flushes))[..k]), img)
    requires seenAcks <= Disk.ExecAll(Disk.Empty, Crash.LogOf(Crash.Flushes(flushes))[..k]).acked
    requires |flushes| <= Ceiling(highestSent)
    ensures Crash.Reopen(img).Some?
    ensures Sound(seenAcks, highestSent, size, Crash.Reopen(img).value) <==> size > 0 || seenAcks == 0
  {
    var v := Crash.CrashSafe(Crash.Flushes(flushes), k, img);
    FlushedRows(flushes, size, v);
    SoundIff(Crash.Reopen(img).value, v, size, seenAcks, highestSent);
  }
}
