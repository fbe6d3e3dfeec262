/**
 Deletes of full-snapshot connectors: the keys of the previous snapshot that the new one lacks
 are tombstoned, so that no staged key ever disappears unrecorded.
 */
module Snapshots {
  import opened Outcomes
  import opened Staging

  /** A staged record with its natural identity. */
  datatype Record = Record(sourceId: string, data: string)

  function Keys(rows: seq<Record>): set<string> {
    set r | r in rows :: r.sourceId
  }

  /** What one run gets from the source. */
  datatype Run = Run(stream: seq<Record>, raises: bool, mode: Mode)

  /** The staged file, every tombstone row written, and every key staged at the end of some run. */
  datatype Warehouse = Warehouse(staged: Staged<Record>, tombstones: multiset<string>, ever: set<string>)

  function Tombstoned(w: Warehouse, run: Run): set<string> {
    if run.raises || !run.mode.Backfill? || run.stream == [] then {}
    else Keys(Rows(w.staged)) - Keys(run.stream)
  }

  function NextStaged(w: Warehouse, run: Run): Staged<Record> {
    if run.raises then AfterFailure(w.staged, run.stream, run.mode) else AfterSuccess(w.staged, run.stream, run.mode)
  }

  function Next(w: Warehouse, run: Run): Warehouse {
    var staged := NextStaged(w, run);
    Warehouse(staged, w.tombstones + multiset(Tombstoned(w, run)), w.ever + Keys(Rows(staged)))
  }

  function RunAll(w: Warehouse, runs: seq<Run>): Warehouse
    decreases |runs|
  {
    if runs == [] then w else RunAll(Next(w, runs[0]), runs[1..])
  }

  class SnapshotConnector {
    const file: StagedFile<Record>
    var tombstones: multiset<string>

    constructor ()
      ensures fresh(file) && file.content == None && tombstones == multiset{}
    {
      file := new StagedFile();
      tombstones := multiset{};
    }

    /** The keys staged right now. */
    method WarehouseKeyInventory() returns (keys: set<string>)
      ensures keys == Keys(Rows(file.content))
    {
      keys := set r | r in Rows(file.content) :: r.sourceId;
    }

    /** One extract: capture the old keys, write, and diff when rows were written. */
    method Extract(run: Run)
      modifies this, file
      ensures var before := Warehouse(old(file.content), old(tombstones), {});
              && file.content == NextStaged(before, run)
              && tombstones == old(tombstones) + multiset(Tombstoned(before, run))
    {
      var oldKeys: Option<set<string>> := None;
      if run.mode.Backfill? {
        var keys := WarehouseKeyInventory();
        oldKeys := Some(keys);
      }
      var rows := file.WriteRecords(run.stream, run.raises, run.mode);
      if run.raises {
        return;
      }
      if oldKeys.Some? && rows > 0 {
        var newKeys := WarehouseKeyInventory();
        tombstones := tombstones + multiset(oldKeys.value - newKeys);
      }
    }
  }

  /* ---------- conservation ---------- */

  /** Every key ever staged is staged now or tombstoned, and nothing else is. */
  ghost predicate Conserved(w: Warehouse) {
    forall key :: key in w.ever <==> key in Keys(Rows(w.staged)) || key in w.tombstones
  }

  lemma SuccessConserves(w: Warehouse, run: Run)
    requires Conserved(w) && !run.raises
    ensures Conserved(Next(w, run))
    ensures Tombstoned(w, run) == Keys(Rows(w.staged)) - Keys(Rows(NextStaged(w, run)))
  {
    var n := NextStaged(w, run);
    if run.stream != [] && Merges(w.staged, run.mode) {
      assert Keys(w.staged.value + run.stream) == Keys(w.staged.value) + Keys(run.stream);
    }
    forall key
      ensures key in Next(w, run).ever <==> key in Keys(Rows(n)) || key in Next(w, run).tombstones
    {
      assert key in w.ever <==> key in Keys(Rows(w.staged)) || key in w.tombstones;
    }
  }

  /**
   After any sequence of runs that end normally, zero-row ones included, the keys ever staged
   are exactly the keys staged now together with those tombstoned.
   */
  lemma {:induction false} SnapshotsConserveKeys(w: Warehouse, runs: seq<Run>)
    requires Conserved(w) && forall run | run in runs :: !run.raises
    ensures Conserved(RunAll(w, runs))
    decreases |runs|
  {
    if runs != [] {
      SuccessConserves(w, runs[0]);
      SnapshotsConserveKeys(Next(w, runs[0]), runs[1..]);
    }
  }

  /** The records of whole batches: what a run that fails leaves in a file it was rewriting. */
  function WholeBatches(stream: seq<Record>): seq<Record> {
    stream[..|stream| - |stream| % PARQUET_BATCH_SIZE]
  }

  /**
   A run that fails keeps the books exactly when it had nothing to write, or merged into history,
   or every staged key without a tombstone is among the whole batches that arrived: a failed
   backfill truncates the file without recording a delete.
   */
  lemma FailureConservesExactly(w: Warehouse, run: Run)
    requires Conserved(w) && run.raises
    ensures Conserved(Next(w, run))
       <==> || run.stream == [] || Merges(w.staged, run.mode)
            || forall r | r in Rows(w.staged) && r.sourceId !in w.tombstones ::
                 r.sourceId in Keys(WholeBatches(run.stream))
  {
    var n := NextStaged(w, run);
    if run.stream != [] && !Merges(w.staged, run.mode) {
      assert Rows(n) == WholeBatches(run.stream);
      if r :| r in Rows(w.staged) && r.sourceId !in w.tombstones && r.sourceId !in Keys(Rows(n)) {
        assert r.sourceId in Keys(Rows(w.staged));
        assert r.sourceId in Next(w, run).ever && r.sourceId !in Next(w, run).tombstones;
      } else {
        StillConserved(w, run);
      }
    } else {
      StillConserved(w, run);
    }
  }

  lemma StillConserved(w: Warehouse, run: Run)
    requires Conserved(w) && run.raises
    requires forall r | r in Rows(w.staged) && r.sourceId !in w.tombstones ::
               r.sourceId in Keys(Rows(NextStaged(w, run)))
    ensures Conserved(Next(w, run))
  {
    forall key
      ensures key in Next(w, run).ever <==> key in Keys(Rows(NextStaged(w, run))) || key in Next(w, run).tombstones
    {
      assert key in w.ever <==> key in Keys(Rows(w.staged)) || key in w.tombstones;
    }
  }

  /** The failing case exists: one staged key, one failed backfill, and the key is gone without a tombstone. */
  lemma FailedBackfillLosesAKey()
    ensures var w := Warehouse(Some([Record("a", "")]), multiset{}, {"a"});
            var run := Run([Record("b", "")], true, Backfill);
            && Conserved(w) && Next(w, run).staged == Some([]) && Next(w, run).tombstones == multiset{}
            && !Conserved(Next(w, run))
  {
    var w := Warehouse(Some([Record("a", "")]), multiset{}, {"a"});
    var run := Run([Record("b", "")], true, Backfill);
    assert Keys([Record("a", "")]) == {"a"};
    assert Keys([]) == {};
    assert "a" in Next(w, run).ever;
  }

  /* ---------- the natural identity ---------- */

  /** ':'-joined key field values. */
  function NaturalId(fields: seq<string>): string {
    if fields == [] then ""
    else if |fields| == 1 then fields[0]
    else fields[0] + ":" + NaturalId(fields[1..])
  }

  lemma {:induction false} JoinSplits(a: string, b: string, x: string, y: string)
    requires ':' !in a && ':' !in b && a + ":" + x == b + ":" + y
    ensures a == b && x == y
  {
    var u, v := a + ":" + x, b + ":" + y;
    assert (a == "" ==> u[0] == ':') && (a != "" ==> u[0] == a[0] && a[0] in a);
    assert (b == "" ==> v[0] == ':') && (b != "" ==> v[0] == b[0] && b[0] in b);
    if a == "" {
      assert x == u[1..] == v[1..] == y;
    } else {
      assert u[1..] == a[1..] + ":" + x && v[1..] == b[1..] + ":" + y;
      JoinSplits(a[1..], b[1..], x, y);
      assert a == [a[0]] + a[1..] && b == [b[0]] + b[1..];
    }
  }

  /** The identity determines the key fields when all but the last are free of colons. */
  lemma {:induction false} NaturalIdDetermines(a: seq<string>, b: seq<string>)
    requires |a| == |b| && NaturalId(a) == NaturalId(b)
    requires forall k | 0 <= k < |a| - 1 :: ':' !in a[k] && ':' !in b[k]
    ensures a == b
  {
    if |a| > 1 {
      JoinSplits(a[0], b[0], NaturalId(a[1..]), NaturalId(b[1..]));
      NaturalIdDetermines(a[1..], b[1..]);
      assert a == [a[0]] + a[1..] && b == [b[0]] + b[1..];
    }
  }

  predicate IsColonFree(fields: seq<string>) {
    forall k | 0 <= k < |fields| :: ':' !in fields[k]
  }

  function Colons(s: string): nat {
    if s == "" then 0 else (if s[0] == ':' then 1 else 0) + Colons(s[1..])
  }

  lemma {:induction false} ColonsJoin(s: string, t: string)
    ensures Colons(s + t) == Colons(s) + Colons(t)
    ensures Colons(s) == 0 <==> ':' !in s
  {
    if s == "" {
      assert s + t == t;
    } else {
      assert (s + t)[1..] == s[1..] + t;
      ColonsJoin(s[1..], t);
      assert s == [s[0]] + s[1..];
    }
  }

  /** An identity has at least the colons that join its fields, and no more exactly when no field holds one. */
  lemma {:induction false} ColonsOfId(fields: seq<string>)
    requires fields != []
    ensures Colons(NaturalId(fields)) >= |fields| - 1
    ensures Colons(NaturalId(fields)) == |fields| - 1 <==> IsColonFree(fields)
  {
    ColonsJoin(fields[0], "");
    if |fields| > 1 {
      ColonsOfId(fields[1..]);
      ColonsJoin(fields[0] + ":", NaturalId(fields[1..]));
      ColonsJoin(fields[0], ":");
      assert Colons(":") == 1 by { assert ":"[1..] == ""; }
      assert forall k | 0 <= k < |fields[1..]| :: fields[1..][k] == fields[k + 1];
      assert IsColonFree(fields) <==> ':' !in fields[0] && IsColonFree(fields[1..]);
    } else {
      assert IsColonFree(fields) <==> ':' !in fields[0];
    }
  }

  /** The same identity of a tail gives the same identity of the whole. */
  lemma {:induction false} IdOfTail(front: seq<string>, a: seq<string>, b: seq<string>)
    requires a != [] && b != [] && NaturalId(a) == NaturalId(b)
    ensures NaturalId(front + a) == NaturalId(front + b)
  {
    if front == [] {
      assert front + a == a && front + b == b;
    } else {
      IdOfTail(front[1..], a, b);
      assert (front + a)[1..] == front[1..] + a && (front + b)[1..] == front[1..] + b;
    }
  }

  /** A colon can move from the join of two fields into one of them. */
  lemma ColonMoves(x: string, y: string, z: string, back: seq<string>)
    ensures NaturalId([x + ":" + y, z] + back) == NaturalId([x, y + ":" + z] + back)
  {
    var a, b := [x + ":" + y, z] + back, [x, y + ":" + z] + back;
    assert a[1..] == [z] + back && b[1..] == [y + ":" + z] + back;
    if back == [] {
      assert NaturalId(a[1..]) == z && NaturalId(b[1..]) == y + ":" + z;
      assert (x + ":" + y) + ":" + z == x + ":" + (y + ":" + z);
    } else {
      var rest := NaturalId(back);
      assert a[1..][1..] == back && b[1..][1..] == back;
      assert (x + ":" + y) + ":" + (z + ":" + rest) == x + ":" + ((y + ":" + z) + ":" + rest);
    }
  }

  /** A field with a colon: other fields, as many, have the same identity. */
  lemma Collides(a: seq<string>, k: nat) returns (b: seq<string>)
    requires |a| > 1 && k < |a| && ':' in a[k]
    ensures |b| == |a| && NaturalId(b) == NaturalId(a) && b != a
  {
    var c :| 0 <= c < |a[k]| && a[k][c] == ':';
    var x, y := a[k][..c], a[k][c + 1..];
    assert a[k] == x + ":" + y;
    if k + 1 < |a| {
      var back := a[k + 2..];
      ColonMoves(x, y, a[k + 1], back);
      IdOfTail(a[..k], [a[k], a[k + 1]] + back, [x, y + ":" + a[k + 1]] + back);
      b := a[..k] + ([x, y + ":" + a[k + 1]] + back);
      assert a == a[..k] + ([a[k], a[k + 1]] + back);
      assert b[k] == x && |x| < |a[k]|;
    } else {
      ColonMoves(a[k - 1], x, y, []);
      assert a[k - 1] + ":" + (x + ":" + y) == (a[k - 1] + ":" + x) + ":" + y;
      var one, two := [a[k - 1], x + ":" + y] + [], [a[k - 1] + ":" + x, y] + [];
      IdOfTail(a[..k - 1], one, two);
      b := a[..k - 1] + two;
      assert a == a[..k - 1] + one;
      assert b[k] == y && |y| < |a[k]|;
    }
  }

  /** No other fields of that number share an identity exactly when there is one field or none holds a colon. */
  lemma IdentityIsUniqueIff(a: seq<string>)
    ensures (forall b | |b| == |a| && NaturalId(b) == NaturalId(a) :: b == a) <==> |a| <= 1 || IsColonFree(a)
  {
    if |a| <= 1 || IsColonFree(a) {
      forall b | |b| == |a| && NaturalId(b) == NaturalId(a) ensures b == a {
        if |a| > 1 {
          ColonsOfId(a);
          ColonsOfId(b);
        }
        NaturalIdDetermines(b, a);
      }
    } else {
      var k: nat :| k < |a| && ':' in a[k];
      var b := Collides(a, k);
    }
  }

  /** With a colon in an earlier field two keys share an identity. */
  lemma ColonsCollide()
    ensures NaturalId(["a:b", "c"]) == NaturalId(["a", "b:c"])
  {
    var one, two := ["a:b", "c"], ["a", "b:c"];
    assert one[1..] == ["c"] && two[1..] == ["b:c"];
    assert one[0] + ":" + "c" == two[0] + ":" + "b:c";
  }
}
