/**
 The replicated audit log: rows keyed by a sequence number that is assigned when the
 command is applied, and a retention sweep that runs inside every append.
 */
module AuditLog {
  import opened Wrappers
  import Paging

  /** 90 days. */
  const AUDIT_RETENTION_SECONDS := 7_776_000

  datatype AuditEntry = AuditEntry(
    id: string, timeUnix: Int64, actor: string, action: string, outcome: string, detail: string)

  datatype AuditRow = AuditRow(seqNo: nat, entry: AuditEntry)

  /** The `_seq` key (an absent key reads as 0) and the rows. */
  datatype AuditBucket = AuditBucket(counter: nat, rows: map<nat, AuditRow>)

  const EMPTY := AuditBucket(0, map[])

  /** Keys are big-endian, so the database walks them in increasing order. */
  ghost predicate Ascending(s: seq<nat>) {
    forall i, j :: 0 <= i < j < |s| ==> s[i] < s[j]
  }

  predicate IsLeast(k: nat, keys: set<nat>) {
    k in keys && forall j :: j in keys ==> k <= j
  }

  lemma {:induction false} LeastExists(keys: set<nat>) returns (k: nat)
    requires keys != {}
    ensures IsLeast(k, keys)
    decreases |keys|
  {
    k :| k in keys;
    var rest := keys - {k};
    assert keys == rest + {k};
    if rest != {} {
      var m := LeastExists(rest);
      k := if k < m then k else m;
    }
  }

  function Least(keys: set<nat>): (k: nat)
    requires keys != {}
    ensures IsLeast(k, keys)
  {
    assert exists k :: k in keys && IsLeast(k, keys) by { var k := LeastExists(keys); }
    var k :| k in keys && IsLeast(k, keys);
    k
  }

  /** The keys of a bucket in the order of its cursor. */
  function Cursor(keys: set<nat>): (s: seq<nat>)
    ensures Ascending(s)
    ensures forall k :: k in s <==> k in keys
    decreases |keys|
  {
    if keys == {} then [] else
      var k := Least(keys);
      [k] + Cursor(keys - {k})
  }

  /** Drops rows along the cursor, stopping at the first that is not older than the cutoff. */
  function SweepOldest(rows: map<nat, AuditRow>, cursor: seq<nat>, cutoff: int): map<nat, AuditRow>
    requires forall k :: k in cursor ==> k in rows
    requires Ascending(cursor)
  {
    if cursor == [] || rows[cursor[0]].entry.timeUnix >= cutoff then rows
    else SweepOldest(rows - {cursor[0]}, cursor[1..], cutoff)
  }

  function Swept(rows: map<nat, AuditRow>, cutoff: int): map<nat, AuditRow> {
    SweepOldest(rows, Cursor(rows.Keys), cutoff)
  }

  /** The increment of a 64-bit counter wraps. */
  function Increment(n: nat): nat {
    if n + 1 == U64_MODULUS then 0 else n + 1
  }

  /** The oldest time that stays; the subtraction wraps for times near the smallest one. */
  function Cutoff(timeUnix: Int64): Int64 {
    var c := timeUnix - AUDIT_RETENTION_SECONDS;
    if c < INT64_MIN then c + U64_MODULUS else c
  }

  predicate Wraps(timeUnix: Int64) {
    timeUnix - AUDIT_RETENTION_SECONDS < INT64_MIN
  }

  function Append(b: AuditBucket, p: AuditEntry): AuditBucket {
    var seqNo := Increment(b.counter);
    var rows := b.rows[seqNo := AuditRow(seqNo, p)];
    var cutoff := Cutoff(p.timeUnix);
    AuditBucket(seqNo, if cutoff <= 0 then rows else Swept(rows, cutoff))
  }

  /** The append as the program runs it: put the row and the counter, then walk, collect and delete. */
  method AppendAndSweep(b: AuditBucket, p: AuditEntry) returns (r: AuditBucket)
    ensures r == Append(b, p)
  {
    var seqNo := Increment(b.counter);
    var rows := b.rows[seqNo := AuditRow(seqNo, p)];
    var cutoff := Cutoff(p.timeUnix);
    if cutoff <= 0 {
      return AuditBucket(seqNo, rows);
    }
    var kept := Sweep(rows, cutoff);
    r := AuditBucket(seqNo, kept);
  }

  method Sweep(rows: map<nat, AuditRow>, cutoff: int) returns (kept: map<nat, AuditRow>)
    ensures kept == Swept(rows, cutoff)
  {
    var cursor := Cursor(rows.Keys);
    var toDelete: seq<nat> := [];
    var i := 0;
    while i < |cursor| && rows[cursor[i]].entry.timeUnix < cutoff
      invariant 0 <= i <= |cursor|
      invariant toDelete == cursor[..i]
      invariant forall j :: 0 <= j < i ==> rows[cursor[j]].entry.timeUnix < cutoff
    {
      toDelete := toDelete + [cursor[i]];
      i := i + 1;
    }
    SweepIsPrefix(rows, cursor, i, cutoff);
    kept := DeleteKeys(rows, toDelete);
  }

  function Without(rows: map<nat, AuditRow>, keys: seq<nat>): map<nat, AuditRow> {
    if keys == [] then rows else Without(rows - {keys[0]}, keys[1..])
  }

  method DeleteKeys(rows: map<nat, AuditRow>, keys: seq<nat>) returns (kept: map<nat, AuditRow>)
    ensures kept == Without(rows, keys)
  {
    kept := rows;
    for d := 0 to |keys|
      invariant Without(kept, keys[d..]) == Without(rows, keys)
    {
      kept := kept - {keys[d]};
    }
  }

  /** Sweeping removes exactly the keys in front of the first row that is new enough. */
  lemma {:induction false} SweepIsPrefix(rows: map<nat, AuditRow>, cursor: seq<nat>, n: nat, cutoff: int)
    requires n <= |cursor| && Ascending(cursor)
    requires forall k :: k in cursor ==> k in rows
    requires forall j :: 0 <= j < n ==> rows[cursor[j]].entry.timeUnix < cutoff
    requires n < |cursor| ==> rows[cursor[n]].entry.timeUnix >= cutoff
    ensures SweepOldest(rows, cursor, cutoff) == Without(rows, cursor[..n])
  {
    if n > 0 {
      SweepIsPrefix(rows - {cursor[0]}, cursor[1..], n - 1, cutoff);
      assert cursor[1..][..n - 1] == cursor[..n][1..];
    }
  }

  // ----------------------------------------------------------------------------
  // Whole runs
  // ----------------------------------------------------------------------------

  /** The bucket after applying a history of appends to an empty log. */
  function Run(ps: seq<AuditEntry>): AuditBucket {
    if ps == [] then EMPTY else Append(Run(ps[..|ps| - 1]), ps[|ps| - 1])
  }

  /** Time of the k-th entry of a history, counted from 1 as sequence numbers are. */
  function Time(ps: seq<AuditEntry>, k: int): Int64
    requires 1 <= k <= |ps|
  {
    ps[k - 1].timeUnix
  }

  /** The rows are exactly the entries lo+1 .. |ps| of the history, each under its own number. */
  ghost predicate RowsFrom(rows: map<nat, AuditRow>, lo: nat, ps: seq<AuditEntry>) {
    && lo <= |ps|
    && (forall k :: k in rows <==> lo < k <= |ps|)
    && (forall k :: k in rows ==> rows[k] == AuditRow(k, ps[k - 1]))
  }

  /** Sweeping a gap-free interval leaves a gap-free interval that still ends where it did. */
  lemma {:induction false} SweepInterval(
      rows: map<nat, AuditRow>, cursor: seq<nat>, lo: nat, ps: seq<AuditEntry>, cutoff: int)
    returns (lo': nat)
    requires RowsFrom(rows, lo, ps) && Ascending(cursor)
    requires forall k :: k in cursor <==> k in rows
    ensures lo <= lo' && RowsFrom(SweepOldest(rows, cursor, cutoff), lo', ps)
    ensures forall k :: lo < k <= lo' ==> Time(ps, k) < cutoff
    ensures lo' < |ps| ==> Time(ps, lo' + 1) >= cutoff
    decreases |cursor|
  {
    lo' := lo;
    if cursor == [] {
      assert lo + 1 !in rows;
    } else {
      CursorOfInterval(rows, cursor, lo, ps);
      if rows[lo + 1].entry.timeUnix < cutoff {
        lo' := SweepInterval(rows - {lo + 1}, cursor[1..], lo + 1, ps, cutoff);
      }
    }
  }

  lemma CursorOfInterval(rows: map<nat, AuditRow>, cursor: seq<nat>, lo: nat, ps: seq<AuditEntry>)
    requires RowsFrom(rows, lo, ps) && Ascending(cursor) && cursor != []
    requires forall k :: k in cursor <==> k in rows
    ensures lo < |ps| && cursor[0] == lo + 1
    ensures forall k :: k in cursor[1..] <==> k in rows - {lo + 1}
    ensures RowsFrom(rows - {lo + 1}, lo + 1, ps)
  {
    assert cursor[0] in cursor;
    assert lo + 1 in cursor;
    forall k | k in rows - {lo + 1} ensures k in cursor[1..] {
      assert k in cursor;
      var i :| 0 <= i < |cursor| && cursor[i] == k;
      assert cursor[1..][i - 1] == k;
    }
  }

  /**
   Shape of the log after any history: the stored sequence numbers are a gap-free interval
   that ends at the counter, the counter is the number of rows ever appended (so no number
   is assigned twice), and each row is the entry appended under its number. Every dropped
   row was older than the cutoff of an append that was not before it.
   */
  lemma {:induction false} AuditShape(ps: seq<AuditEntry>) returns (lo: nat)
    requires |ps| < U64_MODULUS
    ensures Run(ps).counter == |ps|
    ensures RowsFrom(Run(ps).rows, lo, ps)
    ensures forall k :: 1 <= k <= lo ==> Stale(ps, k)
  {
    if ps == [] {
      lo := 0;
    } else {
      var before := ps[..|ps| - 1];
      var lo0 := AuditShape(before);
      lo := AppendShape(Run(before), lo0, ps);
      forall k | 1 <= k <= lo ensures Stale(ps, k) {
        if k <= lo0 {
          StaleLonger(before, ps, k);
        } else {
          assert StaleAt(ps, k, |ps|);
        }
      }
    }
  }

  ghost predicate StaleAt(ps: seq<AuditEntry>, k: int, j: int) {
    1 <= k <= j <= |ps| && Time(ps, k) < Cutoff(Time(ps, j))
  }

  ghost predicate Stale(ps: seq<AuditEntry>, k: int) {
    exists j :: StaleAt(ps, k, j)
  }

  lemma StaleLonger(before: seq<AuditEntry>, ps: seq<AuditEntry>, k: int)
    requires before <= ps && Stale(before, k)
    ensures Stale(ps, k)
  {
    var j :| StaleAt(before, k, j);
    assert StaleAt(ps, k, j);
  }

  /**
   One append to an interval: the new row is put at its end, and the sweep cuts at its
   front, down to the first row that is not older than the cutoff.
   */
  lemma AppendShape(b: AuditBucket, lo0: nat, ps: seq<AuditEntry>) returns (lo: nat)
    requires 0 < |ps| < U64_MODULUS && b.counter == |ps| - 1 && RowsFrom(b.rows, lo0, ps[..|ps| - 1])
    ensures Append(b, ps[|ps| - 1]).counter == |ps| && RowsFrom(Append(b, ps[|ps| - 1]).rows, lo, ps)
    ensures lo0 <= lo <= |ps|
    ensures forall k :: lo0 < k <= lo ==> Time(ps, k) < Cutoff(Time(ps, |ps|))
    ensures Cutoff(Time(ps, |ps|)) > 0 && lo < |ps| ==> Time(ps, lo + 1) >= Cutoff(Time(ps, |ps|))
    ensures Cutoff(Time(ps, |ps|)) <= 0 ==> lo == lo0
  {
    var n := |ps|;
    var rows := b.rows[n := AuditRow(n, ps[n - 1])];
    PutExtends(b.rows, lo0, ps);
    var cutoff := Cutoff(ps[n - 1].timeUnix);
    lo := lo0;
    if cutoff > 0 {
      lo := SweepInterval(rows, Cursor(rows.Keys), lo0, ps, cutoff);
    }
  }

  lemma PutExtends(rows: map<nat, AuditRow>, lo: nat, ps: seq<AuditEntry>)
    requires ps != [] && RowsFrom(rows, lo, ps[..|ps| - 1])
    ensures RowsFrom(rows[|ps| := AuditRow(|ps|, ps[|ps| - 1])], lo, ps)
  {
  }

  /** Some row kept so far is not older than a time. */
  ghost predicate KeepsFrom(rows: map<nat, AuditRow>, time: int) {
    exists k :: k in rows && rows[k].entry.timeUnix >= time
  }

  lemma KeepsFromIff(rows: map<nat, AuditRow>, lo0: nat, ps: seq<AuditEntry>, time: int)
    requires ps != [] && RowsFrom(rows, lo0, ps[..|ps| - 1])
    ensures KeepsFrom(rows, time) <==> exists k :: lo0 < k < |ps| && Time(ps, k) >= time
  {
    assert forall k :: k in rows ==> rows[k].entry.timeUnix == Time(ps, k);
    if k :| lo0 < k < |ps| && Time(ps, k) >= time {
      assert k in rows;
    }
  }

  /**
   The row just appended survives its own sweep if and only if its cutoff does not wrap, or
   some row kept before it is not older than that cutoff.
   */
  lemma NewestSurvivesIff(ps: seq<AuditEntry>)
    requires 0 < |ps| < U64_MODULUS
    ensures |ps| in Run(ps).rows <==>
      !Wraps(Time(ps, |ps|)) || KeepsFrom(Run(ps[..|ps| - 1]).rows, Cutoff(Time(ps, |ps|)))
  {
    var b, cutoff := Run(ps[..|ps| - 1]), Cutoff(Time(ps, |ps|));
    var lo0 := AuditShape(ps[..|ps| - 1]);
    var lo := AppendShape(b, lo0, ps);
    KeepsFromIff(b.rows, lo0, ps, cutoff);
    SurvivesIff(ps, lo0, lo);
  }

  lemma SurvivesIff(ps: seq<AuditEntry>, lo0: nat, lo: nat)
    requires lo0 < |ps| && lo0 <= lo <= |ps|
    requires forall k :: lo0 < k <= lo ==> Time(ps, k) < Cutoff(Time(ps, |ps|))
    requires Cutoff(Time(ps, |ps|)) > 0 && lo < |ps| ==> Time(ps, lo + 1) >= Cutoff(Time(ps, |ps|))
    requires Cutoff(Time(ps, |ps|)) <= 0 ==> lo == lo0
    ensures lo < |ps| <==>
      !Wraps(Time(ps, |ps|)) || exists k :: lo0 < k < |ps| && Time(ps, k) >= Cutoff(Time(ps, |ps|))
  {
    if lo < |ps| && Wraps(Time(ps, |ps|)) {
      assert Time(ps, lo + 1) >= Cutoff(Time(ps, |ps|));
    }
  }

  /** One whose cutoff wraps does not, if it is the first. */
  lemma WrappingEntryIsSwept(p: AuditEntry)
    requires Wraps(p.timeUnix)
    ensures Run([p]).rows == map[]
  {
    assert [p][..0] == [];
    assert RowsFrom(Run([]).rows, 0, [p][..0]);
    var lo := AppendShape(Run([]), 0, [p]);
  }

  // ----------------------------------------------------------------------------
  // Which rows are kept
  // ----------------------------------------------------------------------------

  /** The first k rows are all older than a time. */
  ghost predicate AllOlder(ps: seq<AuditEntry>, k: int, time: int)
    requires k <= |ps|
  {
    forall i :: 1 <= i <= k ==> Time(ps, i) < time
  }

  /** Entry j sweeps up to row k at least, whatever was swept before. */
  ghost predicate DropsAt(ps: seq<AuditEntry>, k: int, j: int) {
    1 <= k < j <= |ps| && Cutoff(Time(ps, j)) > 0 && AllOlder(ps, k, Cutoff(Time(ps, j)))
  }

  ghost predicate Dropped(ps: seq<AuditEntry>, k: int) {
    exists j :: DropsAt(ps, k, j)
  }

  ghost predicate NoneWraps(ps: seq<AuditEntry>) {
    forall k :: 1 <= k <= |ps| ==> !Wraps(Time(ps, k))
  }

  /** The interval starts behind the last row that some append sweeps. */
  ghost predicate StartsAt(ps: seq<AuditEntry>, lo: nat) {
    forall k :: 1 <= k <= |ps| ==> (k <= lo <==> Dropped(ps, k))
  }

  lemma DropsLonger(before: seq<AuditEntry>, ps: seq<AuditEntry>, k: int, j: int)
    requires before <= ps
    ensures DropsAt(before, k, j) ==> DropsAt(ps, k, j)
    ensures DropsAt(ps, k, j) && j <= |before| ==> DropsAt(before, k, j)
  {
    assert forall i :: 1 <= i <= |before| ==> Time(before, i) == Time(ps, i);
  }

  /**
   An append that sweeps the first row left sweeps with a later cutoff than every append
   that swept the rows before it.
   */
  lemma CutoffsGrow(before: seq<AuditEntry>, ps: seq<AuditEntry>, lo0: nat, i: int)
    requires ps != [] && before == ps[..|ps| - 1] && NoneWraps(ps) && StartsAt(before, lo0)
    requires 1 <= i <= lo0 < |before| || 1 <= i <= lo0 == |before|
    requires Time(ps, lo0 + 1) < Cutoff(Time(ps, |ps|)) && Cutoff(Time(ps, |ps|)) > 0
    ensures Time(ps, i) < Cutoff(Time(ps, |ps|))
  {
    assert Dropped(before, lo0);
    var j :| DropsAt(before, lo0, j);
    assert lo0 < j <= |before|;
    assert Time(before, i) < Cutoff(Time(before, j));
    assert !Dropped(before, lo0 + 1) && !DropsAt(before, lo0 + 1, j);
    assert Time(before, i) == Time(ps, i) && Time(before, j) == Time(ps, j);
    assert Time(before, lo0 + 1) == Time(ps, lo0 + 1);
    if j > lo0 + 1 {
      assert Time(before, lo0 + 1) >= Cutoff(Time(before, j));
    }
  }

  lemma {:induction false} RetainedFrom(ps: seq<AuditEntry>) returns (lo: nat)
    requires |ps| < U64_MODULUS && NoneWraps(ps)
    ensures Run(ps).counter == |ps| && RowsFrom(Run(ps).rows, lo, ps) && StartsAt(ps, lo)
  {
    if ps == [] {
      lo := 0;
    } else {
      var before := ps[..|ps| - 1];
      assert forall k :: 1 <= k <= |before| ==> Time(before, k) == Time(ps, k);
      var lo0 := RetainedFrom(before);
      lo := AppendShape(Run(before), lo0, ps);
      StartsStep(before, ps, lo0, lo);
    }
  }

  lemma StartsStep(before: seq<AuditEntry>, ps: seq<AuditEntry>, lo0: nat, lo: nat)
    requires ps != [] && before == ps[..|ps| - 1] && NoneWraps(ps) && StartsAt(before, lo0)
    requires lo0 <= |before| && lo0 <= lo <= |ps|
    requires forall k :: lo0 < k <= lo ==> Time(ps, k) < Cutoff(Time(ps, |ps|))
    requires Cutoff(Time(ps, |ps|)) > 0 && lo < |ps| ==> Time(ps, lo + 1) >= Cutoff(Time(ps, |ps|))
    requires Cutoff(Time(ps, |ps|)) <= 0 ==> lo == lo0
    ensures StartsAt(ps, lo)
  {
    var n := |ps|;
    forall k | 1 <= k <= n ensures k <= lo <==> Dropped(ps, k) {
      if k <= lo0 {
        assert Dropped(before, k);
        var j :| DropsAt(before, k, j);
        DropsLonger(before, ps, k, j);
      } else if k <= lo {
        forall i | 1 <= i <= k ensures Time(ps, i) < Cutoff(Time(ps, n)) {
          if i <= lo0 { CutoffsGrow(before, ps, lo0, i); }
        }
        assert DropsAt(ps, k, n);
      } else {
        assert k < n ==> !Dropped(before, k);
        forall j ensures !DropsAt(ps, k, j) { DropsLonger(before, ps, k, j); }
      }
    }
  }

  /**
   Exactly what is kept, for every history whose cutoffs do not wrap: row k is kept if and
   only if no later append has all of the rows 1 to k more than the retention older than it.
   */
  lemma RetainedIff(ps: seq<AuditEntry>, k: int)
    requires |ps| < U64_MODULUS && NoneWraps(ps) && 1 <= k <= |ps|
    ensures k in Run(ps).rows <==> !Dropped(ps, k)
  {
    var lo := RetainedFrom(ps);
  }

  // ----------------------------------------------------------------------------
  // Whether that is the retention promised
  // ----------------------------------------------------------------------------

  /** Within the retention of the newest row. */
  predicate WithinRetention(ps: seq<AuditEntry>, k: int)
    requires 1 <= k <= |ps|
  {
    Time(ps, k) >= Time(ps, |ps|) - AUDIT_RETENTION_SECONDS
  }

  /** The rows kept are exactly those within the retention of the newest. */
  ghost predicate RetentionExact(ps: seq<AuditEntry>) {
    forall k :: 1 <= k <= |ps| ==> (k in Run(ps).rows <==> WithinRetention(ps, k))
  }

  /** The rows too old come first. */
  ghost predicate OldOnesFirst(ps: seq<AuditEntry>) {
    forall i, k :: 1 <= i < k <= |ps| && WithinRetention(ps, i) ==> WithinRetention(ps, k)
  }

  /** No row is more than the retention newer than the first row within it, so that none takes it away. */
  ghost predicate FirstIsSafe(ps: seq<AuditEntry>, f: int) {
    1 <= f <= |ps| && WithinRetention(ps, f)
    && forall j :: f < j <= |ps| ==> Time(ps, j) - AUDIT_RETENTION_SECONDS <= Time(ps, f)
  }

  ghost predicate FirstWithin(ps: seq<AuditEntry>, f: int) {
    1 <= f <= |ps| && WithinRetention(ps, f) && forall i :: 1 <= i < f ==> !WithinRetention(ps, i)
  }

  ghost predicate TimesFit(ps: seq<AuditEntry>) {
    OldOnesFirst(ps) && forall f :: FirstWithin(ps, f) ==> FirstIsSafe(ps, f)
  }

  ghost predicate NonNegative(ps: seq<AuditEntry>) {
    forall k :: 1 <= k <= |ps| ==> 0 <= Time(ps, k)
  }

  /**
   The retention is exact if and only if the rows too old come first, and no row is more
   than the retention newer than the first row that is not.
   */
  lemma RetentionExactIff(ps: seq<AuditEntry>)
    requires 0 < |ps| < U64_MODULUS && NonNegative(ps)
    ensures RetentionExact(ps) <==> TimesFit(ps)
  {
    var lo := RetainedFrom(ps);
    assert forall k :: 1 <= k <= |ps| ==> (k in Run(ps).rows <==> k > lo);
    if RetentionExact(ps) {
      ExactFits(ps, lo);
    }
    if TimesFit(ps) {
      FitsExact(ps, lo);
    }
  }

  lemma CutoffPlain(timeUnix: Int64)
    requires !Wraps(timeUnix)
    ensures Cutoff(timeUnix) == timeUnix - AUDIT_RETENTION_SECONDS
  {
  }

  lemma ExactFits(ps: seq<AuditEntry>, lo: nat)
    requires 0 < |ps| && NonNegative(ps) && StartsAt(ps, lo)
    requires forall k :: 1 <= k <= |ps| ==> (k > lo <==> WithinRetention(ps, k))
    ensures TimesFit(ps)
  {
    forall f | FirstWithin(ps, f) ensures FirstIsSafe(ps, f) {
      forall j | f < j <= |ps| ensures Time(ps, j) - AUDIT_RETENTION_SECONDS <= Time(ps, f) {
        CutoffPlain(Time(ps, j));
        assert !Dropped(ps, f) && !DropsAt(ps, f, j);
        if Cutoff(Time(ps, j)) > 0 {
          var i :| 1 <= i <= f && Time(ps, i) >= Cutoff(Time(ps, j));
          assert i < f ==> !WithinRetention(ps, i);
        }
      }
    }
  }

  lemma FitsExact(ps: seq<AuditEntry>, lo: nat)
    requires 0 < |ps| && NonNegative(ps) && StartsAt(ps, lo) && TimesFit(ps)
    ensures forall k :: 1 <= k <= |ps| ==> (k > lo <==> WithinRetention(ps, k))
  {
    var n := |ps|;
    var f := FindFirst(ps);
    CutoffPlain(Time(ps, n));
    if f > 1 {
      assert !WithinRetention(ps, 1) && Time(ps, 1) >= 0;
      forall i | 1 <= i <= f - 1 ensures Time(ps, i) < Cutoff(Time(ps, n)) {
        assert !WithinRetention(ps, i);
      }
      assert DropsAt(ps, f - 1, n);
    }
    forall j ensures !DropsAt(ps, f, j) {
      if 1 <= j <= n { CutoffPlain(Time(ps, j)); }
    }
    assert !Dropped(ps, f) && (f > 1 ==> Dropped(ps, f - 1));
    assert lo == f - 1;
  }

  /** The newest row is within the retention, so there is a first one. */
  lemma FindFirst(ps: seq<AuditEntry>) returns (f: int)
    requires 0 < |ps|
    ensures FirstWithin(ps, f)
  {
    f := 1;
    while !WithinRetention(ps, f)
      invariant 1 <= f <= |ps| && forall i :: 1 <= i < f ==> !WithinRetention(ps, i)
      decreases |ps| - f
    {
      f := f + 1;
    }
  }

  ghost predicate Ordered(ps: seq<AuditEntry>) {
    forall j, k :: 1 <= j <= k <= |ps| ==> Time(ps, j) <= Time(ps, k)
  }

  /** With timestamps that never decrease it is exact. */
  lemma OrderedIsExact(ps: seq<AuditEntry>)
    requires 0 < |ps| < U64_MODULUS && NonNegative(ps) && Ordered(ps)
    ensures RetentionExact(ps)
  {
    forall f | FirstWithin(ps, f) ensures FirstIsSafe(ps, f) {
      assert forall j :: f < j <= |ps| ==> Time(ps, j) <= Time(ps, |ps|);
    }
    RetentionExactIff(ps);
  }

  /** Out of order, a stale row can outlive the sweep: the walk stops at the newer row in front of it. */
  lemma RetentionNeedsOrder(newer: AuditEntry, older: AuditEntry)
    requires older.timeUnix >= 0 && newer.timeUnix - older.timeUnix > AUDIT_RETENTION_SECONDS
    ensures !RetentionExact([newer, older, newer])
  {
    var ps := [newer, older, newer];
    assert NonNegative(ps);
    assert WithinRetention(ps, 1) && !WithinRetention(ps, 2);
    RetentionExactIff(ps);
  }

  // ----------------------------------------------------------------------------
  // Reading the log
  // ----------------------------------------------------------------------------

  /** Empty strings match everything; the action is matched by prefix. */
  datatype AuditFilter = AuditFilter(actor: string, actionPrefix: string, outcome: string) {
    predicate Matches(r: AuditRow) {
      && (actor == "" || r.entry.actor == actor)
      && (actionPrefix == "" || actionPrefix <= r.entry.action)
      && (outcome == "" || r.entry.outcome == outcome)
    }
  }

  datatype AuditQuery = AuditQuery(filter: AuditFilter, limit: int, offset: int) {
    /** An absent limit is 50 and none is above 500. */
    function EffectiveLimit(): (r: nat)
      ensures 1 <= r <= 500
    {
      if limit <= 0 then 50 else if limit > 500 then 500 else limit
    }

    function EffectiveOffset(): nat {
      if offset < 0 then 0 else offset
    }
  }

  /** The rows in the order of the cursor. */
  function RowsInOrder(b: AuditBucket): (s: seq<AuditRow>)
    ensures |s| == |Cursor(b.rows.Keys)|
  {
    var keys := Cursor(b.rows.Keys);
    seq(|keys|, i requires 0 <= i < |keys| => assert keys[i] in keys; b.rows[keys[i]])
  }

  /** Every row of the log that passes the filter, newest first. */
  function Matching(b: AuditBucket, f: AuditFilter): seq<AuditRow> {
    MatchingFrom(RowsInOrder(b), f)
  }

  function MatchingFrom(rows: seq<AuditRow>, f: AuditFilter): seq<AuditRow> {
    Paging.Filter(Paging.Reverse(rows), (r: AuditRow) => f.Matches(r))
  }

  lemma MatchingStep(rows: seq<AuditRow>, i: nat, f: AuditFilter)
    requires i < |rows|
    ensures MatchingFrom(rows[i..], f) ==
      if f.Matches(rows[i]) then MatchingFrom(rows[i + 1..], f) + [rows[i]] else MatchingFrom(rows[i + 1..], f)
  {
    var later := Paging.Reverse(rows[i + 1..]);
    assert rows[i..][1..] == rows[i + 1..];
    Paging.FilterSnoc(later, rows[i], (r: AuditRow) => f.Matches(r));
  }

  /** One page, newest first, and the number of matches before paging. */
  method List(b: AuditBucket, q: AuditQuery) returns (page: seq<AuditRow>, total: nat)
    ensures page == Paging.Page(Matching(b, q.filter), q.EffectiveOffset(), q.EffectiveLimit())
    ensures total == |Matching(b, q.filter)|
  {
    var limit, offset := q.EffectiveLimit(), q.EffectiveOffset();
    var rows := RowsInOrder(b);
    page, total := [], 0;
    var i := |rows|;
    assert rows[..] == rows[0..];
    while i > 0
      invariant 0 <= i <= |rows|
      invariant total == |MatchingFrom(rows[i..], q.filter)|
      invariant page == Paging.Page(MatchingFrom(rows[i..], q.filter), offset, limit)
    {
      i := i - 1;
      MatchingStep(rows, i, q.filter);
      if !q.filter.Matches(rows[i]) {
        continue;
      }
      Paging.PageSnoc(MatchingFrom(rows[i + 1..], q.filter), rows[i], offset, limit);
      total := total + 1;
      if total <= offset {
        continue;
      }
      if |page| >= limit {
        continue;
      }
      page := page + [rows[i]];
    }
    assert rows[0..] == rows;
  }

  /** One page of a query. */
  function ListPage(b: AuditBucket, q: AuditQuery): seq<AuditRow> {
    Paging.Page(Matching(b, q.filter), q.EffectiveOffset(), q.EffectiveLimit())
  }

  /** What a caller gets by asking for page after page of a query from an offset on. */
  function ListedPages(b: AuditBucket, q: AuditQuery, start: nat, pages: nat): seq<AuditRow>
    decreases pages
  {
    if pages == 0 then []
    else ListPage(b, q.(offset := start)) + ListedPages(b, q, start + q.EffectiveLimit(), pages - 1)
  }

  /** Consecutive pages tile the matching rows, whatever limit the caller asked for. */
  lemma AuditPagesTile(b: AuditBucket, q: AuditQuery, pages: nat)
    ensures ListedPages(b, q, 0, pages) <= Matching(b, q.filter)
    ensures pages >= |Matching(b, q.filter)| ==> ListedPages(b, q, 0, pages) == Matching(b, q.filter)
  {
    ListedPagesArePages(b, q, Matching(b, q.filter), q.EffectiveLimit(), 0, pages);
    Paging.PagesTile(Matching(b, q.filter), q.EffectiveLimit(), 0, pages);
  }

  lemma PageAt(b: AuditBucket, q: AuditQuery, start: nat)
    ensures ListPage(b, q.(offset := start)) == Paging.Page(Matching(b, q.filter), start, q.EffectiveLimit())
  {
  }

  lemma {:induction false} ListedPagesArePages(
      b: AuditBucket, q: AuditQuery, matching: seq<AuditRow>, limit: nat, start: nat, pages: nat)
    requires matching == Matching(b, q.filter) && limit == q.EffectiveLimit()
    ensures ListedPages(b, q, start, pages) == Paging.Pages(matching, limit, start, pages)
    decreases pages
  {
    if pages > 0 {
      ListedPagesArePages(b, q, matching, limit, start + limit, pages - 1);
      PageAt(b, q, start);
    }
  }

  // ----------------------------------------------------------------------------
  // What a page shows
  // ----------------------------------------------------------------------------

  /** The row is of the actor and outcome asked for, and its action begins as asked; an empty text asks for all. */
  predicate AskedFor(r: AuditRow, f: AuditFilter) {
    && (f.actor != "" ==> r.entry.actor == f.actor)
    && (f.outcome != "" ==> r.entry.outcome == f.outcome)
    && |f.actionPrefix| <= |r.entry.action| && r.entry.action[..|f.actionPrefix|] == f.actionPrefix
  }

  function Number(rows: seq<AuditRow>, f: AuditFilter): nat {
    if rows == [] then 0 else Number(rows[1..], f) + if AskedFor(rows[0], f) then 1 else 0
  }

  lemma {:induction false} NewestFirst(rows: seq<AuditRow>, f: AuditFilter, i: nat)
    requires i <= |rows|
    ensures |MatchingFrom(rows, f)| == Number(rows, f)
    ensures i < |rows| && AskedFor(rows[i], f) ==>
      Number(rows[i + 1..], f) < Number(rows, f) && MatchingFrom(rows, f)[Number(rows[i + 1..], f)] == rows[i]
  {
    if rows != [] {
      assert rows[0..] == rows;
      MatchingStep(rows, 0, f);
      NewestFirst(rows[1..], f, if i == 0 then 0 else i - 1);
      assert i > 0 && i < |rows| ==> rows[1..][i - 1 + 1..] == rows[i + 1..];
    }
  }

  /** An absent limit asks for 50 rows, and no page has more than 500. */
  function Size(q: AuditQuery): nat {
    if q.limit <= 0 then 50 else if q.limit >= 500 then 500 else q.limit
  }

  /**
   A row asked for is on the page at the place given by how many newer ones are asked for, if that is on
   the page; the page has what is left behind the offset, up to its size.
   */
  lemma PageShows(b: AuditBucket, q: AuditQuery, i: nat)
    requires i < |RowsInOrder(b)| && AskedFor(RowsInOrder(b)[i], q.filter)
    ensures var rows, skip := RowsInOrder(b), if q.offset > 0 then q.offset else 0;
      var newer, total := Number(rows[i + 1..], q.filter), Number(rows, q.filter);
      && (skip <= newer < skip + Size(q) ==>
        newer - skip < |ListPage(b, q)| && ListPage(b, q)[newer - skip] == rows[i])
      && |ListPage(b, q)| == if total <= skip then 0 else if total - skip <= Size(q) then total - skip else Size(q)
  {
    NewestFirst(RowsInOrder(b), q.filter, i);
  }
}
