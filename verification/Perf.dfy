/** src/perf.c: a 64-slot window over an unbounded history of operations, with running totals. */
module Perf {
  import opened Types
  import opened Arith
  import opened Geometry
  import Volume

  const HISTORY: nat := 64

  datatype Record = Record(op: CString, duration: U64, bytes: U64)

  datatype Stats = Stats(records: seq<Record>, count: nat, head: nat, totalOps: U64, totalNs: U64, totalBytes: U64)

  /** j % PERF_HISTORY, the slot of the j-th call. */
  function SlotOf(j: nat): (i: nat)
    ensures i < HISTORY
  {
    Rem(j, HISTORY)
  }

  /** perf_record with the clock readings and the name it is given. */
  function Recorded(s: Stats, r: Record): Stats
    requires |s.records| == HISTORY
  {
    Stats(s.records[SlotOf(s.head) := r],
          if s.count < HISTORY then s.count + 1 else s.count,
          SlotOf(s.head + 1),
          Wrap64(s.totalOps + 1), Wrap64(s.totalNs + r.duration), Wrap64(s.totalBytes + r.bytes))
  }

  function Entry(op: CString, start: U64, end: U64, bytes: U64): Record {
    Record(Volume.Clip(op), Wrap64(end - start), bytes)
  }

  /** A call's entry: the first 31 bytes of its name, the bytes it reports, and the duration that leads from the one
      clock reading to the other, modulo 2^64. */
  lemma EntryMeaning(op: CString, start: U64, end: U64, bytes: U64)
    ensures var r := Entry(op, start, end, bytes);
            && r.bytes == bytes
            && (start + r.duration) % 0x1_0000_0000_0000_0000 == end
            && r.op == if |op| <= 31 then op else op[..31]
  {
  }

  /** The statistics after a history of calls, from perf_init. */
  function After(blank: seq<Record>, history: seq<Record>): (s: Stats)
    requires |blank| == HISTORY
    ensures |s.records| == HISTORY
  {
    if history == [] then Stats(blank, 0, 0, 0, 0, 0)
    else Recorded(After(blank, history[..|history| - 1]), history[|history| - 1])
  }

  function SumNs(history: seq<Record>): nat {
    if history == [] then 0 else SumNs(history[..|history| - 1]) + history[|history| - 1].duration
  }

  function SumBytes(history: seq<Record>): nat {
    if history == [] then 0 else SumBytes(history[..|history| - 1]) + history[|history| - 1].bytes
  }

  lemma AddWraps(total: nat, x: nat)
    ensures Wrap64(Wrap64(total) + x) == Wrap64(total + x)
  {
  }

  lemma SlotNext(n: nat)
    ensures SlotOf(SlotOf(n) + 1) == SlotOf(n + 1) && SlotOf(SlotOf(n)) == SlotOf(n)
  {
    RemShift(n, 1, HISTORY);
    RemShift(n, 0, HISTORY);
  }

  /** After any number of calls the last 64 are each in their slot, and the head is the next slot. */
  lemma {:induction false} WindowHolds(blank: seq<Record>, history: seq<Record>)
    requires |blank| == HISTORY
    ensures var s := After(blank, history);
            && s.count == Min(64, |history|) && s.head == SlotOf(|history|)
            && (forall j :: |history| - s.count <= j < |history| ==> s.records[SlotOf(j)] == history[j])
  {
    if history != [] {
      var n := |history| - 1;
      var before := history[..n];
      WindowHolds(blank, before);
      SlotNext(n);
      var s, t := After(blank, before), After(blank, history);
      assert t.records == s.records[SlotOf(n) := history[n]];
      forall j | |history| - t.count <= j < n
        ensures t.records[SlotOf(j)] == history[j]
      {
        RemDiffer(j, n, HISTORY);
        assert s.records[SlotOf(j)] == before[j];
      }
    }
  }

  lemma StaysBounded(blank: seq<Record>, history: seq<Record>)
    requires |blank| == HISTORY
    ensures After(blank, history).count == Min(64, |history|) && After(blank, history).head < HISTORY
  {
    WindowHolds(blank, history);
  }

  lemma TotalsNext(s: Stats, r: Record, ops: nat, ns: nat, bytes: nat)
    requires |s.records| == HISTORY
    requires s.totalOps == Wrap64(ops) && s.totalNs == Wrap64(ns) && s.totalBytes == Wrap64(bytes)
    ensures Recorded(s, r).totalOps == Wrap64(ops + 1)
    ensures Recorded(s, r).totalNs == Wrap64(ns + r.duration)
    ensures Recorded(s, r).totalBytes == Wrap64(bytes + r.bytes)
  {
    AddWraps(ops, 1);
    AddWraps(ns, r.duration);
    AddWraps(bytes, r.bytes);
  }

  /** The totals are the sums over the whole history, modulo 2^64. */
  lemma {:induction false} TotalsAreSums(blank: seq<Record>, history: seq<Record>)
    requires |blank| == HISTORY
    ensures var s := After(blank, history);
            && s.totalOps == Wrap64(|history|)
            && s.totalNs == Wrap64(SumNs(history)) && s.totalBytes == Wrap64(SumBytes(history))
  {
    if history != [] {
      var n := |history| - 1;
      TotalsAreSums(blank, history[..n]);
      TotalsNext(After(blank, history[..n]), history[n], n, SumNs(history[..n]), SumBytes(history[..n]));
    }
  }

  /** The walk of perf_report: from (head - count + 64) mod 64, count slots. */
  function Walked(s: Stats, n: nat): seq<Record>
    requires |s.records| == HISTORY && n <= s.count <= HISTORY && s.head < HISTORY
  {
    var start := SlotOf(s.head - s.count + HISTORY);
    seq(n, i requires 0 <= i < n => s.records[SlotOf(start + i)])
  }

  lemma WalkSlot(n: nat, count: nat, i: nat)
    requires i < count <= n && count <= HISTORY
    ensures SlotOf(SlotOf(SlotOf(n) - count + HISTORY) + i) == SlotOf(n - count + i)
  {
    RemShift(n, HISTORY - count, HISTORY);
    RemShift(n + HISTORY - count, i, HISTORY);
    assert Rem(n + HISTORY - count + i, HISTORY) == Rem(n - count + i, HISTORY);
  }

  lemma WalkedNext(s: Stats, n: nat)
    requires |s.records| == HISTORY && n < s.count <= HISTORY && s.head < HISTORY
    ensures Walked(s, n + 1)
            == Walked(s, n) + [s.records[SlotOf(SlotOf(s.head - s.count + HISTORY) + n)]]
  {
  }

  /** The last entries of the history are in their slots. */
  ghost predicate Window(s: Stats, history: seq<Record>) {
    && |s.records| == 64 && s.count == Min(64, |history|) && s.head == SlotOf(|history|)
    && (forall j :: |history| - s.count <= j < |history| ==> s.records[SlotOf(j)] == history[j])
  }

  lemma WalkIsSuffix(s: Stats, history: seq<Record>)
    requires Window(s, history)
    ensures Walked(s, s.count) == history[|history| - s.count..]
  {
    var first := |history| - s.count;
    var w := Walked(s, s.count);
    forall i | 0 <= i < |w|
      ensures w[i] == history[first + i]
    {
      WalkSlot(|history|, s.count, i);
      assert s.records[SlotOf(first + i)] == history[first + i];
    }
  }

  /** The statistics s stand for that history. */
  predicate Reflects(s: Stats, blank: seq<Record>, history: seq<Record>) {
    |blank| == HISTORY && s == After(blank, history)
  }

  lemma OneMore(s: Stats, t: Stats, blank: seq<Record>, history: seq<Record>, longer: seq<Record>, r: Record)
    requires Reflects(s, blank, history) && t == Recorded(s, r) && longer == history + [r]
    ensures Reflects(t, blank, longer)
  {
    assert longer[..|history|] == history;
  }

  lemma WindowAfter(blank: seq<Record>, history: seq<Record>)
    requires |blank| == HISTORY
    ensures Window(After(blank, history), history)
  {
    WindowHolds(blank, history);
  }

  /** perf_report lists exactly the last min(64, calls) calls in order. */
  lemma ReportIsSuffix(blank: seq<Record>, history: seq<Record>)
    requires |blank| == HISTORY
    ensures Window(After(blank, history), history)
    ensures var s := After(blank, history);
            Walked(s, s.count) == history[|history| - s.count..]
  {
    WindowAfter(blank, history);
    WalkIsSuffix(After(blank, history), history);
  }

  lemma LastInWindow(s: Stats, history: seq<Record>)
    requires Window(s, history) && history != []
    ensures s.records[SlotOf(s.head - 1 + HISTORY)] == history[|history| - 1]
  {
    WalkSlot(|history|, 1, 0);
    assert s.records[SlotOf(|history| - 1)] == history[|history| - 1];
  }

  /** perf_last shows the final call. */
  lemma LastIsFinal(blank: seq<Record>, history: seq<Record>)
    requires |blank| == HISTORY && history != []
    ensures var s := After(blank, history);
            s.count > 0 && s.records[SlotOf(s.head - 1 + HISTORY)] == history[|history| - 1]
  {
    WindowAfter(blank, history);
    LastInWindow(After(blank, history), history);
  }

  class PerfStats {
    var records: array<Record>
    var count: nat
    var head: nat
    var totalOps: U64
    var totalNs: U64
    var totalBytes: U64
    ghost var blank: seq<Record>
    ghost var history: seq<Record>

    ghost predicate Valid()
      reads this, records
    {
      records.Length == HISTORY && Reflects(State(), blank, history)
    }

    /** perf_init */
    constructor ()
      ensures Valid() && history == []
    {
      var zero := Record([], 0, 0);
      records := new Record[HISTORY](_ => zero);
      count, head, totalOps, totalNs, totalBytes := 0, 0, 0, 0, 0;
      new;
      blank, history := records[..], [];
    }

    ghost function State(): Stats
      reads this, records
    {
      Stats(records[..], count, head, totalOps, totalNs, totalBytes)
    }

    /** The record goes into its slot, and the counters follow. */
    method Put(r: Record)
      requires records.Length == HISTORY
      modifies this`count, this`head, this`totalOps, this`totalNs, this`totalBytes, records
      ensures State() == Recorded(old(State()), r)
    {
      records[SlotOf(head)] := r;
      head := SlotOf(head + 1);
      if count < HISTORY {
        count := count + 1;
      }
      totalOps := Wrap64(totalOps + 1);
      totalNs := Wrap64(totalNs + r.duration);
      totalBytes := Wrap64(totalBytes + r.bytes);
    }

    method PerfRecord(op: CString, start: U64, end: U64, bytes: U64)
      requires Valid()
      modifies this, records
      ensures Valid() && records == old(records)
      ensures history == old(history) + [Entry(op, start, end, bytes)]
    {
      Keep(Entry(op, start, end, bytes));
    }

    method Keep(r: Record)
      requires Valid()
      modifies this, records
      ensures Valid() && records == old(records) && history == old(history) + [r]
    {
      ghost var s, h := State(), history;
      Put(r);
      history := history + [r];
      OneMore(s, State(), blank, h, history, r);
    }

    /** The listing loop of perf_report. */
    method Report() returns (listing: seq<Record>)
      requires Valid()
      ensures count <= |history| && listing == history[|history| - count..] && count == Min(64, |history|)
    {
      ghost var s := State();
      StaysBounded(blank, history);
      listing := [];
      var start := SlotOf(head - count + HISTORY);
      var i := 0;
      while i < count
        invariant 0 <= i <= count
        invariant listing == Walked(s, i)
      {
        WalkedNext(s, i);
        listing := listing + [records[SlotOf(start + i)]];
        i := i + 1;
      }
      ReportIsSuffix(blank, history);
    }

    /** perf_last: the last call, or none. */
    method Last() returns (r: Option<Record>)
      requires Valid()
      ensures r == if history == [] then None else Some(history[|history| - 1])
    {
      if count == 0 {
        WindowHolds(blank, history);
        return None;
      }
      WindowHolds(blank, history);
      LastIsFinal(blank, history);
      return Some(records[SlotOf(head - 1 + HISTORY)]);
    }
  }
}
