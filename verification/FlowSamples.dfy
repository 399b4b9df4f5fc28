/** The sliding window of samples behind a connection's bit rate (client/web/antrea-ui-components/src/lib/flow-store.ts).

    The source keeps the window up to date record by record. The main result: that is the same as looking at the whole
    history once. */
module FlowSamples {
  import opened Wrappers

  const RATE_WINDOW_MS := 120_000
  const MAX_SAMPLES := 32

  /** What a flow record contributes: its end time in milliseconds, None where Date.parse gives NaN, and its byte count. */
  datatype Reading = Reading(endMs: Option<int>, bytes: int)

  datatype Sample = Sample(t: int, bytes: int)

  function Last<T>(s: seq<T>): T
    requires s != []
  {
    s[|s| - 1]
  }

  function Init<T>(s: seq<T>): seq<T>
    requires s != []
  {
    s[..|s| - 1]
  }

  // ---------------------------------------------------------------- the source's step

  predicate GoesBack(last: Sample, next: Sample) {
    next.bytes < last.bytes || next.t < last.t
  }

  /** samples.filter((s) => newestT - s.t <= RATE_WINDOW_MS) */
  function Filter(samples: seq<Sample>, newest: int): seq<Sample> {
    if samples == [] then []
    else (if newest - samples[0].t <= RATE_WINDOW_MS then [samples[0]] else []) + Filter(samples[1..], newest)
  }

  function Capped(samples: seq<Sample>): seq<Sample> {
    if |samples| > MAX_SAMPLES then samples[|samples| - MAX_SAMPLES..] else samples
  }

  function Appended(samples: seq<Sample>, next: Sample): seq<Sample> {
    if samples == [] || next.t > Last(samples).t then samples + [next] else Init(samples) + [next]
  }

  /** nextSamples. */
  function NextSamples(existing: seq<Sample>, r: Reading): seq<Sample> {
    match r.endMs
    case None => existing
    case Some(t) =>
      var next := Sample(t, r.bytes);
      var kept := if existing != [] && GoesBack(Last(existing), next) then [] else existing;
      var samples := Appended(kept, next);
      Capped(Filter(samples, Last(samples).t))
  }

  function Folded(history: seq<Reading>): seq<Sample> {
    if history == [] then [] else NextSamples(Folded(Init(history)), Last(history))
  }

  // ---------------------------------------------------------------- the whole history at once

  /** The records with a readable time. */
  function Readable(history: seq<Reading>): seq<Sample> {
    if history == [] then []
    else Readable(Init(history)) + if Last(history).endMs.Some? then [Sample(Last(history).endMs.value, Last(history).bytes)] else []
  }

  /** What comes after the last counter reset, a reset being a record that goes back on the one before it. */
  function SinceReset(v: seq<Sample>): seq<Sample> {
    if |v| <= 1 then v
    else if GoesBack(v[|v| - 2], v[|v| - 1]) then [Last(v)]
    else SinceReset(Init(v)) + [Last(v)]
  }

  /** Of records with the same time, the last one. */
  function LastPerTime(v: seq<Sample>): seq<Sample> {
    if |v| <= 1 then v
    else UnlessSuperseded(v[0], v[1]) + LastPerTime(v[1..])
  }

  function UnlessSuperseded(s: Sample, next: Sample): seq<Sample> {
    if s.t == next.t then [] else [s]
  }

  predicate Fits(v: seq<Sample>) {
    |v| <= MAX_SAMPLES && (v == [] || Last(v).t - v[0].t <= RATE_WINDOW_MS)
  }

  /** The longest suffix that fits the window. */
  function Pruned(v: seq<Sample>): seq<Sample> {
    if Fits(v) then v else Pruned(v[1..])
  }

  predicate Rising(v: seq<Sample>) {
    forall i, j | 0 <= i < j < |v| :: v[i].t < v[j].t && v[i].bytes <= v[j].bytes
  }

  predicate NeverBack(v: seq<Sample>) {
    forall i, j | 0 <= i < j < |v| :: v[i].t <= v[j].t && v[i].bytes <= v[j].bytes
  }

  // ---------------------------------------------------------------- the parts of the history

  lemma {:induction false} SinceResetNeverBack(v: seq<Sample>)
    ensures NeverBack(SinceReset(v))
    ensures v != [] ==> SinceReset(v) != [] && Last(SinceReset(v)) == Last(v)
  {
    if |v| > 1 {
      SinceResetNeverBack(Init(v));
    }
  }

  lemma NeverBackInit(v: seq<Sample>)
    requires NeverBack(v) && v != []
    ensures NeverBack(Init(v))
  {
  }

  /** Records that never go back have no reset among them. */
  lemma {:induction false} NeverBackHasNoReset(v: seq<Sample>)
    requires NeverBack(v)
    ensures SinceReset(v) == v
  {
    if |v| > 1 {
      NeverBackInit(v);
      NeverBackHasNoReset(Init(v));
      assert v[|v| - 2].t <= v[|v| - 1].t && v[|v| - 2].bytes <= v[|v| - 1].bytes;
    }
  }

  /** Record i goes back, in bytes or in time, on the one before it. */
  predicate ResetAt(v: seq<Sample>, i: nat) {
    0 < i < |v| && (v[i].bytes < v[i - 1].bytes || v[i].t < v[i - 1].t)
  }

  lemma ResetAtInit(v: seq<Sample>, i: nat)
    requires v != [] && i < |v| - 1
    ensures ResetAt(Init(v), i) <==> ResetAt(v, i)
  {
  }

  lemma SuffixOfInit(v: seq<Sample>, k: nat)
    requires k < |v|
    ensures v[k..] == Init(v)[k..] + [Last(v)]
  {
  }

  /** What comes since the last reset starts with the last record that goes back on the one before it, or with the first. */
  lemma {:induction false} SinceResetIs(v: seq<Sample>) returns (k: nat)
    requires v != []
    ensures k < |v| && SinceReset(v) == v[k..]
    ensures k == 0 || ResetAt(v, k)
    ensures forall i: nat | k < i :: !ResetAt(v, i)
  {
    if |v| == 1 {
      k := 0;
    } else if ResetAt(v, |v| - 1) {
      k := |v| - 1;
    } else {
      k := SinceResetIs(Init(v));
      SuffixOfInit(v, k);
      forall i: nat | k <= i < |v| - 1 ensures ResetAt(Init(v), i) <==> ResetAt(v, i) {
        ResetAtInit(v, i);
      }
    }
  }

  lemma AppendedAfter(head: seq<Sample>, v: seq<Sample>, next: Sample)
    requires v != []
    ensures Appended(head + v, next) == head + Appended(v, next)
  {
    assert Init(head + v) == head + Init(v);
  }

  lemma NeverBackTail(v: seq<Sample>)
    requires NeverBack(v) && v != []
    ensures NeverBack(v[1..]) && forall s | s in v[1..] :: v[0].t <= s.t && v[0].bytes <= s.bytes
  {
    assert forall i | 0 <= i < |v| - 1 :: v[1..][i] == v[i + 1];
  }

  lemma {:induction false} LastPerTimeSnoc(v: seq<Sample>, next: Sample)
    requires NeverBack(v + [next])
    ensures LastPerTime(v + [next]) == Appended(LastPerTime(v), next)
  {
    var w := v + [next];
    if |v| == 0 {
      assert w == [next];
    } else if |v| == 1 {
      assert w[1..] == [next] && Init(v) == [];
      assert w[0].t <= w[1].t;
    } else {
      var tail := v[1..];
      assert w[1..] == tail + [next] && w[0] == v[0] && w[1] == v[1];
      NeverBackTail(w);
      LastPerTimeSnoc(tail, next);
      LastKept(tail);
      AppendedAfter(UnlessSuperseded(v[0], v[1]), LastPerTime(tail), next);
    }
  }

  lemma {:induction false} LastKept(v: seq<Sample>)
    requires v != []
    ensures LastPerTime(v) != [] && Last(LastPerTime(v)) == Last(v)
  {
    if |v| > 1 {
      LastKept(v[1..]);
    }
  }

  lemma PrependRises(head: Sample, v: seq<Sample>)
    requires Rising(v) && forall s | s in v :: head.t < s.t && head.bytes <= s.bytes
    ensures Rising([head] + v)
  {
  }

  lemma {:induction false} LastPerTimeRises(v: seq<Sample>)
    requires NeverBack(v)
    ensures Rising(LastPerTime(v))
    ensures forall s | s in LastPerTime(v) :: s in v
  {
    if |v| > 1 {
      LastPerTimeRises(v[1..]) by { NeverBackTail(v); }
      if v[0].t != v[1].t {
        EarlierThanTail(v);
        PrependRises(v[0], LastPerTime(v[1..]));
      }
    }
  }

  lemma EarlierThanTail(v: seq<Sample>)
    requires NeverBack(v) && |v| > 1 && v[0].t != v[1].t
    ensures forall s | s in v[1..] :: v[0].t < s.t && v[0].bytes <= s.bytes
  {
    forall i | 1 <= i < |v| ensures v[0].t < v[i].t && v[0].bytes <= v[i].bytes {
      assert v[1].t <= v[i].t;
    }
  }

  // ---------------------------------------------------------------- pruning

  lemma {:induction false} PrunedSkips(v: seq<Sample>, k: nat)
    requires k <= |v| && forall j | 0 <= j < k :: !Fits(v[j..])
    ensures Pruned(v) == Pruned(v[k..])
  {
    assert v[0..] == v;
    if k > 0 {
      forall j | 0 <= j < k - 1 ensures !Fits(v[1..][j..]) {
        assert v[1..][j..] == v[j + 1..];
      }
      PrunedSkips(v[1..], k - 1);
      assert v[1..][k - 1..] == v[k..];
    }
  }

  lemma SuffixOfTail(v: seq<Sample>, j: nat)
    requires j < |v|
    ensures v[1..][j..] == v[j + 1..]
  {
  }

  ghost predicate StopsAt(v: seq<Sample>, k: nat) {
    k <= |v| && Fits(v[k..]) && forall j | 0 <= j < k :: !Fits(v[j..])
  }

  lemma StopsLater(v: seq<Sample>, k: nat)
    requires v != [] && !Fits(v) && StopsAt(v[1..], k)
    ensures StopsAt(v, k + 1)
  {
    assert v[0..] == v;
    SuffixOfTail(v, k);
    forall j | 0 <= j < k + 1 ensures !Fits(v[j..]) {
      if j > 0 {
        SuffixOfTail(v, j - 1);
      }
    }
  }

  /** Where pruning stops: everything before does not fit, what is left does. */
  lemma {:induction false} PrunedAt(v: seq<Sample>) returns (k: nat)
    ensures StopsAt(v, k) && Pruned(v) == v[k..]
    ensures v != [] ==> k < |v|
  {
    if Fits(v) {
      k := 0;
      assert v[0..] == v;
    } else {
      var k' := PrunedAt(v[1..]);
      k := k' + 1;
      StopsLater(v, k');
      SuffixOfTail(v, k');
      assert |v| > 1;
    }
  }

  /** It is the longest: no longer suffix fits. */
  lemma PrunedIsLongest(v: seq<Sample>, j: nat)
    requires j <= |v| <= j + 32 && (j < |v| ==> Last(v).t - v[j].t <= 120_000)
    ensures |v| - j <= |Pruned(v)| <= |v| && Fits(Pruned(v)) && Pruned(v) == v[|v| - |Pruned(v)|..]
  {
    var k := PrunedAt(v);
    assert Fits(v[j..]);
  }

  lemma {:induction false} PrunedIsCapped(v: seq<Sample>)
    requires v != [] && Rising(v) && Last(v).t - v[0].t <= RATE_WINDOW_MS
    ensures Pruned(v) == Capped(v)
  {
    if |v| > MAX_SAMPLES {
      assert Last(v[1..]) == Last(v) && v[1..][0] == v[1];
      PrunedIsCapped(v[1..]);
    }
  }

  lemma {:induction false} FilterKeepsAll(v: seq<Sample>, newest: int)
    requires forall s | s in v :: newest - s.t <= RATE_WINDOW_MS
    ensures Filter(v, newest) == v
  {
    if v != [] {
      FilterKeepsAll(v[1..], newest);
    }
  }

  /** On samples in order, filtering and then capping is taking the longest suffix that fits. */
  lemma {:induction false} FilterThenCap(v: seq<Sample>)
    requires v != [] && Rising(v)
    ensures Capped(Filter(v, Last(v).t)) == Pruned(v)
  {
    if Last(v).t - v[0].t <= RATE_WINDOW_MS {
      FilterKeepsAll(v, Last(v).t);
      PrunedIsCapped(v);
    } else {
      assert |v| > 1 && Last(v[1..]) == Last(v);
      FilterThenCap(v[1..]);
    }
  }

  lemma AppendedRises(v: seq<Sample>, next: Sample)
    requires Rising(v) && (v != [] ==> !GoesBack(Last(v), next))
    ensures Rising(Appended(v, next)) && Appended(v, next) != [] && Last(Appended(v, next)) == next
  {
  }

  /** What did not fit before one more sample does not fit after it either. */
  lemma PrunedThenAppended(v: seq<Sample>, next: Sample)
    requires v != [] && Rising(v) && !GoesBack(Last(v), next)
    ensures Pruned(Appended(Pruned(v), next)) == Pruned(Appended(v, next))
  {
    var k := PrunedAt(v);
    var w := Appended(v, next);
    forall j | 0 <= j < k ensures !Fits(w[j..]) {
      assert !Fits(v[j..]) && Last(v[j..]) == Last(v) && Last(w[j..]) == next;
    }
    PrunedSkips(w, k);
    assert w[k..] == Appended(v[k..], next);
  }

  // ---------------------------------------------------------------- the main result

  function Window(history: seq<Reading>): seq<Sample> {
    Pruned(LastPerTime(SinceReset(Readable(history))))
  }

  /** Pruning record by record is pruning once: after any history, the samples are the longest suffix, of at most 32 samples
      spanning at most 120 seconds, of what came since the last counter reset, with the last record per end time. */
  lemma {:induction false} FoldedIsWindow(history: seq<Reading>)
    ensures Folded(history) == Window(history)
  {
    if history != [] {
      var init, r := Init(history), Last(history);
      FoldedIsWindow(init);
      if r.endMs.Some? {
        OneMoreReading(Readable(init), Sample(r.endMs.value, r.bytes));
      } else {
        assert Readable(history) == Readable(init);
      }
    }
  }

  lemma SinceResetSnoc(v: seq<Sample>, next: Sample)
    ensures SinceReset(v + [next]) == if v == [] || GoesBack(Last(v), next) then [next] else SinceReset(v) + [next]
  {
    assert Init(v + [next]) == v;
    assert v != [] ==> (v + [next])[|v| - 1] == Last(v);
  }

  lemma NextFromScratch(existing: seq<Sample>, next: Sample)
    requires existing == [] || GoesBack(Last(existing), next)
    ensures NextSamples(existing, Reading(Some(next.t), next.bytes)) == Pruned([next])
  {
    FilterThenCap([next]);
    assert Appended([], next) == [next];
  }

  lemma NextOnTop(c: seq<Sample>, next: Sample)
    requires c != [] && Rising(c) && !GoesBack(Last(c), next)
    ensures NextSamples(Pruned(c), Reading(Some(next.t), next.bytes)) == Pruned(Appended(c, next))
  {
    PrunedRises(c);
    AppendedRises(Pruned(c), next);
    FilterThenCap(Appended(Pruned(c), next));
    PrunedThenAppended(c, next);
  }

  lemma OneMoreReading(v: seq<Sample>, next: Sample)
    ensures NextSamples(Pruned(LastPerTime(SinceReset(v))), Reading(Some(next.t), next.bytes))
         == Pruned(LastPerTime(SinceReset(v + [next])))
  {
    var run := SinceReset(v);
    var c := LastPerTime(run);
    SinceResetNeverBack(v);
    SinceResetNeverBack(v + [next]);
    SinceResetSnoc(v, next);
    if v == [] {
      NextFromScratch([], next);
    } else {
      LastKept(run);
      LastPerTimeRises(run);
      PrunedRises(c);
      if GoesBack(Last(v), next) {
        NextFromScratch(Pruned(c), next);
      } else {
        LastPerTimeSnoc(run, next);
        NextOnTop(c, next);
      }
    }
  }

  lemma SuffixRises(v: seq<Sample>, k: nat)
    requires Rising(v) && k <= |v|
    ensures Rising(v[k..])
  {
    assert forall i | 0 <= i < |v| - k :: v[k..][i] == v[k + i];
  }

  /** So the samples always rise in time, never fall in bytes, and stay within their bounds. */
  lemma SamplesRise(history: seq<Reading>)
    ensures Rising(Folded(history)) && |Folded(history)| <= 32
    ensures Folded(history) != [] ==> Last(Folded(history)).t - Folded(history)[0].t <= 120_000
    ensures Readable(history) != [] ==> Folded(history) != [] && Last(Folded(history)) == Last(Readable(history))
  {
    FoldedIsWindow(history);
    var run := SinceReset(Readable(history));
    SinceResetNeverBack(Readable(history));
    LastPerTimeRises(run);
    if run != [] { LastKept(run); }
    PrunedRises(LastPerTime(run));
  }

  lemma PrunedRises(c: seq<Sample>)
    requires Rising(c)
    ensures Rising(Pruned(c)) && Fits(Pruned(c)) && (c != [] ==> Pruned(c) != [] && Last(Pruned(c)) == Last(c))
  {
    var k := PrunedAt(c);
    SuffixRises(c, k);
  }

  // ---------------------------------------------------------------- the rate

  /** entryBitRate, in bits per second. */
  function BitRate(samples: seq<Sample>): real {
    if |samples| < 2 then 0.0
    else
      var dtSec := (Last(samples).t - samples[0].t) as real / 1000.0;
      var dBytes := Last(samples).bytes - samples[0].bytes;
      if dtSec <= 0.0 || dBytes <= 0 then 0.0 else (dBytes * 8) as real / dtSec
  }

  /** The bits gained over the seconds elapsed, which are never zero; zero only when nothing was gained. */
  ghost predicate IsBitsPerSecond(rate: real, s: seq<Sample>)
    requires |s| >= 2
  {
    var seconds := (Last(s).t - s[0].t) as real / 1000.0;
    var bits := ((Last(s).bytes - s[0].bytes) * 8) as real;
    && 0.0 < seconds <= 120.0
    && 0.0 <= rate
    && rate * seconds == bits
    && (rate == 0.0 <==> Last(s).bytes == s[0].bytes)
  }

  lemma RateOf(s: seq<Sample>)
    requires Rising(s) && Fits(s) && |s| >= 2
    ensures IsBitsPerSecond(BitRate(s), s)
  {
    var dt, bytes := Last(s).t - s[0].t, Last(s).bytes - s[0].bytes;
    assert 0 < dt && 0 <= bytes;
    Quotient((bytes * 8) as real, dt as real / 1000.0);
  }

  /** After any history with two samples in the window, the rate divides by a positive time and is what it says. */
  lemma RateIsBitsPerSecond(history: seq<Reading>)
    ensures |Folded(history)| >= 2 ==> IsBitsPerSecond(BitRate(Folded(history)), Folded(history))
    ensures |Folded(history)| < 2 ==> BitRate(Folded(history)) == 0.0
  {
    SamplesRise(history);
    if |Folded(history)| >= 2 {
      RateOf(Folded(history));
    }
  }

  lemma Quotient(a: real, b: real)
    requires a >= 0.0 && b > 0.0
    ensures a / b >= 0.0 && a / b * b == a && (a / b == 0.0 <==> a == 0.0)
  {
  }
}
