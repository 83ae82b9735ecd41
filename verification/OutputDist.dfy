/** gen_outputdist: the distribution that a benchmark run actually wrote, from its per-block statistics. */
module OutputDist {
  import opened Tallies
  import opened DedupMerge

  function Total(s: seq<nat>): nat {
    if s == [] then 0 else Total(s[..|s| - 1]) + s[|s| - 1]
  }

  /** How many blocks have been written v times. */
  function Count(s: seq<nat>, v: nat): nat {
    if s == [] then 0 else Count(s[..|s| - 1], v) + if s[|s| - 1] == v then 1 else 0
  }

  lemma NextStatistic(s: seq<nat>, i: nat, v: nat)
    requires i < |s|
    ensures Total(s[..i + 1]) == Total(s[..i]) + s[i]
    ensures Count(s[..i + 1], v) == Count(s[..i], v) + if s[i] == v then 1 else 0
  {
    assert s[..i + 1][..i] == s[..i] && s[..i + 1][i] == s[i];
  }

  lemma AddEntry(hist: map<nat, nat>, n: nat, more: nat)
    ensures Sum(hist[n := Get(hist, n) + more], Scans()) == Sum(hist, Scans()) + (n + 1) * more
  {
    hide Sum;
    SumPut(hist, Scans(), n, Get(hist, n) + more);
    assert (n + 1) * (Get(hist, n) + more) == (n + 1) * Get(hist, n) + (n + 1) * more;
  }

  /** The histogram has grown, under every n > 0, by the blocks written n + 1 times, and under 0 by zero. */
  ghost predicate Recorded(hist: map<nat, nat>, printed: map<nat, nat>, s: seq<nat>, zero: nat) {
    forall n: nat :: RecordedAt(hist, printed, s, zero, n)
  }

  ghost predicate RecordedAt(hist: map<nat, nat>, printed: map<nat, nat>, s: seq<nat>, zero: nat, n: nat) {
    Get(hist, n) == Get(printed, n) + if n == 0 then zero else Count(s, n + 1)
  }

  lemma RecordNext(hist: map<nat, nat>, printed: map<nat, nat>, s: seq<nat>, i: nat)
    requires i < |s| && Recorded(hist, printed, s[..i], 0)
    ensures Recorded(if s[i] > 1 then hist[s[i] - 1 := Get(hist, s[i] - 1) + 1] else hist, printed, s[..i + 1], 0)
  {
    var hist', s' := if s[i] > 1 then hist[s[i] - 1 := Get(hist, s[i] - 1) + 1] else hist, s[..i + 1];
    forall n: nat ensures RecordedAt(hist', printed, s', 0, n) {
      assert RecordedAt(hist, printed, s[..i], 0, n);
      NextStatistic(s, i, n + 1);
    }
  }

  lemma RecordZero(hist: map<nat, nat>, printed: map<nat, nat>, s: seq<nat>, zero: nat)
    requires Recorded(hist, printed, s, 0)
    ensures Recorded(hist[0 := Get(hist, 0) + zero], printed, s, zero)
  {
    var hist' := hist[0 := Get(hist, 0) + zero];
    forall n: nat ensures RecordedAt(hist', printed, s, zero, n) {
      assert RecordedAt(hist, printed, s, 0, n);
    }
  }

  /** gen_outputdist. The law of the last clause: every write that the statistics and zerodups record is
    * found again behind the entries of the histogram. */
  method GenOutputdist(statistics: array<nat>, zerodups0: nat, printed: map<nat, nat>)
    returns (zerodups: nat, hist: map<nat, nat>)
    ensures zerodups == zerodups0 + Count(statistics[..], 1)
    ensures Recorded(hist, printed, statistics[..], zerodups)
    ensures Sum(hist, Scans()) == Sum(printed, Scans()) + Total(statistics[..]) + zerodups0
  {
    hide Sum; hide Recorded;
    ghost var s := statistics[..];
    zerodups, hist := zerodups0, printed;
    var i := 0;
    NothingRead(printed);
    while i < statistics.Length
      invariant 0 <= i <= statistics.Length
      invariant zerodups == zerodups0 + Count(s[..i], 1)
      invariant Recorded(hist, printed, s[..i], 0)
      invariant Sum(hist, Scans()) + zerodups == Sum(printed, Scans()) + Total(s[..i]) + zerodups0
    {
      hide Total; hide Count;
      NextStatistic(s, i, 1);
      RecordNext(hist, printed, s, i);
      if statistics[i] == 1 {
        zerodups := zerodups + 1;
      }
      if statistics[i] > 1 {
        var ndups := statistics[i] - 1;
        AddEntry(hist, ndups, 1);
        if ndups !in hist {
          hist := hist[ndups := 1];
        } else {
          hist := hist[ndups := hist[ndups] + 1];
        }
      }
      i := i + 1;
    }
    assert s[..i] == s;
    AddEntry(hist, 0, zerodups);
    RecordZero(hist, printed, s, zerodups);
    if 0 !in hist {
      hist := hist[0 := zerodups];
    } else {
      hist := hist[0 := hist[0] + zerodups];
    }
  }

  lemma NothingRead(printed: map<nat, nat>)
    ensures Total([]) == 0 && Count([], 1) == 0 && Recorded(printed, printed, [], 0)
  {}
}
