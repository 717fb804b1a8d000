/**
 * The delta log of the sync protocol: a state of named values, changed by deltas,
 * of which the last hundred are kept for peers that have an older state.
 */
module DeltaLog {
  import opened Messages

  const HISTORY_SIZE := 100

  type State<V> = map<string, V>

  // A null delta is logged like any other and changes nothing.
  type Delta<V> = Option<map<string, V>>

  datatype Logged<V> = Logged(timestamp: int, delta: Delta<V>)

  function Apply<V>(s: State<V>, d: Delta<V>): State<V> {
    if d.Some? then s + d.value else s
  }

  // What a peer does with the deltas it is sent.
  function Fold<V>(s: State<V>, ds: seq<Delta<V>>): State<V> {
    if ds == [] then s else Apply(Fold(s, ds[..|ds| - 1]), ds[|ds| - 1])
  }

  function Deltas<V>(log: seq<Logged<V>>): (ds: seq<Delta<V>>)
    ensures |ds| == |log| && forall i :: 0 <= i < |log| ==> ds[i] == log[i].delta
  {
    seq(|log|, i requires 0 <= i < |log| => log[i].delta)
  }

  function Window<V>(log: seq<Logged<V>>): seq<Logged<V>> {
    if |log| > HISTORY_SIZE then log[|log| - HISTORY_SIZE..] else log
  }

  function Since<V>(log: seq<Logged<V>>, t: int): seq<Logged<V>> {
    if log == [] then []
    else
      var front, last := log[..|log| - 1], log[|log| - 1];
      Since(front, t) + if last.timestamp > t then [last] else []
  }

  // Where an array slice that starts at -limit begins: 0 for the limit 0.
  function RecentStart(length: nat, limit: int): (k: nat)
    ensures k <= length
  {
    if limit > length then 0
    else if limit > 0 then length - limit
    else if -limit > length then length
    else -limit
  }

  // --------------------------------------------------------------- merging

  // Applying deltas one by one is overriding with their merge.
  lemma {:induction false} FoldIsMerge<V>(s: State<V>, ds: seq<Delta<V>>)
    ensures Fold(s, ds) == s + Fold(map[], ds)
  {
    if ds != [] {
      FoldIsMerge(s, ds[..|ds| - 1]);
    }
  }

  lemma {:induction false} FoldAppend<V>(s: State<V>, a: seq<Delta<V>>, b: seq<Delta<V>>)
    ensures Fold(s, a + b) == Fold(Fold(s, a), b)
  {
    if b == [] {
      assert a + b == a;
    } else {
      assert (a + b)[..|a + b| - 1] == a + b[..|b| - 1];
      FoldAppend(s, a, b[..|b| - 1]);
    }
  }

  // Deltas already in the state may be applied again, if all later ones follow.
  lemma OverlapIsHarmless<V>(s: State<V>, ds: seq<Delta<V>>, j: nat, i: nat)
    requires j <= i <= |ds|
    ensures Fold(Fold(s, ds[..i]), ds[j..]) == Fold(s, ds)
  {
    var a, b, c := ds[..j], ds[j..i], ds[i..];
    assert ds[..i] == a + b && ds[j..] == b + c && ds == ds[..i] + c;
    FoldAppend(s, a, b);
    FoldAppend(s, ds[..i], c);
    FoldAppend(Fold(s, ds[..i]), b, c);
    FoldIsMerge(Fold(s, a), b);
    FoldIsMerge(Fold(s, a + b), b);
    assert Fold(s, a) + Fold(map[], b) + Fold(map[], b) == Fold(s, a) + Fold(map[], b);
  }

  // When deltas are missing, the result is right exactly if whatever they wrote
  // is written again later or had been there before.
  lemma GapIsHarmlessIff<V>(have: State<V>, missing: seq<Delta<V>>, sent: seq<Delta<V>>)
    ensures Fold(have, sent) == Fold(have, missing + sent) <==> Harmless(have, Fold(map[], missing), Fold(map[], sent))
  {
    FoldAppend(have, missing, sent);
    FoldIsMerge(have, missing);
    FoldIsMerge(have, sent);
    FoldIsMerge(Fold(have, missing), sent);
    hide Fold;
    LostIsHarmlessIff(have, Fold(map[], missing), Fold(map[], sent));
  }

  ghost predicate Harmless<V>(have: State<V>, lost: State<V>, sent: State<V>) {
    forall key :: key in lost && key !in sent ==> key in have && have[key] == lost[key]
  }

  lemma LostIsHarmlessIff<V>(have: State<V>, lost: State<V>, sent: State<V>)
    ensures have + sent == have + lost + sent <==> Harmless(have, lost, sent)
  {
    var result, current := have + sent, have + lost + sent;
    if Harmless(have, lost, sent) {
      assert result.Keys == current.Keys;
      assert forall key :: key in result ==> result[key] == current[key];
    } else {
      var key :| key in lost && key !in sent && !(key in have && have[key] == lost[key]);
      assert key in current && current[key] == lost[key];
      assert key in result ==> key in have && result[key] == have[key];
    }
  }

  // ------------------------------------------------------------------ runs

  datatype Event<V> =
    | Applied(timestamp: int, delta: Delta<V>)
    | Replaced(state: State<V>)

  function StateOf<V>(events: seq<Event<V>>): State<V> {
    if events == [] then map[]
    else
      match events[|events| - 1]
      case Applied(_, delta) => Apply(StateOf(events[..|events| - 1]), delta)
      case Replaced(state) => state
  }

  function LogOf<V>(events: seq<Event<V>>): seq<Logged<V>> {
    if events == [] then []
    else
      var front, last := events[..|events| - 1], events[|events| - 1];
      LogOf(front) + if last.Applied? then [Logged(last.timestamp, last.delta)] else []
  }

  ghost predicate Ascending<V>(log: seq<Logged<V>>) {
    forall i, j :: 0 <= i <= j < |log| ==> log[i].timestamp <= log[j].timestamp
  }

  // In a log with ascending timestamps, the entries newer than t are its end.
  lemma {:induction false} SinceIsSuffix<V>(log: seq<Logged<V>>, t: int) returns (c: nat)
    requires Ascending(log)
    ensures c <= |log| && Since(log, t) == log[c..]
    ensures forall i :: 0 <= i < |log| ==> (log[i].timestamp > t <==> i >= c)
  {
    hide Since;
    if log == [] || log[|log| - 1].timestamp <= t {
      NoneNewer(log, t);
      c := |log|;
    } else {
      var n := |log| - 1;
      LastIsNewer(log, t);
      c := SinceIsSuffix(log[..n], t);
      assert log[c..] == log[..n][c..] + [log[n]];
      forall i | 0 <= i < n ensures log[i].timestamp > t <==> i >= c {
        assert log[i] == log[..n][i];
      }
    }
  }

  lemma LastIsNewer<V>(log: seq<Logged<V>>, t: int)
    requires log != [] && log[|log| - 1].timestamp > t
    ensures Since(log, t) == Since(log[..|log| - 1], t) + [log[|log| - 1]]
  {
  }

  lemma {:induction false} NoneNewer<V>(log: seq<Logged<V>>, t: int)
    requires forall i :: 0 <= i < |log| ==> log[i].timestamp <= t
    ensures Since(log, t) == []
  {
    if log != [] {
      NoneNewer(log[..|log| - 1], t);
    }
  }

  lemma SuffixIsSince<V>(log: seq<Logged<V>>, t: int, c: nat)
    requires c <= |log| && forall i :: 0 <= i < |log| ==> (log[i].timestamp > t <==> i >= c)
    requires Ascending(log)
    ensures Since(log, t) == log[c..]
  {
    hide Since;
    var c' := SinceIsSuffix(log, t);
    assert c < |log| ==> log[c].timestamp > t;
    assert c' < |log| ==> log[c'].timestamp > t;
  }

  // What the window still has of the entries newer than t.
  lemma SinceInWindow<V>(log: seq<Logged<V>>, t: int)
    requires Ascending(log)
    ensures var newer := Since(log, t);
            Since(Window(log), t) == if |newer| > HISTORY_SIZE then newer[|newer| - HISTORY_SIZE..] else newer
  {
    hide Since;
    var c := SinceIsSuffix(log, t);
    if |log| > HISTORY_SIZE {
      var d := |log| - HISTORY_SIZE;
      var e := if c <= d then 0 else c - d;
      assert forall i :: 0 <= i < HISTORY_SIZE ==> Window(log)[i] == log[d + i];
      SuffixIsSince(Window(log), t, e);
      assert Window(log)[e..] == log[d + e..];
      assert c <= d ==> log[c..][d - c..] == log[d..];
    }
  }

  // The window answers for t exactly when no entry newer than t has left it.
  lemma WindowCoversIff<V>(log: seq<Logged<V>>, t: int)
    requires Ascending(log)
    ensures Since(Window(log), t) == Since(log, t) <==>
            |log| <= 100 || log[|log| - 100 - 1].timestamp <= t
    ensures Since(Window(log), t) == Since(log, t) <==> |Since(log, t)| <= 100
  {
    hide Since, Window;
    SinceInWindow(log, t);
    var c := SinceIsSuffix(log, t);
  }

  // A peer can tell from the oldest entry kept: it is no newer than t, or the
  // history is not yet full.
  lemma OldestTells<V>(log: seq<Logged<V>>, t: int)
    requires Ascending(log)
    requires |Window(log)| < 100 || Window(log)[0].timestamp <= t
    ensures Since(Window(log), t) == Since(log, t)
  {
    WindowCoversIff(log, t);
  }

  lemma OneMore<V>(events: seq<Event<V>>, now: int, delta: Delta<V>)
    ensures StateOf(events + [Applied(now, delta)]) == Apply(StateOf(events), delta)
    ensures LogOf(events + [Applied(now, delta)]) == LogOf(events) + [Logged(now, delta)]
  {
    var more := events + [Applied(now, delta)];
    assert more[..|more| - 1] == events;
  }

  lemma {:induction false} StateIsFold<V>(events: seq<Event<V>>, j: nat)
    requires j <= |events| && forall k :: j <= k < |events| ==> events[k].Applied?
    ensures LogOf(events[..j]) <= LogOf(events) && |LogOf(events)| == |LogOf(events[..j])| + |events| - j
    ensures StateOf(events) == Fold(StateOf(events[..j]), Deltas(LogOf(events)[|LogOf(events[..j])|..]))
    ensures forall k :: j <= k < |events| ==>
      LogOf(events)[|LogOf(events[..j])| + k - j] == Logged(events[k].timestamp, events[k].delta)
    decreases |events|
  {
    hide LogOf, StateOf;
    var skip := |LogOf(events[..j])|;
    if j == |events| {
      assert events[..j] == events;
      assert Deltas(LogOf(events)[skip..]) == [];
    } else {
      var front, last := events[..|events| - 1], events[|events| - 1];
      assert front[..j] == events[..j] && events == front + [last];
      StateIsFold(front, j);
      OneMore(front, last.timestamp, last.delta);
      var ds := Deltas(LogOf(events)[skip..]);
      assert ds[..|ds| - 1] == Deltas(LogOf(front)[skip..]);
      assert ds[|ds| - 1] == last.delta;
    }
  }

  // The position in a run from which on every delta is newer than t.
  predicate NewerFrom<V>(events: seq<Event<V>>, j: nat, t: int) {
    && j <= |events|
    && (forall k :: 0 <= k < j && events[k].Applied? ==> events[k].timestamp <= t)
    && (forall k :: j <= k < |events| ==> events[k].Applied? && events[k].timestamp > t)
  }

  lemma {:induction false} LogBefore<V>(events: seq<Event<V>>, t: int)
    requires forall k :: 0 <= k < |events| && events[k].Applied? ==> events[k].timestamp <= t
    ensures forall m :: 0 <= m < |LogOf(events)| ==> LogOf(events)[m].timestamp <= t
  {
    if events != [] {
      LogBefore(events[..|events| - 1], t);
    }
  }

  // A peer that has the state of some moment, and asks for everything newer than
  // a t that is no later, ends up with the current state: when nothing newer than
  // t has left the history and the state was not replaced since.
  lemma ReplayCatchesUp<V>(events: seq<Event<V>>, j: nat, i: nat, t: int)
    requires Ascending(LogOf(events)) && NewerFrom(events, j, t) && j <= i <= |events|
    requires |Since(LogOf(events), t)| <= 100
    ensures Fold(StateOf(events[..i]), Deltas(Since(Window(LogOf(events)), t))) == StateOf(events)
  {
    hide LogOf, StateOf, Since, Window, Fold;
    var ds := NewerDeltas(events, j, t);
    WindowCoversIff(LogOf(events), t);
    StateBetween(events, j, i, t);
    OverlapIsHarmless(StateOf(events[..j]), ds, 0, i - j);
    assert ds[0..] == ds;
  }

  lemma NewerDeltas<V>(events: seq<Event<V>>, j: nat, t: int) returns (ds: seq<Delta<V>>)
    requires Ascending(LogOf(events)) && NewerFrom(events, j, t)
    ensures ds == Deltas(Since(LogOf(events), t)) && |ds| == |events| - j
    ensures StateOf(events) == Fold(StateOf(events[..j]), ds)
    ensures forall k :: j <= k < |events| ==> ds[k - j] == events[k].delta
  {
    hide LogOf, StateOf, Since, Fold;
    var log, skip := LogOf(events), |LogOf(events[..j])|;
    StateIsFold(events, j);
    LogBefore(events[..j], t);
    forall m | 0 <= m < |log| ensures log[m].timestamp > t <==> m >= skip {
      if m < skip {
        assert log[m] == LogOf(events[..j])[m];
      } else {
        var k := j + m - skip;
        assert log[skip + k - j].timestamp == events[k].timestamp;
      }
    }
    SuffixIsSince(log, t, skip);
    ds := Deltas(log[skip..]);
    forall k | j <= k < |events| ensures ds[k - j] == events[k].delta {
      assert log[skip + k - j].delta == events[k].delta;
    }
  }

  lemma StateBetween<V>(events: seq<Event<V>>, j: nat, i: nat, t: int)
    requires Ascending(LogOf(events)) && NewerFrom(events, j, t) && j <= i <= |events|
    ensures var ds := Deltas(Since(LogOf(events), t));
            |ds| == |events| - j && StateOf(events[..i]) == Fold(StateOf(events[..j]), ds[..i - j])
  {
    hide LogOf, StateOf, Since, Fold;
    var ds := NewerDeltas(events, j, t);
    LogPrefix(events, i);
    var before := NewerDeltas(events[..i], j, t);
    assert events[..i][..j] == events[..j];
    forall m | 0 <= m < i - j ensures before[m] == ds[m] {
      assert events[..i][j + m] == events[j + m];
    }
    assert before == ds[..i - j];
  }

  lemma {:induction false} LogPrefix<V>(events: seq<Event<V>>, i: nat)
    requires i <= |events|
    ensures LogOf(events[..i]) <= LogOf(events)
    decreases |events|
  {
    if i == |events| {
      assert events[..i] == events;
    } else {
      LogPrefix(events[..|events| - 1], i);
      assert events[..|events| - 1][..i] == events[..i];
    }
  }

  // The newer deltas that have left the history.
  function Missing<V>(log: seq<Logged<V>>, t: int): seq<Delta<V>>
    requires |Since(log, t)| > 100
  {
    Deltas(Since(log, t)[..|Since(log, t)| - HISTORY_SIZE])
  }

  // What a history too short for t costs, exactly.
  lemma UncoveredReplayIff<V>(events: seq<Event<V>>, j: nat, t: int)
    requires Ascending(LogOf(events)) && NewerFrom(events, j, t)
    requires |Since(LogOf(events), t)| > 100
    ensures var have, sent := StateOf(events[..j]), Deltas(Since(Window(LogOf(events)), t));
            Fold(have, sent) == StateOf(events) <==>
            Harmless(have, Fold(map[], Missing(LogOf(events), t)), Fold(map[], sent))
  {
    hide LogOf, StateOf, Since, Window, Fold, Harmless;
    var ds := NewerDeltas(events, j, t);
    SinceInWindow(LogOf(events), t);
    assert ds == Missing(LogOf(events), t) + Deltas(Since(Window(LogOf(events)), t));
    GapIsHarmlessIff(StateOf(events[..j]), Missing(LogOf(events), t), Deltas(Since(Window(LogOf(events)), t)));
  }

  // ------------------------------------------- a peer that was too early

  function DeltasOf<V>(events: seq<Event<V>>): (ds: seq<Delta<V>>)
    requires forall k :: 0 <= k < |events| ==> events[k].Applied?
    ensures |ds| == |events|
  {
    seq(|events|, k requires 0 <= k < |events| => events[k].delta)
  }

  lemma StateIsFoldOf<V>(events: seq<Event<V>>, i: nat)
    requires i <= |events| && forall k :: i <= k < |events| ==> events[k].Applied?
    ensures StateOf(events) == Fold(StateOf(events[..i]), DeltasOf(events[i..]))
  {
    hide StateOf, LogOf, Fold;
    StateIsFold(events, i);
    var skip := |LogOf(events[..i])|;
    var ds := Deltas(LogOf(events)[skip..]);
    forall m | 0 <= m < |events| - i ensures ds[m] == DeltasOf(events[i..])[m] {
      assert events[i + m].Applied? && LogOf(events)[skip + m] == LogOf(events)[skip + (i + m) - i];
    }
    assert ds == DeltasOf(events[i..]);
  }

  // A peer that has the state before event i, of deltas no newer than t, misses
  // those from i on; it is right exactly if they do not show.
  lemma EarlyReplayIff<V>(events: seq<Event<V>>, i: nat, j: nat, t: int)
    requires Ascending(LogOf(events)) && NewerFrom(events, j, t) && i <= j
    requires forall k :: i <= k < j ==> events[k].Applied?
    requires |Since(LogOf(events), t)| <= 100
    ensures var have, sent := StateOf(events[..i]), Deltas(Since(Window(LogOf(events)), t));
            Fold(have, sent) == StateOf(events) <==>
            Harmless(have, Fold(map[], DeltasOf(events[i..j])), Fold(map[], sent))
  {
    hide LogOf, StateOf, Since, Window, Fold, Harmless, Ascending;
    var ds := NewerDeltas(events, j, t);
    WindowCoversIff(LogOf(events), t);
    assert events[..j][..i] == events[..i] && events[..j][i..] == events[i..j];
    StateIsFoldOf(events[..j], i);
    var have, missed := StateOf(events[..i]), DeltasOf(events[i..j]);
    FoldAppend(have, missed, ds);
    GapIsHarmlessIff(have, missed, ds);
  }

  // Deltas applied at given times, whatever they hold.
  function Timed<V>(times: seq<int>, deltas: seq<Delta<V>>): (events: seq<Event<V>>)
    requires |times| == |deltas|
    ensures |events| == |times|
  {
    seq(|times|, k requires 0 <= k < |times| => Applied(times[k], deltas[k]))
  }

  function Entries<V>(times: seq<int>, deltas: seq<Delta<V>>): (log: seq<Logged<V>>)
    requires |times| == |deltas|
    ensures |log| == |times|
  {
    seq(|times|, k requires 0 <= k < |times| => Logged(times[k], deltas[k]))
  }

  function Blank<V>(n: nat): (ds: seq<Delta<V>>)
    ensures |ds| == n && forall k :: 0 <= k < n ==> ds[k] == None
  {
    seq(n, _ => None)
  }

  lemma LogOfTimed<V>(before: seq<Event<V>>, times: seq<int>, deltas: seq<Delta<V>>)
    requires |times| == |deltas|
    ensures LogOf(before + Timed(times, deltas)) == LogOf(before) + Entries(times, deltas)
  {
    hide LogOf, StateOf;
    var events := before + Timed(times, deltas);
    assert events[..|before|] == before;
    StateIsFold(events, |before|);
    var skip := |LogOf(before)|;
    forall m | 0 <= m < |times| ensures LogOf(events)[skip + m] == Entries(times, deltas)[m] {
      assert events[|before| + m] == Applied(times[m], deltas[m]);
      assert LogOf(events)[skip + m] == LogOf(events)[skip + (|before| + m) - |before|];
    }
  }

  // How many entries are newer than t depends on the timestamps only.
  lemma SinceByTimes<V>(log: seq<Logged<V>>, other: seq<Logged<V>>, t: int)
    requires Ascending(log) && |log| == |other|
    requires forall k :: 0 <= k < |log| ==> log[k].timestamp == other[k].timestamp
    ensures Ascending(other) && |Since(log, t)| == |Since(other, t)|
  {
    hide Since;
    var c := SinceIsSuffix(log, t);
    SuffixIsSince(other, t, c);
  }

  // The peer at the end of `before` asks for what is newer than t, after deltas
  // at the given times.
  ghost predicate CatchesUp<V>(before: seq<Event<V>>, times: seq<int>, deltas: seq<Delta<V>>, t: int)
    requires |times| == |deltas|
  {
    var events := before + Timed(times, deltas);
    Fold(StateOf(before), Deltas(Since(Window(LogOf(events)), t))) == StateOf(events)
  }

  lemma {:induction false} FoldBlank<V>(s: State<V>, ds: seq<Delta<V>>)
    requires forall k :: 0 <= k < |ds| ==> ds[k] == None
    ensures Fold(s, ds) == s
  {
    if ds != [] {
      FoldBlank(s, ds[..|ds| - 1]);
    }
  }

  // With a window that covers t, replay is right whatever the deltas hold, if and
  // only if every delta since the peer's state is newer than t.
  lemma CatchesUpIff<V>(before: seq<Event<V>>, j: nat, times: seq<int>, t: int, a: V, b: V)
    requires a != b && NewerFrom(before, j, t)
    requires Ascending(LogOf(before) + Entries(times, Blank(|times|)))
    requires |Since(LogOf(before) + Entries(times, Blank(|times|)), t)| <= 100
    ensures (forall deltas: seq<Delta<V>> | |deltas| == |times| :: CatchesUp(before, times, deltas, t)) <==>
            forall k :: 0 <= k < |times| ==> times[k] > t
  {
    if forall k :: 0 <= k < |times| ==> times[k] > t {
      forall deltas: seq<Delta<V>> | |deltas| == |times| ensures CatchesUp(before, times, deltas, t) {
        LateEnough(before, j, times, deltas, t);
      }
    } else {
      var deltas := TooEarly(before, times, t, a, b);
      assert !CatchesUp(before, times, deltas, t);
    }
  }

  lemma TimedLog<V>(before: seq<Event<V>>, times: seq<int>, deltas: seq<Delta<V>>, t: int)
    requires |deltas| == |times|
    requires Ascending(LogOf(before) + Entries(times, Blank(|times|)))
    requires |Since(LogOf(before) + Entries(times, Blank(|times|)), t)| <= 100
    ensures var log := LogOf(before + Timed(times, deltas));
            Ascending(log) && |Since(log, t)| <= HISTORY_SIZE
  {
    LogOfTimed(before, times, deltas);
    hide LogOf, Since;
    SinceByTimes(LogOf(before) + Entries(times, Blank(|times|)), LogOf(before) + Entries(times, deltas), t);
  }

  lemma LateEnough<V>(before: seq<Event<V>>, j: nat, times: seq<int>, deltas: seq<Delta<V>>, t: int)
    requires |deltas| == |times| && NewerFrom(before, j, t) && forall k :: 0 <= k < |times| ==> times[k] > t
    requires Ascending(LogOf(before) + Entries(times, Blank(|times|)))
    requires |Since(LogOf(before) + Entries(times, Blank(|times|)), t)| <= 100
    ensures CatchesUp(before, times, deltas, t)
  {
    hide LogOf, StateOf, Since, Window, Fold, Ascending;
    var events := before + Timed(times, deltas);
    TimedLog(before, times, deltas, t);
    assert NewerFrom(events, j, t);
    assert events[..|before|] == before;
    ReplayCatchesUp(events, j, |before|, t);
  }

  // A missed delta shows when it writes something new and all later ones nothing.
  lemma MissedShows<V>(events: seq<Event<V>>, i: nat, j: nat, t: int, v: V)
    requires Ascending(LogOf(events)) && NewerFrom(events, j, t) && |Since(LogOf(events), t)| <= 100
    requires i < j && events[i].Applied? && events[i].delta == Some(map["x" := v])
    requires forall k :: i < k < |events| ==> events[k].Applied? && events[k].delta == None
    requires !("x" in StateOf(events[..i]) && StateOf(events[..i])["x"] == v)
    ensures Fold(StateOf(events[..i]), Deltas(Since(Window(LogOf(events)), t))) != StateOf(events)
  {
    hide LogOf, StateOf, Since, Window, Ascending, Fold;
    EarlyReplayIff(events, i, j, t);
    FirstOnly(DeltasOf(events[i..j]), v);
    SentAreBlank(events, i, j, t);
    FoldBlank(map[], Deltas(Since(Window(LogOf(events)), t)));
    assert "x" in map["x" := v];
  }

  lemma TooEarly<V>(before: seq<Event<V>>, times: seq<int>, t: int, a: V, b: V) returns (deltas: seq<Delta<V>>)
    requires a != b && !(forall k :: 0 <= k < |times| ==> times[k] > t)
    requires Ascending(LogOf(before) + Entries(times, Blank(|times|)))
    requires |Since(LogOf(before) + Entries(times, Blank(|times|)), t)| <= 100
    ensures |deltas| == |times| && !CatchesUp(before, times, deltas, t)
  {
    hide LogOf, StateOf, Since, Window, Ascending, Fold, NewerFrom;
    var v := if "x" in StateOf(before) && StateOf(before)["x"] == a then b else a;
    deltas := [Some(map["x" := v])] + Blank(|times| - 1);
    var events := before + Timed(times, deltas);
    TimedLog(before, times, deltas, t);
    var j := FirstNewer(before, times, deltas, t);
    assert events[..|before|] == before;
    MissedShows(events, |before|, j, t, v);
  }

  lemma FirstOnly<V>(ds: seq<Delta<V>>, v: V)
    requires ds != [] && ds[0] == Some(map["x" := v]) && forall k :: 1 <= k < |ds| ==> ds[k] == None
    ensures Fold(map[], ds) == map["x" := v]
  {
    assert ds == [ds[0]] + ds[1..];
    FoldAppend(map[], [ds[0]], ds[1..]);
    FoldBlank(Fold(map[], [ds[0]]), ds[1..]);
    assert [ds[0]][..0] == [];
  }

  lemma FirstNewer<V>(before: seq<Event<V>>, times: seq<int>, deltas: seq<Delta<V>>, t: int) returns (j: nat)
    requires |deltas| == |times| && !(forall k :: 0 <= k < |times| ==> times[k] > t)
    requires Ascending(LogOf(before) + Entries(times, Blank(|times|)))
    ensures j > |before| && NewerFrom(before + Timed(times, deltas), j, t)
  {
    hide Since, LogOf;
    var log, skip := LogOf(before) + Entries(times, Blank(|times|)), |LogOf(before)|;
    var c := SinceIsSuffix(log, t);
    assert forall k :: 0 <= k < |times| ==> log[skip + k].timestamp == times[k];
    assert forall m :: 0 <= m < skip ==> LogOf(before)[m] == log[m];
    assert c > skip;
    j := |before| + c - skip;
    NewerFromTimes(before, times, deltas, j, t);
  }

  lemma NewerFromTimes<V>(before: seq<Event<V>>, times: seq<int>, deltas: seq<Delta<V>>, j: nat, t: int)
    requires |deltas| == |times| && |before| <= j <= |before| + |times|
    requires forall m :: 0 <= m < |LogOf(before)| ==> LogOf(before)[m].timestamp <= t
    requires forall k :: 0 <= k < |times| ==> (times[k] > t <==> k >= j - |before|)
    ensures NewerFrom(before + Timed(times, deltas), j, t)
  {
    hide LogOf;
    forall k | 0 <= k < |before| && before[k].Applied? ensures before[k].timestamp <= t {
      var m := InLog(before, k);
    }
  }

  lemma {:induction false} InLog<V>(events: seq<Event<V>>, k: nat) returns (m: nat)
    requires k < |events| && events[k].Applied?
    ensures m < |LogOf(events)| && LogOf(events)[m] == Logged(events[k].timestamp, events[k].delta)
    decreases |events|
  {
    if k == |events| - 1 {
      m := |LogOf(events)| - 1;
    } else {
      m := InLog(events[..|events| - 1], k);
    }
  }

  lemma SentAreBlank<V>(events: seq<Event<V>>, i: nat, j: nat, t: int)
    requires Ascending(LogOf(events)) && NewerFrom(events, j, t) && |Since(LogOf(events), t)| <= 100
    requires i < j && forall k :: i < k < |events| ==> events[k].Applied? && events[k].delta == None
    ensures var sent := Deltas(Since(Window(LogOf(events)), t));
            forall k :: 0 <= k < |sent| ==> sent[k] == None
  {
    hide LogOf, Since, Window, Ascending;
    var ds := NewerDeltas(events, j, t);
    WindowCoversIff(LogOf(events), t);
    assert forall k :: 0 <= k < |ds| ==> ds[k] == events[j + k].delta;
  }

  // A delta of the same millisecond as the request is not sent.
  lemma SameMillisecondIsMissed(t: int)
    ensures exists events: seq<Event<int>> ::
      Ascending(LogOf(events)) && |events| == 2 && events[0].Applied? && events[0].timestamp == t &&
      Fold(StateOf(events[..1]), Deltas(Since(Window(LogOf(events)), t))) != StateOf(events)
  {
    var one, two := Some(map["a" := 1]), Some(map["a" := 2]);
    var start: seq<Event<int>> := [];
    OneMore(start, t, one);
    OneMore(start + [Applied(t, one)], t, two);
    var events := start + [Applied(t, one)] + [Applied(t, two)];
    assert events[..1] == start + [Applied(t, one)];
    var log := LogOf(events);
    assert log == [Logged(t, one), Logged(t, two)];
    SuffixIsSince(log, t, 2);
    assert Deltas(Since(Window(log), t)) == [];
    assert StateOf(events[..1])["a"] == 1 && StateOf(events)["a"] == 2;
  }

  // Deltas that are all in the state already may be applied once more.
  lemma LoggedEndIsHarmless<V>(events: seq<Event<V>>, k: nat)
    requires (forall e :: e in events ==> e.Applied?) && k <= |LogOf(events)|
    ensures Fold(StateOf(events), Deltas(LogOf(events)[k..])) == StateOf(events)
  {
    StateIsFold(events, 0);
    var ds := Deltas(LogOf(events));
    assert events[..0] == [] && LogOf(events)[0..] == LogOf(events);
    OverlapIsHarmless(StateOf([]), ds, k, |ds|);
    assert ds[..|ds|] == ds && ds[k..] == Deltas(LogOf(events)[k..]);
  }

  // The end of a history that a slice of the given limit takes.
  function Recent<V>(history: seq<Logged<V>>, limit: int): (ds: seq<Delta<V>>)
    ensures |ds| == |history| - RecentStart(|history|, limit)
    ensures forall i :: 0 <= i < |ds| ==> ds[i] == history[|history| - |ds| + i].delta
  {
    Deltas(history[RecentStart(|history|, limit)..])
  }

  lemma RecentIsHarmless<V>(events: seq<Event<V>>, limit: int)
    ensures (forall e :: e in events ==> e.Applied?) ==>
      Fold(StateOf(events), Recent(Window(LogOf(events)), limit)) == StateOf(events)
  {
    hide LogOf, StateOf, Window, Fold;
    RecentIsEnd(events, RecentStart(|Window(LogOf(events))|, limit));
  }

  lemma RecentIsEnd<V>(events: seq<Event<V>>, k: nat)
    requires k <= |Window(LogOf(events))|
    ensures (forall e :: e in events ==> e.Applied?) ==>
      Fold(StateOf(events), Deltas(Window(LogOf(events))[k..])) == StateOf(events)
  {
    if forall e :: e in events ==> e.Applied? {
      var gone := |LogOf(events)| - |Window(LogOf(events))|;
      LoggedEndIsHarmless(events, gone + k);
      assert Window(LogOf(events))[k..] == LogOf(events)[gone + k..];
    }
  }

  lemma WindowGrows<V>(log: seq<Logged<V>>, entry: Logged<V>)
    ensures var grown := Window(log) + [entry];
            Window(log + [entry]) == if |grown| > HISTORY_SIZE then grown[1..] else grown
  {
  }

  lemma OneMoreKey<V>(s: State<V>, delta: State<V>, todo: set<string>, key: string)
    requires key in todo && key in delta
    ensures (s + (delta - todo))[key := delta[key]] == s + (delta - (todo - {key}))
  {
  }

  // ------------------------------------------------------------- the class

  class NodeState<V(==)> {
    var state: State<V>
    var deltaHistory: seq<Logged<V>>
    ghost var events: seq<Event<V>>

    ghost predicate Valid()
      reads this
    {
      state == StateOf(events) && deltaHistory == Window(LogOf(events))
    }

    constructor ()
      ensures Valid() && events == []
    {
      state, deltaHistory, events := map[], [], [];
    }

    method SetState(newState: State<V>)
      requires Valid()
      modifies this
      ensures Valid() && events == old(events) + [Replaced(newState)]
    {
      state := newState;
      events := events + [Replaced(newState)];
    }

    method ApplyDelta(delta: Delta<V>, now: int)
      requires Valid()
      modifies this
      ensures Valid() && events == old(events) + [Applied(now, delta)]
    {
      hide Window, StateOf, LogOf;
      if delta.Some? {
        var todo := delta.value.Keys;
        while todo != {}
          invariant todo <= delta.value.Keys
          invariant state == old(state) + (delta.value - todo)
          invariant deltaHistory == old(deltaHistory) && events == old(events)
          decreases |todo|
        {
          var key :| key in todo;
          state := state[key := delta.value[key]];
          OneMoreKey(old(state), delta.value, todo, key);
          todo := todo - {key};
        }
        assert delta.value - {} == delta.value;
      }
      WindowGrows(LogOf(events), Logged(now, delta));
      OneMore(events, now, delta);
      deltaHistory := deltaHistory + [Logged(now, delta)];
      if |deltaHistory| > HISTORY_SIZE {
        deltaHistory := deltaHistory[1..];
      }
      events := events + [Applied(now, delta)];
    }

    function GetDeltasSince(timestamp: int): (ds: seq<Delta<V>>)
      requires Valid()
      reads this
      ensures ds == Deltas(Since(Window(LogOf(events)), timestamp))
    {
      Deltas(Since(deltaHistory, timestamp))
    }

    function GetRecentDeltas(limit: int): (ds: seq<Delta<V>>)
      requires Valid()
      reads this
      ensures limit > 0 ==> |ds| == if limit < |deltaHistory| then limit else |deltaHistory|
      ensures limit <= 0 ==> |ds| == if -limit < |deltaHistory| then |deltaHistory| + limit else 0
      ensures forall i :: 0 <= i < |ds| ==> ds[i] == deltaHistory[|deltaHistory| - |ds| + i].delta
      ensures (forall e :: e in events ==> e.Applied?) ==> Fold(state, ds) == state
    {
      RecentIsHarmless(events, limit);
      Recent(deltaHistory, limit)
    }
  }
}
