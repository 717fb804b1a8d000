/** Choosing the peers that are to hold a replica of a message. */
module ReplicaSelection {
  import opened Messages
  import XorMetric

  const PEER_SCORE_BLOCK_THRESHOLD := -40

  datatype RoutingEntry = RoutingEntry(peer: PeerId, available: bool)

  // What a selection depends on: the routing rows, one per peer, the peer
  // scores, the bootstrap list, and the bytes that an id is compared by.
  datatype Context = Context(
    self: PeerId,
    target: PeerId,
    routing: seq<RoutingEntry>,
    scores: map<PeerId, int>,
    bootstrap: seq<PeerId>,
    bytesOf: PeerId -> XorMetric.Id)

  predicate OneRowPerPeer(routing: seq<RoutingEntry>) {
    forall i, j :: 0 <= i < j < |routing| ==> routing[i].peer != routing[j].peer
  }

  function Score(c: Context, p: PeerId): int {
    if p in c.scores then c.scores[p] else 0
  }

  predicate Eligible(c: Context, p: PeerId) {
    p != c.target && p != c.self && Score(c, p) > PEER_SCORE_BLOCK_THRESHOLD
  }

  predicate Candidate(c: Context, p: PeerId) {
    Eligible(c, p) && RoutingEntry(p, true) in c.routing
  }

  // The better peer has the higher score, or at equal scores the smaller XOR
  // distance to the target.
  predicate Better(c: Context, a: PeerId, b: PeerId) {
    Score(c, a) > Score(c, b) ||
    (Score(c, a) == Score(c, b) && XorMetric.Closer(c.bytesOf(c.target), c.bytesOf(a), c.bytesOf(b)))
  }

  // Not being worse is transitive.
  lemma BetterIsPreorder(c: Context, x: PeerId, y: PeerId, z: PeerId)
    ensures !Better(c, y, x) && !Better(c, z, y) ==> !Better(c, z, x)
    ensures Better(c, x, y) ==> !Better(c, y, x)
  {
    var t := c.bytesOf(c.target);
    XorMetric.TotalPreorder(t, c.bytesOf(x), c.bytesOf(y), c.bytesOf(z));
  }

  method Compare(c: Context, a: PeerId, b: PeerId) returns (r: int)
    ensures r < 0 <==> Better(c, a, b)
    ensures r > 0 <==> Better(c, b, a)
  {
    var scoreDiff := Score(c, b) - Score(c, a);
    if scoreDiff != 0 {
      XorMetric.TotalPreorder(c.bytesOf(c.target), c.bytesOf(a), c.bytesOf(b), c.bytesOf(b));
      return scoreDiff;
    }
    r := XorMetric.LexicographicCompare(c.bytesOf(c.target), c.bytesOf(a), c.bytesOf(b));
  }

  // --------------------------------------------------------------- sorting

  predicate NoDuplicates(s: seq<PeerId>) {
    forall i, j :: 0 <= i < j < |s| ==> s[i] != s[j]
  }

  predicate BestFirst(c: Context, s: seq<PeerId>) {
    forall i, j :: 0 <= i < j < |s| ==> !Better(c, s[j], s[i])
  }

  method Insert(c: Context, s: seq<PeerId>, p: PeerId) returns (r: seq<PeerId>)
    requires BestFirst(c, s) && NoDuplicates(s) && p !in s
    ensures BestFirst(c, r) && NoDuplicates(r)
    ensures forall q :: q in r <==> q in s || q == p
  {
    var k := |s|;
    while k > 0
      invariant 0 <= k <= |s|
      invariant forall i :: k <= i < |s| ==> Better(c, p, s[i])
    {
      var order := Compare(c, p, s[k - 1]);
      if order >= 0 {
        break;
      }
      k := k - 1;
    }
    r := s[..k] + [p] + s[k..];
    forall i | 0 <= i < k ensures !Better(c, p, s[i]) {
      BetterIsPreorder(c, s[i], s[k - 1], p);
    }
    forall i | k <= i < |s| ensures !Better(c, s[i], p) {
      BetterIsPreorder(c, p, s[i], p);
    }
    assert forall i :: 0 <= i < |r| ==> r[i] == if i < k then s[i] else if i == k then p else s[i - 1];
  }

  method SortedCandidates(c: Context) returns (r: seq<PeerId>)
    requires OneRowPerPeer(c.routing)
    ensures BestFirst(c, r) && NoDuplicates(r)
    ensures forall p :: p in r <==> Candidate(c, p)
  {
    r := [];
    for i := 0 to |c.routing|
      invariant BestFirst(c, r) && NoDuplicates(r)
      invariant forall p :: p in r <==> Eligible(c, p) && RoutingEntry(p, true) in c.routing[..i]
    {
      var entry := c.routing[i];
      assert c.routing[..i + 1] == c.routing[..i] + [entry];
      if entry.available && Eligible(c, entry.peer) {
        assert entry.peer !in r;
        r := Insert(c, r, entry.peer);
      }
    }
    assert c.routing[..|c.routing|] == c.routing;
  }

  // ------------------------------------------------------------- selection

  // The bootstrap peers that a selection falls back on, in their order: those
  // not yet chosen, each once.

  function FallbackOf(c: Context, bootstrap: seq<PeerId>, chosen: seq<PeerId>): seq<PeerId> {
    if bootstrap == [] then []
    else
      var front, p := FallbackOf(c, bootstrap[..|bootstrap| - 1], chosen), bootstrap[|bootstrap| - 1];
      if Eligible(c, p) && p !in chosen && p !in front then front + [p] else front
  }

  function Take(s: seq<PeerId>, n: nat): seq<PeerId> {
    if |s| <= n then s else s[..n]
  }

  // The n best candidates of the routing table, best first, or all of them.
  ghost predicate BestOf(c: Context, chosen: seq<PeerId>, n: nat) {
    && |chosen| <= n && NoDuplicates(chosen) && BestFirst(c, chosen)
    && (forall p :: p in chosen ==> Candidate(c, p))
    && (forall p, q :: p in chosen && Candidate(c, q) && q !in chosen ==> !Better(c, q, p))
    && (|chosen| < n ==> forall q :: Candidate(c, q) ==> q in chosen)
  }

  method ChooseBest(c: Context, n: nat) returns (chosen: seq<PeerId>)
    requires OneRowPerPeer(c.routing)
    ensures BestOf(c, chosen, n)
  {
    var sorted := SortedCandidates(c);
    chosen := Take(sorted, n);
    assert forall i :: 0 <= i < |chosen| ==> chosen[i] == sorted[i];
    assert forall p :: p in chosen ==> p in sorted;
    forall p, q | p in chosen && q in sorted && q !in chosen ensures !Better(c, q, p) {
      var i :| 0 <= i < |chosen| && chosen[i] == p;
      var j :| 0 <= j < |sorted| && sorted[j] == q;
      assert i < j;
    }
  }

  method FillUp(c: Context, chosen: seq<PeerId>, n: nat) returns (selected: seq<PeerId>)
    requires |chosen| < n
    ensures selected == chosen + Take(FallbackOf(c, c.bootstrap, chosen), n - |chosen|)
  {
    selected := chosen;
    for i := 0 to |c.bootstrap|
      invariant |selected| < n && selected == chosen + FallbackOf(c, c.bootstrap[..i], chosen)
    {
      var p := c.bootstrap[i];
      assert c.bootstrap[..i + 1][..i] == c.bootstrap[..i];
      if p == c.target || p == c.self || p in selected || Score(c, p) <= PEER_SCORE_BLOCK_THRESHOLD {
        continue;
      }
      selected := selected + [p];
      assert selected == chosen + FallbackOf(c, c.bootstrap[..i + 1], chosen);
      if |selected| >= n {
        FallbackGrows(c, c.bootstrap, i + 1, chosen);
        return;
      }
    }
    assert c.bootstrap[..|c.bootstrap|] == c.bootstrap;
  }

  // What a selection promises of its peers: none is the target, the node itself or
  // below the score threshold, those of the routing table are available and come
  // by score, then by distance to the target, and nobody is left out for nothing.
  ghost predicate WellChosen(c: Context, selected: seq<PeerId>, first: nat, n: nat) {
    && first <= |selected| <= n
    && (forall p :: p in selected ==> p != c.target && p != c.self && (p in c.scores ==> c.scores[p] > -40))
    && (forall i :: 0 <= i < first ==> RoutingEntry(selected[i], true) in c.routing)
    && (forall i :: first <= i < |selected| ==> selected[i] in c.bootstrap)
    && (forall i, j :: 0 <= i < j < first ==> AtLeastAsGood(c, selected[i], selected[j]))
    && (forall q :: RoutingEntry(q, true) in c.routing && Usable(c, q) && q !in selected[..first] ==>
          first == n && forall i :: 0 <= i < first ==> AtLeastAsGood(c, selected[i], q))
    && (|selected| < n ==> forall q :: q in c.bootstrap && Usable(c, q) ==> q in selected)
  }

  predicate Usable(c: Context, p: PeerId) {
    p != c.target && p != c.self && (p in c.scores ==> c.scores[p] > -40)
  }

  predicate AtLeastAsGood(c: Context, p: PeerId, q: PeerId) {
    var sp := if p in c.scores then c.scores[p] else 0;
    var sq := if q in c.scores then c.scores[q] else 0;
    var t, a, b := c.bytesOf(c.target), c.bytesOf(p), c.bytesOf(q);
    var width := XorMetric.Width(t, a, b);
    sp > sq || (sp == sq && XorMetric.XorNumber(t, a, width) <= XorMetric.XorNumber(t, b, width))
  }

  lemma NotWorse(c: Context, p: PeerId, q: PeerId)
    ensures !Better(c, q, p) <==> AtLeastAsGood(c, p, q)
    ensures Usable(c, p) <==> Eligible(c, p)
  {
    hide XorMetric.XorNumber;
  }

  lemma SelectionIsWellChosen(c: Context, chosen: seq<PeerId>, n: nat)
    requires BestOf(c, chosen, n)
    ensures WellChosen(c, chosen + Take(FallbackOf(c, c.bootstrap, chosen), n - |chosen|), |chosen|, n)
  {
    SelectionIs(c, chosen, n);
    FallbackIs(c, c.bootstrap, chosen);
    forall p, q ensures !Better(c, q, p) <==> AtLeastAsGood(c, p, q) {
      NotWorse(c, p, q);
    }
    forall p ensures Usable(c, p) <==> Eligible(c, p) {
      NotWorse(c, p, p);
    }
    hide FallbackOf, Better, AtLeastAsGood, Eligible, Usable;
    var f := FallbackOf(c, c.bootstrap, chosen);
    Together(c, chosen, Take(f, n - |chosen|), n);
  }

  lemma Together(c: Context, chosen: seq<PeerId>, more: seq<PeerId>, n: nat)
    requires BestOf(c, chosen, n) && |chosen + more| <= n
    requires forall p, q :: !Better(c, q, p) <==> AtLeastAsGood(c, p, q)
    requires forall p :: Usable(c, p) <==> Eligible(c, p)
    requires forall p :: p in chosen + more ==> Eligible(c, p)
    requires forall p :: p in more ==> p in c.bootstrap
    requires |chosen + more| < n ==> forall p :: Eligible(c, p) && p in c.bootstrap ==> p in chosen + more
    ensures WellChosen(c, chosen + more, |chosen|, n)
  {
    hide Better, AtLeastAsGood, Eligible;
    var selected := chosen + more;
    assert selected[..|chosen|] == chosen;
    assert forall p :: p in selected ==> Usable(c, p);
    assert forall i :: 0 <= i < |chosen| ==> selected[i] == chosen[i] && Candidate(c, chosen[i]);
    assert forall q :: RoutingEntry(q, true) in c.routing && Usable(c, q) ==> Candidate(c, q);
    assert forall i :: 0 <= i < |more| ==> selected[|chosen| + i] == more[i];
  }

  // At most n distinct eligible peers: the best candidates of the routing table
  // first, then bootstrap peers in their order. When it returns fewer than n it
  // has left no eligible peer of either kind out.
  method SelectReplicaPeers(c: Context, n: nat) returns (selected: seq<PeerId>, ghost chosen: seq<PeerId>)
    requires OneRowPerPeer(c.routing)
    ensures BestOf(c, chosen, n)
    ensures selected == chosen + Take(FallbackOf(c, c.bootstrap, chosen), n - |chosen|)
    ensures |selected| <= n && NoDuplicates(selected)
    ensures forall p :: p in selected ==> Eligible(c, p)
    ensures |selected| < n ==> forall p :: Candidate(c, p) || (Eligible(c, p) && p in c.bootstrap) ==> p in selected
    ensures WellChosen(c, selected, |chosen|, n)
  {
    var best := ChooseBest(c, n);
    chosen := best;
    SelectionIs(c, chosen, n);
    SelectionIsWellChosen(c, chosen, n);
    if |best| >= n {
      selected := best;
      assert selected == chosen + [];
    } else {
      selected := FillUp(c, best, n);
    }
  }

  lemma SelectionIs(c: Context, chosen: seq<PeerId>, n: nat)
    requires BestOf(c, chosen, n)
    ensures var selected := chosen + Take(FallbackOf(c, c.bootstrap, chosen), n - |chosen|);
            && |selected| <= n && NoDuplicates(selected)
            && (forall p :: p in selected ==> Eligible(c, p))
            && (|selected| < n ==> forall p :: Candidate(c, p) || (Eligible(c, p) && p in c.bootstrap) ==> p in selected)
  {
    var f := FallbackOf(c, c.bootstrap, chosen);
    FallbackIs(c, c.bootstrap, chosen);
    assert forall p :: p in chosen ==> Eligible(c, p);
    hide FallbackOf, BestFirst, Better, Candidate;
    var t := Take(f, n - |chosen|);
    assert forall i :: 0 <= i < |t| ==> t[i] == f[i] && t[i] in f;
    assert forall p :: p in t ==> p in f;
  }

  lemma {:induction false} FallbackGrows(c: Context, bootstrap: seq<PeerId>, i: nat, chosen: seq<PeerId>)
    requires i <= |bootstrap|
    ensures FallbackOf(c, bootstrap[..i], chosen) <= FallbackOf(c, bootstrap, chosen)
  {
    if i == |bootstrap| {
      assert bootstrap[..i] == bootstrap;
    } else {
      var front := bootstrap[..|bootstrap| - 1];
      assert front[..i] == bootstrap[..i];
      FallbackGrows(c, front, i, chosen);
    }
  }

  // What the fallback list is: the eligible bootstrap peers that were not
  // chosen, each once, ordered by where they first occur.
  lemma {:induction false} FallbackIs(c: Context, bootstrap: seq<PeerId>, chosen: seq<PeerId>)
    ensures var f := FallbackOf(c, bootstrap, chosen);
            && NoDuplicates(f)
            && (forall p :: p in f <==> p in bootstrap && Eligible(c, p) && p !in chosen)
            && (forall i, j :: 0 <= i < j < |f| ==> Earlier(bootstrap, f[i], f[j]))
  {
    if bootstrap != [] {
      var front, last := bootstrap[..|bootstrap| - 1], bootstrap[|bootstrap| - 1];
      FallbackIs(c, front, chosen);
      assert bootstrap == front + [last];
      forall p | p in bootstrap ensures p in front ==> FirstIndex(bootstrap, p) == FirstIndex(front, p) {
      }
    }
  }

  predicate Earlier(s: seq<PeerId>, p: PeerId, q: PeerId) {
    p in s && q in s && FirstIndex(s, p) < FirstIndex(s, q)
  }

  function FirstIndex(s: seq<PeerId>, p: PeerId): (i: nat)
    requires p in s
    ensures i < |s| && s[i] == p && p !in s[..i]
  {
    if p in s[..|s| - 1] then
      var i := FirstIndex(s[..|s| - 1], p);
      assert s[..|s| - 1][..i] == s[..i];
      i
    else |s| - 1
  }
}
