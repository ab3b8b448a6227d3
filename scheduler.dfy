/** The rarest-first piece scheduler of `peerManager.ts`: which pieces are
    still wanted, how many peers hold each, and one pass that hands the
    rarest pieces to peers with fewer than three pieces in flight.
    `_.shuffle` is a parameter that may return any permutation, keyed by the
    point of the pass that calls it. */
module Scheduler {
  import opened Wrappers
  import opened Bytes
  import Bitfields
  import opened Peers

  /** `MAX_NB_PIECES_BY_PEER`. */
  const MAX_NB_PIECES_BY_PEER: int := 3

  /** `{pieceIndex, count}`: a piece and the number of peers holding it. */
  datatype PieceWithCount = PieceWithCount(pieceIndex: int, count: nat)

  /** `{peer, pieceIndex}`: a piece handed to a peer. */
  datatype Assignment = Assignment(peer: Peer, pieceIndex: int)

  /** What the scheduler reads of a peer besides its in-flight count: its
      bitfield and its `peer_choking` flag. Neither changes during a pass. */
  datatype PeerView = PeerView(bitfield: Option<seq<byte>>, peerChoking: bool)

  function ViewOf(p: Peer): PeerView
    reads p
  {
    PeerView(p.peerBitfield, p.peerChoking)
  }

  /** `peer.containsPiece(i)` on a view. */
  predicate Holds(v: PeerView, i: int) {
    v.bitfield.Some? && Bitfields.ContainsPiece(v.bitfield.value, i)
  }

  lemma HoldsIsContainsPiece(p: Peer, i: int)
    ensures Holds(ViewOf(p), i) == p.ContainsPiece(i)
  {
  }

  /** `perm` lists every index of [0, n) exactly once. */
  predicate IsPermutation(perm: seq<nat>, n: nat) {
    && |perm| == n
    && (forall i :: 0 <= i < n ==> perm[i] < n)
    && (forall i, j :: 0 <= i < j < n ==> perm[i] != perm[j])
    && (forall j :: 0 <= j < n ==> j in perm)
  }

  /** `_.shuffle` of the pieces of a tier, as the order it picks for a list
      of n entries, keyed by the tier's number. */
  type PieceShuffle = (nat, nat) -> seq<nat>

  /** `_.shuffle` of the candidate peers, keyed by the turn of the pass and
      the depth of the recursive choice. */
  type PeerShuffle = (nat, nat, nat) -> seq<nat>

  ghost predicate ShufflesPieces(sh: PieceShuffle) {
    forall k, n :: IsPermutation(sh(k, n), n)
  }

  ghost predicate ShufflesPeers(sh: PeerShuffle) {
    forall k, d, n :: IsPermutation(sh(k, d, n), n)
  }

  /** The list reordered by a permutation. */
  function Permute<T>(s: seq<T>, perm: seq<nat>): (r: seq<T>)
    requires forall i :: 0 <= i < |perm| ==> perm[i] < |s|
    ensures |r| == |perm| && forall i :: 0 <= i < |perm| ==> r[i] == s[perm[i]]
    decreases |perm|
  {
    if perm == [] then [] else [s[perm[0]]] + Permute(s, perm[1..])
  }

  /** A reordering keeps every entry and adds none. */
  lemma PermuteMembers<T>(s: seq<T>, perm: seq<nat>)
    requires IsPermutation(perm, |s|)
    ensures forall x :: x in Permute(s, perm) ==> x in s
    ensures forall x :: x in s ==> x in Permute(s, perm)
  {
    var r := Permute(s, perm);
    forall x | x in s
      ensures x in r
    {
      var j :| 0 <= j < |s| && s[j] == x;
      assert j in perm;
      var i :| 0 <= i < |perm| && perm[i] == j;
      assert r[i] == x;
    }
  }

  /** Every peer of the list has a view. */
  predicate Known(peers: seq<Peer>, views: map<Peer, PeerView>) {
    forall p :: p in peers ==> p in views
  }

  /** Every peer of the list has an in-flight count. */
  predicate Counted(peers: seq<Peer>, counts: map<Peer, int>) {
    forall p :: p in peers ==> p in counts
  }

  // getNonRequestedPieces

  /** The pieces in [lo, nbPieces) the torrent does not hold and has not
      asked for, in increasing order. */
  function NonRequestedFrom(lo: int, nbPieces: int, bitfield: seq<byte>, askedPieces: seq<int>): seq<int>
    decreases nbPieces - lo
  {
    if lo >= nbPieces then []
    else
      var rest := NonRequestedFrom(lo + 1, nbPieces, bitfield, askedPieces);
      if !Bitfields.ContainsPiece(bitfield, lo) && lo !in askedPieces then [lo] + rest else rest
  }

  /** `getNonRequestedPieces(torrent)`: `R.range(0, nbPieces)` filtered by
      `torrent.containsPiece` and `askedPieces`. */
  function NonRequestedPieces(nbPieces: int, bitfield: seq<byte>, askedPieces: seq<int>): seq<int> {
    NonRequestedFrom(0, nbPieces, bitfield, askedPieces)
  }

  /** Strictly increasing, hence free of repeats. */
  predicate Increasing(s: seq<int>) {
    forall i, j :: 0 <= i < j < |s| ==> s[i] < s[j]
  }

  lemma {:induction false} NonRequestedFromMembers(lo: int, nbPieces: int, bitfield: seq<byte>, askedPieces: seq<int>)
    ensures var r := NonRequestedFrom(lo, nbPieces, bitfield, askedPieces);
      && (forall x :: x in r <==> lo <= x < nbPieces && !Bitfields.ContainsPiece(bitfield, x) && x !in askedPieces)
      && Increasing(r)
    decreases nbPieces - lo
  {
    if lo < nbPieces {
      NonRequestedFromMembers(lo + 1, nbPieces, bitfield, askedPieces);
      var rest := NonRequestedFrom(lo + 1, nbPieces, bitfield, askedPieces);
      var r := NonRequestedFrom(lo, nbPieces, bitfield, askedPieces);
      if !Bitfields.ContainsPiece(bitfield, lo) && lo !in askedPieces {
        assert r == [lo] + rest;
        forall k | 0 <= k < |rest|
          ensures lo < rest[k]
        {
          assert rest[k] in rest;
        }
      } else {
        assert r == rest;
      }
    }
  }

  /** A piece is still wanted iff it is in range, not held and not asked for;
      the wanted pieces come in increasing order. */
  lemma NonRequestedPiecesMembers(nbPieces: int, bitfield: seq<byte>, askedPieces: seq<int>)
    ensures var r := NonRequestedPieces(nbPieces, bitfield, askedPieces);
      && (forall x :: x in r <==> 0 <= x < nbPieces && !Bitfields.ContainsPiece(bitfield, x) && x !in askedPieces)
      && Increasing(r)
  {
    NonRequestedFromMembers(0, nbPieces, bitfield, askedPieces);
  }

  // gatherAllBitfieldsFromAllPeers

  /** How many entries of `peers` hold piece i (a peer listed twice counts
      twice, as `_.flatten` and `_.countBy` do). */
  function Holders(peers: seq<Peer>, views: map<Peer, PeerView>, i: int): nat
    requires Known(peers, views)
    decreases |peers|
  {
    if peers == [] then 0
    else Holders(peers[1..], views, i) + if Holds(views[peers[0]], i) then 1 else 0
  }

  /** The pieces in [lo, nbPieces) that some peer holds, with their counts,
      in increasing piece order (the key order of `_.countBy`). */
  function AvailabilityFrom(lo: int, nbPieces: int, peers: seq<Peer>, views: map<Peer, PeerView>): seq<PieceWithCount>
    requires Known(peers, views)
    decreases nbPieces - lo
  {
    if lo >= nbPieces then []
    else
      var rest := AvailabilityFrom(lo + 1, nbPieces, peers, views);
      var c := Holders(peers, views, lo);
      if c > 0 then [PieceWithCount(lo, c)] + rest else rest
  }

  /** `gatherAllBitfieldsFromAllPeers(nbPieces)(peers)`. */
  function Availability(nbPieces: int, peers: seq<Peer>, views: map<Peer, PeerView>): seq<PieceWithCount>
    requires Known(peers, views)
  {
    AvailabilityFrom(0, nbPieces, peers, views)
  }

  /** Piece indices strictly increase along the list. */
  predicate IndicesIncrease(s: seq<PieceWithCount>) {
    forall i, j :: 0 <= i < j < |s| ==> s[i].pieceIndex < s[j].pieceIndex
  }

  lemma {:induction false} AvailabilityFromMembers(lo: int, nbPieces: int, peers: seq<Peer>, views: map<Peer, PeerView>)
    requires Known(peers, views)
    ensures var r := AvailabilityFrom(lo, nbPieces, peers, views);
      && (forall e :: e in r <==> lo <= e.pieceIndex < nbPieces && e.count == Holders(peers, views, e.pieceIndex) && e.count > 0)
      && IndicesIncrease(r)
    decreases nbPieces - lo
  {
    if lo < nbPieces {
      AvailabilityFromMembers(lo + 1, nbPieces, peers, views);
    }
  }

  /** A piece is listed iff some peer holds it, with the number of peers
      holding it; each piece once, in increasing order. */
  lemma AvailabilityMembers(nbPieces: int, peers: seq<Peer>, views: map<Peer, PeerView>)
    requires Known(peers, views)
    ensures var r := Availability(nbPieces, peers, views);
      && (forall e :: e in r <==> 0 <= e.pieceIndex < nbPieces && e.count == Holders(peers, views, e.pieceIndex) && e.count > 0)
      && IndicesIncrease(r)
  {
    AvailabilityFromMembers(0, nbPieces, peers, views);
  }

  // choosePeerToRequestPiece

  /** `choosePeerToRequestPiece(pieceIndex, peers)`: shuffle, test the first
      peer, and on failure recurse on the rest of the shuffled list. The test
      is `containsPiece` and `peer_choking` itself, so only a peer that is
      choking us is chosen. */
  function ChoosePeer(pieceIndex: int, peers: seq<Peer>, views: map<Peer, PeerView>,
                      shuffle: PeerShuffle, step: nat, depth: nat): (r: Option<Peer>)
    requires Known(peers, views) && ShufflesPeers(shuffle)
    ensures r.Some? ==> r.value in peers && Holds(views[r.value], pieceIndex) && views[r.value].peerChoking
    ensures r.None? <==> forall p :: p in peers ==> !(Holds(views[p], pieceIndex) && views[p].peerChoking)
    decreases |peers|
  {
    if |peers| == 0 then None
    else
      var shuffled := Permute(peers, shuffle(step, depth, |peers|));
      PermuteMembers(peers, shuffle(step, depth, |peers|));
      var first := shuffled[0];
      if Holds(views[first], pieceIndex) && views[first].peerChoking then Some(first)
      else
        TailMembers(shuffled);
        ChoosePeer(pieceIndex, shuffled[1..], views, shuffle, step, depth + 1)
  }

  lemma TailMembers<T>(s: seq<T>)
    requires |s| > 0
    ensures forall x :: x in s ==> x == s[0] || x in s[1..]
  {
    forall x | x in s
      ensures x == s[0] || x in s[1..]
    {
      var k :| 0 <= k < |s| && s[k] == x;
      if k > 0 {
        assert s[1..][k - 1] == x;
      }
    }
  }

  // computeRemainingActivePeers

  /** `computeRemainingActivePeers` on recorded in-flight counts: the peers
      with fewer than `MAX_NB_PIECES_BY_PEER` pieces in flight, in order. */
  function Eligible(peers: seq<Peer>, counts: map<Peer, int>): (r: seq<Peer>)
    requires Counted(peers, counts)
    ensures forall p :: p in r ==> p in peers && counts[p] < MAX_NB_PIECES_BY_PEER
    ensures forall p :: p in peers && counts[p] < MAX_NB_PIECES_BY_PEER ==> p in r
    decreases |peers|
  {
    if peers == [] then []
    else (if counts[peers[0]] < MAX_NB_PIECES_BY_PEER then [peers[0]] else []) + Eligible(peers[1..], counts)
  }

  /** Filtering again on counts that have only grown is filtering the
      original list once: the `.ts` loop refilters the eligible peers, the
      `.js` loop refilters all active peers, and the two agree. */
  lemma {:induction false} EligibleTwice(peers: seq<Peer>, c0: map<Peer, int>, c1: map<Peer, int>)
    requires Counted(peers, c0) && Counted(peers, c1)
    requires forall p :: p in peers ==> c0[p] <= c1[p]
    ensures Eligible(Eligible(peers, c0), c1) == Eligible(peers, c1)
    decreases |peers|
  {
    if peers != [] {
      assert peers[0] in peers;
      EligibleTwice(peers[1..], c0, c1);
      var head := if c0[peers[0]] < MAX_NB_PIECES_BY_PEER then [peers[0]] else [];
      assert Eligible(peers, c0) == head + Eligible(peers[1..], c0);
      if head != [] {
        assert Eligible(peers, c0)[1..] == Eligible(peers[1..], c0);
      } else {
        assert Eligible(peers, c0) == Eligible(peers[1..], c0);
      }
    }
  }

  /** `computeRemainingActivePeers` on the peers themselves. */
  function RemainingActivePeers(peers: seq<Peer>): seq<Peer>
    reads peers
    decreases |peers|
  {
    if peers == [] then []
    else (if peers[0].inFlight < MAX_NB_PIECES_BY_PEER then [peers[0]] else []) + RemainingActivePeers(peers[1..])
  }

  /** The in-flight counts of the peers, as a map. */
  function CountsOf(peers: seq<Peer>): (r: map<Peer, int>)
    reads peers
    ensures Counted(peers, r)
  {
    map p | p in peers :: p.inFlight
  }

  /** The views of the peers, as a map. */
  function ViewsOf(peers: seq<Peer>): (r: map<Peer, PeerView>)
    reads peers
    ensures Known(peers, r)
  {
    map p | p in peers :: ViewOf(p)
  }

  /** The recorded counts are the live in-flight counts. */
  ghost predicate Tracks(pool: seq<Peer>, counts: map<Peer, int>)
    reads pool
  {
    forall p :: p in pool ==> p in counts && p.inFlight == counts[p]
  }

  /** Filtering the live peers is filtering on the counts they carry. */
  lemma {:induction false} RemainingIsEligible(peers: seq<Peer>, pool: seq<Peer>, counts: map<Peer, int>)
    requires (forall p :: p in peers ==> p in pool) && Tracks(pool, counts)
    ensures Counted(peers, counts) && RemainingActivePeers(peers) == Eligible(peers, counts)
    decreases |peers|
  {
    if peers != [] {
      assert peers[0] in peers;
      RemainingIsEligible(peers[1..], pool, counts);
    }
  }

  // Piece lists

  /** The entries of `piecesWithCount` whose piece is still wanted. */
  function ToRequest(ps: seq<PieceWithCount>, nonRequested: seq<int>): (r: seq<PieceWithCount>)
    ensures forall e :: e in r <==> e in ps && e.pieceIndex in nonRequested
    ensures IndicesIncrease(ps) ==> IndicesIncrease(r)
    decreases |ps|
  {
    if ps == [] then []
    else
      var rest := ToRequest(ps[1..], nonRequested);
      HeadBelow(ps, rest);
      if ps[0].pieceIndex in nonRequested then [ps[0]] + rest else rest
  }

  /** The head of an increasing list is below every entry drawn from its
      tail. */
  lemma HeadBelow(ps: seq<PieceWithCount>, rest: seq<PieceWithCount>)
    requires |ps| > 0 && forall e :: e in rest ==> e in ps[1..]
    ensures IndicesIncrease(ps) ==> forall k :: 0 <= k < |rest| ==> ps[0].pieceIndex < rest[k].pieceIndex
  {
    if IndicesIncrease(ps) {
      forall k | 0 <= k < |rest|
        ensures ps[0].pieceIndex < rest[k].pieceIndex
      {
        assert rest[k] in ps[1..];
      }
    }
  }

  /** `_.filter(pieces, value => value.count == minOccurrency)`; an undefined
      minimum matches nothing. */
  function WithCount(ps: seq<PieceWithCount>, m: Option<nat>): (r: seq<PieceWithCount>)
    ensures forall e :: e in r <==> e in ps && m == Some(e.count)
    ensures IndicesIncrease(ps) ==> IndicesIncrease(r)
    decreases |ps|
  {
    if ps == [] then []
    else
      var rest := WithCount(ps[1..], m);
      HeadBelow(ps, rest);
      if m == Some(ps[0].count) then [ps[0]] + rest else rest
  }

  /** `_.filter(piecesToRequest, ({count}) => count > minOccurency)`; an
      undefined minimum matches nothing. */
  function Above(ps: seq<PieceWithCount>, m: Option<nat>): (r: seq<PieceWithCount>)
    ensures forall e :: e in r <==> e in ps && m.Some? && e.count > m.value
    decreases |ps|
  {
    if ps == [] then []
    else (if m.Some? && ps[0].count > m.value then [ps[0]] else []) + Above(ps[1..], m)
  }

  /** `_.min(pieces, count).count`: the least count, undefined for an empty
      list (the minimum of nothing is `Infinity`, which has no count). */
  function MinCount(ps: seq<PieceWithCount>): (r: Option<nat>)
    ensures r.None? <==> ps == []
    ensures r.Some? ==> (exists e :: e in ps && e.count == r.value) && forall e :: e in ps ==> r.value <= e.count
    decreases |ps|
  {
    if ps == [] then None
    else
      var rest := MinCount(ps[1..]);
      if rest.Some? && rest.value < ps[0].count then rest else Some(ps[0].count)
  }

  /** `getRarestPieces(minOccurrency)(pieces)`: the entries with that count, in
      the order the shuffle of the given tier picks. */
  function Rarest(ps: seq<PieceWithCount>, m: Option<nat>, shuffle: PieceShuffle, tier: nat): (r: seq<PieceWithCount>)
    requires ShufflesPieces(shuffle)
  {
    var w := WithCount(ps, m);
    Permute(w, shuffle(tier, |w|))
  }

  /** No entry repeats. */
  predicate NoDup<T(==)>(s: seq<T>) {
    forall i, j :: 0 <= i < j < |s| ==> s[i] != s[j]
  }

  /** The tier is exactly the entries with that count, each once. */
  lemma RarestMembers(ps: seq<PieceWithCount>, m: Option<nat>, shuffle: PieceShuffle, tier: nat)
    requires ShufflesPieces(shuffle) && IndicesIncrease(ps)
    ensures forall e :: e in Rarest(ps, m, shuffle, tier) ==> e in ps && m == Some(e.count)
    ensures forall e :: e in ps && m == Some(e.count) ==> e in Rarest(ps, m, shuffle, tier)
    ensures NoDup(Rarest(ps, m, shuffle, tier))
  {
    var w := WithCount(ps, m);
    var perm := shuffle(tier, |w|);
    PermuteMembers(w, perm);
    var r := Permute(w, perm);
    forall i, j | 0 <= i < j < |r|
      ensures r[i] != r[j]
    {
      assert perm[i] != perm[j];
      if perm[i] < perm[j] {
        assert w[perm[i]].pieceIndex < w[perm[j]].pieceIndex;
      } else {
        assert w[perm[j]].pieceIndex < w[perm[i]].pieceIndex;
      }
    }
  }

  /** `indexOf`: the first position of x, or -1. */
  function IndexOf(s: seq<int>, x: int): (r: int)
    ensures r == -1 <==> x !in s
    ensures r != -1 ==> 0 <= r < |s| && s[r] == x && x !in s[..r]
    decreases |s|
  {
    if s == [] then -1
    else if s[0] == x then
      assert s[..0] == [];
      0
    else
      var i := IndexOf(s[1..], x);
      if i == -1 then -1
      else
        assert s[..i + 1] == [s[0]] + s[1..][..i];
        i + 1
  }

  /** `nonRequestedPieces.splice(nonRequestedPieces.indexOf(x), 1)`. When x is
      absent `indexOf` gives -1 and `splice(-1, 1)` drops the last entry. */
  function Splice(s: seq<int>, x: int): seq<int> {
    var i := IndexOf(s, x);
    if i != -1 then s[..i] + s[i + 1..]
    else if |s| > 0 then s[..|s| - 1]
    else s
  }

  /** Splicing out a present entry removes one copy of it and nothing else. */
  lemma SpliceRemoves(s: seq<int>, x: int)
    requires x in s
    ensures multiset(Splice(s, x)) == multiset(s) - multiset{x}
  {
    var i := IndexOf(s, x);
    assert s == s[..i] + [x] + s[i + 1..];
  }

  // preparePiecesRequests

  /** The local state of the `while` loop of `preparePiecesRequests`, with
      `handedOut`, the entries handed out so far, in order, and the numbers of
      the current tier and turn that key the shuffles. */
  datatype Pass = Pass(rarest: seq<PieceWithCount>, remaining: seq<Peer>, minOcc: Option<nat>,
                       counts: map<Peer, int>, nonRequested: seq<int>, result: seq<Assignment>,
                       handedOut: seq<PieceWithCount>, tier: nat, turn: nat)

  ghost predicate Shuffles(shufflePieces: PieceShuffle, shufflePeers: PeerShuffle) {
    ShufflesPieces(shufflePieces) && ShufflesPeers(shufflePeers)
  }

  /** What a turn that picked `choice` hands out: the request, one more
      piece in flight on the peer, and the piece spliced out of
      `nonRequestedPieces`; nothing when no peer was picked. */
  function Handout(p: Pass, choice: Option<Peer>): (h: Pass)
    requires |p.rarest| > 0 && (choice.Some? ==> choice.value in p.counts)
    ensures h.counts.Keys == p.counts.Keys
  {
    if choice.None? then p
    else
      var first := p.rarest[0];
      p.(counts := p.counts[choice.value := p.counts[choice.value] + 1],
         result := p.result + [Assignment(choice.value, first.pieceIndex)],
         handedOut := p.handedOut + [first],
         nonRequested := Splice(p.nonRequested, first.pieceIndex))
  }

  /** The rest of a turn: refilter the peers on the new counts, shift the
      first rarest piece, and open the next tier when this one is used up. */
  function Advance(h: Pass, toRequest: seq<PieceWithCount>, shufflePieces: PieceShuffle): Pass
    requires ShufflesPieces(shufflePieces) && |h.rarest| > 0 && Counted(h.remaining, h.counts)
  {
    var remaining := Eligible(h.remaining, h.counts);
    if |h.rarest| == 1 then
      var minOcc := MinCount(Above(toRequest, h.minOcc));
      h.(rarest := Rarest(toRequest, minOcc, shufflePieces, h.tier + 1), remaining := remaining,
         minOcc := minOcc, tier := h.tier + 1, turn := h.turn + 1)
    else
      h.(rarest := h.rarest[1..], remaining := remaining, turn := h.turn + 1)
  }

  /** One turn of the loop: hand the first rarest piece to the peer the
      turn picks, if there is one, then move on. */
  function Step(p: Pass, toRequest: seq<PieceWithCount>, views: map<Peer, PeerView>,
                shufflePieces: PieceShuffle, shufflePeers: PeerShuffle): (q: Pass)
    requires Shuffles(shufflePieces, shufflePeers)
    requires Known(p.remaining, views) && Counted(p.remaining, p.counts) && |p.rarest| > 0
    ensures Known(q.remaining, views) && Counted(q.remaining, q.counts)
    ensures q.counts.Keys == p.counts.Keys
  {
    Advance(Handout(p, Choice(p, views, shufflePeers)), toRequest, shufflePieces)
  }

  /** An undefined minimum matches nothing. */
  lemma {:induction false} EmptyWithoutFloor(ps: seq<PieceWithCount>)
    ensures Above(ps, None) == [] && WithCount(ps, None) == []
    decreases |ps|
  {
    if ps != [] {
      EmptyWithoutFloor(ps[1..]);
    }
  }

  /** A higher floor leaves no more entries above it, and strictly fewer when
      an entry sits at the new floor. */
  lemma {:induction false} AboveShrinks(ps: seq<PieceWithCount>, a: nat, b: nat)
    requires a <= b
    ensures |Above(ps, Some(b))| <= |Above(ps, Some(a))|
    ensures a < b && (exists e :: e in ps && e.count == b) ==> |Above(ps, Some(b))| < |Above(ps, Some(a))|
    decreases |ps|
  {
    if ps != [] {
      AboveShrinks(ps[1..], a, b);
      if a < b && (exists e :: e in ps && e.count == b) && ps[0].count != b {
        var e :| e in ps && e.count == b;
        assert e in ps[1..];
      }
    }
  }

  /** Each turn either shortens the tier or moves to a tier with fewer
      entries above it. */
  lemma StepDecreases(p: Pass, toRequest: seq<PieceWithCount>, views: map<Peer, PeerView>,
                      shufflePieces: PieceShuffle, shufflePeers: PeerShuffle)
    requires Shuffles(shufflePieces, shufflePeers)
    requires Known(p.remaining, views) && Counted(p.remaining, p.counts) && |p.rarest| > 0
    ensures var q := Step(p, toRequest, views, shufflePieces, shufflePeers);
      || |Above(toRequest, q.minOcc)| < |Above(toRequest, p.minOcc)|
      || (|Above(toRequest, q.minOcc)| == |Above(toRequest, p.minOcc)| && |q.rarest| < |p.rarest|)
  {
    AdvanceDecreases(Handout(p, Choice(p, views, shufflePeers)), toRequest, shufflePieces);
  }

  /** Moving on either raises the floor, leaving fewer pieces above it, or
      shifts the current tier. */
  lemma AdvanceDecreases(h: Pass, toRequest: seq<PieceWithCount>, shufflePieces: PieceShuffle)
    requires ShufflesPieces(shufflePieces) && |h.rarest| > 0 && Counted(h.remaining, h.counts)
    ensures var q := Advance(h, toRequest, shufflePieces);
      || |Above(toRequest, q.minOcc)| < |Above(toRequest, h.minOcc)|
      || (|Above(toRequest, q.minOcc)| == |Above(toRequest, h.minOcc)| && |q.rarest| < |h.rarest|)
  {
    var p := h;
    if |p.rarest| == 1 {
      var above := Above(toRequest, p.minOcc);
      var minOcc := MinCount(above);
      if minOcc.Some? {
        var e :| e in above && e.count == minOcc.value;
        AboveShrinks(toRequest, p.minOcc.value, minOcc.value);
      } else {
        EmptyWithoutFloor(toRequest);
      }
    }
  }

  /** The loop of `preparePiecesRequests`, run from a given state until no
      peer is eligible or no tier is left. */
  function RunPass(p: Pass, toRequest: seq<PieceWithCount>, views: map<Peer, PeerView>,
                   shufflePieces: PieceShuffle, shufflePeers: PeerShuffle): (r: Pass)
    requires Shuffles(shufflePieces, shufflePeers)
    requires Known(p.remaining, views) && Counted(p.remaining, p.counts)
    ensures r.counts.Keys == p.counts.Keys
    decreases |Above(toRequest, p.minOcc)|, |p.rarest|
  {
    if |p.remaining| == 0 || |p.rarest| == 0 then p
    else
      StepDecreases(p, toRequest, views, shufflePieces, shufflePeers);
      RunPass(Step(p, toRequest, views, shufflePieces, shufflePeers), toRequest, views, shufflePieces, shufflePeers)
  }

  /** The state the loop starts from. */
  function Start(toRequest: seq<PieceWithCount>, peers: seq<Peer>, nonRequested: seq<int>,
                 counts: map<Peer, int>, shufflePieces: PieceShuffle): Pass
    requires ShufflesPieces(shufflePieces) && Counted(peers, counts)
  {
    var minOcc := MinCount(toRequest);
    Pass(Rarest(toRequest, minOcc, shufflePieces, 0), Eligible(peers, counts), minOcc, counts,
         nonRequested, [], [], 0, 0)
  }

  /** `preparePiecesRequests(nbPieces)(peers, nonRequestedPieces)`, over the
      peers' views and in-flight counts; its `result` is what the source
      returns, its `counts` the new in-flight counts and its `nonRequested`
      the array the source splices. */
  function Prepare(nbPieces: int, peers: seq<Peer>, nonRequested: seq<int>, views: map<Peer, PeerView>,
                   counts: map<Peer, int>, shufflePieces: PieceShuffle, shufflePeers: PeerShuffle): (r: Pass)
    requires Shuffles(shufflePieces, shufflePeers) && Known(peers, views) && Counted(peers, counts)
    ensures r.counts.Keys == counts.Keys
  {
    var toRequest := ToRequest(Availability(nbPieces, peers, views), nonRequested);
    RunPass(Start(toRequest, peers, nonRequested, counts, shufflePieces), toRequest, views, shufflePieces, shufflePeers)
  }

  // What a pass keeps

  function Max(a: int, b: int): int {
    if a < b then b else a
  }

  /** How many assignments went to peer q. */
  function Load(result: seq<Assignment>, q: Peer): nat
    decreases |result|
  {
    if result == [] then 0
    else Load(result[..|result| - 1], q) + if result[|result| - 1].peer == q then 1 else 0
  }

  /** The pieces of the assignments, in order. */
  function PieceIndices(result: seq<Assignment>): (r: seq<int>)
    ensures |r| == |result| && forall k :: 0 <= k < |result| ==> r[k] == result[k].pieceIndex
  {
    seq(|result|, k requires 0 <= k < |result| => result[k].pieceIndex)
  }

  /** The peer was a candidate, holds the piece, and has `peer_choking` set. */
  ghost predicate Served(a: Assignment, peers: seq<Peer>, views: map<Peer, PeerView>) {
    a.peer in peers && a.peer in views && Holds(views[a.peer], a.pieceIndex) && views[a.peer].peerChoking
  }

  /** Each piece appears in at most one entry. */
  ghost predicate UniqueIndices(ps: seq<PieceWithCount>) {
    forall e1, e2 :: e1 in ps && e2 in ps && e1.pieceIndex == e2.pieceIndex ==> e1 == e2
  }

  lemma IncreasingUnique(ps: seq<PieceWithCount>)
    requires IndicesIncrease(ps)
    ensures UniqueIndices(ps) && NoDup(ps)
  {
    forall e1, e2 | e1 in ps && e2 in ps && e1.pieceIndex == e2.pieceIndex
      ensures e1 == e2
    {
      var i :| 0 <= i < |ps| && ps[i] == e1;
      var j :| 0 <= j < |ps| && ps[j] == e2;
      assert !(i < j) && !(j < i);
    }
  }

  /** The peers still eligible are candidates, known, counted and below the
      cap, and no peer gains or loses a count. */
  ghost predicate FrameInv(p: Pass, peers: seq<Peer>, views: map<Peer, PeerView>, c0: map<Peer, int>) {
    && Known(p.remaining, views) && Counted(p.remaining, p.counts)
    && (forall q :: q in p.remaining ==> q in peers && p.counts[q] < MAX_NB_PIECES_BY_PEER)
    && p.counts.Keys == c0.Keys
  }

  /** Every count grew by the peer's assignments, and none passed the cap
      unless it started above it. */
  ghost predicate LoadInv(p: Pass, c0: map<Peer, int>) {
    forall q :: q in c0 ==>
      && q in p.counts && p.counts[q] == c0[q] + Load(p.result, q)
      && p.counts[q] <= Max(c0[q], MAX_NB_PIECES_BY_PEER)
  }

  /** The tier holds the wanted entries at the current minimum; the entries
      handed out so far are wanted, at most that minimum, in non-decreasing
      order of count, and, like the tier, free of repeats and disjoint from
      it. */
  ghost predicate TierInv(p: Pass, toRequest: seq<PieceWithCount>) {
    && (forall e :: e in p.rarest ==> e in toRequest && p.minOcc == Some(e.count))
    && (forall e :: e in p.handedOut ==> e in toRequest && (p.minOcc.Some? ==> e.count <= p.minOcc.value))
    && (forall i, j :: 0 <= i < j < |p.handedOut| ==> p.handedOut[i].count <= p.handedOut[j].count)
    && NoDup(p.handedOut) && NoDup(p.rarest)
    && (forall e :: e in p.handedOut ==> e !in p.rarest)
  }

  /** Each assignment hands out the matching entry to a peer that serves it. */
  ghost predicate ResultInv(p: Pass, peers: seq<Peer>, views: map<Peer, PeerView>) {
    && |p.result| == |p.handedOut|
    && forall k :: 0 <= k < |p.result| ==>
         p.result[k].pieceIndex == p.handedOut[k].pieceIndex && Served(p.result[k], peers, views)
  }

  /** The wanted pieces are the starting ones less those handed out. */
  ghost predicate PiecesInv(p: Pass, n0: seq<int>) {
    multiset(p.nonRequested) + multiset(PieceIndices(p.result)) == multiset(n0)
  }

  /** What the wanted entries satisfy: increasing pieces, all wanted. */
  ghost predicate Wanted(toRequest: seq<PieceWithCount>, n0: seq<int>) {
    IndicesIncrease(toRequest) && forall e :: e in toRequest ==> e.pieceIndex in n0
  }

  ghost predicate PassInv(p: Pass, toRequest: seq<PieceWithCount>, peers: seq<Peer>,
                          views: map<Peer, PeerView>, c0: map<Peer, int>, n0: seq<int>) {
    FrameInv(p, peers, views, c0) && LoadInv(p, c0) && TierInv(p, toRequest)
    && ResultInv(p, peers, views) && PiecesInv(p, n0)
  }

  /** The peer the current turn picks. */
  function Choice(p: Pass, views: map<Peer, PeerView>, shufflePeers: PeerShuffle): Option<Peer>
    requires ShufflesPeers(shufflePeers) && Known(p.remaining, views) && |p.rarest| > 0
  {
    ChoosePeer(p.rarest[0].pieceIndex, p.remaining, views, shufflePeers, p.turn, 0)
  }

  lemma LoadAppend(result: seq<Assignment>, a: Assignment, q: Peer)
    ensures Load(result + [a], q) == Load(result, q) + if a.peer == q then 1 else 0
  {
    assert (result + [a])[..|result|] == result;
  }

  lemma StepFrame(p: Pass, toRequest: seq<PieceWithCount>, peers: seq<Peer>, views: map<Peer, PeerView>,
                  c0: map<Peer, int>, shufflePieces: PieceShuffle, shufflePeers: PeerShuffle)
    requires Shuffles(shufflePieces, shufflePeers) && |p.rarest| > 0 && FrameInv(p, peers, views, c0)
    ensures FrameInv(Step(p, toRequest, views, shufflePieces, shufflePeers), peers, views, c0)
  {
  }

  lemma StepLoad(p: Pass, toRequest: seq<PieceWithCount>, peers: seq<Peer>, views: map<Peer, PeerView>,
                 c0: map<Peer, int>, shufflePieces: PieceShuffle, shufflePeers: PeerShuffle)
    requires Shuffles(shufflePieces, shufflePeers) && |p.rarest| > 0
    requires FrameInv(p, peers, views, c0) && LoadInv(p, c0)
    ensures LoadInv(Step(p, toRequest, views, shufflePieces, shufflePeers), c0)
  {
    var choice := Choice(p, views, shufflePeers);
    var q := Step(p, toRequest, views, shufflePieces, shufflePeers);
    if choice.Some? {
      var a := Assignment(choice.value, p.rarest[0].pieceIndex);
      assert q.result == p.result + [a];
      forall r | r in c0
        ensures q.counts[r] == c0[r] + Load(q.result, r)
      {
        LoadAppend(p.result, a, r);
      }
    }
  }

  lemma StepResult(p: Pass, toRequest: seq<PieceWithCount>, peers: seq<Peer>, views: map<Peer, PeerView>,
                   c0: map<Peer, int>, shufflePieces: PieceShuffle, shufflePeers: PeerShuffle)
    requires Shuffles(shufflePieces, shufflePeers) && |p.rarest| > 0
    requires FrameInv(p, peers, views, c0) && ResultInv(p, peers, views)
    ensures ResultInv(Step(p, toRequest, views, shufflePieces, shufflePeers), peers, views)
  {
    var choice := Choice(p, views, shufflePeers);
    var q := Step(p, toRequest, views, shufflePieces, shufflePeers);
    if choice.Some? {
      assert q.result == p.result + [Assignment(choice.value, p.rarest[0].pieceIndex)];
      assert q.handedOut == p.handedOut + [p.rarest[0]];
    }
  }

  /** The tail of a repeat-free list is repeat-free and lacks the head. */
  lemma TailNoDup<T>(s: seq<T>)
    requires |s| > 0 && NoDup(s)
    ensures NoDup(s[1..]) && forall e :: e in s[1..] ==> e in s && e != s[0]
  {
    forall e | e in s[1..]
      ensures e in s && e != s[0]
    {
      var k :| 0 <= k < |s[1..]| && s[1..][k] == e;
      assert s[k + 1] == e;
    }
  }

  /** Handing out one more entry of the tier keeps the handed-out entries
      repeat-free and in non-decreasing order of count. */
  lemma HandOut(handed: seq<PieceWithCount>, first: PieceWithCount, minOcc: nat)
    requires NoDup(handed) && first !in handed && first.count == minOcc
    requires forall e :: e in handed ==> e.count <= minOcc
    requires forall i, j :: 0 <= i < j < |handed| ==> handed[i].count <= handed[j].count
    ensures NoDup(handed + [first])
    ensures forall i, j :: 0 <= i < j < |handed + [first]| ==> (handed + [first])[i].count <= (handed + [first])[j].count
  {
    assert forall i :: 0 <= i < |handed| ==> handed[i] in handed;
  }

  /** What the turn hands out, whichever peer it picked. */
  lemma HandoutHanded(p: Pass, choice: Option<Peer>, toRequest: seq<PieceWithCount>)
    requires |p.rarest| > 0 && (choice.Some? ==> choice.value in p.counts)
    requires TierInv(p, toRequest)
    ensures var h := Handout(p, choice);
      && p.minOcc.Some? && NoDup(h.handedOut)
      && (forall i, j :: 0 <= i < j < |h.handedOut| ==> h.handedOut[i].count <= h.handedOut[j].count)
      && (forall e :: e in h.handedOut ==> e in toRequest && e.count <= p.minOcc.value)
      && (forall e :: e in h.handedOut ==> e !in p.rarest[1..])
  {
    var first := p.rarest[0];
    assert first in p.rarest;
    TailNoDup(p.rarest);
    if choice.Some? {
      assert Handout(p, choice).handedOut == p.handedOut + [first];
      HandOut(p.handedOut, first, p.minOcc.value);
    } else {
      assert Handout(p, choice).handedOut == p.handedOut;
    }
  }

  /** Moving on keeps the tier in shape: the next tier holds the pieces of
      the next smallest count, above everything handed out so far. */
  lemma AdvanceTiers(h: Pass, toRequest: seq<PieceWithCount>, shufflePieces: PieceShuffle)
    requires ShufflesPieces(shufflePieces) && |h.rarest| > 0 && Counted(h.remaining, h.counts)
    requires IndicesIncrease(toRequest) && NoDup(h.rarest)
    requires forall e :: e in h.rarest ==> e in toRequest && h.minOcc == Some(e.count)
    requires h.minOcc.Some? && NoDup(h.handedOut)
    requires forall i, j :: 0 <= i < j < |h.handedOut| ==> h.handedOut[i].count <= h.handedOut[j].count
    requires forall e :: e in h.handedOut ==> e in toRequest && e.count <= h.minOcc.value
    requires forall e :: e in h.handedOut ==> e !in h.rarest[1..]
    ensures TierInv(Advance(h, toRequest, shufflePieces), toRequest)
  {
    TailNoDup(h.rarest);
    if |h.rarest| == 1 {
      var minOcc := MinCount(Above(toRequest, h.minOcc));
      RarestMembers(toRequest, minOcc, shufflePieces, h.tier + 1);
      assert minOcc.Some? ==> h.minOcc.value < minOcc.value by {
        if minOcc.Some? {
          var e :| e in Above(toRequest, h.minOcc) && e.count == minOcc.value;
        }
      }
    }
  }

  lemma StepTiers(p: Pass, toRequest: seq<PieceWithCount>, views: map<Peer, PeerView>,
                  shufflePieces: PieceShuffle, shufflePeers: PeerShuffle)
    requires Shuffles(shufflePieces, shufflePeers) && |p.rarest| > 0
    requires Known(p.remaining, views) && Counted(p.remaining, p.counts)
    requires TierInv(p, toRequest) && IndicesIncrease(toRequest)
    ensures TierInv(Step(p, toRequest, views, shufflePieces, shufflePeers), toRequest)
  {
    var choice := Choice(p, views, shufflePeers);
    HandoutHanded(p, choice, toRequest);
    AdvanceTiers(Handout(p, choice), toRequest, shufflePieces);
  }

  /** Splicing out a wanted piece not yet handed out moves it from one side
      of the balance to the other. */
  lemma SpliceOut(nonRequested: seq<int>, indices: seq<int>, n0: seq<int>, x: int)
    requires multiset(nonRequested) + multiset(indices) == multiset(n0)
    requires x in n0 && x !in indices
    ensures multiset(Splice(nonRequested, x)) + multiset(indices + [x]) == multiset(n0)
  {
    assert multiset(n0)[x] >= 1;
    assert multiset(indices)[x] == 0;
    assert x in nonRequested;
    SpliceRemoves(nonRequested, x);
  }

  /** The piece at the head of the tier has not been handed out. */
  lemma HeadNotHandedOut(p: Pass, toRequest: seq<PieceWithCount>, peers: seq<Peer>, views: map<Peer, PeerView>)
    requires |p.rarest| > 0 && TierInv(p, toRequest) && ResultInv(p, peers, views) && UniqueIndices(toRequest)
    ensures p.rarest[0].pieceIndex !in PieceIndices(p.result)
  {
    var first := p.rarest[0];
    assert first in p.rarest;
    forall k | 0 <= k < |p.result|
      ensures p.result[k].pieceIndex != first.pieceIndex
    {
      assert p.handedOut[k] in p.handedOut;
    }
  }

  /** What a turn does to the result and to the wanted pieces. */
  lemma StepOutcome(p: Pass, toRequest: seq<PieceWithCount>, views: map<Peer, PeerView>,
                    shufflePieces: PieceShuffle, shufflePeers: PeerShuffle)
    requires Shuffles(shufflePieces, shufflePeers) && |p.rarest| > 0
    requires Known(p.remaining, views) && Counted(p.remaining, p.counts)
    ensures var q := Step(p, toRequest, views, shufflePieces, shufflePeers);
      var c := Choice(p, views, shufflePeers);
      && (c.Some? ==> q.result == p.result + [Assignment(c.value, p.rarest[0].pieceIndex)]
                      && q.nonRequested == Splice(p.nonRequested, p.rarest[0].pieceIndex))
      && (c.None? ==> q.result == p.result && q.nonRequested == p.nonRequested)
  {
  }

  lemma StepPieces(p: Pass, toRequest: seq<PieceWithCount>, peers: seq<Peer>, views: map<Peer, PeerView>,
                   n0: seq<int>, shufflePieces: PieceShuffle, shufflePeers: PeerShuffle)
    requires Shuffles(shufflePieces, shufflePeers) && |p.rarest| > 0
    requires Known(p.remaining, views) && Counted(p.remaining, p.counts)
    requires TierInv(p, toRequest) && ResultInv(p, peers, views) && PiecesInv(p, n0) && Wanted(toRequest, n0)
    ensures PiecesInv(Step(p, toRequest, views, shufflePieces, shufflePeers), n0)
  {
    StepOutcome(p, toRequest, views, shufflePieces, shufflePeers);
    var x := p.rarest[0].pieceIndex;
    var c := Choice(p, views, shufflePeers);
    if c.Some? {
      assert p.rarest[0] in p.rarest;
      IncreasingUnique(toRequest);
      HeadNotHandedOut(p, toRequest, peers, views);
      SpliceOut(p.nonRequested, PieceIndices(p.result), n0, x);
      assert PieceIndices(p.result + [Assignment(c.value, x)]) == PieceIndices(p.result) + [x];
    }
  }

  lemma StepKeeps(p: Pass, toRequest: seq<PieceWithCount>, peers: seq<Peer>, views: map<Peer, PeerView>,
                  c0: map<Peer, int>, n0: seq<int>, shufflePieces: PieceShuffle, shufflePeers: PeerShuffle)
    requires Shuffles(shufflePieces, shufflePeers) && |p.rarest| > 0
    requires PassInv(p, toRequest, peers, views, c0, n0) && Wanted(toRequest, n0)
    ensures PassInv(Step(p, toRequest, views, shufflePieces, shufflePeers), toRequest, peers, views, c0, n0)
  {
    StepFrame(p, toRequest, peers, views, c0, shufflePieces, shufflePeers);
    StepLoad(p, toRequest, peers, views, c0, shufflePieces, shufflePeers);
    StepTiers(p, toRequest, views, shufflePieces, shufflePeers);
    StepResult(p, toRequest, peers, views, c0, shufflePieces, shufflePeers);
    StepPieces(p, toRequest, peers, views, n0, shufflePieces, shufflePeers);
  }

  /** The loop keeps every invariant and stops only when no peer is eligible
      or no tier is left. */
  lemma {:induction false} RunPassKeeps(p: Pass, toRequest: seq<PieceWithCount>, peers: seq<Peer>,
                                        views: map<Peer, PeerView>, c0: map<Peer, int>, n0: seq<int>,
                                        shufflePieces: PieceShuffle, shufflePeers: PeerShuffle)
    requires Shuffles(shufflePieces, shufflePeers)
    requires PassInv(p, toRequest, peers, views, c0, n0) && Wanted(toRequest, n0)
    ensures var r := RunPass(p, toRequest, views, shufflePieces, shufflePeers);
      PassInv(r, toRequest, peers, views, c0, n0) && (r.remaining == [] || r.rarest == [])
    decreases |Above(toRequest, p.minOcc)|, |p.rarest|
  {
    if |p.remaining| != 0 && |p.rarest| != 0 {
      StepDecreases(p, toRequest, views, shufflePieces, shufflePeers);
      StepKeeps(p, toRequest, peers, views, c0, n0, shufflePieces, shufflePeers);
      RunPassKeeps(Step(p, toRequest, views, shufflePieces, shufflePeers), toRequest, peers, views, c0, n0,
                   shufflePieces, shufflePeers);
    }
  }

  /** The invariants hold where the loop starts. */
  lemma StartKeeps(toRequest: seq<PieceWithCount>, peers: seq<Peer>, views: map<Peer, PeerView>,
                   c0: map<Peer, int>, n0: seq<int>, shufflePieces: PieceShuffle, shufflePeers: PeerShuffle)
    requires Shuffles(shufflePieces, shufflePeers) && Known(peers, views) && Counted(peers, c0)
    requires Wanted(toRequest, n0)
    ensures PassInv(Start(toRequest, peers, n0, c0, shufflePieces), toRequest, peers, views, c0, n0)
  {
    var minOcc := MinCount(toRequest);
    RarestMembers(toRequest, minOcc, shufflePieces, 0);
    assert PieceIndices([]) == [];
  }

  /** The wanted entries of the availability list are increasing and wanted,
      each with the number of peers holding its piece. */
  lemma ToRequestWanted(nbPieces: int, peers: seq<Peer>, views: map<Peer, PeerView>, n0: seq<int>)
    requires Known(peers, views)
    ensures var t := ToRequest(Availability(nbPieces, peers, views), n0);
      && Wanted(t, n0)
      && forall e :: e in t ==> e.count == Holders(peers, views, e.pieceIndex)
  {
    AvailabilityMembers(nbPieces, peers, views);
  }

  /** What the invariants say once the loop is over. */
  lemma FinalFacts(q: Pass, toRequest: seq<PieceWithCount>, peers: seq<Peer>, views: map<Peer, PeerView>,
                   c0: map<Peer, int>, n0: seq<int>)
    requires TierInv(q, toRequest) && ResultInv(q, peers, views) && Wanted(toRequest, n0)
    requires Known(peers, views) && forall e :: e in toRequest ==> e.count == Holders(peers, views, e.pieceIndex)
    ensures forall k :: 0 <= k < |q.result| ==> q.result[k].pieceIndex in n0
    ensures forall i, j :: 0 <= i < j < |q.result| ==> q.result[i].pieceIndex != q.result[j].pieceIndex
    ensures forall i, j :: 0 <= i < j < |q.result| ==>
      Holders(peers, views, q.result[i].pieceIndex) <= Holders(peers, views, q.result[j].pieceIndex)
  {
    IncreasingUnique(toRequest);
    forall k | 0 <= k < |q.result|
      ensures q.result[k].pieceIndex in n0
    {
      assert q.handedOut[k] in q.handedOut;
    }
    forall i, j | 0 <= i < j < |q.result|
      ensures q.result[i].pieceIndex != q.result[j].pieceIndex
      ensures Holders(peers, views, q.result[i].pieceIndex) <= Holders(peers, views, q.result[j].pieceIndex)
    {
      assert q.handedOut[i] in q.handedOut && q.handedOut[j] in q.handedOut;
    }
  }

  /** What `preparePiecesRequests` promises. Every request goes to one of the
      peers that holds the piece and has `peer_choking` set, for a piece that
      was still wanted; no piece is requested twice; pieces are requested
      rarest first; each in-flight count grows by the peer's requests and
      stays within `MAX_NB_PIECES_BY_PEER` unless it started above it; the
      requested pieces are spliced out of the wanted ones; and the loop stops
      only when no peer is eligible or no tier is left. */
  lemma PrepareProperties(nbPieces: int, peers: seq<Peer>, n0: seq<int>, views: map<Peer, PeerView>,
                          c0: map<Peer, int>, shufflePieces: PieceShuffle, shufflePeers: PeerShuffle)
    requires Shuffles(shufflePieces, shufflePeers) && Known(peers, views) && Counted(peers, c0)
    ensures var q := Prepare(nbPieces, peers, n0, views, c0, shufflePieces, shufflePeers);
      && (forall k :: 0 <= k < |q.result| ==> Served(q.result[k], peers, views) && q.result[k].pieceIndex in n0)
      && (forall i, j :: 0 <= i < j < |q.result| ==> q.result[i].pieceIndex != q.result[j].pieceIndex)
      && (forall i, j :: 0 <= i < j < |q.result| ==>
            Holders(peers, views, q.result[i].pieceIndex) <= Holders(peers, views, q.result[j].pieceIndex))
      && q.counts.Keys == c0.Keys
      && (forall r :: r in c0 ==> q.counts[r] == c0[r] + Load(q.result, r)
                                  && q.counts[r] <= Max(c0[r], MAX_NB_PIECES_BY_PEER))
      && multiset(q.nonRequested) + multiset(PieceIndices(q.result)) == multiset(n0)
      && (q.remaining == [] || q.rarest == [])
  {
    var toRequest := ToRequest(Availability(nbPieces, peers, views), n0);
    ToRequestWanted(nbPieces, peers, views, n0);
    StartKeeps(toRequest, peers, views, c0, n0, shufflePieces, shufflePeers);
    var p0 := Start(toRequest, peers, n0, c0, shufflePieces);
    RunPassKeeps(p0, toRequest, peers, views, c0, n0, shufflePieces, shufflePeers);
    var q := RunPass(p0, toRequest, views, shufflePieces, shufflePeers);
    FinalFacts(q, toRequest, peers, views, c0, n0);
  }

  /** Everything of a peer but its in-flight count. */
  function RestOf(p: Peer): (Status, seq<Job>, Option<seq<byte>>)
    reads p
  {
    (p.State().(inFlight := 0), p.queue, p.peerId)
  }

  /** `peer.nbPiecesCurrentlyDownloading++`, with the recorded counts kept in
      step. */
  method Bump(peer: Peer, ghost peers: seq<Peer>, ghost counts: map<Peer, int>) returns (ghost counts': map<Peer, int>)
    requires peer in peers && Tracks(peers, counts)
    modifies peer
    ensures counts' == counts[peer := counts[peer] + 1]
    ensures Tracks(peers, counts') && RestOf(peer) == old(RestOf(peer))
  {
    peer.inFlight := peer.inFlight + 1;
    counts' := counts[peer := counts[peer] + 1];
  }

  /** The body of `if (peer)`: record the request, count it on the peer and
      splice the piece out of `nonRequestedPieces`. */
  method Hand(choice: Option<Peer>, first: PieceWithCount, ghost counts: map<Peer, int>,
              result: seq<Assignment>, ghost handedOut: seq<PieceWithCount>, nonRequested: seq<int>,
              ghost peers: seq<Peer>)
      returns (ghost counts': map<Peer, int>, result': seq<Assignment>,
               ghost handedOut': seq<PieceWithCount>, nonRequested': seq<int>)
    requires (choice.Some? ==> choice.value in peers) && Tracks(peers, counts)
    modifies peers
    ensures counts' == (if choice.Some? then counts[choice.value := counts[choice.value] + 1] else counts)
    ensures result' == (if choice.Some? then result + [Assignment(choice.value, first.pieceIndex)] else result)
    ensures handedOut' == (if choice.Some? then handedOut + [first] else handedOut)
    ensures nonRequested' == (if choice.Some? then Splice(nonRequested, first.pieceIndex) else nonRequested)
    ensures forall p :: p in counts ==> p in counts' && counts[p] <= counts'[p]
    ensures Tracks(peers, counts') && forall p :: p in peers ==> RestOf(p) == old(RestOf(p))
  {
    counts', result', handedOut', nonRequested' := counts, result, handedOut, nonRequested;
    if choice.Some? {
      var peer := choice.value;
      counts' := Bump(peer, peers, counts);
      result' := result + [Assignment(peer, first.pieceIndex)];
      handedOut' := handedOut + [first];
      nonRequested' := Splice(nonRequested, first.pieceIndex);
    }
  }

  /** Choose a peer for the first rarest piece and hand it out. */
  method ChooseAndHand(first: PieceWithCount, remaining: seq<Peer>, turn: nat, ghost counts: map<Peer, int>,
                       result: seq<Assignment>, ghost handedOut: seq<PieceWithCount>, nonRequested: seq<int>,
                       peers: seq<Peer>, views: map<Peer, PeerView>, shufflePeers: PeerShuffle)
      returns (choice: Option<Peer>, ghost counts': map<Peer, int>, result': seq<Assignment>,
               ghost handedOut': seq<PieceWithCount>, nonRequested': seq<int>)
    requires ShufflesPeers(shufflePeers) && Known(remaining, views)
    requires (forall q :: q in remaining ==> q in peers) && Tracks(peers, counts)
    modifies peers
    ensures choice == ChoosePeer(first.pieceIndex, remaining, views, shufflePeers, turn, 0)
    ensures counts' == (if choice.Some? then counts[choice.value := counts[choice.value] + 1] else counts)
    ensures result' == (if choice.Some? then result + [Assignment(choice.value, first.pieceIndex)] else result)
    ensures handedOut' == (if choice.Some? then handedOut + [first] else handedOut)
    ensures nonRequested' == (if choice.Some? then Splice(nonRequested, first.pieceIndex) else nonRequested)
    ensures forall q :: q in counts ==> q in counts' && counts[q] <= counts'[q]
    ensures Tracks(peers, counts') && forall q :: q in peers ==> RestOf(q) == old(RestOf(q))
  {
    choice := ChoosePeer(first.pieceIndex, remaining, views, shufflePeers, turn, 0);
    counts', result', handedOut', nonRequested' := Hand(choice, first, counts, result, handedOut, nonRequested, peers);
  }

  /** A turn handing out `h` and moving on to `q` leaves what is left of the
      pass unchanged. */
  lemma Continues(p: Pass, choice: Option<Peer>, h: Pass, q: Pass, toRequest: seq<PieceWithCount>,
                  views: map<Peer, PeerView>, shufflePieces: PieceShuffle, shufflePeers: PeerShuffle)
    requires Shuffles(shufflePieces, shufflePeers) && |p.rarest| > 0 && |p.remaining| > 0
    requires Known(p.remaining, views) && Counted(p.remaining, p.counts)
    requires choice == ChoosePeer(p.rarest[0].pieceIndex, p.remaining, views, shufflePeers, p.turn, 0)
    requires (choice.Some? ==> choice.value in p.counts) && h == Handout(p, choice)
    requires q == Advance(h, toRequest, shufflePieces)
    ensures Known(q.remaining, views) && Counted(q.remaining, q.counts)
    ensures RunPass(q, toRequest, views, shufflePieces, shufflePeers)
      == RunPass(p, toRequest, views, shufflePieces, shufflePeers)
    ensures || |Above(toRequest, q.minOcc)| < |Above(toRequest, p.minOcc)|
            || (|Above(toRequest, q.minOcc)| == |Above(toRequest, p.minOcc)| && |q.rarest| < |p.rarest|)
  {
    assert q == Step(p, toRequest, views, shufflePieces, shufflePeers);
    StepDecreases(p, toRequest, views, shufflePieces, shufflePeers);
  }

  /** Refiltering `pool` after a turn, into `refiltered`, gives the
      eligible peers of the grown counts, and of the peers `remaining`
      eligible before the turn. */
  lemma Refiltered(pool: seq<Peer>, peers: seq<Peer>, remaining: seq<Peer>, refiltered: seq<Peer>,
                   c0: map<Peer, int>, c1: map<Peer, int>)
    requires (forall p :: p in pool ==> p in peers) && Tracks(peers, c1) && Counted(pool, c0)
    requires forall p :: p in c0 ==> p in c1 && c0[p] <= c1[p]
    requires remaining == Eligible(pool, c0) && refiltered == RemainingActivePeers(pool)
    ensures Counted(remaining, c1) && Counted(pool, c1) && Counted(refiltered, c1)
    ensures refiltered == Eligible(pool, c1) && refiltered == Eligible(remaining, c1)
    ensures refiltered == Eligible(refiltered, c1)
  {
    RemainingIsEligible(pool, peers, c1);
    EligibleTwice(pool, c0, c1);
    EligibleTwice(pool, c1, c1);
  }

  /** One turn of the loop of `preparePiecesRequests` on the peers
      themselves; `p` is the state it starts from, and the eligible peers
      are refiltered from `pool`: the eligible peers themselves in the `.ts`
      version, all active peers in the `.js` one. */
  method Turn(rarest: seq<PieceWithCount>, remaining: seq<Peer>, minOcc: Option<nat>,
              nonRequested: seq<int>, result: seq<Assignment>, tier: nat, turn: nat,
              ghost counts: map<Peer, int>, ghost handedOut: seq<PieceWithCount>,
              pool: seq<Peer>, peers: seq<Peer>, toRequest: seq<PieceWithCount>, views: map<Peer, PeerView>,
              shufflePieces: PieceShuffle, shufflePeers: PeerShuffle)
      returns (rarest': seq<PieceWithCount>, remaining': seq<Peer>, minOcc': Option<nat>,
               nonRequested': seq<int>, result': seq<Assignment>, tier': nat, turn': nat,
               ghost counts': map<Peer, int>, ghost handedOut': seq<PieceWithCount>, choice: Option<Peer>)
    requires Shuffles(shufflePieces, shufflePeers) && |rarest| > 0
    requires Known(remaining, views) && Counted(remaining, counts)
    requires (forall p :: p in pool ==> p in peers) && Tracks(peers, counts) && Counted(pool, counts)
    requires remaining == Eligible(pool, counts)
    modifies peers
    ensures choice == ChoosePeer(rarest[0].pieceIndex, remaining, views, shufflePeers, turn, 0)
    ensures choice.Some? ==> choice.value in counts
    ensures Pass(rarest, remaining, minOcc, counts', nonRequested', result', handedOut', tier, turn)
      == Handout(Pass(rarest, remaining, minOcc, counts, nonRequested, result, handedOut, tier, turn), choice)
    ensures Counted(remaining, counts')
    ensures Pass(rarest', remaining', minOcc', counts', nonRequested', result', handedOut', tier', turn')
      == Advance(Pass(rarest, remaining, minOcc, counts', nonRequested', result', handedOut', tier, turn),
                 toRequest, shufflePieces)
    ensures Tracks(peers, counts') && Counted(pool, counts') && remaining' == Eligible(pool, counts')
    ensures Counted(remaining', counts') && remaining' == Eligible(remaining', counts')
    ensures forall p :: p in peers ==> RestOf(p) == old(RestOf(p))
  {
    choice, counts', result', handedOut', nonRequested' :=
      ChooseAndHand(rarest[0], remaining, turn, counts, result, handedOut, nonRequested, peers, views, shufflePeers);
    remaining' := Refilter(pool, peers, remaining, counts, counts');
    rarest', minOcc', tier', turn' :=
      MoveOn(rarest, remaining', minOcc, tier, turn, toRequest, shufflePieces,
             Pass(rarest, remaining, minOcc, counts', nonRequested', result', handedOut', tier, turn));
  }

  /** `computeRemainingActivePeers(pool)` after a hand-out moved the
      in-flight counts from `counts` to `counts'`. */
  method Refilter(pool: seq<Peer>, peers: seq<Peer>, remaining: seq<Peer>,
                  ghost counts: map<Peer, int>, ghost counts': map<Peer, int>)
      returns (remaining': seq<Peer>)
    requires (forall p :: p in pool ==> p in peers) && Tracks(peers, counts') && Counted(pool, counts)
    requires forall p :: p in counts ==> p in counts' && counts[p] <= counts'[p]
    requires remaining == Eligible(pool, counts)
    ensures Counted(remaining, counts') && Counted(pool, counts') && Counted(remaining', counts')
    ensures remaining' == Eligible(pool, counts') && remaining' == Eligible(remaining, counts')
    ensures remaining' == Eligible(remaining', counts')
  {
    remaining' := RemainingActivePeers(pool);
    Refiltered(pool, peers, remaining, remaining', counts, counts');
  }

  /** The rest of a turn once the peers are refiltered into `remaining'`:
      shift the first rarest piece and, when the tier is used up, open the
      next one; `h` is the state after the hand-out. */
  method MoveOn(rarest: seq<PieceWithCount>, remaining': seq<Peer>, minOcc: Option<nat>, tier: nat, turn: nat,
                toRequest: seq<PieceWithCount>, shufflePieces: PieceShuffle, ghost h: Pass)
      returns (rarest': seq<PieceWithCount>, minOcc': Option<nat>, tier': nat, turn': nat)
    requires ShufflesPieces(shufflePieces) && |rarest| > 0 && Counted(h.remaining, h.counts)
    requires h.rarest == rarest && h.minOcc == minOcc && h.tier == tier && h.turn == turn
    requires remaining' == Eligible(h.remaining, h.counts)
    ensures h.(rarest := rarest', remaining := remaining', minOcc := minOcc', tier := tier', turn := turn')
      == Advance(h, toRequest, shufflePieces)
  {
    turn' := turn + 1;
    if |rarest| == 1 {
      minOcc' := MinCount(Above(toRequest, minOcc));
      tier' := tier + 1;
      rarest' := Rarest(toRequest, minOcc', shufflePieces, tier');
    } else {
      rarest', minOcc', tier' := rarest[1..], minOcc, tier;
    }
  }

  /** The loop of `preparePiecesRequests` and the lines that set it up, on
      the peers themselves, from the pieces to request on. `refilterAll`
      says what each turn refilters: all of `peers` in the `.js` version,
      the eligible peers in the `.ts` one. `counts` are the in-flight counts
      the peers end with. */
  method RequestLoop(peers: seq<Peer>, piecesToRequest: seq<PieceWithCount>, nonRequestedPieces: seq<int>,
                     views: map<Peer, PeerView>, ghost counts0: map<Peer, int>, refilterAll: bool,
                     shufflePieces: PieceShuffle, shufflePeers: PeerShuffle)
      returns (result: seq<Assignment>, nonRequested: seq<int>, ghost counts: map<Peer, int>)
    requires Shuffles(shufflePieces, shufflePeers) && Known(peers, views)
    requires Counted(peers, counts0) && Tracks(peers, counts0)
    modifies peers
    ensures var q := RunPass(Start(piecesToRequest, peers, nonRequestedPieces, counts0, shufflePieces),
                             piecesToRequest, views, shufflePieces, shufflePeers);
      result == q.result && nonRequested == q.nonRequested && counts == q.counts
    ensures Tracks(peers, counts)
    ensures forall p :: p in peers ==> RestOf(p) == old(RestOf(p))
  {
    var minOcc := MinCount(piecesToRequest);
    var tier: nat := 0;
    var rarest := Rarest(piecesToRequest, minOcc, shufflePieces, tier);
    counts := counts0;
    RemainingIsEligible(peers, peers, counts);
    var remaining := RemainingActivePeers(peers);
    EligibleTwice(peers, counts, counts);
    result := [];
    nonRequested := nonRequestedPieces;
    ghost var handedOut: seq<PieceWithCount> := [];
    var turn: nat := 0;
    ghost var final := RunPass(Start(piecesToRequest, peers, nonRequestedPieces, counts0, shufflePieces),
                               piecesToRequest, views, shufflePieces, shufflePeers);
    while |remaining| > 0 && |rarest| > 0
      invariant Known(remaining, views) && forall p :: p in remaining ==> p in peers
      invariant Tracks(peers, counts) && forall p :: p in peers ==> RestOf(p) == old(RestOf(p))
      invariant Counted(remaining, counts) && remaining == Eligible(remaining, counts)
      invariant Counted(peers, counts) && (refilterAll ==> remaining == Eligible(peers, counts))
      invariant RunPass(Pass(rarest, remaining, minOcc, counts, nonRequested, result, handedOut, tier, turn),
                        piecesToRequest, views, shufflePieces, shufflePeers) == final
      decreases |Above(piecesToRequest, minOcc)|, |rarest|
    {
      ghost var p0 := Pass(rarest, remaining, minOcc, counts, nonRequested, result, handedOut, tier, turn);
      var pool := if refilterAll then peers else remaining;
      var choice;
      rarest, remaining, minOcc, nonRequested, result, tier, turn, counts, handedOut, choice :=
        Turn(rarest, remaining, minOcc, nonRequested, result, tier, turn, counts, handedOut,
             pool, peers, piecesToRequest, views, shufflePieces, shufflePeers);
      Continues(p0, choice, Pass(p0.rarest, p0.remaining, p0.minOcc, counts, nonRequested, result, handedOut, p0.tier, p0.turn),
                Pass(rarest, remaining, minOcc, counts, nonRequested, result, handedOut, tier, turn),
                piecesToRequest, views, shufflePieces, shufflePeers);
    }
  }

  /** `preparePiecesRequests(nbPieces)(peers, nonRequestedPieces)` on the
      peers themselves: each chosen peer's in-flight count goes up in place,
      and the spliced array comes back as `nonRequested`. */
  method PreparePiecesRequests(nbPieces: int, peers: seq<Peer>, nonRequestedPieces: seq<int>,
                               shufflePieces: PieceShuffle, shufflePeers: PeerShuffle)
      returns (result: seq<Assignment>, nonRequested: seq<int>)
    requires Shuffles(shufflePieces, shufflePeers)
    modifies peers
    ensures var q := Prepare(nbPieces, peers, nonRequestedPieces, old(ViewsOf(peers)), old(CountsOf(peers)),
                             shufflePieces, shufflePeers);
      && result == q.result && nonRequested == q.nonRequested
      && forall p :: p in peers ==> p.inFlight == q.counts[p]
    ensures forall p :: p in peers ==> RestOf(p) == old(RestOf(p))
  {
    var views := ViewsOf(peers);
    ghost var counts: map<Peer, int> := CountsOf(peers);
    var piecesToRequest := ToRequest(Availability(nbPieces, peers, views), nonRequestedPieces);
    ghost var counts';
    result, nonRequested, counts' :=
      RequestLoop(peers, piecesToRequest, nonRequestedPieces, views, counts, false, shufflePieces, shufflePeers);
  }

  /** One `next()` of the generator `askPeersForPieces(torrent)()`: done once
      the torrent is complete, otherwise the batch of requests for the pieces
      `getNonRequestedPieces` lists. */
  method NextBatch(torrentCompleted: bool, nbPieces: int, torrentBitfield: seq<byte>, askedPieces: seq<int>,
                   peers: seq<Peer>, shufflePieces: PieceShuffle, shufflePeers: PeerShuffle)
      returns (batch: Option<seq<Assignment>>)
    requires Shuffles(shufflePieces, shufflePeers)
    modifies peers
    ensures torrentCompleted ==> batch.None? && forall p :: p in peers ==> p.inFlight == old(p.inFlight)
    ensures !torrentCompleted ==>
      var q := Prepare(nbPieces, peers, NonRequestedPieces(nbPieces, torrentBitfield, askedPieces),
                       old(ViewsOf(peers)), old(CountsOf(peers)), shufflePieces, shufflePeers);
      batch == Some(q.result) && forall p :: p in peers ==> p.inFlight == q.counts[p]
    ensures forall p :: p in peers ==> RestOf(p) == old(RestOf(p))
  {
    if torrentCompleted {
      return None;
    }
    var nonRequestedPieces := NonRequestedPieces(nbPieces, torrentBitfield, askedPieces);
    var requests, _ := PreparePiecesRequests(nbPieces, peers, nonRequestedPieces, shufflePieces, shufflePeers);
    batch := Some(requests);
  }

  /** Every piece of a batch is one the torrent lacks and has not asked for,
      and one of its peers holds it and has `peer_choking` set. */
  lemma BatchWanted(nbPieces: int, torrentBitfield: seq<byte>, askedPieces: seq<int>, peers: seq<Peer>,
                    views: map<Peer, PeerView>, counts: map<Peer, int>,
                    shufflePieces: PieceShuffle, shufflePeers: PeerShuffle)
    requires Shuffles(shufflePieces, shufflePeers) && Known(peers, views) && Counted(peers, counts)
    ensures var q := Prepare(nbPieces, peers, NonRequestedPieces(nbPieces, torrentBitfield, askedPieces),
                             views, counts, shufflePieces, shufflePeers);
      forall k :: 0 <= k < |q.result| ==>
        var i := q.result[k].pieceIndex;
        && 0 <= i < nbPieces && !Bitfields.ContainsPiece(torrentBitfield, i) && i !in askedPieces
        && Served(q.result[k], peers, views)
  {
    var n0 := NonRequestedPieces(nbPieces, torrentBitfield, askedPieces);
    NonRequestedPiecesMembers(nbPieces, torrentBitfield, askedPieces);
    PrepareProperties(nbPieces, peers, n0, views, counts, shufflePieces, shufflePeers);
  }
}
