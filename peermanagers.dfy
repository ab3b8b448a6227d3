/** The class-based twin of the scheduler in `peerManager.js`: a manager
    object keeps the torrent's active peers, the pieces not requested yet
    and the last availability table. Its pass is the one of `Scheduler`,
    except that the eligible peers are refiltered from all active peers
    after every turn, and the spliced array is the manager's own field, so
    it carries over from one pass to the next. */
module PeerManagers {
  import opened Wrappers
  import opened Bytes
  import Bitfields
  import opened Peers
  import opened Scheduler

  /** The exceptions the class throws: `askPeersForPieces` calls
      `peer.requestpiece`, which no peer has, and `updateNonRequestedPieces`
      reads an identifier `torrent` that is not in scope. */
  datatype Thrown = TypeError | ReferenceError

  class PeerManager {
    const activePeers: seq<Peer>
    const nbPieces: int
    var piecesWithCount: Option<seq<PieceWithCount>>
    var nonRequestedPieces: seq<int>

    /** `new PeerManager(torrent)`: the pieces not requested yet are the
        pieces the torrent's bitfield lacks, in index order. */
    constructor (activePeers: seq<Peer>, nbPieces: int, torrentBitfield: seq<byte>)
      ensures this.activePeers == activePeers && this.nbPieces == nbPieces
      ensures piecesWithCount.None?
      ensures nonRequestedPieces == NonRequestedPieces(nbPieces, torrentBitfield, [])
      ensures forall i :: i in nonRequestedPieces <==> 0 <= i < nbPieces && !Bitfields.ContainsPiece(torrentBitfield, i)
      ensures NoDup(nonRequestedPieces)
    {
      this.activePeers := activePeers;
      this.nbPieces := nbPieces;
      piecesWithCount := None;
      nonRequestedPieces := NonRequestedPieces(nbPieces, torrentBitfield, []);
      NonRequestedPiecesMembers(nbPieces, torrentBitfield, []);
    }

    /** `updateNonRequestedPieces()`: the filter callback reads `torrent`,
        which throws as soon as the range has an element. */
    method UpdateNonRequestedPieces() returns (thrown: Option<Thrown>)
      modifies this
      ensures nbPieces > 0 ==> thrown == Some(ReferenceError) && nonRequestedPieces == old(nonRequestedPieces)
      ensures nbPieces <= 0 ==> thrown.None? && nonRequestedPieces == []
      ensures piecesWithCount == old(piecesWithCount)
    {
      if nbPieces > 0 {
        return Some(ReferenceError);
      }
      nonRequestedPieces := [];
      thrown := None;
    }

    /** `gatherAllBitfields()`: store the availability of every piece some
        active peer holds, in index order. */
    method GatherAllBitfields()
      modifies this
      ensures piecesWithCount == Some(Availability(nbPieces, activePeers, old(ViewsOf(activePeers))))
      ensures ViewsOf(activePeers) == old(ViewsOf(activePeers))
      ensures nonRequestedPieces == old(nonRequestedPieces)
    {
      piecesWithCount := Some(Availability(nbPieces, activePeers, ViewsOf(activePeers)));
    }

    /** `preparePiecesRequests()`: the pass over the active peers, with each
        chosen peer's in-flight count raised in place and each assigned piece
        spliced out of `nonRequestedPieces`. */
    method PreparePiecesRequests(shufflePieces: PieceShuffle, shufflePeers: PeerShuffle)
        returns (result: seq<Assignment>)
      requires Shuffles(shufflePieces, shufflePeers)
      modifies this, activePeers
      ensures var views := old(ViewsOf(activePeers));
        var q := Prepare(nbPieces, activePeers, old(nonRequestedPieces), views, old(CountsOf(activePeers)),
                         shufflePieces, shufflePeers);
        && piecesWithCount == Some(Availability(nbPieces, activePeers, views))
        && result == q.result && nonRequestedPieces == q.nonRequested
        && forall p :: p in activePeers ==> p.inFlight == q.counts[p]
      ensures forall p :: p in activePeers ==> RestOf(p) == old(RestOf(p))
    {
      var views := ViewsOf(activePeers);
      ghost var counts: map<Peer, int> := CountsOf(activePeers);
      GatherAllBitfields();
      var piecesToRequest := ToRequest(piecesWithCount.value, nonRequestedPieces);
      // The source splices the field itself; nothing else reads it during
      // the pass, so the spliced list is written back once at the end.
      var nonRequested;
      ghost var counts';
      result, nonRequested, counts' :=
        RequestLoop(activePeers, piecesToRequest, nonRequestedPieces, views, counts, true,
                    shufflePieces, shufflePeers);
      nonRequestedPieces := nonRequested;
    }

    /** `askPeersForPieces()`: run a pass, then call `peer.requestpiece` on
        the first request, which throws; the pass's updates stay in place. */
    method AskPeersForPieces(shufflePieces: PieceShuffle, shufflePeers: PeerShuffle)
        returns (thrown: Option<Thrown>)
      requires Shuffles(shufflePieces, shufflePeers)
      modifies this, activePeers
      ensures var views := old(ViewsOf(activePeers));
        var q := Prepare(nbPieces, activePeers, old(nonRequestedPieces), views, old(CountsOf(activePeers)),
                         shufflePieces, shufflePeers);
        && thrown == (if q.result == [] then None else Some(TypeError))
        && piecesWithCount == Some(Availability(nbPieces, activePeers, views))
        && nonRequestedPieces == q.nonRequested
        && forall p :: p in activePeers ==> p.inFlight == q.counts[p]
      ensures forall p :: p in activePeers ==> RestOf(p) == old(RestOf(p))
    {
      var requests := PreparePiecesRequests(shufflePieces, shufflePeers);
      thrown := if requests == [] then None else Some(TypeError);
    }
  }

  /** A list without repeats holds each value at most once. */
  lemma {:induction false} NoDupCounts<T>(s: seq<T>)
    requires NoDup(s)
    ensures forall x :: multiset(s)[x] <= 1
    decreases |s|
  {
    if s != [] {
      assert s == [s[0]] + s[1..];
      assert NoDup(s[1..]) by {
        forall i, j | 0 <= i < j < |s[1..]|
          ensures s[1..][i] != s[1..][j]
        {
          assert s[1..][i] == s[i + 1] && s[1..][j] == s[j + 1];
        }
      }
      NoDupCounts(s[1..]);
      forall k | 0 <= k < |s[1..]|
        ensures s[1..][k] != s[0]
      {
        assert s[1..][k] == s[k + 1];
      }
      assert s[0] !in s[1..];
    }
  }

  /** A value at two positions is held at least twice. */
  lemma TwoCopies<T>(s: seq<T>, i: int, j: int)
    requires 0 <= i < j < |s| && s[i] == s[j]
    ensures multiset(s)[s[i]] >= 2
  {
    assert s == s[..j] + s[j..];
    assert s[i] == s[..j][i];
    assert s[j] == s[j..][0];
    assert multiset(s)[s[i]] == multiset(s[..j])[s[i]] + multiset(s[j..])[s[i]];
  }

  /** A list holding each value at most once has no repeats. */
  lemma CountsNoDup<T>(s: seq<T>)
    requires forall x :: multiset(s)[x] <= 1
    ensures NoDup(s)
  {
    forall i, j | 0 <= i < j < |s|
      ensures s[i] != s[j]
    {
      if s[i] == s[j] {
        TwoCopies(s, i, j);
      }
    }
  }

  /** Taking a list of distinct values apart into two lists leaves them
      disjoint, each without repeats and each inside the original. */
  lemma Disjoint(n0: seq<int>, left: seq<int>, taken: seq<int>)
    requires multiset(left) + multiset(taken) == multiset(n0) && NoDup(n0)
    ensures forall k :: 0 <= k < |taken| ==> taken[k] !in left
    ensures forall i :: i in left ==> i in n0
    ensures NoDup(left)
  {
    NoDupCounts(n0);
    forall k | 0 <= k < |taken|
      ensures taken[k] !in left
    {
      assert taken[k] in multiset(taken);
      assert multiset(n0)[taken[k]] <= 1;
    }
    forall i | i in left
      ensures i in n0
    {
      assert i in multiset(left);
      assert multiset(n0)[i] >= multiset(left)[i];
      assert i in multiset(n0);
    }
    forall x
      ensures multiset(left)[x] <= 1
    {
      assert multiset(left)[x] <= multiset(n0)[x];
    }
    CountsNoDup(left);
  }

  /** After a pass on a list of distinct pieces, the list left holds no
      assigned piece, has no repeats, and holds only pieces of the original
      list. */
  lemma SplicedOut(nbPieces: int, peers: seq<Peer>, n0: seq<int>, views: map<Peer, PeerView>,
                   c0: map<Peer, int>, shufflePieces: PieceShuffle, shufflePeers: PeerShuffle)
    requires Shuffles(shufflePieces, shufflePeers) && Known(peers, views) && Counted(peers, c0)
    requires NoDup(n0)
    ensures var q := Prepare(nbPieces, peers, n0, views, c0, shufflePieces, shufflePeers);
      && (forall k :: 0 <= k < |q.result| ==> q.result[k].pieceIndex !in q.nonRequested)
      && (forall i :: i in q.nonRequested ==> i in n0)
      && NoDup(q.nonRequested)
  {
    var q := Prepare(nbPieces, peers, n0, views, c0, shufflePieces, shufflePeers);
    PrepareProperties(nbPieces, peers, n0, views, c0, shufflePieces, shufflePeers);
    Disjoint(n0, q.nonRequested, PieceIndices(q.result));
  }

  /** On the same manager, a later pass never hands out a piece an earlier
      pass handed out: the second pass starts from the list the first one
      spliced. */
  lemma NoReassign(nbPieces: int, peers: seq<Peer>, n0: seq<int>, views: map<Peer, PeerView>,
                   c0: map<Peer, int>, views': map<Peer, PeerView>, c1: map<Peer, int>,
                   shufflePieces: PieceShuffle, shufflePeers: PeerShuffle,
                   shufflePieces': PieceShuffle, shufflePeers': PeerShuffle)
    requires Shuffles(shufflePieces, shufflePeers) && Shuffles(shufflePieces', shufflePeers')
    requires Known(peers, views) && Counted(peers, c0) && Known(peers, views') && Counted(peers, c1)
    requires NoDup(n0)
    ensures var q := Prepare(nbPieces, peers, n0, views, c0, shufflePieces, shufflePeers);
      var q' := Prepare(nbPieces, peers, q.nonRequested, views', c1, shufflePieces', shufflePeers');
      forall k, l :: 0 <= k < |q.result| && 0 <= l < |q'.result| ==>
        q.result[k].pieceIndex != q'.result[l].pieceIndex
  {
    var q := Prepare(nbPieces, peers, n0, views, c0, shufflePieces, shufflePeers);
    SplicedOut(nbPieces, peers, n0, views, c0, shufflePieces, shufflePeers);
    PrepareProperties(nbPieces, peers, q.nonRequested, views', c1, shufflePieces', shufflePeers');
  }
}
