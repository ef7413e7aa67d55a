/** The request chain of an upstream (NgxUpstream::request). */
module Upstream {
  import opened Buffers
  import opened Chains

  class Upstream {
    var requestBufs: Link?
    ghost var links: seq<Link>

    constructor ()
      ensures Valid() && links == []
    {
      requestBufs, links := null, [];
    }

    ghost predicate Valid()
      reads this, links
    {
      IsChain(requestBufs, links)
    }

    /** NgxUpstream::request: the first chain is taken as it is, later ones are appended. */
    method Take(bufs: Link?, ghost more: seq<Link>)
      requires Valid() && IsChain(bufs, more)
      requires forall l :: l in links ==> l !in more
      modifies this, links`next
      ensures Valid() && links == old(links) + more
    {
      if requestBufs == null {
        assert links + more == more;
        requestBufs := bufs;
      } else {
        Append(requestBufs, links, bufs, more);
      }
      links := links + more;
    }

    /** The pieces of the request chain after a request: those before and those of the new chain. */
    method Request(bufs: Link?, ghost more: seq<Link>)
      requires Valid() && Filled(links) && IsChain(bufs, more) && Filled(more)
      requires forall l :: l in links ==> l !in more
      modifies this, links`next
      ensures Valid() && links == old(links) + more && Filled(links)
      ensures Pieces(links) == old(Pieces(links)) + old(Pieces(more))
    {
      ghost var s, ps, qs := links, Pieces(links), Pieces(more);
      Take(bufs, more);
      Joined(s, more, ps, qs);
    }
  }

  lemma Joined(s: seq<Link>, t: seq<Link>, ps: seq<Piece>, qs: seq<Piece>)
    requires Filled(s) && Filled(t) && |ps| == |s| && |qs| == |t|
    requires forall i :: 0 <= i < |s| ==> s[i].buf.ToPiece() == ps[i]
    requires forall i :: 0 <= i < |t| ==> t[i].buf.ToPiece() == qs[i]
    ensures Filled(s + t) && Pieces(s + t) == ps + qs
  {
    PiecesAre(s + t, ps + qs);
  }
}
