/**
 * ip.PrefixIter consumed through iter.Pull, as the mesh builder uses it: a
 * forward-only cursor that hands out the addresses of a prefix after its
 * network address, in ascending order, until the prefix (or the address
 * space) ends or the consumer stops it.
 */
module PrefixIter {
  import opened NetAddr

  /** The k-th address of the masked prefix has value base + 1 + k, so yields ascend. */
  lemma HostsAscending(p: Prefix, i: nat, j: nat)
    requires p.IsValid() && p.WellFormed() && i < j < HostCount(p)
    ensures Cursor(p, i).IsValid() && Cursor(p, j).IsValid()
    ensures Cursor(p, i).value < Cursor(p, j).value
    ensures Cursor(p, j).value - Cursor(p, i).value == j - i
  {
    CursorInside(p, i);
    CursorInside(p, j);
  }

  /** A /32 or /128 prefix yields nothing. */
  lemma FullLengthYieldsNothing(p: Prefix)
    requires p.IsValid() && p.bits == p.addr.width
    ensures HostCount(p) == 0
  {
  }

  /** The loop test at position n: inside the prefix exactly while hosts remain. */
  lemma LoopTest(p: Prefix, n: nat)
    requires p.IsValid() && p.WellFormed() && n <= HostCount(p)
    ensures (Cursor(p, n).IsValid() && p.Contains(Cursor(p, n))) <==> n < HostCount(p)
    ensures n < HostCount(p) ==> Cursor(p, n).WellFormed() && Cursor(p, n) != p.Masked().addr
    ensures Cursor(p, n).Next() == Cursor(p, n + 1)
  {
    if n < HostCount(p) {
      CursorInside(p, n);
    } else {
      CursorOutside(p);
    }
    CursorNext(p, n);
  }

  class PrefixCursor {
    /** The prefix after masking. */
    const prefix: Prefix
    /** The iterator's loop variable. */
    var addr: Addr
    /** The iterator function has returned, by exhaustion or by Stop. */
    var finished: bool
    /** What Next has handed out so far. */
    ghost var yielded: seq<Addr>

    ghost predicate Valid()
      reads this
    {
      prefix.IsValid() && prefix.WellFormed() && prefix.Masked() == prefix
      && |yielded| <= HostCount(prefix)
      && (forall k :: 0 <= k < |yielded| ==> yielded[k] == Cursor(prefix, k))
      && (!finished ==> addr == Cursor(prefix, |yielded|))
    }

    /** iter.Pull(ip.PrefixIter(p)); an invalid prefix makes PrefixIter panic. */
    constructor (p: Prefix)
      requires p.IsValid() && p.WellFormed()
      ensures Valid() && prefix == p.Masked() && yielded == [] && !finished
    {
      MaskedIdempotent(p);
      prefix := p.Masked();
      addr := p.Masked().addr.Next();
      finished := false;
      yielded := [];
    }

    /**
     * The pull function: the next address and true, or the zero Addr and
     * false once the prefix is exhausted or the cursor was stopped.
     */
    method Next() returns (a: Addr, ok: bool)
      requires Valid()
      modifies this
      ensures Valid()
      ensures ok <==> !old(finished) && |old(yielded)| < HostCount(prefix)
      ensures ok ==> a == Cursor(prefix, |old(yielded)|) && yielded == old(yielded) + [a] && !finished
      ensures ok ==> a.IsValid() && a.WellFormed() && prefix.Contains(a) && a != prefix.addr
      ensures !ok ==> a == Invalid && yielded == old(yielded) && finished
    {
      if finished {
        return Invalid, false;
      }
      LoopTest(prefix, |yielded|);
      if addr.IsValid() && prefix.Contains(addr) {
        a, ok := addr, true;
        addr := addr.Next();
        ghost var before := yielded;
        yielded := before + [a];
        forall k | 0 <= k < |yielded|
          ensures yielded[k] == Cursor(prefix, k)
        {
          if k < |before| {
            assert yielded[k] == before[k];
          }
        }
      } else {
        a, ok := Invalid, false;
        finished := true;
      }
    }

    /** The stop function: the iterator ends; later pulls report false. */
    method Stop()
      requires Valid()
      modifies this
      ensures Valid() && finished && yielded == old(yielded)
    {
      finished := true;
    }
  }
}
