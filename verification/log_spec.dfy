/** The raft log of log.c as a value: entries offset+1, offset+2, ... in order, everything up
    to `offset` having been compacted into a snapshot. */
module LogSpec {
  import opened Types

  /** log_ring_get, once the ring holds consecutive indexes. */
  function Lookup(offset: nat, es: seq<Entry>, i: nat): Option<Entry> {
    if offset < i <= offset + |es| then Some(es[i - offset - 1]) else None
  }

  /** remove_raft_conflicting_entries: drops entries from the end until the committed index or
      an entry (p, pt) is reached. */
  function Truncate(offset: nat, es: seq<Entry>, p: nat, pt: nat, committed: nat): (r: seq<Entry>)
    requires offset <= committed
    ensures r <= es
    ensures committed <= offset + |es| ==> committed <= offset + |r|
  {
    if offset + |es| <= committed then es
    else if offset + |es| == p && es[|es| - 1].term == pt then es
    else Truncate(offset, es[..|es| - 1], p, pt, committed)
  }

  /** First half of check_raft_log_consistency: what is left of the log. Accepted or not, only
      entries above the commit index are ever dropped. */
  function Kept(offset: nat, es: seq<Entry>, p: nat, pt: nat, committed: nat): (r: seq<Entry>)
    requires offset <= committed
    ensures r <= es
    ensures committed <= offset + |es| ==> committed <= offset + |r|
  {
    if es != [] && !(offset + |es| == p && es[|es| - 1].term == pt)
    then Truncate(offset, es, p, pt, committed)
    else es
  }

  /** Second half: does the remaining log, or the snapshot (si, st), end the prefix the
      leader names? */
  predicate PrevMatches(offset: nat, es: seq<Entry>, p: nat, pt: nat, si: nat, st: nat) {
    match Lookup(offset, es, p)
    case Some(e) => e.term == pt
    case None => si == p && st == pt
  }

  predicate Accepts(offset: nat, es: seq<Entry>, p: nat, pt: nat, committed: nat, si: nat, st: nat)
    requires offset <= committed
  {
    PrevMatches(offset, Kept(offset, es, p, pt, committed), p, pt, si, st)
  }

  /** The removal loop in closed form. */
  lemma {:induction false} TruncateIs(offset: nat, es: seq<Entry>, p: nat, pt: nat, committed: nat)
    requires offset <= committed
    ensures Truncate(offset, es, p, pt, committed)
         == if committed < p <= offset + |es| && es[p - offset - 1].term == pt then es[..p - offset]
            else if committed - offset <= |es| then es[..committed - offset]
            else es
    decreases |es|
  {
    if offset + |es| <= committed {
    } else if offset + |es| == p && es[|es| - 1].term == pt {
    } else {
      TruncateIs(offset, es[..|es| - 1], p, pt, committed);
    }
  }

  /** An accepted request keeps the log exactly up to its own previous index if and only if
      that index is not below the commit index. Below it nothing is truncated and the entries
      appended next are numbered from the commit index instead. */
  lemma AcceptedPrefix(offset: nat, es: seq<Entry>, p: nat, pt: nat, committed: nat, st: nat)
    requires offset <= committed <= offset + |es|
    requires Accepts(offset, es, p, pt, committed, offset, st)
    ensures offset <= p <= offset + |es|
    ensures p >= committed <==> offset + |Kept(offset, es, p, pt, committed)| == p
    ensures p >= committed ==> Kept(offset, es, p, pt, committed) == es[..p - offset]
    ensures p < committed ==> Kept(offset, es, p, pt, committed) == es[..committed - offset]
    ensures p > offset ==> es[p - offset - 1].term == pt
  {
    TruncateIs(offset, es, p, pt, committed);
  }

  /** Accepted or not, a request leaves an uncommitted entry in place if and only if the entry
      it names as its previous one is in the log, at that entry or after it. On any other
      request every entry above the commit index is dropped, also those that agree with the
      leader's log. */
  lemma SurvivesIff(offset: nat, es: seq<Entry>, p: nat, pt: nat, committed: nat, i: nat)
    requires offset <= committed < i <= offset + |es|
    ensures i <= offset + |Kept(offset, es, p, pt, committed)|
       <==> i <= p <= offset + |es| && es[p - offset - 1].term == pt
  {
    TruncateIs(offset, es, p, pt, committed);
  }

  ghost predicate SameAnswers(k: nat, es: seq<Entry>, committed: nat, st: nat)
    requires k <= committed <= |es|
  {
    forall p: nat, pt: nat :: p >= committed ==>
      (Accepts(k, es[k..], p, pt, committed, k, st) <==> Accepts(0, es, p, pt, committed, 0, 0))
  }

  /** Compaction and truncation commute at or above the commit index. */
  lemma KeptAfterCompaction(k: nat, es: seq<Entry>, p: nat, pt: nat, committed: nat)
    requires k <= committed <= |es|
    ensures k <= |Kept(0, es, p, pt, committed)|
    ensures Kept(k, es[k..], p, pt, committed) == Kept(0, es, p, pt, committed)[k..]
  {
    TruncateIs(0, es, p, pt, committed);
    TruncateIs(k, es[k..], p, pt, committed);
  }

  /** Compacting the first k entries into a snapshot labelled with term st is invisible to
      every request at or above the commit index exactly when the label is the term of entry
      k, or no request can name k. The source labels it with the current term. */
  lemma CompactionTransparent(k: nat, es: seq<Entry>, committed: nat, st: nat)
    requires k <= committed <= |es|
    ensures SameAnswers(k, es, committed, st)
       <==> (k < committed || (if k == 0 then st == 0 else st == es[k - 1].term))
  {
    var tag := if k == 0 then 0 else es[k - 1].term;
    if k == committed && st != tag {
      TruncateIs(0, es, k, tag, committed);
      KeptAfterCompaction(k, es, k, tag, committed);
      assert Accepts(0, es, k, tag, committed, 0, 0);
      assert !Accepts(k, es[k..], k, tag, committed, k, st);
    } else {
      forall p: nat, pt: nat | p >= committed
        ensures Accepts(k, es[k..], p, pt, committed, k, st) <==> Accepts(0, es, p, pt, committed, 0, 0)
      {
        KeptAfterCompaction(k, es, p, pt, committed);
        TruncateIs(0, es, p, pt, committed);
      }
    }
  }
}
