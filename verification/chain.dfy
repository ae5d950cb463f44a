/** One server's raft log over its whole life: entries appended, dropped and committed by
    messages of any content, applied one by one, and compacted by a snapshot thread that runs
    beside all of this. */
module Chain {
  import opened Types
  import LogSpec

  /** Index and term label of a snapshot. */
  datatype Label = Label(index: nat, term: nat)

  /** `all` is history: every entry after `base`, also those already compacted. The ring holds
      the indexes first+1 .. last. `done` lists what was handed to the state machine. */
  datatype Chain = Chain(
    base: nat,
    all: seq<Entry>,
    first: nat,
    offset: nat,
    commit: nat,
    applied: nat,
    snap: Label,
    fork: Option<Label>,
    compacting: bool,
    done: seq<Slot>)

  function Last(c: Chain): nat { c.base + |c.all| }

  /** The entries still in the ring. */
  function Ring(c: Chain): seq<Entry>
    requires c.base <= c.first <= Last(c)
  {
    c.all[c.first - c.base..]
  }

  datatype Action =
    | Append(e: Entry)                       // append_raft_log_entry on the leader
    | Request(p: nat, pt: nat, es: seq<Entry>, leaderCommit: nat)
    | CommitTo(n: nat)                       // the leader's choice, any index of its log
    | ApplyNext                              // one pass of raft_apply_log_entries
    | Fork(term: nat)                        // take_raft_snapshot, in the current term
    | Abandon
    | Publish                                // parent_raft_thread stores the snapshot
    | CompactOne
    | CompactDone
    | InstallLabel(l: Label)                 // install_raft_snapshot

  predicate Sound(c: Chain) {
    && c.base <= c.offset <= c.first <= c.applied <= c.commit <= Last(c)
    && (!c.compacting ==> c.offset == c.first == c.snap.index)
    && (c.fork.Some? ==> c.first <= c.fork.value.index <= c.applied)
    && (c.compacting ==> c.fork == Some(c.snap))
  }

  predicate Enabled(c: Chain, a: Action) {
    match a
    case Append(_) => true
    case Request(_, _, _, _) => c.base <= c.first <= c.commit <= Last(c)
    case CommitTo(n) => n <= Last(c)
    case ApplyNext => c.applied < c.commit && c.base <= c.first <= Last(c)
    case Fork(_) => c.fork.None?
    case Abandon => c.fork.Some? && !c.compacting
    case Publish => c.fork.Some? && !c.compacting
    case CompactOne => c.compacting && c.fork.Some? && c.first < c.fork.value.index
    case CompactDone => c.compacting && c.fork.Some? && c.first == c.fork.value.index
    case InstallLabel(l) => c.fork.None? && l != c.snap
  }

  /** handle_append_entries_request on the log: drop conflicts, append, move the commit index. */
  function OnRequest(c: Chain, p: nat, pt: nat, es: seq<Entry>, leaderCommit: nat): Chain
    requires c.base <= c.first <= c.commit <= Last(c)
  {
    var kept := LogSpec.Kept(c.first, Ring(c), p, pt, c.commit);
    var t := c.(all := c.all[..c.first - c.base] + kept);
    if LogSpec.PrevMatches(c.first, kept, p, pt, c.snap.index, c.snap.term)
    then
      var u := t.(all := t.all + es);
      u.(commit := Max(u.commit, Min(leaderCommit, Last(u))))
    else t
  }

  function Next(c: Chain, a: Action): Chain
    requires Enabled(c, a)
  {
    match a
    case Append(e) => c.(all := c.all + [e])
    case Request(p, pt, es, leaderCommit) => OnRequest(c, p, pt, es, leaderCommit)
    case CommitTo(n) => c.(commit := Max(c.commit, n))
    case ApplyNext =>
      (match LogSpec.Lookup(c.first, Ring(c), c.applied + 1)
       case Some(e) => c.(applied := c.applied + 1, done := c.done + [Slot(c.applied + 1, e)])
       case None => c)
    case Fork(term) => c.(fork := Some(Label(c.applied, term)))
    case Abandon => c.(fork := None)
    case Publish => c.(snap := c.fork.value, compacting := true)
    case CompactOne => c.(first := c.first + 1)
    case CompactDone => c.(offset := c.fork.value.index, compacting := false, fork := None)
    case InstallLabel(l) => Chain(l.index, [], l.index, l.index, l.index, l.index, l, None, false, [])
  }

  predicate Init(c: Chain) {
    c == Chain(0, [], 0, 0, 0, 0, Label(0, 0), None, false, [])
  }

  /** What was applied is exactly the log from base+1 to the applied index. */
  ghost predicate AppliedExactly(c: Chain) {
    && c.base <= c.applied <= Last(c) && |c.done| == c.applied - c.base
    && forall k :: 0 <= k < |c.done| ==> c.done[k] == Slot(c.base + 1 + k, c.all[k])
  }

  ghost predicate Inv(c: Chain) { Sound(c) && AppliedExactly(c) }

  /** Everything up to c's commit index is in d's log unchanged. */
  ghost predicate KeepsCommitted(c: Chain, d: Chain)
    requires c.base <= c.commit <= Last(c)
  {
    d.base == c.base && c.commit <= d.commit <= Last(d)
    && d.all[..c.commit - c.base] == c.all[..c.commit - c.base]
  }

  lemma RequestKeeps(c: Chain, p: nat, pt: nat, es: seq<Entry>, leaderCommit: nat)
    requires Sound(c)
    ensures var d := OnRequest(c, p, pt, es, leaderCommit);
            KeepsCommitted(c, d) && d.commit <= Last(d)
  {
    var kept := LogSpec.Kept(c.first, Ring(c), p, pt, c.commit);
    var k := c.commit - c.base;
    assert Ring(c)[..|kept|] == kept;
    assert c.all[..c.first - c.base] + kept == c.all[..c.first - c.base + |kept|];
    assert c.all[..c.first - c.base + |kept|][..k] == c.all[..k];
    assert (c.all[..c.first - c.base + |kept|] + es)[..k] == c.all[..k];
  }

  /** Every step except an install keeps the committed entries, and the commit index. */
  lemma StepKeepsCommitted(c: Chain, a: Action)
    requires Sound(c) && Enabled(c, a) && !a.InstallLabel?
    ensures KeepsCommitted(c, Next(c, a))
  {
    match a
    case Append(e) => assert (c.all + [e])[..c.commit - c.base] == c.all[..c.commit - c.base];
    case Request(p, pt, es, lc) => RequestKeeps(c, p, pt, es, lc);
    case _ =>
  }

  lemma StepKeepsSound(c: Chain, a: Action)
    requires Sound(c) && Enabled(c, a)
    ensures Sound(Next(c, a))
  {
    if a.Request? {
      RequestKeeps(c, a.p, a.pt, a.es, a.leaderCommit);
    }
  }

  /** The entry to apply next is always still in the ring: compaction never overtakes it. */
  lemma ApplyFinds(c: Chain)
    requires Sound(c) && c.applied < c.commit
    ensures LogSpec.Lookup(c.first, Ring(c), c.applied + 1) == Some(c.all[c.applied - c.base])
  {
  }

  lemma PrefixAt(a: seq<Entry>, b: seq<Entry>, n: nat, k: nat)
    requires k < n <= |a| && n <= |b| && a[..n] == b[..n]
    ensures a[k] == b[k]
  {
    assert a[..n][k] == b[..n][k];
  }

  lemma StepKeepsApplied(c: Chain, a: Action)
    requires Inv(c) && Enabled(c, a)
    ensures AppliedExactly(Next(c, a))
  {
    if a.ApplyNext? {
      ApplyFinds(c);
    } else if !a.InstallLabel? {
      var d := Next(c, a);
      StepKeepsCommitted(c, a);
      forall k | 0 <= k < |d.done|
        ensures d.done[k] == Slot(d.base + 1 + k, d.all[k])
      {
        PrefixAt(c.all, d.all, c.commit - c.base, k);
      }
    }
  }

  ghost predicate StepAt(cs: seq<Chain>, acts: seq<Action>, i: nat)
    requires i < |acts| && |cs| == |acts| + 1
  {
    Enabled(cs[i], acts[i]) && cs[i + 1] == Next(cs[i], acts[i])
  }

  ghost predicate IsRun(cs: seq<Chain>, acts: seq<Action>) {
    && |cs| == |acts| + 1 && Init(cs[0])
    && forall i: nat :: i < |acts| ==> StepAt(cs, acts, i)
  }

  lemma {:induction false} RunKeepsInv(cs: seq<Chain>, acts: seq<Action>, i: nat)
    requires IsRun(cs, acts) && i < |cs|
    ensures Inv(cs[i])
    decreases i
  {
    if i > 0 {
      RunKeepsInv(cs, acts, i - 1);
      assert StepAt(cs, acts, i - 1);
      StepKeepsSound(cs[i - 1], acts[i - 1]);
      StepKeepsApplied(cs[i - 1], acts[i - 1]);
    }
  }

  /** Steps that end a snapshot in progress. */
  predicate EndsFork(a: Action) {
    a.Abandon? || a.CompactDone? || a.InstallLabel?
  }

  ghost predicate ForkRuns(acts: seq<Action>, i: nat, j: nat)
    requires j <= |acts|
  {
    forall k: nat :: i < k < j ==> !EndsFork(acts[k])
  }

  /** A snapshot is labelled with the applied index and the term of the moment it was taken. */
  lemma {:induction false} ForkKept(cs: seq<Chain>, acts: seq<Action>, i: nat, j: nat)
    requires IsRun(cs, acts) && i < j < |cs| && acts[i].Fork? && ForkRuns(acts, i, j)
    ensures cs[j].fork == Some(Label(cs[i].applied, acts[i].term))
    decreases j
  {
    assert StepAt(cs, acts, j - 1);
    if i + 1 < j {
      ForkKept(cs, acts, i, j - 1);
      assert !EndsFork(acts[j - 1]);
    }
  }

  /** When its compaction is done the ring starts after exactly the entries that were applied when
      the snapshot was taken, and the published label says so. */
  lemma CompactsToForkPoint(cs: seq<Chain>, acts: seq<Action>, i: nat, j: nat)
    requires IsRun(cs, acts) && i < j < |acts| && acts[i].Fork? && ForkRuns(acts, i, j) && acts[j].CompactDone?
    ensures var d := cs[j + 1];
            d.first == d.offset == cs[i].applied && d.snap == Label(cs[i].applied, acts[i].term)
  {
    ForkKept(cs, acts, i, j);
    RunKeepsInv(cs, acts, j);
    assert StepAt(cs, acts, j);
  }

  lemma KeepsTransitive(a: Chain, b: Chain, d: Chain)
    requires a.base <= a.commit <= Last(a) && KeepsCommitted(a, b) && KeepsCommitted(b, d)
    ensures KeepsCommitted(a, d)
  {
    var n, m := a.commit - a.base, b.commit - b.base;
    assert b.all[..m][..n] == b.all[..n];
    assert d.all[..m][..n] == d.all[..n];
  }

  /** A committed entry stays in its place, whatever requests arrive and however compaction
      interleaves with them, for as long as no snapshot is installed. */
  lemma {:induction false} CommittedForGood(cs: seq<Chain>, acts: seq<Action>, i: nat, j: nat)
    requires IsRun(cs, acts) && i <= j < |cs|
    requires forall k: nat :: i <= k < j ==> !acts[k].InstallLabel?
    ensures cs[i].base <= cs[i].commit <= Last(cs[i]) && KeepsCommitted(cs[i], cs[j])
    decreases j - i
  {
    RunKeepsInv(cs, acts, i);
    if i < j {
      CommittedForGood(cs, acts, i, j - 1);
      RunKeepsInv(cs, acts, j - 1);
      assert StepAt(cs, acts, j - 1);
      StepKeepsCommitted(cs[j - 1], acts[j - 1]);
      KeepsTransitive(cs[i], cs[j - 1], cs[j]);
    }
  }

  /** The state machine receives the entries base+1, base+2, ... in order, each once, and each
      is the entry the log holds there; the next one is always found. */
  lemma AppliedInOrder(cs: seq<Chain>, acts: seq<Action>, i: nat)
    requires IsRun(cs, acts) && i < |cs|
    ensures var c := cs[i];
            && c.base <= c.offset <= c.first <= c.applied <= c.commit <= Last(c)
            && |c.done| == c.applied - c.base
            && (forall k :: 0 <= k < |c.done| ==> c.done[k] == Slot(c.base + 1 + k, c.all[k]))
            && (c.applied < c.commit ==>
                  LogSpec.Lookup(c.first, Ring(c), c.applied + 1) == Some(c.all[c.applied - c.base]))
  {
    RunKeepsInv(cs, acts, i);
    if cs[i].applied < cs[i].commit {
      ApplyFinds(cs[i]);
    }
  }

  /** A lookup in the ring gives the same answer as in the full log, at every moment of a
      compaction, exactly for the indexes the compaction has not reached. */
  lemma LookupDuringCompaction(cs: seq<Chain>, acts: seq<Action>, i: nat, n: nat)
    requires IsRun(cs, acts) && i < |cs| && cs[i].base < n <= Last(cs[i])
    ensures var c := cs[i];
            c.base <= c.first <= Last(c)
            && (LogSpec.Lookup(c.first, Ring(c), n) == Some(c.all[n - c.base - 1]) <==> n > c.first)
  {
    RunKeepsInv(cs, acts, i);
  }
}
