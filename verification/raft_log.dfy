/** log.c: a log over the ring, with its index bookkeeping, its memory account, and the
    configuration changes that appending and dropping raft entries cause. */
module RaftLog {
  import opened Types
  import opened LogRing
  import Changes
  import Config
  import LogSpec
  import Members

  /** The slots hold these entries under the indexes first+1, first+2, ... */
  ghost predicate Stores(slots: seq<Slot>, first: nat, es: seq<Entry>) {
    |slots| == |es| && forall i :: 0 <= i < |slots| ==> slots[i] == Slot(first + 1 + i, es[i])
  }

  /** Bytes charged for a stretch of entries. */
  function Total(es: seq<Entry>): nat {
    if es == [] then 0 else Total(es[..|es| - 1]) + Footprint(es[|es| - 1])
  }

  /** Bytes compact_raft_log takes off: it leaves context and key out. */
  function TotalPlain(es: seq<Entry>): nat {
    if es == [] then 0 else TotalPlain(es[..|es| - 1]) + ENTRY_HEADER + es[|es| - 1].dlen
  }

  lemma PlainStep(es: seq<Entry>, k: nat)
    requires k < |es|
    ensures TotalPlain(es[..k + 1]) == TotalPlain(es[..k]) + ENTRY_HEADER + es[k].dlen
    ensures es[k..] != [] && es[k..][0] == es[k] && es[k..][1..] == es[k + 1..]
  {
    assert es[..k + 1][..k] == es[..k];
  }

  lemma {:induction false} TotalSplit(es: seq<Entry>, k: nat)
    requires k <= |es|
    ensures Total(es) == Total(es[..k]) + Total(es[k..])
    decreases |es|
  {
    if k == |es| {
      assert es[..k] == es;
    } else {
      var init := es[..|es| - 1];
      TotalSplit(init, k);
      assert init[..k] == es[..k];
      assert init[k..] == es[k..][..|es| - 1 - k];
    }
  }

  predicate NoKeys(es: seq<Entry>) {
    forall i :: 0 <= i < |es| ==> es[i].clen + es[i].klen == 0
  }

  lemma {:induction false} PlainIsTotal(es: seq<Entry>)
    ensures TotalPlain(es) <= Total(es)
    ensures TotalPlain(es) == Total(es) <==> NoKeys(es)
    decreases |es|
  {
    if es != [] {
      PlainIsTotal(es[..|es| - 1]);
      assert NoKeys(es) <==> NoKeys(es[..|es| - 1]) && es[|es| - 1].clen + es[|es| - 1].klen == 0;
    }
  }

  /** Compacting the first k entries of a raft log leaves its memory account exact if and only
      if none of them carries a context or a key; otherwise the account stays too high. */
  lemma RaftAccountIff(es: seq<Entry>, k: nat)
    requires k <= |es|
    ensures Total(es) - TotalPlain(es[..k]) >= Total(es[k..])
    ensures Total(es) - TotalPlain(es[..k]) == Total(es[k..]) <==> NoKeys(es[..k])
  {
    TotalSplit(es, k);
    PlainIsTotal(es[..k]);
  }

  lemma CompactedStaysExact(es: seq<Entry>, k: nat, memsize: int)
    requires k <= |es|
    ensures NoKeys(es) && memsize == Total(es) ==>
              NoKeys(es[k..]) && memsize - TotalPlain(es[..k]) == Total(es[k..])
  {
    RaftAccountIff(es, k);
  }

  // ---------- the memory account over whole runs ----------

  /** The raft log and its account; `gone` are the entries compacted since the log was last
      emptied. */
  datatype Ledger = Ledger(entries: seq<Entry>, memsize: int, gone: seq<Entry>)

  /** append_log_entry, one entry dropped by remove_raft_conflicting_entries, compact_raft_log
      of the first k entries, free_all_log_entries. */
  datatype LogOp = Add(e: Entry) | Drop | Compact(k: nat) | Empty

  predicate Possible(l: Ledger, op: LogOp) {
    match op
    case Add(_) => true
    case Drop => l.entries != []
    case Compact(k) => k <= |l.entries|
    case Empty => true
  }

  function Post(l: Ledger, op: LogOp): Ledger
    requires Possible(l, op)
  {
    match op
    case Add(e) => l.(entries := l.entries + [e], memsize := l.memsize + Footprint(e))
    case Drop =>
      var n := |l.entries| - 1;
      l.(entries := l.entries[..n], memsize := l.memsize - Footprint(l.entries[n]))
    case Compact(k) =>
      Ledger(l.entries[k..], l.memsize - TotalPlain(l.entries[..k]), l.gone + l.entries[..k])
    case Empty => Ledger([], 0, [])
  }

  ghost predicate LedgerAt(ls: seq<Ledger>, ops: seq<LogOp>, i: nat)
    requires i < |ops| < |ls|
  {
    Possible(ls[i], ops[i]) && ls[i + 1] == Post(ls[i], ops[i])
  }

  ghost predicate IsLedger(ls: seq<Ledger>, ops: seq<LogOp>) {
    && |ls| == |ops| + 1 && ls[0] == Ledger([], 0, [])
    && forall i: nat :: i < |ops| ==> LedgerAt(ls, ops, i)
  }

  /** The account is off by what compaction forgets. */
  ghost predicate OffByKeys(l: Ledger) {
    l.memsize - Total(l.entries) == Total(l.gone) - TotalPlain(l.gone)
  }

  lemma {:induction false} TotalConcat(a: seq<Entry>, b: seq<Entry>)
    ensures Total(a + b) == Total(a) + Total(b) && TotalPlain(a + b) == TotalPlain(a) + TotalPlain(b)
    decreases |b|
  {
    if b == [] {
      assert a + b == a;
    } else {
      assert (a + b)[..|a + b| - 1] == a + b[..|b| - 1];
      TotalConcat(a, b[..|b| - 1]);
    }
  }

  lemma PostKeepsAccount(l: Ledger, op: LogOp)
    requires OffByKeys(l) && Possible(l, op)
    ensures OffByKeys(Post(l, op))
  {
    match op
    case Add(e) => assert (l.entries + [e])[..|l.entries|] == l.entries;
    case Drop =>
    case Compact(k) =>
      TotalSplit(l.entries, k);
      TotalConcat(l.gone, l.entries[..k]);
    case Empty =>
  }

  lemma {:induction false} LedgerKeepsAccount(ls: seq<Ledger>, ops: seq<LogOp>, i: nat)
    requires IsLedger(ls, ops) && i < |ls|
    ensures OffByKeys(ls[i])
  {
    if i > 0 {
      LedgerKeepsAccount(ls, ops, i - 1);
      assert LedgerAt(ls, ops, i - 1);
      PostKeepsAccount(ls[i - 1], ops[i - 1]);
    }
  }

  /** At every moment of every run the raft log is charged exactly for what it holds if and only
      if no entry compacted since it was last emptied had a context or a key; otherwise it is
      charged for more. */
  lemma AccountExactIff(ls: seq<Ledger>, ops: seq<LogOp>, i: nat)
    requires IsLedger(ls, ops) && i < |ls|
    ensures ls[i].memsize >= Total(ls[i].entries)
    ensures ls[i].memsize == Total(ls[i].entries) <==> NoKeys(ls[i].gone)
  {
    LedgerKeepsAccount(ls, ops, i);
    PlainIsTotal(ls[i].gone);
  }

  predicate AddsNoKeys(op: LogOp) {
    op.Add? ==> op.e.clen + op.e.klen == 0
  }

  lemma {:induction false} RaftEntriesStay(ls: seq<Ledger>, ops: seq<LogOp>, i: nat)
    requires IsLedger(ls, ops) && i < |ls| && forall j :: 0 <= j < |ops| ==> AddsNoKeys(ops[j])
    ensures NoKeys(ls[i].entries) && NoKeys(ls[i].gone)
  {
    if i > 0 {
      RaftEntriesStay(ls, ops, i - 1);
      assert LedgerAt(ls, ops, i - 1) && AddsNoKeys(ops[i - 1]);
    }
  }

  /** Raft entries are created and received without context and key, so the account of the raft
      log is exact in every run. */
  lemma RaftAccountExact(ls: seq<Ledger>, ops: seq<LogOp>, i: nat)
    requires IsLedger(ls, ops) && i < |ls| && forall j :: 0 <= j < |ops| ==> AddsNoKeys(ops[j])
    ensures NoKeys(ls[i].entries) && ls[i].memsize == Total(ls[i].entries)
  {
    RaftEntriesStay(ls, ops, i);
    AccountExactIff(ls, ops, i);
  }

  class Log {
    const ring: LogRing
    var indexOffset: nat
    var lastLogIndex: nat
    var memsize: int

    /** The entries of the log, oldest first. */
    ghost var entries: seq<Entry>

    /** The ring holds the entries under the indexes first+1 .. lastLogIndex. */
    ghost predicate Holds(first: nat)
      reads this, ring, ring.data
    {
      ring.Valid() && Stores(ring.contents, first, entries) && lastLogIndex == first + |entries|
    }

    ghost predicate Valid()
      reads this, ring, ring.data
    {
      Holds(indexOffset)
    }

    ghost predicate Accounted()
      reads this
    {
      memsize == Total(entries)
    }

    /** The raft log: no entry has a context or a key, and the account is exact. */
    ghost predicate RaftAccounted()
      reads this
    {
      NoKeys(entries) && Accounted()
    }

    constructor (ring: LogRing)
      requires ring.Valid() && ring.contents == []
      ensures Valid() && this.ring == ring && entries == [] && indexOffset == 0 && Accounted()
    {
      this.ring, indexOffset, lastLogIndex, memsize, entries := ring, 0, 0, 0, [];
    }

    /** append_log_entry: the entry gets the next index; only a full ring refuses it. */
    method Append(e: Entry) returns (ok: bool)
      requires Valid()
      modifies this`lastLogIndex, this`memsize, this`entries, ring, ring.data
      ensures Valid() && ok == (|old(entries)| < ring.size - 1)
      ensures entries == if ok then old(entries) + [e] else old(entries)
      ensures memsize == old(memsize) + if ok then Footprint(e) else 0
      ensures old(RaftAccounted()) && e.clen + e.klen == 0 ==> RaftAccounted()
    {
      ok := ring.Insert(Slot(lastLogIndex + 1, e));
      if ok {
        lastLogIndex := lastLogIndex + 1;
        memsize := memsize + ENTRY_HEADER + e.dlen + e.clen + e.klen;
        entries := entries + [e];
      }
    }

    /** get_raft_log_entry. */
    method Get(i: nat) returns (r: Option<Entry>)
      requires Valid()
      ensures r == LogSpec.Lookup(indexOffset, entries, i)
    {
      var slot := ring.Get(i);
      assert Numbered(ring.contents, indexOffset);
      r := if slot.Some? then Some(slot.value.entry) else None;
    }

    /** One pass of the loop of remove_raft_conflicting_entries: takes the newest entry out, and
        puts it back when it is the one the leader names. */
    method DropLast(p: nat, pt: nat) returns (dropped: Option<Entry>)
      requires Valid() && entries != []
      modifies this`lastLogIndex, this`memsize, this`entries, ring, ring.data
      ensures Valid()
      ensures dropped.None? <==> old(lastLogIndex) == p && old(entries)[|old(entries)| - 1].term == pt
      ensures dropped.None? ==> entries == old(entries) && memsize == old(memsize)
      ensures dropped.Some? ==>
                && entries == old(entries)[..|old(entries)| - 1]
                && dropped.value == old(entries)[|old(entries)| - 1]
      ensures dropped.Some? ==> memsize == old(memsize) - Footprint(dropped.value)
    {
      ghost var was := ring.contents;
      var newest := ring.ExtractR();
      var slot := newest.value;
      if slot.index == p && slot.entry.term == pt {
        var _ := ring.Insert(slot);
        assert ring.contents == was;
        return None;
      }
      var e := slot.entry;
      memsize := memsize - (ENTRY_HEADER + e.dlen + e.clen + e.klen);
      lastLogIndex := lastLogIndex - 1;
      entries := entries[..|entries| - 1];
      return Some(e);
    }

    /** One pass of the compaction loops: index_offset is moved only when the loop is done. */
    method TakeFirst(ghost first: nat) returns (e: Entry)
      requires Holds(first) && entries != []
      modifies this`entries, ring, ring.data
      ensures Holds(first + 1)
      ensures e == old(entries)[0] && entries == old(entries)[1..]
    {
      var slot := ring.Extract();
      e := slot.value.entry;
      entries := entries[1..];
    }

    /** The same, with the whole entry taken off the memory account. */
    method TakeFirstCharged(ghost first: nat)
      requires Holds(first) && entries != []
      modifies this`memsize, this`entries, ring, ring.data
      ensures Holds(first + 1) && entries == old(entries)[1..]
      ensures memsize - Total(entries) == old(memsize) - Total(old(entries))
    {
      TotalSplit(entries, 1);
      assert entries[..1][..0] == [];
      var e := TakeFirst(first);
      memsize := memsize - (ENTRY_HEADER + e.dlen + e.clen + e.klen);
    }

    /** The same, with header and data taken off the memory account. */
    method TakeFirstPlain(ghost first: nat)
      requires Holds(first) && entries != []
      modifies this`memsize, this`entries, ring, ring.data
      ensures Holds(first + 1) && entries == old(entries)[1..]
      ensures memsize == old(memsize) - (ENTRY_HEADER + old(entries)[0].dlen)
    {
      var e := TakeFirst(first);
      memsize := memsize - (ENTRY_HEADER + e.dlen);
    }

    /** compact_server_log. The source exits if it runs out of entries. */
    method CompactServer(last: nat)
      requires Valid() && indexOffset <= last <= lastLogIndex
      modifies this`indexOffset, this`memsize, this`entries, ring, ring.data
      ensures Valid() && indexOffset == last
      ensures entries == old(entries)[last - old(indexOffset)..]
      ensures old(Accounted()) ==> Accounted()
    {
      ghost var es, k := entries, 0;
      var count: nat := last - indexOffset;
      while count > 0
        invariant k + count == last - indexOffset && k <= |es| && indexOffset == old(indexOffset)
        invariant Holds(last - count) && entries == es[k..]
        invariant memsize - Total(entries) == old(memsize) - Total(es)
      {
        TakeFirstCharged(last - count);
        k, count := k + 1, count - 1;
      }
      indexOffset := last;
    }

    /** compact_raft_log: the same, with a smaller amount taken off the memory account. */
    method CompactRaft(last: nat)
      requires Valid() && indexOffset <= last <= lastLogIndex
      modifies this`indexOffset, this`memsize, this`entries, ring, ring.data
      ensures Valid() && indexOffset == last
      ensures entries == old(entries)[last - old(indexOffset)..]
      ensures memsize == old(memsize) - TotalPlain(old(entries)[..last - old(indexOffset)])
      ensures old(RaftAccounted()) ==> RaftAccounted()
    {
      ghost var es, k := entries, 0;
      var count: nat := last - indexOffset;
      while count > 0
        invariant k + count == last - indexOffset && k <= |es| && indexOffset == old(indexOffset)
        invariant Holds(last - count) && entries == es[k..]
        invariant memsize == old(memsize) - TotalPlain(es[..k])
      {
        PlainStep(es, k);
        TakeFirstPlain(last - count);
        k, count := k + 1, count - 1;
      }
      CompactedStaysExact(es, k, old(memsize));
      indexOffset := last;
    }

    /** free_all_log_entries. */
    method FreeAll(lastApplied: nat)
      requires Valid()
      modifies this, ring, ring.data
      ensures Valid() && RaftAccounted()
      ensures entries == [] && indexOffset == lastApplied == lastLogIndex
    {
      var slot := ring.Extract();
      while slot.Some?
        invariant ring.Valid()
        invariant slot == None ==> ring.contents == []
        decreases |ring.contents|, slot.Some?
      {
        slot := ring.Extract();
      }
      memsize, indexOffset, lastLogIndex, entries := 0, lastApplied, lastApplied, [];
    }
  }

  /** Adds a server that is not there yet; one that is keeps its indexes. */
  method AddIfMissing(config: Config.Config, id: ServerId, target: Target)
    requires config.Valid()
    modifies config`servers, config`votingMembers
    ensures config.Valid()
    ensures config.servers == if Members.Has(old(config.servers), id) then old(config.servers)
                              else Members.AddServer(old(config.servers), id, target, 0)
  {
    var i := config.GetServer(id);
    if i == |config.servers| {
      var _ := config.AddServer(id, target, 0);
    }
  }

  /** The configuration part of appending one entry. */
  method ApplyCommand(config: Config.Config, c: Command)
    requires config.Valid()
    modifies config`servers, config`votingMembers
    ensures config.Valid() && config.servers == Changes.Apply(old(config.servers), c)
  {
    match c {
      case AddMember(id, target) =>
        AddIfMissing(config, id, target);
        var _ := config.SetStatus(id, true);
      case DelMember(id, _) =>
        config.RemoveServer(id);
      case _ =>
    }
  }

  /** append_raft_log_entry, once the ring has room; the source exits when it has none. */
  method AppendRaft(log: Log, config: Config.Config, e: Entry) returns (ok: bool)
    requires log.Valid() && config.Valid()
    modifies log`lastLogIndex, log`memsize, log`entries, log.ring, log.ring.data, config`servers, config`votingMembers
    ensures log.Valid() && config.Valid() && ok == (|old(log.entries)| < log.ring.size - 1)
    ensures ok ==> log.entries == old(log.entries) + [e]
    ensures ok ==> config.servers == Changes.Apply(old(config.servers), e.command)
    ensures ok ==> log.memsize == old(log.memsize) + Footprint(e)
    ensures old(log.RaftAccounted()) && e.clen + e.klen == 0 ==> log.RaftAccounted()
    ensures !ok ==> log.entries == old(log.entries) && config.servers == old(config.servers)
  {
    ok := log.Append(e);
    if ok {
      ApplyCommand(config, e.command);
    }
  }

  /** Makes a removed server a voter again; false where the source exits. */
  method PutBack(config: Config.Config, id: ServerId, target: Target) returns (ok: bool)
    requires config.Valid()
    modifies config`servers, config`votingMembers
    ensures config.Valid() && ok == !Members.Has(old(config.servers), id)
    ensures ok ==> config.servers == Members.SetStatus(Members.AddServer(old(config.servers), id, target, 0), id, true)
  {
    Members.AddServerSets(config.servers, id, target, 0);
    ok := config.AddServer(id, target, 0);
    if ok {
      ok := config.SetStatus(id, true);
    }
  }

  /** The configuration part of dropping one entry; false where the source exits. */
  method UndoCommand(config: Config.Config, c: Command) returns (ok: bool)
    requires config.Valid()
    modifies config`servers, config`votingMembers
    ensures config.Valid() && ok == Changes.CanUndo(old(config.servers), c)
    ensures ok ==> config.servers == Changes.Undo(old(config.servers), c)
  {
    ok := true;
    match c {
      case AddMember(id, _) =>
        config.RemoveServer(id);
      case DelMember(id, target) =>
        ok := PutBack(config, id, target);
      case _ =>
    }
  }

  /** What is left of the log is a prefix of what it was, and the configuration has taken back
      exactly the entries dropped from it. */
  ghost predicate RolledBack(es: seq<Entry>, ms: seq<Members.Member>, left: seq<Entry>, now: seq<Members.Member>) {
    left <= es && now == Changes.UndoAll(ms, es[|left|..]) && Changes.CanUndoAll(ms, es[|left|..])
  }

  lemma RollBackOne(es: seq<Entry>, ms: seq<Members.Member>, left: seq<Entry>, now: seq<Members.Member>)
    requires RolledBack(es, ms, left, now) && left != []
    ensures var k := |left| - 1;
            Changes.CanUndoAll(ms, es[k..]) <==> Changes.CanUndo(now, left[k].command)
    ensures Changes.CanUndo(now, left[|left| - 1].command) ==>
              RolledBack(es, ms, left[..|left| - 1], Changes.Undo(now, left[|left| - 1].command))
  {
    UndoStep(ms, es, |left| - 1);
  }

  /** One pass of the loop of remove_raft_conflicting_entries, without the commit index. */
  method DropOne(log: Log, config: Config.Config, p: nat, pt: nat, ghost es: seq<Entry>, ghost ms: seq<Members.Member>)
    returns (stop: bool, ok: bool)
    requires log.Valid() && config.Valid() && log.entries != []
    requires RolledBack(es, ms, log.entries, config.servers)
    modifies log`lastLogIndex, log`memsize, log`entries, log.ring, log.ring.data, config`servers, config`votingMembers
    ensures log.Valid() && config.Valid() && (ok ==> RolledBack(es, ms, log.entries, config.servers))
    ensures stop <==> old(log.lastLogIndex) == p && old(log.entries)[|old(log.entries)| - 1].term == pt
    ensures stop ==> ok && log.entries == old(log.entries) && log.memsize == old(log.memsize)
    ensures !stop ==>
              && log.entries == old(log.entries)[..|old(log.entries)| - 1]
              && log.memsize == old(log.memsize) - Footprint(old(log.entries)[|old(log.entries)| - 1])
              && ok == Changes.CanUndoAll(ms, es[|log.entries|..])
  {
    RollBackOne(es, ms, log.entries, config.servers);
    var dropped := log.DropLast(p, pt);
    stop, ok := dropped.None?, true;
    if !stop {
      ok := UndoCommand(config, dropped.value.command);
    }
  }

  /** The entries dropped so far are taken back and none of them had to stay. */
  ghost predicate Dropping(o: nat, es: seq<Entry>, ms: seq<Members.Member>, p: nat, pt: nat, committed: nat,
                           left: seq<Entry>, now: seq<Members.Member>) {
    RolledBack(es, ms, left, now) && NoneKept(o, es, p, pt, committed, |left|)
  }

  /** One pass of the loop of remove_raft_conflicting_entries. */
  method DropStep(log: Log, config: Config.Config, p: nat, pt: nat, committed: nat,
                  ghost es: seq<Entry>, ghost ms: seq<Members.Member>)
    returns (stop: bool, ok: bool)
    requires log.Valid() && config.Valid() && log.indexOffset <= committed < log.lastLogIndex
    requires Dropping(log.indexOffset, es, ms, p, pt, committed, log.entries, config.servers)
    modifies log`lastLogIndex, log`memsize, log`entries, log.ring, log.ring.data, config`servers, config`votingMembers
    ensures log.Valid() && config.Valid()
    ensures ok ==> Dropping(log.indexOffset, es, ms, p, pt, committed, log.entries, config.servers)
    ensures !ok ==> !Changes.CanUndoAll(ms, es[|LogSpec.Truncate(log.indexOffset, es, p, pt, committed)|..])
    ensures stop ==> ok && log.lastLogIndex == old(log.lastLogIndex)
    ensures stop ==> log.lastLogIndex == p && log.entries != [] && log.entries[|log.entries| - 1].term == pt
    ensures !stop ==> log.lastLogIndex < old(log.lastLogIndex)
    ensures log.memsize - Total(log.entries) == old(log.memsize) - Total(old(log.entries))
  {
    NoneKeptStep(log.indexOffset, es, p, pt, committed, |log.entries|);
    stop, ok := DropOne(log, config, p, pt, es, ms);
    if !ok {
      ExitsOn(log.indexOffset, es, ms, p, pt, committed, |log.entries|);
    }
  }

  /** remove_raft_conflicting_entries: log and configuration are rolled back together, and
      nothing at or below the commit index is touched; false where the source exits. */
  method RemoveConflicting(log: Log, config: Config.Config, p: nat, pt: nat, committed: nat) returns (ok: bool)
    requires log.Valid() && config.Valid() && log.indexOffset <= committed
    modifies log`lastLogIndex, log`memsize, log`entries, log.ring, log.ring.data, config`servers, config`votingMembers
    ensures log.Valid() && config.Valid()
    ensures var kept := LogSpec.Truncate(log.indexOffset, old(log.entries), p, pt, committed);
            && ok == Changes.CanUndoAll(old(config.servers), old(log.entries)[|kept|..])
            && (ok ==> log.entries == kept)
    ensures ok ==> config.servers == Changes.UndoAll(old(config.servers), old(log.entries)[|log.entries|..])
    ensures log.memsize - Total(log.entries) == old(log.memsize) - Total(old(log.entries))
  {
    ghost var es, ms := log.entries, config.servers;
    NothingRolledBack(es, ms);
    while log.lastLogIndex > committed
      invariant log.Valid() && config.Valid()
      invariant Dropping(log.indexOffset, es, ms, p, pt, committed, log.entries, config.servers)
      invariant log.memsize - Total(log.entries) == old(log.memsize) - Total(es)
      decreases log.lastLogIndex
    {
      var stop;
      stop, ok := DropStep(log, config, p, pt, committed, es, ms);
      if stop {
        break;
      }
      if !ok {
        return;
      }
    }
    TruncatesTo(log.indexOffset, es, p, pt, committed, |log.entries|);
    ok := true;
  }

  /** The loop gets at least as far as the entry it cannot take back. */
  lemma ExitsOn(o: nat, es: seq<Entry>, ms: seq<Members.Member>, p: nat, pt: nat, committed: nat, k: nat)
    requires o <= committed && k <= |es| && NoneKept(o, es, p, pt, committed, k)
    requires !Changes.CanUndoAll(ms, es[k..])
    ensures !Changes.CanUndoAll(ms, es[|LogSpec.Truncate(o, es, p, pt, committed)|..])
  {
    var kept := |LogSpec.Truncate(o, es, p, pt, committed)|;
    TruncatesBelow(o, es, p, pt, committed, k);
    if Changes.CanUndoAll(ms, es[kept..]) {
      CanUndoLess(ms, es, kept, k);
    }
  }

  lemma {:induction false} TruncatesBelow(o: nat, es: seq<Entry>, p: nat, pt: nat, committed: nat, k: nat)
    requires o <= committed && k <= |es| && NoneKept(o, es, p, pt, committed, k)
    ensures |LogSpec.Truncate(o, es, p, pt, committed)| <= k
    decreases |es|
  {
    if k < |es| {
      var n := |es| - 1;
      assert !(o + n + 1 == p && es[n].term == pt);
      TruncatesBelow(o, es[..n], p, pt, committed, k);
    }
  }

  lemma {:induction false} CanUndoLess(ms: seq<Members.Member>, es: seq<Entry>, j: nat, k: nat)
    requires j <= k <= |es| && Changes.CanUndoAll(ms, es[j..])
    ensures Changes.CanUndoAll(ms, es[k..])
    decreases k - j
  {
    if j < k {
      UndoStep(ms, es, j);
      CanUndoLess(ms, es, j + 1, k);
    }
  }

  lemma NothingRolledBack(es: seq<Entry>, ms: seq<Members.Member>)
    ensures RolledBack(es, ms, es, ms)
  {
    assert es[|es|..] == [];
  }

  /** Every entry above the k-th is above the commit index and is not the one the leader names. */
  ghost predicate NoneKept(o: nat, es: seq<Entry>, p: nat, pt: nat, committed: nat, k: nat) {
    && (k < |es| ==> o + k >= committed)
    && forall j :: k <= j < |es| ==> !(o + j + 1 == p && es[j].term == pt)
  }

  lemma NoneKeptStep(o: nat, es: seq<Entry>, p: nat, pt: nat, committed: nat, k: nat)
    requires NoneKept(o, es, p, pt, committed, k) && 0 < k <= |es| && o + k > committed
    ensures !(o + k == p && es[k - 1].term == pt) ==> NoneKept(o, es, p, pt, committed, k - 1)
  {
  }

  lemma {:induction false} TruncatesTo(o: nat, es: seq<Entry>, p: nat, pt: nat, committed: nat, k: nat)
    requires o <= committed && k <= |es| && NoneKept(o, es, p, pt, committed, k)
    requires o + k <= committed || (o + k == p && k > 0 && es[k - 1].term == pt)
    ensures LogSpec.Truncate(o, es, p, pt, committed) == es[..k]
    decreases |es|
  {
    if k < |es| {
      var n := |es| - 1;
      var init, e := es[..n], es[n];
      assert o + n + 1 > committed && !(o + n + 1 == p && e.term == pt);
      assert k > 0 ==> init[k - 1] == es[k - 1];
      TruncatesTo(o, init, p, pt, committed, k);
      assert init[..k] == es[..k];
    } else {
      assert es[..k] == es;
    }
  }

  /** Undoing a longer suffix is undoing the shorter one and then its first entry. */
  lemma {:induction false} UndoStep(ms: seq<Members.Member>, es: seq<Entry>, k: nat)
    requires k < |es|
    ensures var after := Changes.UndoAll(ms, es[k + 1..]);
            && Changes.UndoAll(ms, es[k..]) == Changes.Undo(after, es[k].command)
            && (Changes.CanUndoAll(ms, es[k..])
                <==> Changes.CanUndoAll(ms, es[k + 1..]) && Changes.CanUndo(after, es[k].command))
    decreases |es| - k
  {
    if k + 1 < |es| {
      var init := es[..|es| - 1];
      assert es[k..][..|es| - 1 - k] == init[k..] && es[k + 1..][..|es| - 2 - k] == init[k + 1..];
      UndoStep(Changes.Undo(ms, es[|es| - 1].command), init, k);
    } else {
      assert es[k..] == [es[k]] && es[k..][..0] == [] && es[k + 1..] == [];
    }
  }

  /** First half of check_raft_log_consistency; false where the source exits. */
  method DropConflicting(log: Log, config: Config.Config, p: nat, pt: nat, committed: nat) returns (ok: bool)
    requires log.Valid() && config.Valid() && log.indexOffset <= committed
    modifies log`lastLogIndex, log`memsize, log`entries, log.ring, log.ring.data, config`servers, config`votingMembers
    ensures log.Valid() && config.Valid()
    ensures var kept := LogSpec.Kept(log.indexOffset, old(log.entries), p, pt, committed);
            && ok == Changes.CanUndoAll(old(config.servers), old(log.entries)[|kept|..])
            && (ok ==> log.entries == kept)
    ensures ok ==> config.servers == Changes.UndoAll(old(config.servers), old(log.entries)[|log.entries|..])
    ensures log.memsize - Total(log.entries) == old(log.memsize) - Total(old(log.entries))
  {
    NothingRolledBack(log.entries, config.servers);
    ok := true;
    var last := log.Get(log.lastLogIndex);
    if last.Some? && (log.lastLogIndex != p || last.value.term != pt) {
      ok := RemoveConflicting(log, config, p, pt, committed);
    }
  }

  /** Second half: the entry before the leader's, or the snapshot (si, st), is the one it names. */
  method TestPrevious(log: Log, p: nat, pt: nat, si: nat, st: nat) returns (success: bool)
    requires log.Valid()
    ensures success == LogSpec.PrevMatches(log.indexOffset, log.entries, p, pt, si, st)
  {
    var prev := log.Get(p);
    success := if prev.Some? then prev.value.term == pt else st == pt && si == p;
  }

  /** check_raft_log_consistency, against the snapshot (si, st); false where the source exits. */
  method CheckConsistency(log: Log, config: Config.Config, p: nat, pt: nat, committed: nat, si: nat, st: nat)
    returns (success: bool, ok: bool)
    requires log.Valid() && config.Valid() && log.indexOffset <= committed
    modifies log`lastLogIndex, log`memsize, log`entries, log.ring, log.ring.data, config`servers, config`votingMembers
    ensures log.Valid() && config.Valid()
    ensures var kept := LogSpec.Kept(log.indexOffset, old(log.entries), p, pt, committed);
            && ok == Changes.CanUndoAll(old(config.servers), old(log.entries)[|kept|..])
            && (ok ==> log.entries == kept)
    ensures ok ==> config.servers == Changes.UndoAll(old(config.servers), old(log.entries)[|log.entries|..])
    ensures ok ==> success == LogSpec.Accepts(log.indexOffset, old(log.entries), p, pt, committed, si, st)
    ensures log.memsize - Total(log.entries) == old(log.memsize) - Total(old(log.entries))
    ensures ok && old(log.RaftAccounted()) ==> log.RaftAccounted()
  {
    success := false;
    ok := DropConflicting(log, config, p, pt, committed);
    if ok {
      success := TestPrevious(log, p, pt, si, st);
    }
  }
}
