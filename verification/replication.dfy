/** The xApp state replication: a primary appends and applies commands, snapshots and compacts
    its log, and ships entries or snapshots to a backup over a network that loses, repeats and
    reorders messages. One backup is modelled; nothing one backup sends touches what the
    primary keeps for another.

    A replica's state is the sequence of commands that built it: two replicas with the same
    sequence agree under every deterministic apply callback. */
module Replication {
  import opened Types
  import opened Bits
  import Codec

  type Cmd = Entry

  /** A snapshot: the state after the first `index` log entries. */
  datatype Snap = Snap(index: nat, trace: seq<Cmd>)

  /** `waiting` holds the commands appended by rft_replicate and not applied locally yet;
      `first` is the index before the oldest entry still in the log; `fork` is the snapshot a
      child process is writing; `up` is false once the process has exited. */
  datatype Primary = Primary(
    up: bool,
    hist: seq<Cmd>,
    waiting: seq<Cmd>,
    local: seq<Cmd>,
    first: nat,
    snap: Option<Snap>,
    fork: Option<Snap>,
    compacting: bool,
    master: nat)

  /** `stale` is history: what the backup had applied when it last lost its replica_index. */
  datatype Backup = Backup(index: nat, trace: seq<Cmd>, stale: seq<Cmd>)

  datatype Message =
    | Entries(from: nat, cmds: seq<Cmd>)
    | Image(snap: Snap)
    | Ack(index: nat)

  datatype World = World(p: Primary, b: Backup, net: set<Message>)

  datatype Action =
    | Append(c: Cmd, full: bool)    // append_server_log_entry; full: the log passed a threshold
    | ApplyLocal(i: nat)            // one of the concurrent rft_replicate calls applies its command
    | Abandon                       // the snapshot could not be read from the child
    | Publish                       // parent_xapp_thread stores the snapshot
    | CompactOne                    // compact_server_log drops one entry
    | CompactDone
    | SendEntries(k: nat)           // state_replication: k entries fit in the message
    | SendImage
    | Receive(m: Message)           // any message ever sent, any number of times
    | Refuse(m: Message)            // the backup has no callback, or is installing a snapshot
    | Unknown(m: Message)           // the backup does not know the sender
    | Exit                          // state_replication asks for entries beyond the log
    | Rejoin(last: nat)             // a membership request from a backup already configured
    | Restart                       // the backup process restarts
    | Forget                        // the backup drops and re-adds the primary's server_t

  /** n_entries of state_replication: the difference of two 64-bit indexes, cut to 32 bits. */
  function Missing(last: nat, master: nat): (n: nat)
    ensures n < WORD
  {
    (last - master) % WORD
  }

  /** The range test of serialize_log_entries fails, and it exits. */
  predicate Overrun(p: Primary) {
    var n := Missing(|p.hist|, p.master);
    n != 0 && p.master + n > |p.hist|
  }

  predicate Enabled(w: World, a: Action) {
    match a
    case Append(_, _) => w.p.up
    case ApplyLocal(i) => w.p.up && i < |w.p.waiting|
    case Abandon => w.p.up && w.p.fork.Some? && !w.p.compacting
    case Publish => w.p.up && w.p.fork.Some? && !w.p.compacting
    case CompactOne => w.p.up && w.p.compacting && w.p.snap.Some? && w.p.first < w.p.snap.value.index
    case CompactDone => w.p.up && w.p.compacting && w.p.snap.Some? && w.p.first == w.p.snap.value.index
    case SendEntries(k) => w.p.up && w.p.first <= w.p.master && w.p.master + k <= |w.p.hist| && k > 0
    case SendImage => w.p.up && w.p.snap.Some? && !w.p.compacting
    case Receive(m) => m in w.net && (m.Ack? ==> w.p.up)
    case Refuse(m) => m in w.net && !m.Ack?
    case Unknown(m) => m in w.net && !m.Ack?
    case Exit => w.p.up && Overrun(w.p)
    case Rejoin(_) => w.p.up
    case Restart => true
    case Forget => true
  }

  function OnAppend(p: Primary, c: Cmd, full: bool): Primary {
    var fork := if full && p.fork.None? then Some(Snap(|p.hist|, p.local)) else p.fork;
    p.(fork := fork, hist := p.hist + [c], waiting := p.waiting + [c])
  }

  /** handle_replication_request and handle_xapp_snapshot_request. */
  function OnReceive(b: Backup, m: Message): Backup {
    match m
    case Entries(from, cmds) =>
      if from == b.index then b.(index := b.index + |cmds|, trace := b.trace + cmds) else b
    case Image(snap) => Backup(snap.index, snap.trace, [])
    case Ack(_) => b
  }

  function Next(w: World, a: Action): World
    requires Enabled(w, a)
  {
    match a
    case Append(c, full) => w.(p := OnAppend(w.p, c, full))
    case ApplyLocal(i) =>
      w.(p := w.p.(local := w.p.local + [w.p.waiting[i]], waiting := w.p.waiting[..i] + w.p.waiting[i + 1..]))
    case Abandon => w.(p := w.p.(fork := None))
    case Publish => w.(p := w.p.(snap := w.p.fork, compacting := true))
    case CompactOne => w.(p := w.p.(first := w.p.first + 1))
    case CompactDone => w.(p := w.p.(compacting := false, fork := None))
    case SendEntries(k) =>
      w.(net := w.net + {Entries(w.p.master, w.p.hist[w.p.master..w.p.master + k])})
    case SendImage => w.(net := w.net + {Image(w.p.snap.value)})
    case Receive(m) =>
      if m.Ack? then w.(p := w.p.(master := m.index))
      else var b := OnReceive(w.b, m); w.(b := b, net := w.net + {Ack(b.index)})
    case Refuse(_) => w.(net := w.net + {Ack(w.b.index)})
    case Unknown(_) => w.(net := w.net + {Ack(0)})
    case Exit => w.(p := w.p.(up := false))
    case Rejoin(last) => w.(p := w.p.(master := last))
    case Restart => w.(b := Backup(0, [], []))
    case Forget => w.(b := Backup(0, w.b.trace, w.b.trace))
  }

  predicate Init(w: World) {
    w.p == Primary(true, [], [], [], 0, None, None, false, 0) && w.b == Backup(0, [], []) && w.net == {}
  }

  /** The backup's side as it runs: replica_index and the state change command by command. */
  class Replica {
    var index: nat
    var trace: seq<Cmd>

    constructor ()
      ensures index == 0 && trace == []
    {
      index, trace := 0, [];
    }

    /** handle_replication_request, when the sender is `known` and an apply `callback` is
        registered, or not; replies with success and the replica_index kept for the sender. */
    method HandleEntries(known: bool, callback: bool, from: nat, cmds: seq<Cmd>) returns (ok: bool, reply: Message)
      modifies this
      ensures ok == (known && callback && from == old(index)) && reply == Ack(if known then index else 0)
      ensures ok ==> index == old(index) + |cmds| && trace == old(trace) + cmds
      ensures !ok ==> index == old(index) && trace == old(trace)
      ensures known && callback ==>
                Backup(index, trace, []) == OnReceive(Backup(old(index), old(trace), []), Entries(from, cmds))
    {
      ok := known && callback && from == index;
      if ok {
        assert cmds[..0] == [];
        for i := 0 to |cmds|
          invariant index == old(index) + i && trace == old(trace) + cmds[..i]
        {
          trace := trace + [cmds[i]];
          index := index + 1;
        }
        assert cmds[..|cmds|] == cmds;
      }
      reply := Ack(if known then index else 0);
    }

    /** handle_xapp_snapshot_request, which also refuses while another install is running. */
    method HandleImage(known: bool, callback: bool, installing: bool, snap: Snap) returns (ok: bool, reply: Message)
      modifies this
      ensures ok == (known && callback && !installing) && reply == Ack(if known then index else 0)
      ensures ok ==> index == snap.index && trace == snap.trace
      ensures !ok ==> index == old(index) && trace == old(trace)
      ensures ok ==> Backup(index, trace, []) == OnReceive(Backup(old(index), old(trace), []), Image(snap))
    {
      ok := known && callback && !installing;
      if ok {
        index, trace := snap.index, snap.trace;
      }
      reply := Ack(if known then index else 0);
    }
  }

  // ---------- what every run keeps ----------

  ghost predicate IsPrefix(hist: seq<Cmd>, s: Snap) {
    s.index <= |hist| && s.trace == hist[..s.index]
  }

  ghost predicate IsSlice(hist: seq<Cmd>, from: nat, cmds: seq<Cmd>) {
    from + |cmds| <= |hist| && cmds == hist[from..from + |cmds|]
  }

  ghost predicate PrimaryInv(p: Primary) {
    && p.local <= p.hist && |p.local| + |p.waiting| == |p.hist|
    && (p.snap.Some? ==> IsPrefix(p.hist, p.snap.value) && p.first <= p.snap.value.index)
    && (p.fork.Some? ==> IsPrefix(p.hist, p.fork.value) && p.first <= p.fork.value.index)
    && (p.snap.None? ==> p.first == 0)
    && (p.snap.Some? && !p.compacting ==> p.first == p.snap.value.index)
    && (p.compacting ==> p.fork.Some? && p.snap == p.fork)
  }

  ghost predicate NetInv(hist: seq<Cmd>, net: set<Message>) {
    forall m <- net ::
      match m
      case Entries(from, cmds) => IsSlice(hist, from, cmds)
      case Image(snap) => IsPrefix(hist, snap)
      case Ack(index) => index <= |hist|
  }

  ghost predicate BackupInv(hist: seq<Cmd>, b: Backup) {
    b.index <= |hist| && b.trace == b.stale + hist[..b.index]
  }

  ghost predicate Inv(w: World) {
    PrimaryInv(w.p) && NetInv(w.p.hist, w.net) && BackupInv(w.p.hist, w.b)
  }

  /** The call that applies its command now is one whose command is due: the next in the log. */
  predicate InTurn(w: World, i: nat) {
    i < |w.p.waiting| && |w.p.local| < |w.p.hist| && w.p.waiting[i] == w.p.hist[|w.p.local|]
  }

  /** rft_replicate may be called by several threads, but they apply in the order in which they
      appended, and none is between the two when a snapshot is forked. One caller at a time is
      always orderly. */
  predicate Orderly(w: World, a: Action) {
    match a
    case Append(_, full) => full && w.p.fork.None? ==> w.p.waiting == []
    case ApplyLocal(i) => InTurn(w, i)
    case _ => true
  }

  lemma PrefixGrows(hist: seq<Cmd>, c: Cmd, n: nat)
    requires n <= |hist|
    ensures (hist + [c])[..n] == hist[..n]
  {
  }

  lemma AppendKeeps(w: World, c: Cmd, full: bool)
    requires Inv(w) && w.p.up && Orderly(w, Append(c, full))
    ensures Inv(Next(w, Append(c, full)))
  {
    var h := w.p.hist;
    var t := Next(w, Append(c, full));
    assert w.p.waiting == [] ==> w.p.local == h;
    forall n: nat | n <= |h|
      ensures (h + [c])[..n] == h[..n]
    {
      PrefixGrows(h, c, n);
    }
    forall m | m in t.net
      ensures match m
              case Entries(from, cmds) => IsSlice(h + [c], from, cmds)
              case Image(snap) => IsPrefix(h + [c], snap)
              case Ack(index) => index <= |h + [c]|
    {
    }
  }

  lemma ReceiveKeeps(w: World, m: Message)
    requires Inv(w) && Enabled(w, Receive(m))
    ensures Inv(Next(w, Receive(m)))
  {
    match m
    case Entries(from, cmds) =>
      if from == w.b.index {
        var h := w.p.hist;
        assert h[..from] + h[from..from + |cmds|] == h[..from + |cmds|];
        assert w.b.trace + cmds == w.b.stale + (h[..from] + cmds);
      }
    case Image(snap) =>
      assert [] + w.p.hist[..snap.index] == snap.trace;
    case Ack(_) =>
  }

  lemma ApplyKeeps(w: World, i: nat)
    requires Inv(w) && w.p.up && InTurn(w, i)
    ensures Inv(Next(w, ApplyLocal(i)))
  {
  }

  lemma StepKeeps(w: World, a: Action)
    requires Inv(w) && Enabled(w, a) && Orderly(w, a)
    ensures Inv(Next(w, a))
  {
    match a
    case Append(c, full) => AppendKeeps(w, c, full);
    case ApplyLocal(i) => ApplyKeeps(w, i);
    case Receive(m) => ReceiveKeeps(w, m);
    case Restart => assert [] + w.p.hist[..0] == [];
    case Forget => assert w.b.trace + w.p.hist[..0] == w.b.trace;
    case _ =>
  }

  ghost predicate AnyStepAt(ws: seq<World>, acts: seq<Action>, i: nat)
    requires i < |acts| && |ws| == |acts| + 1
  {
    Enabled(ws[i], acts[i]) && ws[i + 1] == Next(ws[i], acts[i])
  }

  ghost predicate StepAt(ws: seq<World>, acts: seq<Action>, i: nat)
    requires i < |acts| && |ws| == |acts| + 1
  {
    AnyStepAt(ws, acts, i) && Orderly(ws[i], acts[i])
  }

  ghost predicate IsRun(ws: seq<World>, acts: seq<Action>) {
    && |ws| == |acts| + 1 && Init(ws[0])
    && forall i: nat :: i < |acts| ==> StepAt(ws, acts, i)
  }

  lemma {:induction false} RunKeepsInv(ws: seq<World>, acts: seq<Action>, i: nat)
    requires IsRun(ws, acts) && i < |ws|
    ensures Inv(ws[i])
    decreases i
  {
    if i > 0 {
      RunKeepsInv(ws, acts, i - 1);
      assert StepAt(ws, acts, i - 1);
      StepKeeps(ws[i - 1], acts[i - 1]);
    }
  }

  /** The backup starts over from a snapshot or from nothing. */
  predicate StartsOver(a: Action) {
    a.Restart? || (a.Receive? && a.m.Image?)
  }

  /** Step k made the backup forget its replica_index, but not the state it had built, and it has
      not started over since. */
  ghost predicate LostAt(ws: seq<World>, acts: seq<Action>, k: nat, i: nat)
    requires i <= |acts| < |ws|
  {
    && k < i && acts[k] == Forget && ws[k].b.trace != []
    && forall l: nat :: k < l < i ==> !StartsOver(acts[l])
  }

  ghost predicate Lost(ws: seq<World>, acts: seq<Action>, i: nat)
    requires i <= |acts| < |ws|
  {
    exists k: nat :: LostAt(ws, acts, k, i)
  }

  lemma LostStep(ws: seq<World>, acts: seq<Action>, i: nat)
    requires i < |acts| < |ws|
    ensures Lost(ws, acts, i + 1)
       <==> (acts[i] == Forget && ws[i].b.trace != []) || (Lost(ws, acts, i) && !StartsOver(acts[i]))
  {
    if acts[i] == Forget && ws[i].b.trace != [] {
      assert LostAt(ws, acts, i, i + 1);
    }
    if Lost(ws, acts, i) && !StartsOver(acts[i]) {
      var k: nat :| LostAt(ws, acts, k, i);
      assert LostAt(ws, acts, k, i + 1);
    }
    if Lost(ws, acts, i + 1) {
      var k: nat :| LostAt(ws, acts, k, i + 1);
      assert k < i ==> LostAt(ws, acts, k, i) && !StartsOver(acts[i]);
    }
  }

  lemma {:induction false} StaleIff(ws: seq<World>, acts: seq<Action>, i: nat)
    requires IsRun(ws, acts) && i < |ws|
    ensures ws[i].b.stale != [] <==> Lost(ws, acts, i)
    decreases i
  {
    if i > 0 {
      StaleIff(ws, acts, i - 1);
      RunKeepsInv(ws, acts, i - 1);
      assert StepAt(ws, acts, i - 1);
      LostStep(ws, acts, i - 1);
    }
  }

  /** A backup that has applied replica_index commands holds exactly the state the primary had
      after that many, if and only if it has not lost its replica_index, with commands applied,
      since its last snapshot or restart; otherwise it has applied a second time what it had
      before. */
  lemma BackupAgreesIff(ws: seq<World>, acts: seq<Action>, i: nat)
    requires IsRun(ws, acts) && i < |ws|
    ensures var w := ws[i];
            && w.b.index <= |w.p.hist|
            && (w.b.trace == w.p.hist[..w.b.index] <==> !Lost(ws, acts, i))
  {
    RunKeepsInv(ws, acts, i);
    StaleIff(ws, acts, i);
    var w := ws[i];
    if w.b.stale == [] {
      assert [] + w.p.hist[..w.b.index] == w.p.hist[..w.b.index];
    } else {
      assert |w.b.trace| == |w.b.stale| + w.b.index;
    }
  }

  /** Without that loss every backup state is a state the primary went through, whatever the
      network drops, repeats or reorders. */
  lemma BackupIsPrefix(ws: seq<World>, acts: seq<Action>, i: nat)
    requires IsRun(ws, acts) && i < |ws| && Forget !in acts
    ensures ws[i].b.index <= |ws[i].p.hist| && ws[i].b.trace == ws[i].p.hist[..ws[i].b.index]
  {
    BackupAgreesIff(ws, acts, i);
  }

  /** A membership request of the backup names an index the log has. */
  predicate RejoinsInRange(w: World, a: Action) {
    a.Rejoin? ==> a.last <= |w.p.hist|
  }

  ghost predicate AllRejoinsInRange(ws: seq<World>, acts: seq<Action>)
    requires |acts| < |ws|
  {
    forall k: nat :: k < |acts| ==> RejoinsInRange(ws[k], acts[k])
  }

  ghost predicate MasterAlwaysInRange(ws: seq<World>) {
    forall i: nat :: i < |ws| ==> ws[i].p.master <= |ws[i].p.hist|
  }

  lemma MasterStep(ws: seq<World>, acts: seq<Action>, i: nat)
    requires IsRun(ws, acts) && i < |acts| && ws[i].p.master <= |ws[i].p.hist|
    ensures ws[i + 1].p.master <= |ws[i + 1].p.hist| <==> RejoinsInRange(ws[i], acts[i])
  {
    RunKeepsInv(ws, acts, i);
    assert StepAt(ws, acts, i);
  }

  lemma {:induction false} MasterInRange(ws: seq<World>, acts: seq<Action>, i: nat)
    requires IsRun(ws, acts) && i < |ws| && AllRejoinsInRange(ws, acts)
    ensures ws[i].p.master <= |ws[i].p.hist|
    decreases i
  {
    if i > 0 {
      MasterInRange(ws, acts, i - 1);
      assert RejoinsInRange(ws[i - 1], acts[i - 1]);
      MasterStep(ws, acts, i - 1);
    }
  }

  /** The index the primary keeps for a backup stays within its log throughout a run if and only
      if every membership request of the backup does. */
  lemma MasterInRangeIff(ws: seq<World>, acts: seq<Action>)
    requires IsRun(ws, acts)
    ensures MasterAlwaysInRange(ws) <==> AllRejoinsInRange(ws, acts)
  {
    if MasterAlwaysInRange(ws) {
      forall k: nat | k < |acts| ensures RejoinsInRange(ws[k], acts[k]) {
        assert ws[k].p.master <= |ws[k].p.hist| && ws[k + 1].p.master <= |ws[k + 1].p.hist|;
        MasterStep(ws, acts, k);
      }
    }
    if AllRejoinsInRange(ws, acts) {
      forall i: nat | i < |ws| ensures ws[i].p.master <= |ws[i].p.hist| {
        MasterInRange(ws, acts, i);
      }
    }
  }

  /** While they do, the primary keeps running. */
  lemma {:induction false} StaysUp(ws: seq<World>, acts: seq<Action>, i: nat)
    requires IsRun(ws, acts) && i < |ws| && AllRejoinsInRange(ws, acts)
    ensures ws[i].p.up && !Enabled(ws[i], Exit)
    decreases i
  {
    MasterInRange(ws, acts, i);
    OverrunIff(ws[i].p);
    if i > 0 {
      StaysUp(ws, acts, i - 1);
      assert StepAt(ws, acts, i - 1);
    }
  }

  /** The 32-bit count of entries to send fails the serializer's 64-bit range test exactly when
      master_index is beyond the log by something else than a multiple of 2^32. */
  lemma OverrunIff(p: Primary)
    ensures Overrun(p) <==> p.master > |p.hist| && (p.master - |p.hist|) % WORD != 0
  {
    var last, master := |p.hist|, p.master;
    if master <= last {
      DivMod(last - master, WORD);
    } else {
      NegMod(master - last);
    }
  }

  lemma NegMod(d: int)
    ensures (-d) % WORD == 0 <==> d % WORD == 0
  {
  }

  /** One membership request beyond the log is enough to end the primary: unless the excess is a
      multiple of 2^32, the next pass of state_replication exits. */
  lemma RejoinBeyondExits(w: World, last: nat)
    requires w.p.up && last > |w.p.hist|
    ensures Enabled(Next(w, Rejoin(last)), Exit) <==> (last - |w.p.hist|) % WORD != 0
  {
    OverrunIff(Next(w, Rejoin(last)).p);
  }

  /** Nothing a sender may still need is gone: an entry missing from the log is covered by the
      published snapshot, and outside compaction the two meet exactly. */
  lemma LogAndSnapshotMeet(ws: seq<World>, acts: seq<Action>, i: nat, n: nat)
    requires IsRun(ws, acts) && i < |ws| && n < ws[i].p.first
    ensures ws[i].p.snap.Some? && n < ws[i].p.snap.value.index <= |ws[i].p.hist|
    ensures ws[i].p.snap.value.trace == ws[i].p.hist[..ws[i].p.snap.value.index]
    ensures !ws[i].p.compacting ==> ws[i].p.snap.value.index == ws[i].p.first
  {
    RunKeepsInv(ws, acts, i);
  }

  // ---------- snapshots and concurrent callers ----------

  /** A run with any number of calls of rft_replicate in progress, in any order. */
  ghost predicate IsAnyRun(ws: seq<World>, acts: seq<Action>) {
    && |ws| == |acts| + 1 && Init(ws[0])
    && forall i: nat :: i < |acts| ==> AnyStepAt(ws, acts, i)
  }

  /** Whatever the calls in progress: every appended command is either applied or waiting. */
  lemma {:induction false} NothingUncounted(ws: seq<World>, acts: seq<Action>, i: nat)
    requires IsAnyRun(ws, acts) && i < |ws|
    ensures |ws[i].p.local| + |ws[i].p.waiting| == |ws[i].p.hist|
    decreases i
  {
    if i > 0 {
      NothingUncounted(ws, acts, i - 1);
      assert AnyStepAt(ws, acts, i - 1);
    }
  }

  predicate AppliesInTurn(w: World, a: Action) {
    a.ApplyLocal? ==> InTurn(w, a.i)
  }

  ghost predicate AllInTurn(ws: seq<World>, acts: seq<Action>, i: nat)
    requires i <= |acts| < |ws|
  {
    forall k: nat :: k < i ==> AppliesInTurn(ws[k], acts[k])
  }

  lemma AppliedStep(w: World, a: Action)
    requires Enabled(w, a) && |w.p.local| + |w.p.waiting| == |w.p.hist|
    ensures var t := Next(w, a); t.p.local <= t.p.hist <==> w.p.local <= w.p.hist && AppliesInTurn(w, a)
  {
    if a.Append? {
      assert w.p.local <= w.p.hist + [a.c] ==> w.p.local <= w.p.hist;
    } else if a.ApplyLocal? {
      var x := w.p.waiting[a.i];
      assert w.p.local + [x] <= w.p.hist <==> w.p.local <= w.p.hist && x == w.p.hist[|w.p.local|];
    }
  }

  /** The primary's state is a prefix of its log exactly as long as every call applied its
      command when it was due. */
  lemma {:induction false} AppliedInOrderIff(ws: seq<World>, acts: seq<Action>, i: nat)
    requires IsAnyRun(ws, acts) && i < |ws|
    ensures ws[i].p.local <= ws[i].p.hist <==> AllInTurn(ws, acts, i)
    decreases i
  {
    if i > 0 {
      AppliedInOrderIff(ws, acts, i - 1);
      NothingUncounted(ws, acts, i - 1);
      assert AnyStepAt(ws, acts, i - 1);
      AppliedStep(ws[i - 1], acts[i - 1]);
    }
  }

  /** A snapshot forked at moment i of any run holds the state after exactly the commands its
      index says if and only if every call so far applied its command when it was due and no
      call is between appending and applying. */
  lemma ForkExactIff(ws: seq<World>, acts: seq<Action>, i: nat)
    requires IsAnyRun(ws, acts) && i < |acts|
    requires acts[i].Append? && acts[i].full && ws[i].p.fork.None?
    ensures var t := ws[i + 1].p;
            t.fork.Some?
            && (IsPrefix(t.hist, t.fork.value) <==> ws[i].p.waiting == [] && AllInTurn(ws, acts, i))
  {
    var p, t := ws[i].p, ws[i + 1].p;
    assert AnyStepAt(ws, acts, i);
    AppliedInOrderIff(ws, acts, i);
    NothingUncounted(ws, acts, i);
    PrefixGrows(p.hist, acts[i].c, |p.hist|);
    assert t.fork == Some(Snap(|p.hist|, p.local));
    assert p.local == p.hist <==> p.local <= p.hist && |p.local| == |p.hist|;
  }

  /** In every run a snapshot is started by an append that finds the log past a threshold and no
      snapshot in progress, and by nothing else; one in progress stays as it is until it is
      abandoned or its compaction is done. */
  lemma ForkStartsIff(ws: seq<World>, acts: seq<Action>, i: nat)
    requires IsAnyRun(ws, acts) && i < |acts|
    ensures ws[i].p.fork.None? ==> (ws[i + 1].p.fork.Some? <==> acts[i].Append? && acts[i].full)
    ensures ws[i].p.fork.Some? ==>
              ws[i + 1].p.fork == if acts[i].Abandon? || acts[i].CompactDone? then None else ws[i].p.fork
  {
    assert AnyStepAt(ws, acts, i);
  }

  /** Two calls that overtake each other and have both finished still leave a snapshot that is
      not a state of the log. */
  lemma OvertakingSpoilsFork(c1: Cmd, c2: Cmd, c3: Cmd) returns (ws: seq<World>, acts: seq<Action>)
    requires c1 != c2
    ensures IsAnyRun(ws, acts) && |acts| == 5 && ws[4].p.waiting == []
    ensures ws[5].p.fork.Some? && !IsPrefix(ws[5].p.hist, ws[5].p.fork.value)
  {
    acts := [Append(c1, false), Append(c2, false), ApplyLocal(1), ApplyLocal(0), Append(c3, true)];
    var w0 := World(Primary(true, [], [], [], 0, None, None, false, 0), Backup(0, [], []), {});
    var w1 := Next(w0, acts[0]);
    var w2 := Next(w1, acts[1]);
    var w3 := Next(w2, acts[2]);
    var w4 := Next(w3, acts[3]);
    ws := [w0, w1, w2, w3, w4, Next(w4, acts[4])];
    assert w2.p.waiting == [c1, c2] && w4.p.local == [c2, c1] && w4.p.hist == [c1, c2];
    assert forall i: nat :: i < 5 ==> AnyStepAt(ws, acts, i);
    assert ws[5].p.fork == Some(Snap(2, [c2, c1]));
    assert ws[5].p.hist[..2][0] == c1;
  }

  // ---------- catching up ----------

  /** Bytes of an entry in a replication request. */
  function WireSize(c: Cmd): nat { Codec.HEADER + c.clen + c.klen + c.dlen }

  /** How many leading entries fit in the message. */
  function Fit(cmds: seq<Cmd>, room: nat): (k: nat)
    ensures k <= |cmds|
  {
    if cmds == [] || WireSize(cmds[0]) > room then 0 else 1 + Fit(cmds[1..], room - WireSize(cmds[0]))
  }

  function WireSizes(cmds: seq<Cmd>): (r: seq<nat>)
    ensures |r| == |cmds|
  {
    if cmds == [] then [] else [WireSize(cmds[0])] + WireSizes(cmds[1..])
  }

  lemma {:induction false} SumFirst(sizes: seq<nat>)
    requires sizes != []
    ensures Codec.Sum(sizes) == sizes[0] + Codec.Sum(sizes[1..])
    decreases |sizes|
  {
    if |sizes| == 1 {
      assert sizes[..0] == [] && sizes[1..] == [];
    } else {
      SumFirst(sizes[..|sizes| - 1]);
      assert sizes[..|sizes| - 1][1..] == sizes[1..][..|sizes| - 2];
    }
  }

  /** This is the number of entries the serializer puts in a message of that size. */
  lemma {:induction false} FitIsSerialized(cmds: seq<Cmd>, room: nat)
    ensures Codec.IsFit(WireSizes(cmds), room, Fit(cmds, room))
    decreases |cmds|
  {
    if cmds != [] {
      var all, k := WireSizes(cmds), Fit(cmds, room);
      if k == 0 {
        SumFirst(all[..1]);
        assert all[..1][1..] == [];
      } else {
        FitIsSerialized(cmds[1..], room - WireSize(cmds[0]));
        SumFirst(all[..k]);
        assert all[..k][1..] == WireSizes(cmds[1..])[..k - 1];
        if k < |cmds| {
          SumFirst(all[..k + 1]);
          assert all[..k + 1][1..] == WireSizes(cmds[1..])[..k];
        }
        assert Codec.Sum([]) == 0 && WireSizes(cmds[1..])[..0] == [];
      }
    }
  }

  /** What state_replication sends to this backup now. */
  function Due(w: World, room: nat): Option<Message>
    requires w.p.master < w.p.first ==> w.p.snap.Some?
  {
    if |w.p.hist| <= w.p.master then None
    else if w.p.master < w.p.first then Some(Image(w.p.snap.value))
    else
      var k := Fit(w.p.hist[w.p.master..], room);
      if k == 0 then None else Some(Entries(w.p.master, w.p.hist[w.p.master..w.p.master + k]))
  }

  /** What the pass finds to send: a snapshot exactly if the entry wanted next has been compacted,
      otherwise the longest stretch of entries from there on that fits, or nothing. */
  lemma DueIs(w: World, room: nat)
    requires w.p.first <= |w.p.hist| && (w.p.master < w.p.first ==> w.p.snap.Some?)
    ensures var d, last := Due(w, room), |w.p.hist|;
            && (d.Some? && d.value.Image? <==> w.p.master < w.p.first)
            && (d.Some? && d.value.Image? ==> d.value.snap == w.p.snap.value)
            && (d.None? <==> w.p.master >= last
                             || (w.p.master >= w.p.first && WireSize(w.p.hist[w.p.master]) > room))
            && (d.Some? && !d.value.Image? ==>
                  && d.value.Entries? && d.value.from == w.p.master
                  && IsSlice(w.p.hist, w.p.master, d.value.cmds)
                  && Codec.IsFit(WireSizes(w.p.hist[w.p.master..]), room, |d.value.cmds|))
  {
    if w.p.first <= w.p.master < |w.p.hist| {
      FitIsSerialized(w.p.hist[w.p.master..], room);
      assert w.p.hist[w.p.master..][0] == w.p.hist[w.p.master];
    }
  }

  /** One pass of state_replication for this backup: the message arrives, and so does the reply.
      A process that has exited does nothing. */
  function Exchange(w: World, room: nat): World
    requires w.p.master < w.p.first ==> w.p.snap.Some?
  {
    if !w.p.up then w
    else if Overrun(w.p) then Next(w, Exit)
    else
      match Due(w, room)
      case None => w
      case Some(m) =>
        var b := OnReceive(w.b, m);
        World(w.p.(master := b.index), b, w.net + {m, Ack(b.index)})
  }

  /** One exchange, case by case: what is sent reaches the backup whole if the primary knew where
      the backup was, and otherwise only tells the primary. */
  lemma ExchangeExact(w: World, room: nat)
    requires Inv(w) && w.p.up && !w.p.compacting && w.p.master < |w.p.hist|
    ensures var t, k := Exchange(w, room), Fit(w.p.hist[w.p.master..], room);
            && Codec.IsFit(WireSizes(w.p.hist[w.p.master..]), room, k)
            && (w.p.master < w.p.first ==>
                  t.b.index == t.p.master == w.p.first && t.b.trace == w.p.hist[..w.p.first])
            && (w.p.first <= w.p.master && k == 0 ==> t == w)
            && (w.p.first <= w.p.master && k > 0 && w.p.master == w.b.index ==>
                  && t.b.index == t.p.master == w.p.master + k
                  && t.b.trace == w.b.trace + w.p.hist[w.p.master..w.p.master + k])
            && (w.p.first <= w.p.master && k > 0 && w.p.master != w.b.index ==>
                  t.b == w.b && t.p.master == w.b.index)
  {
    FitIsSerialized(w.p.hist[w.p.master..], room);
    OverrunIff(w.p);
  }

  /** The three steps of an exchange that delivers m. */
  ghost predicate Delivers(w: World, send: Action, m: Message, t: World) {
    && (send.SendEntries? || send.SendImage?) && Enabled(w, send) && m in Next(w, send).net && !m.Ack?
    && var seen := Next(Next(w, send), Receive(m));
       seen.p.up && t == Next(seen, Receive(Ack(seen.b.index)))
  }

  /** An exchange is no step, the exit, or three steps of the machine. */
  lemma ExchangeIsSteps(w: World, room: nat)
    requires Inv(w) && !w.p.compacting
    ensures Exchange(w, room) == w || (Enabled(w, Exit) && Exchange(w, room) == Next(w, Exit))
            || (exists send: Action, m: Message :: Delivers(w, send, m, Exchange(w, room)))
  {
    if w.p.up && !Overrun(w.p) && Due(w, room).Some? {
      var m := Due(w, room).value;
      var send := if m.Image? then SendImage else SendEntries(|m.cmds|);
      var sent := Next(w, send);
      assert sent.net == w.net + {m};
      var seen := Next(sent, Receive(m));
      assert seen.net == w.net + {m, Ack(seen.b.index)};
      assert Delivers(w, send, m, Exchange(w, room));
    }
  }

  lemma DeliversKeeps(w: World, send: Action, m: Message, t: World)
    requires Inv(w) && Delivers(w, send, m, t)
    ensures Inv(t) && t.p.compacting == w.p.compacting
  {
    var sent := Next(w, send);
    StepKeeps(w, send);
    StepKeeps(sent, Receive(m));
    var seen := Next(sent, Receive(m));
    StepKeeps(seen, Receive(Ack(seen.b.index)));
  }

  lemma ExchangeKeeps(w: World, room: nat)
    requires Inv(w) && !w.p.compacting
    ensures Inv(Exchange(w, room)) && !Exchange(w, room).p.compacting
  {
    ExchangeIsSteps(w, room);
    if Enabled(w, Exit) {
      StepKeeps(w, Exit);
    } else if Exchange(w, room) != w {
      var send: Action, m: Message :| Delivers(w, send, m, Exchange(w, room));
      DeliversKeeps(w, send, m, Exchange(w, room));
    }
  }

  function Exchanges(w: World, room: nat, n: nat): World
    requires Inv(w) && !w.p.compacting
    decreases n
  {
    if n == 0 then w
    else
      ExchangeKeeps(w, room);
      Exchanges(Exchange(w, room), room, n - 1)
  }

  predicate AllFit(hist: seq<Cmd>, room: nat) {
    forall i :: 0 <= i < |hist| ==> WireSize(hist[i]) <= room
  }

  /** The first exchange aligns master_index with replica_index; once they are aligned, every
      exchange brings the backup strictly forward. */
  lemma ExchangeAdvances(w: World, room: nat)
    requires Inv(w) && w.p.up && w.p.master < |w.p.hist| && !w.p.compacting && AllFit(w.p.hist, room)
    ensures var t := Exchange(w, room);
            && t.p.master == t.b.index && t.p.hist == w.p.hist && t.p.up && !t.p.compacting
            && (w.p.master == w.b.index ==> w.b.index < t.b.index)
  {
    if w.p.first <= w.p.master {
      assert w.p.hist[w.p.master..][0] == w.p.hist[w.p.master];
    }
  }

  lemma {:induction false} AlignedCatchesUp(w: World, room: nat) returns (n: nat)
    requires Inv(w) && w.p.up && !w.p.compacting && w.p.master == w.b.index && AllFit(w.p.hist, room)
    ensures n <= |w.p.hist| - w.b.index
    ensures Exchanges(w, room, n).b.index == |w.p.hist|
    decreases |w.p.hist| - w.b.index
  {
    if w.b.index == |w.p.hist| {
      n := 0;
    } else {
      var t := Exchange(w, room);
      ExchangeAdvances(w, room);
      ExchangeKeeps(w, room);
      var rest := AlignedCatchesUp(t, room);
      n := rest + 1;
      OneMore(w, room, rest);
    }
  }

  lemma OneMore(w: World, room: nat, n: nat)
    requires Inv(w) && !w.p.compacting
    ensures Inv(Exchange(w, room)) && !Exchange(w, room).p.compacting
    ensures Exchanges(w, room, n + 1) == Exchanges(Exchange(w, room), room, n)
  {
    ExchangeKeeps(w, room);
  }

  lemma {:induction false} StuckStays(w: World, room: nat, n: nat)
    requires Inv(w) && !w.p.compacting && (w.p.up ==> |w.p.hist| <= w.p.master)
    ensures Exchanges(w, room, n).b == w.b
    decreases n
  {
    if n > 0 {
      ExchangeKeeps(w, room);
      StuckStays(Exchange(w, room), room, n - 1);
    }
  }

  /** With no new command, no loss and entries that fit in a message, the backup gets to the
      primary's whole state, by entries or by snapshot, if and only if it is there already or
      the primary runs and its master_index is below its last log index. A backup that fell
      back while master_index says it is complete waits for the next command; one whose
      master_index is beyond the log ends the primary. */
  lemma CatchesUpIff(w: World, room: nat)
    requires Inv(w) && !w.p.compacting && AllFit(w.p.hist, room)
    ensures (exists n: nat :: Exchanges(w, room, n).b.index == |w.p.hist|)
       <==> w.b.index == |w.p.hist| || (w.p.up && w.p.master < |w.p.hist|)
    ensures w.p.up ==> (Exchange(w, room).p.up <==> !Overrun(w.p))
  {
    if w.b.index == |w.p.hist| {
      assert Exchanges(w, room, 0).b.index == |w.p.hist|;
    } else if w.p.up && w.p.master < |w.p.hist| {
      ExchangeAdvances(w, room);
      ExchangeKeeps(w, room);
      var n := AlignedCatchesUp(Exchange(w, room), room);
      assert Exchanges(w, room, n + 1).b.index == |w.p.hist|;
    } else {
      forall n: nat
        ensures Exchanges(w, room, n).b.index != |w.p.hist|
      {
        StuckStays(w, room, n);
      }
    }
  }

  // ---------- an entry too large for a message ----------

  /** What is sent fits in a message. */
  predicate Sized(w: World, a: Action, room: nat)
    requires Enabled(w, a)
  {
    a.SendEntries? ==> a.k <= Fit(w.p.hist[w.p.master..], room)
  }

  ghost predicate SizedRun(ws: seq<World>, acts: seq<Action>, room: nat) {
    && IsRun(ws, acts)
    && forall i: nat :: i < |acts| ==> Enabled(ws[i], acts[i]) && Sized(ws[i], acts[i], room)
  }

  ghost predicate NetFits(net: set<Message>, room: nat) {
    forall m <- net :: m.Entries? ==> AllFit(m.cmds, room)
  }

  lemma {:induction false} FitFits(cmds: seq<Cmd>, room: nat, k: nat)
    requires k <= Fit(cmds, room)
    ensures AllFit(cmds[..k], room)
    decreases |cmds|
  {
    if k > 0 {
      FitFits(cmds[1..], room - WireSize(cmds[0]), k - 1);
      assert cmds[..k] == [cmds[0]] + cmds[1..][..k - 1];
    }
  }

  lemma {:induction false} RunNetFits(ws: seq<World>, acts: seq<Action>, room: nat, i: nat)
    requires SizedRun(ws, acts, room) && i < |ws|
    ensures NetFits(ws[i].net, room)
    decreases i
  {
    if i > 0 {
      RunNetFits(ws, acts, room, i - 1);
      assert StepAt(ws, acts, i - 1) && Sized(ws[i - 1], acts[i - 1], room);
      var w, a := ws[i - 1], acts[i - 1];
      if a.SendEntries? {
        FitFits(w.p.hist[w.p.master..], room, a.k);
        assert w.p.hist[w.p.master..][..a.k] == w.p.hist[w.p.master..w.p.master + a.k];
      }
    }
  }

  /** A snapshot that includes entry n + 1 arrives. */
  predicate BringsImage(a: Action, n: nat) {
    a.Receive? && a.m.Image? && a.m.snap.index > n
  }

  ghost predicate ImageArrives(acts: seq<Action>, i: nat, j: nat, n: nat)
    requires j <= |acts|
  {
    exists k: nat :: i <= k < j && BringsImage(acts[k], n)
  }

  lemma PassesStep(ws: seq<World>, acts: seq<Action>, room: nat, i: nat, n: nat)
    requires SizedRun(ws, acts, room) && i < |acts| && ws[i].b.index <= n < |ws[i].p.hist|
    requires WireSize(ws[i].p.hist[n]) > room
    ensures ws[i + 1].b.index > n <==> BringsImage(acts[i], n)
    ensures n < |ws[i + 1].p.hist| && ws[i + 1].p.hist[n] == ws[i].p.hist[n]
  {
    RunKeepsInv(ws, acts, i);
    RunNetFits(ws, acts, room, i);
    assert StepAt(ws, acts, i);
    var w, a := ws[i], acts[i];
    if a.Receive? && a.m.Entries? && a.m.from == w.b.index {
      assert IsSlice(w.p.hist, a.m.from, a.m.cmds) && AllFit(a.m.cmds, room);
    }
  }

  lemma {:induction false} BlockedUntilImage(ws: seq<World>, acts: seq<Action>, room: nat, i: nat, j: nat, n: nat)
    requires SizedRun(ws, acts, room) && i <= j < |ws| && ws[i].b.index <= n < |ws[i].p.hist|
    requires WireSize(ws[i].p.hist[n]) > room
    requires !ImageArrives(acts, i, j, n)
    ensures ws[j].b.index <= n < |ws[j].p.hist| && ws[j].p.hist[n] == ws[i].p.hist[n]
    decreases j
  {
    if i < j {
      BlockedUntilImage(ws, acts, room, i, j - 1, n);
      assert !BringsImage(acts[j - 1], n);
      PassesStep(ws, acts, room, j - 1, n);
    }
  }

  ghost predicate Passes(ws: seq<World>, i: nat, j: nat, n: nat)
    requires j < |ws|
  {
    exists k: nat :: i <= k <= j && ws[k].b.index > n
  }

  /** In every run, whatever else happens: a backup that has not applied an entry too large for a
      message gets past it if and only if a snapshot that includes the entry is delivered. */
  lemma OversizedBlocks(ws: seq<World>, acts: seq<Action>, room: nat, i: nat, j: nat, n: nat)
    requires SizedRun(ws, acts, room) && i <= j < |ws| && ws[i].b.index <= n < |ws[i].p.hist|
    requires WireSize(ws[i].p.hist[n]) > room
    ensures Passes(ws, i, j, n) <==> ImageArrives(acts, i, j, n)
  {
    if Passes(ws, i, j, n) {
      var k: nat :| i <= k <= j && ws[k].b.index > n;
      if !ImageArrives(acts, i, k, n) {
        BlockedUntilImage(ws, acts, room, i, k, n);
      }
    }
    if ImageArrives(acts, i, j, n) {
      var k: nat :| i <= k < j && BringsImage(acts[k], n);
      assert StepAt(ws, acts, k);
      assert ws[k + 1].b.index > n;
    }
  }

  /** Exchanges alone do not move an aligned backup past such an entry while the log still holds
      it; once compaction has dropped it, the next exchange brings the snapshot. */
  lemma OversizedExchange(w: World, room: nat)
    requires Inv(w) && w.p.up && !w.p.compacting && w.p.master < |w.p.hist|
    requires WireSize(w.p.hist[w.p.master]) > room
    ensures w.p.first <= w.p.master ==> Exchange(w, room) == w
    ensures w.p.first > w.p.master ==> Exchange(w, room).b.index > w.p.master
  {
    assert w.p.hist[w.p.master..][0] == w.p.hist[w.p.master];
  }
}
