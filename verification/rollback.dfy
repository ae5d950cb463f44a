/** Falling back to the previous configuration (section 4.1 of the Raft dissertation) and
    installing a configuration that may be ahead of the snapshot's index. */
module Rollback {
  import opened Types
  import opened Members
  import opened Changes
  import Config

  /** A membership command read as an operation on the voting set. */
  function Effect(vs: set<ServerId>, c: Command): set<ServerId> {
    match c
    case AddMember(id, _) => vs + {id}
    case DelMember(id, _) => vs - {id}
    case _ => vs
  }

  /** The voting set a log produces, from the set in force before it. */
  function Replay(vs: set<ServerId>, es: seq<Entry>): set<ServerId> {
    if es == [] then vs else Effect(Replay(vs, es[..|es| - 1]), es[|es| - 1].command)
  }

  /** An ADD names a non-voter, a DEL a voter. */
  predicate Reversible(vs: set<ServerId>, c: Command) {
    match c
    case AddMember(id, _) => id !in vs
    case DelMember(id, _) => id in vs
    case _ => true
  }

  lemma ApplyVoters(ms: seq<Member>, c: Command)
    requires UniqueIds(ms)
    ensures UniqueIds(Apply(ms, c)) && Voters(Apply(ms, c)) == Effect(Voters(ms), c)
  {
    match c
    case AddMember(id, target) =>
      AddServerSets(ms, id, target, 0);
      SetStatusSets(if Has(ms, id) then ms else AddServer(ms, id, target, 0), id, true);
    case DelMember(id, _) =>
      RemoveServerUnique(ms, id);
      RemoveServerSets(ms, id, Voting);
    case _ =>
  }

  lemma UndoVoters(ms: seq<Member>, c: Command)
    requires UniqueIds(ms)
    ensures UniqueIds(Undo(ms, c))
    ensures Voters(Undo(ms, c)) == (match c
                                    case AddMember(id, _) => Voters(ms) - {id}
                                    case DelMember(id, _) => Voters(ms) + {id}
                                    case _ => Voters(ms))
  {
    match c
    case AddMember(id, _) =>
      RemoveServerUnique(ms, id);
      RemoveServerSets(ms, id, Voting);
    case DelMember(id, target) =>
      AddServerSets(ms, id, target, 0);
      SetStatusSets(AddServer(ms, id, target, 0), id, true);
    case _ =>
  }

  /** Dropping an entry right after appending it restores the voting set exactly when the entry
      was reversible: an ADD of a voter would be undone by removing it, a DEL of a non-voter by
      making it one. */
  lemma UndoRestoresIff(ms: seq<Member>, c: Command)
    requires UniqueIds(ms)
    ensures Voters(Undo(Apply(ms, c), c)) == Voters(ms) <==> Reversible(Voters(ms), c)
  {
    ApplyVoters(ms, c);
    UndoVoters(Apply(ms, c), c);
    if c.AddMember? && c.id in Voters(ms) {
      assert c.id !in Voters(Undo(Apply(ms, c), c));
    }
    if c.DelMember? && c.id !in Voters(ms) {
      assert c.id in Voters(Undo(Apply(ms, c), c));
    }
  }

  lemma {:induction false} ApplyAllVoters(ms: seq<Member>, es: seq<Entry>)
    requires UniqueIds(ms)
    ensures UniqueIds(ApplyAll(ms, es)) && Voters(ApplyAll(ms, es)) == Replay(Voters(ms), es)
  {
    if es != [] {
      ApplyAllVoters(ms, es[..|es| - 1]);
      ApplyVoters(ApplyAll(ms, es[..|es| - 1]), es[|es| - 1].command);
    }
  }

  // ---------- any interleaving of appends, drops, joins and departures ----------

  /** Configuration and uncommitted log; `start` is the voting set before that log. */
  datatype State = State(start: set<ServerId>, ms: seq<Member>, log: seq<Entry>)

  datatype Op =
    | Append(e: Entry)
    | DropLast
    | Join(id: ServerId, target: Target, last: nat)
    | Leave(id: ServerId)

  /** The source exits when a dropped DEL names a server that is configured again. */
  predicate Survives(st: State, op: Op) {
    op.DropLast? && st.log != [] ==> CanUndo(st.ms, st.log[|st.log| - 1].command)
  }

  /** Joining servers are non-voters, and only non-voters leave without a log entry. */
  predicate Allowed(st: State, op: Op) {
    match op
    case Append(e) => Reversible(Voters(st.ms), e.command)
    case DropLast => st.log != []
    case Join(_, _, _) => true
    case Leave(id) => id !in Voters(st.ms)
  }

  function Do(st: State, op: Op): State
    requires Allowed(st, op)
  {
    match op
    case Append(e) => st.(ms := Apply(st.ms, e.command), log := st.log + [e])
    case DropLast =>
      st.(ms := Undo(st.ms, st.log[|st.log| - 1].command), log := st.log[..|st.log| - 1])
    case Join(id, target, last) => st.(ms := AddServer(st.ms, id, target, last))
    case Leave(id) => st.(ms := RemoveServer(st.ms, id))
  }

  ghost predicate AllReversible(vs: set<ServerId>, es: seq<Entry>) {
    forall k :: 0 <= k < |es| ==> Reversible(Replay(vs, es[..k]), es[k].command)
  }

  ghost predicate Consistent(st: State) {
    && UniqueIds(st.ms)
    && Voters(st.ms) == Replay(st.start, st.log)
    && AllReversible(st.start, st.log)
  }

  lemma AppendKeepsConsistent(st: State, e: Entry)
    requires Consistent(st) && Reversible(Voters(st.ms), e.command)
    ensures Consistent(Do(st, Append(e)))
  {
    var t := Do(st, Append(e));
    ApplyVoters(st.ms, e.command);
    assert t.log[..|t.log| - 1] == st.log;
    forall k | 0 <= k < |t.log| ensures Reversible(Replay(t.start, t.log[..k]), t.log[k].command) {
      if k < |st.log| { assert t.log[..k] == st.log[..k]; }
    }
  }

  /** A reversible command and then what taking it back does to the voters. */
  lemma EffectTakenBack(vs: set<ServerId>, c: Command)
    requires Reversible(vs, c)
    ensures (match c
             case AddMember(id, _) => Effect(vs, c) - {id}
             case DelMember(id, _) => Effect(vs, c) + {id}
             case _ => Effect(vs, c)) == vs
  {
  }

  lemma DropKeepsConsistent(st: State)
    requires Consistent(st) && st.log != []
    ensures Consistent(Do(st, DropLast))
  {
    var n := |st.log| - 1;
    var t := Do(st, DropLast);
    UndoVoters(st.ms, st.log[n].command);
    assert Reversible(Replay(st.start, st.log[..n]), st.log[n].command);
    EffectTakenBack(Replay(st.start, st.log[..n]), st.log[n].command);
    forall k | 0 <= k < n ensures Reversible(Replay(t.start, t.log[..k]), t.log[k].command) {
      assert t.log[..k] == st.log[..k];
    }
  }

  lemma DoKeepsConsistent(st: State, op: Op)
    requires Consistent(st) && Allowed(st, op)
    ensures Consistent(Do(st, op))
  {
    match op
    case Append(e) => AppendKeepsConsistent(st, e);
    case DropLast => DropKeepsConsistent(st);
    case Join(id, target, last) => AddServerSets(st.ms, id, target, last);
    case Leave(id) =>
      RemoveServerUnique(st.ms, id);
      RemoveServerSets(st.ms, id, Voting);
  }

  ghost predicate OpAt(sts: seq<State>, ops: seq<Op>, i: nat)
    requires i < |ops| < |sts|
  {
    Allowed(sts[i], ops[i]) && Survives(sts[i], ops[i]) && sts[i + 1] == Do(sts[i], ops[i])
  }

  /** Allowed operations that the process survives, starting from a configuration with no uncommitted entry. */
  ghost predicate IsHistory(sts: seq<State>, ops: seq<Op>) {
    && |sts| == |ops| + 1
    && UniqueIds(sts[0].ms) && Voters(sts[0].ms) == sts[0].start && sts[0].log == []
    && forall i :: 0 <= i < |ops| ==> OpAt(sts, ops, i)
  }

  /** However entries were appended and dropped in between, the voting set in force is the one
      the surviving log produces, and server ids are unique. */
  lemma {:induction false} RollbackRestores(sts: seq<State>, ops: seq<Op>, i: nat)
    requires IsHistory(sts, ops) && i < |sts|
    ensures UniqueIds(sts[i].ms) && Voters(sts[i].ms) == Replay(sts[0].start, sts[i].log)
    ensures Consistent(sts[i]) && sts[i].start == sts[0].start
  {
    if i > 0 {
      RollbackRestores(sts, ops, i - 1);
      assert OpAt(sts, ops, i - 1);
      DoKeepsConsistent(sts[i - 1], ops[i - 1]);
    }
  }

  // ---------- which command named a server last ----------

  function Touched(es: seq<Entry>): set<ServerId> {
    if es == [] then {}
    else Touched(es[..|es| - 1])
         + (if es[|es| - 1].command.IsConfig() then {es[|es| - 1].command.id} else {})
  }

  /** Whether a server votes after a log depends only on the last command naming it. */
  predicate LastAdds(es: seq<Entry>, id: ServerId) {
    if es == [] then false
    else
      var c := es[|es| - 1].command;
      if c.IsConfig() && c.id == id then c.AddMember? else LastAdds(es[..|es| - 1], id)
  }

  lemma {:induction false} ReplayMember(vs: set<ServerId>, es: seq<Entry>, id: ServerId)
    ensures id in Replay(vs, es) <==> (if id in Touched(es) then LastAdds(es, id) else id in vs)
  {
    if es != [] {
      ReplayMember(vs, es[..|es| - 1], id);
    }
  }

  lemma {:induction false} ReplayConcat(vs: set<ServerId>, a: seq<Entry>, b: seq<Entry>)
    ensures Replay(vs, a + b) == Replay(Replay(vs, a), b)
    ensures Touched(a + b) == Touched(a) + Touched(b)
    decreases |b|
  {
    if b == [] {
      assert a + b == a;
    } else {
      var n := |b| - 1;
      assert (a + b)[..|a + b| - 1] == a + b[..n];
      ReplayConcat(vs, a, b[..n]);
    }
  }

  // ---------- when a rollback survives ----------

  lemma HasAfterUndo(ms: seq<Member>, c: Command, id: ServerId)
    requires UniqueIds(ms)
    ensures Has(Undo(ms, c), id) <==> (match c
                                       case AddMember(x, _) => Has(ms, id) && id != x
                                       case DelMember(x, _) => Has(ms, id) || id == x
                                       case _ => Has(ms, id))
  {
    match c
    case AddMember(x, _) => HasAfterRemove(ms, x, id);
    case DelMember(x, target) => HasAfterPutBack(ms, x, target, id);
    case _ =>
  }

  lemma HasAfterRemove(ms: seq<Member>, x: ServerId, id: ServerId)
    requires UniqueIds(ms)
    ensures Has(RemoveServer(ms, x), id) <==> Has(ms, id) && id != x
  {
    var i, j, r := Find(ms, x), Find(ms, id), RemoveServer(ms, x);
    if i < |ms| {
      assert forall k :: 0 <= k < |r| ==> r[k] == ms[if k < i then k else k + 1];
      if j < |ms| && id != x {
        assert r[if j < i then j else j - 1].id == id;
      }
    }
  }

  lemma HasAfterPutBack(ms: seq<Member>, x: ServerId, target: Target, id: ServerId)
    ensures Has(SetStatus(AddServer(ms, x, target, 0), x, true), id) <==> Has(ms, id) || id == x
  {
    var i, j, r := Find(ms, x), Find(ms, id), AddServer(ms, x, target, 0);
    var t := SetStatus(r, x, true);
    assert |t| == |r| && forall k :: 0 <= k < |r| ==> t[k].id == r[k].id;
    assert t[i].id == x;
    if j < |ms| {
      assert t[j].id == id;
    }
  }

  /** The last command of es naming the server removed it. */
  ghost predicate LastDeletes(es: seq<Entry>, id: ServerId) {
    id in Touched(es) && !LastAdds(es, id)
  }

  ghost predicate NoneBack(ms: seq<Member>, es: seq<Entry>) {
    forall id :: LastDeletes(es, id) ==> !Has(ms, id)
  }

  /** For entries that were reversible when appended, dropping them all survives if and only if
      no server that the last command naming it removed is configured again. */
  lemma {:induction false} DropSurvivesIff(vs: set<ServerId>, ms: seq<Member>, es: seq<Entry>)
    requires UniqueIds(ms) && AllReversible(vs, es)
    ensures CanUndoAll(ms, es) <==> NoneBack(ms, es)
    decreases |es|
  {
    if es != [] {
      var n := |es| - 1;
      var c := es[n].command;
      UndoVoters(ms, c);
      ReversiblePrefix(vs, es, n);
      DropSurvivesIff(vs, Undo(ms, c), es[..n]);
      if CanUndo(ms, c) {
        DropOne(vs, ms, es);
      } else {
        assert LastDeletes(es, c.id);
      }
    }
  }

  lemma ReversiblePrefix(vs: set<ServerId>, es: seq<Entry>, n: nat)
    requires AllReversible(vs, es) && n <= |es|
    ensures AllReversible(vs, es[..n])
  {
    forall k | 0 <= k < n ensures Reversible(Replay(vs, es[..n][..k]), es[..n][k].command) {
      assert es[..n][..k] == es[..k];
    }
  }

  lemma DropOne(vs: set<ServerId>, ms: seq<Member>, es: seq<Entry>)
    requires UniqueIds(ms) && es != [] && AllReversible(vs, es) && CanUndo(ms, es[|es| - 1].command)
    ensures NoneBack(Undo(ms, es[|es| - 1].command), es[..|es| - 1]) <==> NoneBack(ms, es)
  {
    var n := |es| - 1;
    var c := es[n].command;
    assert Reversible(Replay(vs, es[..n]), c);
    forall id ensures (LastDeletes(es[..n], id) ==> !Has(Undo(ms, c), id)) <==> (LastDeletes(es, id) ==> !Has(ms, id)) {
      HasAfterUndo(ms, c, id);
      ReplayMember(vs, es[..n], id);
    }
  }

  lemma ReversibleSuffix(vs: set<ServerId>, es: seq<Entry>, k: nat)
    requires AllReversible(vs, es) && k <= |es|
    ensures AllReversible(Replay(vs, es[..k]), es[k..])
  {
    var tail := es[k..];
    forall j | 0 <= j < |tail| ensures Reversible(Replay(Replay(vs, es[..k]), tail[..j]), tail[j].command) {
      assert es[..k] + tail[..j] == es[..k + j];
      ReplayConcat(vs, es[..k], tail[..j]);
      assert Reversible(Replay(vs, es[..k + j]), es[k + j].command);
    }
  }

  /** At every moment of every history, dropping the entries from k on survives if and only if
      no server that the last of them naming it removed is configured at that moment. */
  lemma RollbackSurvivesIff(sts: seq<State>, ops: seq<Op>, i: nat, k: nat)
    requires IsHistory(sts, ops) && i < |sts| && k <= |sts[i].log|
    ensures CanUndoAll(sts[i].ms, sts[i].log[k..]) <==> NoneBack(sts[i].ms, sts[i].log[k..])
  {
    RollbackRestores(sts, ops, i);
    ReversibleSuffix(sts[i].start, sts[i].log, k);
    DropSurvivesIff(Replay(sts[i].start, sts[i].log[..k]), sts[i].ms, sts[i].log[k..]);
  }

  /** A removed voter that asks to join again before its removal is committed, and whose
      removal is then dropped, ends the process. */
  lemma RejoinThenDropExits() returns (sts: seq<State>, ops: seq<Op>)
    ensures IsHistory(sts, ops) && Allowed(sts[|ops|], DropLast) && !Survives(sts[|ops|], DropLast)
  {
    var del := Entry(1, DelMember(2, ""), 0, 0, 0);
    var one, two := Member(1, "", true, false, 1, 0, 0, 0), Member(2, "", true, false, 1, 0, 0, 0);
    var a := State({1, 2}, [one, two], []);
    assert [one, two][..1] == [one] && [one][..0] == [];
    assert Select([one][..0], Voting) == {} && Select([one], Voting) == {1} && Select([one, two], Voting) == {1, 2};
    assert [one, two][1].id == 2 && Find([one, two], 2) == 1;
    var b := Do(a, Append(del));
    var c := Do(b, Join(2, "", 0));
    assert b.ms == [one] && c.ms[1].id == 2;
    sts, ops := [a, b, c], [Append(del), Join(2, "", 0)];
    assert OpAt(sts, ops, 0) && OpAt(sts, ops, 1);
  }

  // ---------- fuzzy snapshots ----------

  /** On voting sets: xs + ys and then zs gives the set of xs + zs if and only if every server
      that ys touched and zs does not is as it was after xs. */
  lemma FuzzyReplay(vs: set<ServerId>, xs: seq<Entry>, ys: seq<Entry>, zs: seq<Entry>)
    ensures Replay(Replay(vs, xs + ys), zs) == Replay(vs, xs + zs)
       <==> forall id :: id in Touched(ys) && id !in Touched(zs) ==>
              (id in Replay(vs, xs + ys) <==> id in Replay(vs, xs))
  {
    ReplayConcat(vs, xs, ys);
    ReplayConcat(vs, xs, zs);
    var w := Replay(vs, xs);
    var got, want := Replay(Replay(w, ys), zs), Replay(w, zs);
    forall id: ServerId
      ensures (id in got <==> id in want)
         <==> (id in Touched(ys) && id !in Touched(zs) ==> (id in Replay(w, ys) <==> id in w))
    {
      ReplayMember(Replay(w, ys), zs, id);
      ReplayMember(w, zs, id);
      ReplayMember(w, ys, id);
    }
    if forall id: ServerId :: id in got <==> id in want {
      assert got == want;
    } else {
      var id: ServerId :| !(id in got <==> id in want);
      assert got != want;
    }
  }

  /** Applying a log to an installed configuration. */
  lemma InstalledVoters(ms: seq<Member>, es: seq<Entry>, last: nat, zs: seq<Entry>)
    requires UniqueIds(ms)
    ensures Voters(ApplyAll(Config.Installed(ApplyAll(ms, es), last), zs)) == Replay(Replay(Voters(ms), es), zs)
  {
    ApplyAllVoters(ms, es);
    Config.SnapshotRoundTrip(ApplyAll(ms, es), last);
    ApplyAllVoters(Config.Installed(ApplyAll(ms, es), last), zs);
  }

  /** A configuration captured when the log was xs + ys but labelled with the end of xs,
      installed on another server and followed by the entries zs from there on, has the voting
      set of xs + zs if and only if every server that ys touched and zs does not has the status
      it had after xs. */
  lemma FuzzyInstall(ms: seq<Member>, xs: seq<Entry>, ys: seq<Entry>, zs: seq<Entry>, last: nat)
    requires UniqueIds(ms)
    ensures Voters(ApplyAll(Config.Installed(ApplyAll(ms, xs + ys), last), zs)) == Voters(ApplyAll(ms, xs + zs))
       <==> forall id :: id in Touched(ys) && id !in Touched(zs) ==>
              (id in Voters(ApplyAll(ms, xs + ys)) <==> id in Voters(ApplyAll(ms, xs)))
  {
    InstalledVoters(ms, xs + ys, last, zs);
    ApplyAllVoters(ms, xs + zs);
    ApplyAllVoters(ms, xs + ys);
    ApplyAllVoters(ms, xs);
    FuzzyReplay(Voters(ms), xs, ys, zs);
  }

  /** If the leader's log still contains what the snapshot already reflects, replaying those
      entries on the installed configuration a second time changes nothing. */
  lemma FuzzyInstallOfSameLog(ms: seq<Member>, xs: seq<Entry>, ys: seq<Entry>, rest: seq<Entry>, last: nat)
    requires UniqueIds(ms)
    ensures Voters(ApplyAll(Config.Installed(ApplyAll(ms, xs + ys), last), ys + rest))
         == Voters(ApplyAll(ms, xs + ys + rest))
  {
    assert xs + (ys + rest) == xs + ys + rest;
    FuzzyInstall(ms, xs, ys, ys + rest, last);
    ReplayConcat(Voters(ms), ys, rest);
  }
}
