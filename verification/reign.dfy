/** One membership change at a time: what a leader's `is_changing` flag guarantees while it
    leads. */
module Reign {
  import opened Types
  import opened Raft
  import Members
  import Changes
  import Rollback
  import Election

  function ConfigCount(es: seq<Entry>): nat {
    if es == [] then 0
    else ConfigCount(es[..|es| - 1]) + (if es[|es| - 1].command.IsConfig() then 1 else 0)
  }

  function Uncommitted(s: Server): nat
    requires s.commit <= |s.log|
  {
    ConfigCount(s.log[s.commit..])
  }

  /** What a leader does to its own log and configuration: append a change or another entry,
      take in a reply or a membership request, drop a non-voter that is too slow to catch up.
      The path that gives up on a server it cannot connect to, which bypasses the flag, is not
      among them. */
  datatype Move =
    | Change(e: Entry)
    | Plain(e: Entry)
    | Reply(m: Message)
    | Joined(src: ServerId, target: Target, last: nat)
    | TooSlow(id: ServerId)

  predicate CanMove(s: Server, mv: Move) {
    && s.role == Leader && s.commit <= |s.log| && s.applied <= s.commit
    && match mv
       case Change(e) => e.command.IsConfig()
       case Plain(e) => !e.command.IsConfig()
       case Reply(m) => m.AppendReply? && m.term == s.term
       case Joined(_, _, _) => true
       case TooSlow(id) => id !in Members.Voters(s.cfg)
  }

  /** A change is appended only if set_configuration_changing( 1 ) succeeds. */
  function Do(s: Server, mv: Move): Server
    requires CanMove(s, mv)
  {
    match mv
    case Change(e) => if s.changing then s else AppendEntry(s.(changing := true), e)
    case Plain(e) => AppendEntry(s, e)
    case Reply(m) => OnAppendReply(s, m)
    case Joined(src, target, last) => OnMembership(s, src, target, last)
    case TooSlow(id) => s.(cfg := Members.RemoveServer(s.cfg, id))
  }

  lemma {:induction false} CountConcat(a: seq<Entry>, b: seq<Entry>)
    ensures ConfigCount(a + b) == ConfigCount(a) + ConfigCount(b)
    decreases |b|
  {
    if b == [] {
      assert a + b == a;
    } else {
      assert (a + b)[..|a + b| - 1] == a + b[..|b| - 1];
      CountConcat(a, b[..|b| - 1]);
    }
  }

  lemma {:induction false} CountZeroIff(es: seq<Entry>)
    ensures ConfigCount(es) == 0 <==> Changes.NoConfig(es)
  {
    if es != [] {
      var n := |es| - 1;
      CountZeroIff(es[..n]);
      assert forall i :: 0 <= i < n ==> es[..n][i] == es[i];
    }
  }

  /** The flag is set exactly while one change is uncommitted. */
  ghost predicate FlagExact(s: Server) {
    && s.applied <= s.commit <= |s.log|
    && Uncommitted(s) == (if s.changing then 1 else 0)
  }

  /** At most one change is uncommitted, and then the flag is set. */
  ghost predicate Guarded(s: Server) {
    && s.applied <= s.commit <= |s.log|
    && (Uncommitted(s) == 0 || (Uncommitted(s) == 1 && s.changing))
  }

  lemma AppendCounts(s: Server, e: Entry)
    requires s.commit <= |s.log|
    ensures Uncommitted(AppendEntry(s, e)) == Uncommitted(s) + (if e.command.IsConfig() then 1 else 0)
  {
    var t := AppendEntry(s, e);
    assert t.log[t.commit..] == s.log[s.commit..] + [e];
    CountConcat(s.log[s.commit..], [e]);
    assert [e][..0] == [];
  }

  /** Committing clears the flag exactly when it commits a change. */
  lemma CommitCounts(s: Server, n: nat)
    requires s.role == Leader && s.applied <= s.commit <= |s.log|
    ensures var t := Commit(s, n);
            && t.log == s.log && t.applied <= t.commit <= |t.log|
            && Uncommitted(t) <= Uncommitted(s)
            && (t.changing <==> s.changing && Uncommitted(t) == Uncommitted(s))
  {
    var t := Commit(s, n);
    if s.commit < t.commit {
      assert s.log[s.commit..] == s.log[s.commit..t.commit] + s.log[t.commit..];
      CountConcat(s.log[s.commit..t.commit], s.log[t.commit..]);
      CountZeroIff(s.log[s.commit..t.commit]);
    }
  }

  lemma MoveKeeps(s: Server, mv: Move)
    requires CanMove(s, mv)
    ensures Guarded(s) ==> Guarded(Do(s, mv))
    ensures FlagExact(s) ==> FlagExact(Do(s, mv))
  {
    match mv
    case Change(e) => AppendCounts(s.(changing := true), e);
    case Plain(e) => AppendCounts(s, e);
    case Reply(m) =>
      var t := s.(cfg := Members.SetIndexes(s.cfg, m.src, m.lastIndex, m.success));
      CommitCounts(t, m.lastIndex);
    case Joined(_, _, _) =>
    case TooSlow(_) =>
  }

  ghost predicate MoveAt(ss: seq<Server>, mvs: seq<Move>, i: nat)
    requires i < |mvs| < |ss|
  {
    CanMove(ss[i], mvs[i]) && ss[i + 1] == Do(ss[i], mvs[i])
  }

  /** A reign: moves of one leader, from s on. */
  ghost predicate IsReign(s: Server, ss: seq<Server>, mvs: seq<Move>) {
    && |ss| == |mvs| + 1 && ss[0] == s
    && forall i :: 0 <= i < |mvs| ==> MoveAt(ss, mvs, i)
  }

  /** In a reign that starts with the flag telling the truth, it always does. */
  lemma {:induction false} FlagTellsTheTruth(s: Server, ss: seq<Server>, mvs: seq<Move>, i: nat)
    requires IsReign(s, ss, mvs) && i < |ss| && FlagExact(s)
    ensures FlagExact(ss[i])
  {
    if i > 0 {
      FlagTellsTheTruth(s, ss, mvs, i - 1);
      assert MoveAt(ss, mvs, i - 1);
      MoveKeeps(ss[i - 1], mvs[i - 1]);
    }
  }

  lemma {:induction false} GuardedForever(s: Server, ss: seq<Server>, mvs: seq<Move>, i: nat)
    requires IsReign(s, ss, mvs) && i < |ss| && Guarded(s)
    ensures Guarded(ss[i])
  {
    if i > 0 {
      GuardedForever(s, ss, mvs, i - 1);
      assert MoveAt(ss, mvs, i - 1);
      MoveKeeps(ss[i - 1], mvs[i - 1]);
    }
  }

  ghost predicate NeverTwo(s: Server) {
    forall ss: seq<Server>, mvs: seq<Move> :: IsReign(s, ss, mvs) ==>
      ss[|mvs|].commit <= |ss[|mvs|].log| && Uncommitted(ss[|mvs|]) <= 1
  }

  /** No reign from s ever has two uncommitted changes if and only if it starts with none, or
      with one and the flag set. A new leader does not set the flag for a change it inherits. */
  lemma OneChangeAtATimeIff(s: Server)
    requires s.role == Leader && s.applied <= s.commit <= |s.log|
    ensures NeverTwo(s) <==> Guarded(s)
  {
    if Guarded(s) {
      forall ss: seq<Server>, mvs: seq<Move> | IsReign(s, ss, mvs)
        ensures ss[|mvs|].commit <= |ss[|mvs|].log| && Uncommitted(ss[|mvs|]) <= 1
      {
        GuardedForever(s, ss, mvs, |mvs|);
      }
    } else if Uncommitted(s) >= 2 {
      assert IsReign(s, [s], []);
    } else {
      var mv := Change(Entry(s.term, AddMember(0, ""), 0, 0, 0));
      var ss := [s, Do(s, mv)];
      assert MoveAt(ss, [mv], 0);
      assert IsReign(s, ss, [mv]);
      AppendCounts(s.(changing := true), mv.e);
      assert Uncommitted(ss[|[mv]|]) == 2;
    }
  }

  // ---------- neighbouring configurations ----------

  /** Two voting sets that differ in at most the server x. */
  ghost predicate Neighbours(a: set<ServerId>, b: set<ServerId>, x: ServerId) {
    a - {x} == b - {x}
  }

  lemma {:induction false} ReplayOneChange(vs: set<ServerId>, es: seq<Entry>) returns (x: ServerId)
    requires ConfigCount(es) <= 1
    ensures Neighbours(vs, Rollback.Replay(vs, es), x)
    ensures ConfigCount(es) == 0 ==> Rollback.Replay(vs, es) == vs
  {
    x := 0;
    if es != [] {
      x := ReplayOneChange(vs, es[..|es| - 1]);
      var c := es[|es| - 1].command;
      if c.IsConfig() { x := c.id; }
    }
  }

  lemma LogNextToCommitted(vs: set<ServerId>, s: Server) returns (x: ServerId)
    requires Guarded(s)
    ensures Neighbours(Rollback.Replay(vs, s.log[..s.commit]), Rollback.Replay(vs, s.log), x)
  {
    assert s.log == s.log[..s.commit] + s.log[s.commit..];
    Rollback.ReplayConcat(vs, s.log[..s.commit], s.log[s.commit..]);
    x := ReplayOneChange(Rollback.Replay(vs, s.log[..s.commit]), s.log[s.commit..]);
  }

  /** The configuration is the one the log produces from the voting set before it. */
  ghost predicate InForce(vs: set<ServerId>, s: Server) {
    Members.UniqueIds(s.cfg) && Members.Voters(s.cfg) == Rollback.Replay(vs, s.log)
  }

  lemma AppendKeepsInForce(vs: set<ServerId>, s: Server, e: Entry)
    requires InForce(vs, s)
    ensures InForce(vs, AppendEntry(s, e))
  {
    Rollback.ApplyVoters(s.cfg, e.command);
    assert (s.log + [e])[..|s.log|] == s.log;
  }

  lemma MoveKeepsInForce(vs: set<ServerId>, s: Server, mv: Move)
    requires CanMove(s, mv) && InForce(vs, s)
    ensures InForce(vs, Do(s, mv))
  {
    match mv
    case Change(e) => AppendKeepsInForce(vs, s.(changing := true), e);
    case Plain(e) => AppendKeepsInForce(vs, s, e);
    case Reply(m) =>
      Members.IndexOpsSets(s.cfg, m.src, m.lastIndex, m.success);
      var t := s.(cfg := Members.SetIndexes(s.cfg, m.src, m.lastIndex, m.success));
      Election.CommitCastsNothing(t, m.lastIndex);
    case Joined(src, target, last) => Members.AddServerSets(s.cfg, src, target, last);
    case TooSlow(id) =>
      Members.RemoveServerUnique(s.cfg, id);
      Members.RemoveServerSets(s.cfg, id, Members.Voting);
  }

  lemma {:induction false} InForceForever(vs: set<ServerId>, s: Server, ss: seq<Server>, mvs: seq<Move>, i: nat)
    requires IsReign(s, ss, mvs) && i < |ss| && InForce(vs, s)
    ensures InForce(vs, ss[i])
  {
    if i > 0 {
      InForceForever(vs, s, ss, mvs, i - 1);
      assert MoveAt(ss, mvs, i - 1);
      MoveKeepsInForce(vs, ss[i - 1], mvs[i - 1]);
    }
  }

  /** The voting set the committed part of the log produces. */
  function CommittedVoters(vs: set<ServerId>, s: Server): set<ServerId>
    requires s.commit <= |s.log|
  {
    Rollback.Replay(vs, s.log[..s.commit])
  }

  /** Throughout the reign the voting set of the configuration in force and the committed one
      differ by at most one server. */
  lemma InForceNextToCommitted(vs: set<ServerId>, s: Server, ss: seq<Server>, mvs: seq<Move>, i: nat)
    returns (x: ServerId)
    requires IsReign(s, ss, mvs) && i < |ss| && Guarded(s) && InForce(vs, s)
    ensures ss[i].commit <= |ss[i].log|
    ensures Neighbours(CommittedVoters(vs, ss[i]), Members.Voters(ss[i].cfg), x)
  {
    GuardedForever(s, ss, mvs, i);
    InForceForever(vs, s, ss, mvs, i);
    x := LogNextToCommitted(vs, ss[i]);
  }

  /** So at every moment of the reign a majority the leader counts in its configuration, by the
      source's integer test, meets every majority of the committed voting set. */
  lemma CountedMeetsCommitted(vs: set<ServerId>, s: Server, ss: seq<Server>, mvs: seq<Move>, i: nat,
                              p: set<ServerId>, q: set<ServerId>)
    requires IsReign(s, ss, mvs) && i < |ss| && Guarded(s) && InForce(vs, s)
    requires q <= Members.Voters(ss[i].cfg) && Members.MajorityOfVotes(ss[i].cfg, |q|)
    requires ss[i].commit <= |ss[i].log| && p <= CommittedVoters(vs, ss[i]) && |p| > |CommittedVoters(vs, ss[i])| / 2
    ensures p * q != {}
  {
    var x := InForceNextToCommitted(vs, s, ss, mvs, i);
    MajoritiesMeet(CommittedVoters(vs, ss[i]), Members.Voters(ss[i].cfg), x, p, q);
  }

  lemma NeighbourSizes(a: set<ServerId>, b: set<ServerId>, x: ServerId)
    requires Neighbours(a, b, x)
    ensures |a + b| == (if x in a + b then |a - {x}| + 1 else |a|)
    ensures |a| == |a - {x}| + (if x in a then 1 else 0)
    ensures |b| == |a - {x}| + (if x in b then 1 else 0)
  {
    forall y | y != x ensures y in a <==> y in b {
      assert y in a - {x} <==> y in b - {x};
    }
    assert a + b == if x in a + b then (a - {x}) + {x} else a;
    assert a == if x in a then (a - {x}) + {x} else a - {x};
    assert b == if x in b then (a - {x}) + {x} else a - {x};
  }

  /** Majorities of neighbouring voting sets, by the source's integer test, share a member. */
  lemma MajoritiesMeet(a: set<ServerId>, b: set<ServerId>, x: ServerId, p: set<ServerId>, q: set<ServerId>)
    requires Neighbours(a, b, x) && p <= a && q <= b
    requires |p| > |a| / 2 && |q| > |b| / 2
    ensures p * q != {}
  {
    if p * q == {} {
      assert |p + q| == |p| + |q|;
      Election.SubsetSize(p + q, a + b);
      NeighbourSizes(a, b, x);
      assert false;
    }
  }
}
