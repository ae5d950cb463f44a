/** Log Matching needs its guard. A request delivered twice, the second time after the follower
    has committed past its previous index, is accepted again and its entries are appended a
    second time under new indexes. */
module Renumbering {
  import opened Types
  import opened Members
  import opened Raft
  import opened Cluster
  import Changes

  const N1: Entry := Entry(1, Noop, 0, 0, 0)
  const E1: Entry := Entry(1, Regular(7), 0, 0, 0)

  function Cfg(mark: bool, next: nat, matched: nat): seq<Member> {
    [Member(1, "", true, mark, if mark then 2 else 1, 0, 0, 0), Member(2, "", false, false, next, matched, 0, 0)]
  }

  /** Server 1, the only voter, and server 2, which only follows. */
  function One(next: nat, matched: nat, log: seq<Entry>, commit: nat): Server {
    Server(1, Leader, 1, Some(1), 1, Cfg(true, next, matched), false, log, commit, commit)
  }

  function Two(term: nat, log: seq<Entry>, commit: nat): Server {
    Server(2, Follower, term, None, 0, Cfg(false, 1, 0), false, log, commit, commit)
  }

  const Start: Server := Server(1, Follower, 0, None, 0, Cfg(false, 1, 0), false, [], 0, 0)

  const Entries1: Message := AppendRequest(1, 2, 1, 0, 0, [N1], 0)
  const Reply1: Message := AppendReply(2, 1, 1, 1, true)
  const Commit1: Message := AppendRequest(1, 2, 1, 1, 1, [], 1)

  lemma CfgSets(mark: bool, next: nat, matched: nat)
    ensures var c := Cfg(mark, next, matched);
            UniqueIds(c) && Voters(c) == {1} && Marked(c) == (if mark then {1} else {})
            && Find(c, 1) == 0 && Find(c, 2) == 1
    ensures forall n: nat :: n > 0 ==> Matching(Cfg(mark, next, matched), n) == {}
  {
    var c := Cfg(mark, next, matched);
    assert c[..1] == [c[0]] && c[..1][..0] == [];
    forall n: nat | n > 0 ensures Matching(c, n) == {} {
      assert Select(c[..1], Holding(n)) == {};
    }
    assert Select(c[..1], Voting) == {1};
    assert Select(c[..1], VotedForMe) == if mark then {1} else {};
    assert c[1..][0].id == 2;
    assert Has(c, 1) by { assert c[0].id == 1; }
    assert Has(c, 2) by { assert c[1].id == 2; }
  }

  lemma Elect()
    ensures CanStartElection(Start) && StartElection(Start) == One(2, 0, [N1], 0)
  {
    CfgSets(false, 1, 0);
    var r := ResetVotes(Cfg(false, 1, 0));
    assert r == Cfg(false, 1, 0);
    var v := SetNewVote(r, 1);
    FirstVote(Cfg(false, 1, 0), 1);
    assert v[0] == Member(1, "", true, true, 1, 0, 0, 0) && v[1] == Member(2, "", false, false, 1, 0, 0, 0);
    assert SetAllIndexes(v, 1) == Cfg(true, 2, 0);
  }

  lemma Reset()
    ensures OnMembership(One(2, 0, [N1], 0), 2, "", 0) == One(1, 0, [N1], 0)
  {
    CfgSets(true, 2, 0);
  }

  lemma SendEntries()
    ensures CanSend(One(1, 0, [N1], 0), 2, 1) && AppendRequestFor(One(1, 0, [N1], 0), 2, 1) == Entries1
  {
    CfgSets(true, 1, 0);
  }

  lemma {:induction false} PlainEntries(ms: seq<Member>, es: seq<Entry>)
    requires forall i :: 0 <= i < |es| ==> es[i] == N1
    ensures Changes.ApplyAll(ms, es) == ms && Changes.UndoAll(ms, es) == ms
  {
    Changes.NoConfigNoEffect(ms, es);
  }

  lemma Receive()
    ensures OnAppendRequest(Two(0, [], 0), Entries1) == (Two(1, [N1], 0), Reply1)
  {
    PlainEntries(Cfg(false, 1, 0), [N1]);
    PlainEntries(Cfg(false, 1, 0), []);
    var none: seq<Entry> := [];
    assert none[0..] == none && none + [N1] == [N1];
  }

  lemma Acknowledge()
    ensures OnAppendReply(One(1, 0, [N1], 0), Reply1) == One(2, 1, [N1], 1)
  {
    CfgSets(true, 1, 0);
    CfgSets(true, 2, 1);
    var t := One(2, 1, [N1], 0);
    assert SetIndexes(Cfg(true, 1, 0), 2, 1, true) == Cfg(true, 2, 1);
    assert MajorityOfMatch(t.cfg, 1);
    assert LeaderScan(t, 1) == 1;
    assert ApplyOne(t.(commit := 1)) == One(2, 1, [N1], 1);
    assert ApplyCommitted(t.(commit := 1)) == One(2, 1, [N1], 1);
    assert Commit(t, 1) == One(2, 1, [N1], 1);
  }

  lemma SendCommit()
    ensures CanSend(One(2, 1, [N1], 1), 2, 0) && AppendRequestFor(One(2, 1, [N1], 1), 2, 0) == Commit1
  {
    CfgSets(true, 2, 1);
  }

  lemma ReceiveCommit()
    ensures OnAppendRequest(Two(1, [N1], 0), Commit1).0 == Two(1, [N1], 1)
  {
    PlainEntries(Cfg(false, 1, 0), []);
    assert [N1][1..] == [] && [N1] + [] == [N1];
    var v := Two(1, [N1], 0);
    assert ApplyOne(v.(commit := 1)) == Two(1, [N1], 1);
  }

  /** The same entries again, now below the commit index: entry 1 becomes entry 2. */
  lemma ReceiveAgain()
    ensures OnAppendRequest(Two(1, [N1], 1), Entries1).0 == Two(1, [N1, N1], 1)
  {
    PlainEntries(Cfg(false, 1, 0), [N1]);
    PlainEntries(Cfg(false, 1, 0), []);
    assert [N1][1..] == [] && [N1] + [N1] == [N1, N1];
  }

  /** The last state of some run. */
  ghost predicate Reachable(c: Cluster) {
    exists cs: seq<Cluster>, acts: seq<Action> :: IsRun(cs, acts) && cs[|cs| - 1] == c
  }

  lemma ReachableNext(c: Cluster, act: Action)
    requires Reachable(c) && Enabled(c, act) && FixedVoting(c, act)
    ensures Reachable(Next(c, act))
  {
    var cs: seq<Cluster>, acts: seq<Action> :| IsRun(cs, acts) && cs[|cs| - 1] == c;
    RunSnoc(cs, acts, act);
    var cs' := cs + [Next(c, act)];
    assert cs'[|cs'| - 1] == Next(c, act);
  }

  /** The two servers are a and b, and these messages have been sent. */
  ghost predicate At(c: Cluster, a: Server, b: Server, sent: set<Message>) {
    c.servers == map[1 := a, 2 := b] && sent <= c.net
  }

  lemma Begin() returns (c: Cluster)
    ensures Reachable(c) && At(c, Start, Two(0, [], 0), {})
  {
    c := Cluster([], {1}, map[1 := Start, 2 := Two(0, [], 0)], {}, {}, {}, map[]);
    CfgSets(false, 1, 0);
    assert InitServerOk(c, 1, Start) && InitServerOk(c, 2, Two(0, [], 0));
    assert IsRun([c], []) && [c][|[c]| - 1] == c;
  }

  lemma Step(c: Cluster, act: Action, t: Server, out: set<Message>)
    requires Reachable(c) && t.id in c.servers && Enabled(c, act) && FixedVoting(c, act)
    requires Next(c, act) == Update(c, t, out)
    ensures Reachable(Update(c, t, out))
  {
    ReachableNext(c, act);
  }

  lemma Take(c: Cluster, a: Server, b: Server, sent: set<Message>, t: Server, out: set<Message>) returns (d: Cluster)
    requires At(c, a, b, sent) && a.id == 1 && b.id == 2 && (t.id == 1 || t.id == 2)
    requires Reachable(Update(c, t, out))
    ensures Reachable(d) && At(d, if t.id == 1 then t else a, if t.id == 2 then t else b, sent + out)
  {
    d := Update(c, t, out);
  }

  lemma Elected() returns (c: Cluster)
    ensures Reachable(c) && At(c, One(2, 0, [N1], 0), Two(0, [], 0), {})
  {
    c := Begin();
    Elect();
    Step(c, Timeout(1), One(2, 0, [N1], 0), {});
    c := Take(c, Start, Two(0, [], 0), {}, One(2, 0, [N1], 0), {});
  }

  lemma Sent() returns (c: Cluster)
    ensures Reachable(c) && At(c, One(1, 0, [N1], 0), Two(0, [], 0), {Entries1})
  {
    c := Elected();
    Reset();
    Step(c, Join(1, 2, "", 0), One(1, 0, [N1], 0), {});
    c := Take(c, One(2, 0, [N1], 0), Two(0, [], 0), {}, One(1, 0, [N1], 0), {});
    SendEntries();
    Step(c, Send(1, 2, 1), One(1, 0, [N1], 0), {Entries1});
    c := Take(c, One(1, 0, [N1], 0), Two(0, [], 0), {}, One(1, 0, [N1], 0), {Entries1});
  }

  /** The follower takes the first entry. */
  lemma FirstHalf() returns (c: Cluster)
    ensures Reachable(c) && At(c, One(1, 0, [N1], 0), Two(1, [N1], 0), {Entries1, Reply1})
  {
    c := Sent();
    Receive();
    Step(c, AppendReq(2, Entries1), Two(1, [N1], 0), {Reply1});
    c := Take(c, One(1, 0, [N1], 0), Two(0, [], 0), {Entries1}, Two(1, [N1], 0), {Reply1});
  }

  /** The leader commits it and tells the follower. */
  lemma SecondHalf() returns (c: Cluster)
    ensures Reachable(c) && At(c, One(2, 1, [N1], 1), Two(1, [N1], 1), {Entries1})
  {
    c := FirstHalf();
    Acknowledge();
    Step(c, AppendRep(1, Reply1), One(2, 1, [N1], 1), {});
    c := Take(c, One(1, 0, [N1], 0), Two(1, [N1], 0), {Entries1, Reply1}, One(2, 1, [N1], 1), {});
    SendCommit();
    Step(c, Send(1, 2, 0), One(2, 1, [N1], 1), {Commit1});
    c := Take(c, One(2, 1, [N1], 1), Two(1, [N1], 0), {Entries1, Reply1}, One(2, 1, [N1], 1), {Commit1});
    ReceiveCommit();
    Step(c, AppendReq(2, Commit1), Two(1, [N1], 1), {OnAppendRequest(Two(1, [N1], 0), Commit1).1});
    c := Take(c, One(2, 1, [N1], 1), Two(1, [N1], 0), {Entries1, Reply1, Commit1}, Two(1, [N1], 1),
              {OnAppendRequest(Two(1, [N1], 0), Commit1).1});
  }

  /** The network delivers the first request once more. */
  lemma Duplicated() returns (c: Cluster)
    ensures Reachable(c) && At(c, One(2, 1, [N1], 1), Two(1, [N1, N1], 1), {})
  {
    c := SecondHalf();
    ReceiveAgain();
    Step(c, AppendReq(2, Entries1), Two(1, [N1, N1], 1), {OnAppendRequest(Two(1, [N1], 1), Entries1).1});
    c := Take(c, One(2, 1, [N1], 1), Two(1, [N1], 1), {Entries1}, Two(1, [N1, N1], 1),
              {OnAppendRequest(Two(1, [N1], 1), Entries1).1});
  }

  /** A reachable state, with the voting set fixed, in which two servers hold different entries
      of the same term at the same index. The run's only request below the receiver's commit
      index is the duplicate. */
  lemma UnguardedRunBreaksLogMatching() returns (c: Cluster)
    ensures Reachable(c)
    ensures && 1 in c.servers && 2 in c.servers
            && |c.servers[1].log| == |c.servers[2].log| == 2
            && c.servers[1].log[1].term == c.servers[2].log[1].term
            && c.servers[1].log[1] != c.servers[2].log[1]
  {
    c := Duplicated();
    assert AppendEntry(One(2, 1, [N1], 1), E1) == One(2, 1, [N1, E1], 1);
    Step(c, Propose(1, E1), One(2, 1, [N1, E1], 1), {});
    c := Take(c, One(2, 1, [N1], 1), Two(1, [N1, N1], 1), {}, One(2, 1, [N1, E1], 1), {});
  }
}
