/** State Machine Safety (section 5.4.3 of the Raft paper) does not hold. A follower drops its
    uncommitted entries on every request whose previous entry it lacks, and the first
    heartbeat of a new leader always is one. Three voting servers, no message delivered twice
    and none below a commit index: server 1 commits an entry held by servers 1 and 2, wins
    again, and its first heartbeat makes server 2 forget the entry; server 3 then wins with
    server 2's vote and commits another entry in its place. */
module Divergence {
  import opened Types
  import opened Members
  import opened Raft
  import opened Cluster
  import Changes
  import LogSpec
  import LogMatching

  const B: Entry := Entry(1, Noop, 0, 0, 0)

  function E(term: nat): Entry { Entry(term, Noop, 0, 0, 0) }

  /** The configuration: who voted for the owner, and the indexes kept for server 2 and for
      the others. */
  function Cfg(one: bool, two: bool, three: bool, next: nat, next2: nat, match2: nat): seq<Member> {
    [Member(1, "", true, one, next, 0, 0, 0),
     Member(2, "", true, two, next2, match2, 0, 0),
     Member(3, "", true, three, next, 0, 0, 0)]
  }

  function Fresh(next: nat): seq<Member> { Cfg(false, false, false, next, next, 0) }

  lemma Select3(q: Quality, one: bool, two: bool, three: bool, next: nat, next2: nat, match2: nat)
    ensures var c := Cfg(one, two, three, next, next2, match2);
            Select(c, q) == (if Fits(c[0], q) then {1} else {})
                          + (if Fits(c[1], q) then {2} else {}) + (if Fits(c[2], q) then {3} else {})
  {
    var c := Cfg(one, two, three, next, next2, match2);
    assert c[..2] == [c[0], c[1]] && c[..2][..1] == [c[0]] && c[..2][..1][..0] == [];
    assert Select([c[0]], q) == if Fits(c[0], q) then {1} else {} by { assert [c[0]][..0] == []; }
  }

  lemma Finds(c: seq<Member>)
    requires |c| == 3 && c[0].id == 1 && c[1].id == 2 && c[2].id == 3
    ensures UniqueIds(c) && Find(c, 1) == 0 && Find(c, 2) == 1 && Find(c, 3) == 2
  {
    assert Has(c, 1) && Has(c, 2) && Has(c, 3);
  }

  lemma CfgFacts(one: bool, two: bool, three: bool, next: nat, next2: nat, match2: nat)
    ensures var c := Cfg(one, two, three, next, next2, match2);
            && UniqueIds(c) && Voters(c) == {1, 2, 3} && |Voters(c)| == 3
            && Find(c, 1) == 0 && Find(c, 2) == 1 && Find(c, 3) == 2
  {
    Finds(Cfg(one, two, three, next, next2, match2));
    Select3(Voting, one, two, three, next, next2, match2);
  }

  lemma MatchFacts(one: bool, two: bool, three: bool, next: nat, next2: nat, match2: nat, n: nat)
    requires n > 0
    ensures |Matching(Cfg(one, two, three, next, next2, match2), n)| == if match2 >= n then 1 else 0
  {
    Select3(Holding(n), one, two, three, next, next2, match2);
  }

  // ---------- the servers ----------

  /** A follower that has not led since the start. */
  function F(id: ServerId, term: nat, voted: Option<ServerId>, log: seq<Entry>): Server {
    Server(id, Follower, term, voted, 0, Fresh(2), false, log, 1, 1)
  }

  function Marks(id: ServerId, voter: ServerId, next: nat, next2: nat, match2: nat): seq<Member> {
    Cfg(id == 1 || voter == 1, id == 2 || voter == 2, id == 3 || voter == 3, next, next2, match2)
  }

  // ---------- elections ----------

  lemma Campaigns(s: Server, one: bool, two: bool, three: bool, next: nat, next2: nat, match2: nat)
    requires s.cfg == Cfg(one, two, three, next, next2, match2) && (s.id == 1 || s.id == 3)
    requires s.role == Follower || s.role == Candidate
    ensures CanStartElection(s)
    ensures StartElection(s) == s.(role := Candidate, term := s.term + 1, votedFor := Some(s.id), rcvVotes := 1,
                                   cfg := Marks(s.id, s.id, next, next2, match2))
  {
    var reset := Cfg(false, false, false, next, next2, match2);
    assert ResetVotes(s.cfg) == reset;
    CfgFacts(false, false, false, next, next2, match2);
    CfgFacts(s.id == 1, s.id == 2, s.id == 3, next, next2, match2);
    assert IsNewVote(reset, s.id);
    assert SetNewVote(reset, s.id) == Marks(s.id, s.id, next, next2, match2);
  }

  lemma Wins(s: Server, voter: ServerId, next: nat, next2: nat, match2: nat)
    requires s.role == Candidate && s.rcvVotes == 1 && s.cfg == Marks(s.id, s.id, next, next2, match2)
    requires (s.id == 1 || s.id == 3) && 1 <= voter <= 3 && voter != s.id
    ensures OnVoteReply(s, VoteReply(voter, s.id, s.term, true))
         == s.(role := Leader, rcvVotes := 2, log := s.log + [E(s.term)],
               cfg := Marks(s.id, voter, |s.log| + 2, |s.log| + 2, 0))
  {
    MarksVote(s.id, voter, next, next2, match2);
    var v := Marks(s.id, voter, next, next2, match2);
    CfgFacts(s.id == 1 || voter == 1, s.id == 2 || voter == 2, s.id == 3 || voter == 3, next, next2, match2);
    assert SetAllIndexes(v, |s.log| + 1) == Marks(s.id, voter, |s.log| + 2, |s.log| + 2, 0);
  }

  lemma MarksVote(id: ServerId, voter: ServerId, next: nat, next2: nat, match2: nat)
    requires (id == 1 || id == 3) && 1 <= voter <= 3 && voter != id
    ensures IsNewVote(Marks(id, id, next, next2, match2), voter)
    ensures SetNewVote(Marks(id, id, next, next2, match2), voter) == Marks(id, voter, next, next2, match2)
  {
    Finds(Marks(id, id, next, next2, match2));
  }

  lemma Granted(s: Server, m: Message)
    requires m.VoteRequest? && m.term > s.term && s.log != []
    requires m.lastTerm > LastTerm(s) || (m.lastTerm == LastTerm(s) && m.lastIndex >= |s.log|)
    ensures OnVoteRequest(s, m, true)
         == (s.(term := m.term, votedFor := Some(m.src),
                role := if s.role == Leader || s.role == Candidate then Follower else s.role),
             VoteReply(s.id, m.src, m.term, true))
  {
  }

  /** A candidate whose log is behind is refused, but its term is taken over. */
  lemma Refused(s: Server, m: Message)
    requires m.VoteRequest? && m.term > s.term && s.role == Leader && s.log != [] && m.lastTerm < LastTerm(s)
    ensures OnVoteRequest(s, m, true).0 == s.(term := m.term, votedFor := None, role := Follower)
  {
  }

  // ---------- replication to server 2 ----------

  lemma Sends(s: Server, voter: ServerId, next: nat, next2: nat, match2: nat, k: nat)
    requires s.role == Leader && s.id != 2 && s.cfg == Marks(s.id, voter, next, next2, match2)
    requires 1 < next2 <= |s.log| + 1 && (match2 == next2 - 1 ==> next2 - 1 + k <= |s.log|)
    ensures CanSend(s, 2, k)
    ensures AppendRequestFor(s, 2, k)
         == AppendRequest(s.id, 2, s.term, next2 - 1, s.log[next2 - 2].term,
                          if match2 == next2 - 1 then s.log[next2 - 1..next2 - 1 + k] else [], s.commit)
  {
    assert Find(s.cfg, 2) == 1 by {
      Finds(s.cfg);
    }
    assert s.cfg[1].nextIndex == next2 && s.cfg[1].matchIndex == match2;
  }

  predicate Plain(es: seq<Entry>) {
    forall i :: 0 <= i < |es| ==> es[i].command == Noop
  }

  /** A previous entry the follower lacks: everything above its commit index goes. */
  lemma Rejects(f: Server, m: Message)
    requires m.AppendRequest? && f.commit == 1 && f.role == Follower && f.term <= m.term && Plain(f.log)
    requires 1 <= |f.log| < m.prevIndex
    ensures OnAppendRequest(f, m)
         == (f.(term := m.term, votedFor := if m.term > f.term then None else f.votedFor, log := f.log[..1]),
             AppendReply(f.id, m.src, m.term, 1, false))
  {
    LogSpec.TruncateIs(0, f.log, m.prevIndex, m.prevTerm, 1);
    Changes.NoConfigNoEffect(f.cfg, f.log[1..]);
  }

  /** A follower at the base log takes what follows it. */
  lemma Accepts(f: Server, m: Message)
    requires m.AppendRequest? && f.role == Follower && f.term == m.term && f.log == [B] && f.commit == 1
    requires m.prevIndex == 1 && m.prevTerm == 1 && m.leaderCommit == 1 && Plain(m.entries)
    ensures OnAppendRequest(f, m)
         == (f.(log := [B] + m.entries), AppendReply(f.id, m.src, m.term, 1 + |m.entries|, true))
  {
    assert f.log[1..] == [];
    Changes.NoConfigNoEffect(f.cfg, m.entries);
  }

  lemma Learns(s: Server, voter: ServerId, next: nat, next2: nat, match2: nat, last: nat, ok: bool)
    requires s.role == Leader && (s.id == 1 || s.id == 3) && s.cfg == Marks(s.id, voter, next, next2, match2)
    requires s.commit <= |s.log| && (ok ==> last <= s.commit)
    ensures OnAppendReply(s, AppendReply(2, s.id, s.term, last, ok))
         == s.(cfg := Marks(s.id, voter, next, last + 1, if ok then last else match2))
  {
    CfgFacts(s.id == 1 || voter == 1, s.id == 2 || voter == 2, s.id == 3 || voter == 3, next, next2, match2);
    assert SetIndexes(s.cfg, 2, last, ok) == Marks(s.id, voter, next, last + 1, if ok then last else match2);
  }

  lemma Commits(t: Server, voter: ServerId)
    requires t.role == Leader && t.cfg == Marks(t.id, voter, 3, 3, 2) && (t.id == 1 || t.id == 3)
    requires t.log == [B, E(t.term)] && t.commit == 1 == t.applied
    ensures Commit(t, 2) == t.(commit := 2, applied := 2)
  {
    var one, two, three := t.id == 1 || voter == 1, t.id == 2 || voter == 2, t.id == 3 || voter == 3;
    CfgFacts(one, two, three, 3, 3, 2);
    MatchFacts(one, two, three, 3, 3, 2, 2);
    assert LeaderScan(t, 2) == 2;
    assert Changes.NoConfig(t.log[1..2]);
    AppliesOne(t.(commit := 2));
  }

  lemma AppliesOne(u: Server)
    requires u.log == [B, E(u.term)] && u.commit == 2 && u.applied == 1
    ensures ApplyCommitted(u) == u.(applied := 2)
  {
    assert ApplyOne(u) == u.(applied := 2);
    assert ApplyCommitted(ApplyOne(u)) == ApplyOne(u);
  }

  lemma LearnsCommit(s: Server, voter: ServerId)
    requires s.role == Leader && (s.id == 1 || s.id == 3) && s.cfg == Marks(s.id, voter, 3, 2, 1)
    requires s.log == [B, E(s.term)] && s.commit == 1 == s.applied
    ensures OnAppendReply(s, AppendReply(2, s.id, s.term, 2, true))
         == s.(cfg := Marks(s.id, voter, 3, 3, 2), commit := 2, applied := 2)
  {
    CfgFacts(s.id == 1 || voter == 1, s.id == 2 || voter == 2, s.id == 3 || voter == 3, 3, 2, 1);
    assert SetIndexes(s.cfg, 2, 2, true) == Marks(s.id, voter, 3, 3, 2);
    Commits(s.(cfg := Marks(s.id, voter, 3, 3, 2)), voter);
  }

  // ---------- the run ----------

  /** The last state of some guarded run. */
  ghost predicate GuardedReachable(c: Cluster) {
    exists cs: seq<Cluster>, acts: seq<Action> :: LogMatching.GuardedRun(cs, acts) && cs[|cs| - 1] == c
  }

  ghost predicate Holds(c: Cluster, s: Server) {
    s.id in c.servers && c.servers[s.id] == s
  }

  lemma GuardedSnoc(cs: seq<Cluster>, acts: seq<Action>, act: Action)
    requires LogMatching.GuardedRun(cs, acts)
    requires var c := cs[|cs| - 1]; Enabled(c, act) && FixedVoting(c, act) && InPlace(c, act)
    ensures LogMatching.GuardedRun(cs + [Next(cs[|cs| - 1], act)], acts + [act])
  {
    RunSnoc(cs, acts, act);
    var cs', acts' := cs + [Next(cs[|cs| - 1], act)], acts + [act];
    forall i: nat | i < |acts'| ensures LogMatching.GuardedAt(cs', acts', i) {
      assert StepAt(cs', acts', i);
      assert i < |acts| ==> LogMatching.GuardedAt(cs, acts, i);
    }
  }

  /** Server t.id takes a step to t and sends `out`; the others stay as they are. */
  lemma Step(c: Cluster, act: Action, t: Server, out: set<Message>) returns (d: Cluster)
    requires GuardedReachable(c) && t.id in c.servers && Enabled(c, act) && FixedVoting(c, act) && InPlace(c, act)
    requires Next(c, act) == Update(c, t, out)
    ensures GuardedReachable(d) && d.servers == c.servers[t.id := t] && d.net == c.net + out
  {
    var cs: seq<Cluster>, acts: seq<Action> :| LogMatching.GuardedRun(cs, acts) && cs[|cs| - 1] == c;
    GuardedSnoc(cs, acts, act);
    d := Next(c, act);
    var cs' := cs + [d];
    assert cs'[|cs'| - 1] == d;
  }

  lemma FreshOk(c: Cluster, x: ServerId)
    requires c.base == [B] && c.voters == {1, 2, 3}
    ensures InitServerOk(c, x, F(x, 1, None, [B]))
  {
    CfgFacts(false, false, false, 2, 2, 0);
    Select3(VotedForMe, false, false, false, 2, 2, 0);
  }

  lemma Begin() returns (c: Cluster)
    ensures GuardedReachable(c)
    ensures c.servers == map[1 := F(1, 1, None, [B]), 2 := F(2, 1, None, [B]), 3 := F(3, 1, None, [B])]
  {
    c := Cluster([B], {1, 2, 3}, map[1 := F(1, 1, None, [B]), 2 := F(2, 1, None, [B]), 3 := F(3, 1, None, [B])],
                 {}, {}, {}, map[]);
    forall x | x in c.servers ensures InitServerOk(c, x, c.servers[x]) {
      FreshOk(c, x);
    }
    var none: seq<Action> := [];
    assert LogMatching.GuardedRun([c], none) && [c][|[c]| - 1] == c;
  }

  /** A timeout at server s that does not win at once. */
  lemma TimesOut(c: Cluster, s: Server, one: bool, two: bool, three: bool, next: nat, next2: nat, match2: nat)
    returns (d: Cluster, t: Server)
    requires GuardedReachable(c) && Holds(c, s) && s.commit <= |s.log| && s.log != []
    requires s.cfg == Cfg(one, two, three, next, next2, match2) && (s.id == 1 || s.id == 3)
    requires s.role == Follower || s.role == Candidate
    ensures t == s.(role := Candidate, term := s.term + 1, votedFor := Some(s.id), rcvVotes := 1,
                    cfg := Marks(s.id, s.id, next, next2, match2))
    ensures GuardedReachable(d) && d.servers == c.servers[s.id := t] && c.net <= d.net
    ensures VoteRequest(s.id, t.term, |s.log|, s.log[|s.log| - 1].term) in d.net
  {
    Campaigns(s, one, two, three, next, next2, match2);
    t := StartElection(s);
    d := Step(c, Timeout(s.id), t, {VoteRequest(t.id, t.term, |t.log|, LastTerm(t))});
  }

  /** Server s grants candidate x its vote, and x has its majority. */
  lemma GetsElected(c: Cluster, x: Server, s: Server, next: nat, next2: nat, match2: nat)
    returns (d: Cluster, lead: Server, v: Server)
    requires GuardedReachable(c) && Holds(c, x) && Holds(c, s) && x.id != s.id && 1 <= s.id <= 3
    requires x.role == Candidate && x.rcvVotes == 1 && x.cfg == Marks(x.id, x.id, next, next2, match2)
    requires (x.id == 1 || x.id == 3) && x.commit <= |x.log| && s.commit <= |s.log|
    requires x.log != [] && s.log != [] && x.term > s.term
    requires VoteRequest(x.id, x.term, |x.log|, LastTerm(x)) in c.net
    requires LastTerm(x) > LastTerm(s) || (LastTerm(x) == LastTerm(s) && |x.log| >= |s.log|)
    ensures lead == x.(role := Leader, rcvVotes := 2, log := x.log + [E(x.term)],
                       cfg := Marks(x.id, s.id, |x.log| + 2, |x.log| + 2, 0))
    ensures v == s.(term := x.term, votedFor := Some(x.id),
                    role := if s.role == Leader || s.role == Candidate then Follower else s.role)
    ensures GuardedReachable(d) && d.servers == c.servers[s.id := v][x.id := lead] && c.net <= d.net
  {
    var m := VoteRequest(x.id, x.term, |x.log|, LastTerm(x));
    Granted(s, m);
    v := OnVoteRequest(s, m, true).0;
    var reply := VoteReply(s.id, x.id, x.term, true);
    var e := Step(c, VoteReq(s.id, m, true), v, {reply});
    Wins(x, s.id, next, next2, match2);
    lead := OnVoteReply(x, reply);
    d := Step(e, VoteRep(x.id, reply), lead, {});
  }

  /** Leader s sends to server 2, which becomes f'; the reply makes the leader s'. */
  lemma Exchange(c: Cluster, s: Server, f: Server, k: nat, m: Message, f': Server, r: Message, s': Server)
    returns (d: Cluster)
    requires GuardedReachable(c) && Holds(c, s) && Holds(c, f) && f.id == 2 == f'.id && s.id != 2 && s'.id == s.id
    requires s.commit <= |s.log| && f.commit <= |f.log| && CanSend(s, 2, k) && AppendRequestFor(s, 2, k) == m
    requires m.prevIndex >= f.commit && Plain(m.entries) && Plain(f.log) && m.dst == 2
    requires OnAppendRequest(f, m) == (f', r) && r.AppendReply? && r.dst == s.id && OnAppendReply(s, r) == s'
    ensures GuardedReachable(d) && d.servers == c.servers[2 := f'][s.id := s'] && c.net <= d.net
  {
    var e := Step(c, Send(s.id, 2, k), s, {m});
    assert e.servers == c.servers;
    e := Step(e, AppendReq(2, m), f', {r});
    d := Step(e, AppendRep(s.id, r), s', {});
  }

  /** A leader in term with one entry of its own, and what it knows of server 2. */
  ghost predicate Leads(s: Server, next2: nat, match2: nat) {
    && (s.id == 1 || s.id == 3) && s.role == Leader && s.cfg == Marks(s.id, 2, 3, next2, match2)
    && s.log == [B, E(s.term)] && s.commit == 1 == s.applied
  }

  /** Server 2 follows in the same term with the base log only. */
  ghost predicate Follows(f: Server, term: nat) {
    f.id == 2 && f.role == Follower && f.term == term && f.log == [B] && f.commit == 1
  }

  /** The first heartbeat names an entry server 2 does not have. */
  lemma Round1(c: Cluster, s: Server, f: Server) returns (d: Cluster)
    requires GuardedReachable(c) && Holds(c, s) && Holds(c, f) && Leads(s, 3, 0) && Follows(f, s.term)
    ensures GuardedReachable(d) && d.servers == c.servers[2 := f][s.id := s.(cfg := Marks(s.id, 2, 3, 2, 0))]
  {
    var m := AppendRequest(s.id, 2, s.term, 2, s.term, [], 1);
    Sends(s, 2, 3, 3, 0, 0);
    Rejects(f, m);
    assert [B][..1] == [B];
    Learns(s, 2, 3, 3, 0, 1, false);
    d := Exchange(c, s, f, 0, m, f, AppendReply(2, s.id, s.term, 1, false), s.(cfg := Marks(s.id, 2, 3, 2, 0)));
  }

  /** The second one names the base entry. */
  lemma Round2(c: Cluster, s: Server, f: Server) returns (d: Cluster)
    requires GuardedReachable(c) && Holds(c, s) && Holds(c, f) && Leads(s, 2, 0) && Follows(f, s.term)
    ensures GuardedReachable(d) && d.servers == c.servers[2 := f][s.id := s.(cfg := Marks(s.id, 2, 3, 2, 1))]
  {
    var m := AppendRequest(s.id, 2, s.term, 1, 1, [], 1);
    Sends(s, 2, 3, 2, 0, 0);
    Accepts(f, m);
    assert [B] + [] == [B];
    Learns(s, 2, 3, 2, 0, 1, true);
    d := Exchange(c, s, f, 0, m, f, AppendReply(2, s.id, s.term, 1, true), s.(cfg := Marks(s.id, 2, 3, 2, 1)));
  }

  /** The third one carries the entry, and the leader commits it. */
  lemma Round3(c: Cluster, s: Server, f: Server) returns (d: Cluster)
    requires GuardedReachable(c) && Holds(c, s) && Holds(c, f) && Leads(s, 2, 1) && Follows(f, s.term)
    ensures GuardedReachable(d)
    ensures d.servers == c.servers[2 := f.(log := [B, E(s.term)])]
                                  [s.id := s.(cfg := Marks(s.id, 2, 3, 3, 2), commit := 2, applied := 2)]
  {
    var m := AppendRequest(s.id, 2, s.term, 1, 1, [E(s.term)], 1);
    Sends(s, 2, 3, 2, 1, 1);
    assert s.log[1..2] == [E(s.term)];
    Accepts(f, m);
    assert [B] + [E(s.term)] == [B, E(s.term)];
    LearnsCommit(s, 2);
    d := Exchange(c, s, f, 1, m, f.(log := [B, E(s.term)]), AppendReply(2, s.id, s.term, 2, true),
                  s.(cfg := Marks(s.id, 2, 3, 3, 2), commit := 2, applied := 2));
  }

  /** A new leader brings server 2 its first entry in three rounds, and commits it. */
  lemma Replicates(c: Cluster, s: Server, f: Server) returns (d: Cluster, s': Server, f': Server)
    requires GuardedReachable(c) && Holds(c, s) && Holds(c, f) && Leads(s, 3, 0) && Follows(f, s.term)
    ensures s' == s.(cfg := Marks(s.id, 2, 3, 3, 2), commit := 2, applied := 2)
    ensures f' == f.(log := [B, E(s.term)])
    ensures GuardedReachable(d) && d.servers == c.servers[2 := f'][s.id := s']
  {
    d := Round1(c, s, f);
    d := Round2(d, s.(cfg := Marks(s.id, 2, 3, 2, 0)), f);
    d := Round3(d, s.(cfg := Marks(s.id, 2, 3, 2, 1)), f);
    s', f' := s.(cfg := Marks(s.id, 2, 3, 3, 2), commit := 2, applied := 2), f.(log := [B, E(s.term)]);
  }

  /** Server 1 leads term 2 and commits its entry with server 2. */
  lemma FirstReign() returns (c: Cluster, one: Server, two: Server)
    ensures GuardedReachable(c) && c.servers == map[1 := one, 2 := two, 3 := F(3, 1, None, [B])]
    ensures one == Server(1, Leader, 2, Some(1), 2, Marks(1, 2, 3, 3, 2), false, [B, E(2)], 2, 2)
    ensures two == F(2, 2, Some(1), [B, E(2)])
  {
    c := Begin();
    var a: Server;
    c, a := TimesOut(c, F(1, 1, None, [B]), false, false, false, 2, 2, 0);
    c, a, two := GetsElected(c, a, F(2, 1, None, [B]), 2, 2, 0);
    assert [B] + [E(2)] == [B, E(2)];
    c, one, two := Replicates(c, a, two);
  }

  /** Server 3 times out twice and its request makes server 1 step down. */
  lemma StepsDown() returns (c: Cluster, one: Server, two: Server, three: Server)
    ensures GuardedReachable(c) && c.servers == map[1 := one, 2 := two, 3 := three]
    ensures one == Server(1, Follower, 3, None, 2, Marks(1, 2, 3, 3, 2), false, [B, E(2)], 2, 2)
    ensures two == F(2, 2, Some(1), [B, E(2)])
    ensures three == Server(3, Candidate, 3, Some(3), 1, Marks(3, 3, 2, 2, 0), false, [B], 1, 1)
  {
    c, one, two := FirstReign();
    c, three := TimesOut(c, F(3, 1, None, [B]), false, false, false, 2, 2, 0);
    c, three := TimesOut(c, three, false, false, true, 2, 2, 0);
    var m := VoteRequest(3, 3, 1, 1);
    Refused(one, m);
    var reply := OnVoteRequest(one, m, true).1;
    var a := one.(term := 3, votedFor := None, role := Follower);
    c := Step(c, VoteReq(1, m, true), a, {reply});
    one := a;
  }

  /** Server 1 wins again with server 3's vote; its first heartbeat makes server 2 drop the
      committed entry. */
  lemma Forgets() returns (c: Cluster, one: Server, two: Server, three: Server)
    ensures GuardedReachable(c) && c.servers == map[1 := one, 2 := two, 3 := three]
    ensures one.id == 1 && one.log == [B, E(2), E(4)] && one.commit == 2 == one.applied
    ensures two == F(2, 4, None, [B])
    ensures three == Server(3, Follower, 4, Some(1), 1, Marks(3, 3, 2, 2, 0), false, [B], 1, 1)
  {
    c, one, two, three := StepsDown();
    c, one := TimesOut(c, one, true, true, false, 3, 3, 2);
    c, one, three := GetsElected(c, one, three, 3, 3, 2);
    assert [B, E(2)] + [E(4)] == [B, E(2), E(4)];
    var m := AppendRequest(1, 2, 4, 3, 4, [], 2);
    Sends(one, 3, 4, 4, 0, 0);
    Rejects(two, m);
    assert [B, E(2)][..1] == [B];
    var f, r := OnAppendRequest(two, m).0, OnAppendRequest(two, m).1;
    c := Step(c, Send(1, 2, 0), one, {m});
    c := Step(c, AppendReq(2, m), f, {r});
    two := f;
  }

  /** Two servers have committed, and applied, different entries at index 2. */
  lemma CommittedEntriesDiffer() returns (c: Cluster)
    ensures GuardedReachable(c) && 1 in c.servers && 3 in c.servers
    ensures var a, b := c.servers[1], c.servers[3];
            && a.applied == 2 == b.applied && |a.log| >= 2 && |b.log| >= 2 && a.log[1] != b.log[1]
  {
    var one, two, three, b;
    c, one, two, three := Forgets();
    c, b := TimesOut(c, three, false, false, true, 2, 2, 0);
    c, b, two := GetsElected(c, b, two, 2, 2, 0);
    assert [B] + [E(5)] == [B, E(5)];
    c, b, two := Replicates(c, b, two);
  }
}
