/** The leader's commit rule (section 5.4.2 of the Raft paper) and the shortcut the source takes
    when it counts replicas. */
module CommitRule {
  import opened Types
  import opened Members
  import opened Raft
  import opened Cluster
  import Election
  import LogMatching
  import Changes
  import LogSpec

  /** The voting members that hold entry n: the leader itself, and those known to match. */
  function Holders(s: Server, n: nat): set<ServerId> {
    set v | v in Voters(s.cfg) && (v == s.id || MatchOf(s.cfg, v) >= n)
  }

  /** Entry n may be committed by counting replicas. */
  ghost predicate Committable(s: Server, n: nat) {
    && s.commit < n <= |s.log|
    && s.log[n - 1].term == s.term
    && 2 * |Holders(s, n)| > |Voters(s.cfg)|
  }

  lemma MatchingIsMatchOf(ms: seq<Member>, n: nat, v: ServerId)
    requires UniqueIds(ms)
    ensures v in Matching(ms, n) <==> v in Voters(ms) && MatchOf(ms, v) >= n
  {
    InSelectUnique(ms, Holding(n), v);
    InSelectUnique(ms, Voting, v);
  }

  /** "count + 1" is the true number of holders because the leader's own match index is 0. */
  lemma CountPlusOne(s: Server, n: nat)
    requires UniqueIds(s.cfg) && s.id in Voters(s.cfg) && MatchOf(s.cfg, s.id) == 0 && n > 0
    ensures |Holders(s, n)| == |Matching(s.cfg, n)| + 1
    ensures MajorityOfMatch(s.cfg, n) <==> 2 * |Holders(s, n)| > |Voters(s.cfg)|
  {
    var m := Matching(s.cfg, n);
    forall v ensures v in Holders(s, n) <==> v in m + {s.id} {
      MatchingIsMatchOf(s.cfg, n, v);
    }
    assert Holders(s, n) == m + {s.id};
    MatchingIsMatchOf(s.cfg, n, s.id);
    assert s.id !in m;
  }

  /** Below an entry of an older term nothing is in the current one. */
  lemma OlderTermStops(s: Server, n: nat, k: nat)
    requires NonDecreasing(s.log) && LogMatching.TermsUpTo(s.log, s.term) && k <= n <= |s.log|
    requires n > 0 && s.log[n - 1].term != s.term
    ensures !Committable(s, k)
  {
    if s.commit < k {
      assert s.log[k - 1].term <= s.log[n - 1].term;
    }
  }

  lemma CommittableIsMajority(s: Server, n: nat)
    requires UniqueIds(s.cfg) && s.id in Voters(s.cfg) && MatchOf(s.cfg, s.id) == 0
    requires s.commit < n <= |s.log| && s.log[n - 1].term == s.term
    ensures Committable(s, n) <==> MajorityOfMatch(s.cfg, n)
  {
    CountPlusOne(s, n);
  }

  /** r is the highest committable index up to n, or the commit index when there is none. */
  ghost predicate IsHighest(s: Server, n: nat, r: nat) {
    && (r > s.commit ==> Committable(s, r) && r <= n)
    && forall k :: r < k <= n ==> !Committable(s, k)
  }

  lemma HighestBelow(s: Server, n: nat, r: nat)
    requires n > 0 && IsHighest(s, n - 1, r) && !Committable(s, n)
    ensures IsHighest(s, n, r)
  {
  }

  lemma NoneHighest(s: Server, n: nat)
    requires NonDecreasing(s.log) && LogMatching.TermsUpTo(s.log, s.term) && 0 < n <= |s.log|
    requires s.log[n - 1].term != s.term
    ensures IsHighest(s, n, s.commit)
  {
    forall k | s.commit < k <= n ensures !Committable(s, k) {
      OlderTermStops(s, n, k);
    }
  }

  lemma ItselfHighest(s: Server, n: nat)
    requires Committable(s, n)
    ensures IsHighest(s, n, n)
  {
  }

  /** For a voting leader whose log terms do not decrease, the downward search finds exactly the
      highest committable index up to the proposal, and nothing when there is none. */
  lemma {:induction false} ScanFindsHighest(s: Server, n: nat)
    requires UniqueIds(s.cfg) && s.id in Voters(s.cfg) && MatchOf(s.cfg, s.id) == 0
    requires NonDecreasing(s.log) && LogMatching.TermsUpTo(s.log, s.term) && s.commit <= |s.log|
    requires n <= |s.log|
    ensures IsHighest(s, n, LeaderScan(s, n))
    decreases n
  {
    if n > s.commit {
      if s.log[n - 1].term != s.term {
        NoneHighest(s, n);
      } else {
        CommittableIsMajority(s, n);
        if MajorityOfMatch(s.cfg, n) {
          ItselfHighest(s, n);
        } else {
          ScanFindsHighest(s, n - 1);
          HighestBelow(s, n, LeaderScan(s, n - 1));
        }
      }
    }
  }

  // ---------- the hypotheses of the rule hold in every run ----------

  /** Candidates and leaders are voters, and a leader has never counted a reply from itself. */
  ghost predicate OwnInv(voters: set<ServerId>, s: Server) {
    && (s.role == Candidate || s.role == Leader ==> s.id in voters)
    && (s.role == Leader ==> MatchOf(s.cfg, s.id) == 0)
  }

  ghost predicate NotToSelf(m: Message) {
    m.AppendRequest? || m.AppendReply? ==> m.src != m.dst
  }

  ghost predicate LeaderInv(c: Cluster) {
    && (forall x :: x in c.servers ==> OwnInv(c.voters, c.servers[x]))
    && (forall m :: m in c.net ==> NotToSelf(m))
  }

  lemma MatchOfOps(ms: seq<Member>, id: ServerId, other: ServerId, target: Target, last: nat, success: bool)
    requires other != id
    ensures MatchOf(SetAllIndexes(ms, last), id) == 0
    ensures MatchOf(SetIndexes(ms, other, last, success), id) == MatchOf(ms, id)
    ensures MatchOf(AddServer(ms, other, target, last), id) == MatchOf(ms, id)
  {
    FindSameIds(ms, SetAllIndexes(ms, last), id);
    FindSameIds(ms, SetIndexes(ms, other, last, success), id);
    var r := AddServer(ms, other, target, last);
    if Has(ms, id) || Has(ms, other) {
      FindSameIds(ms, r, id);
    }
  }

  lemma CommitKeepsOwn(voters: set<ServerId>, s: Server, n: nat)
    requires OwnInv(voters, s) && s.commit <= |s.log|
    ensures OwnInv(voters, Commit(s, n)) && Commit(s, n).id == s.id
  {
    Election.CommitCastsNothing(s, n);
  }

  lemma NewLeaderOwn(voters: set<ServerId>, u: Server)
    requires u.id in voters
    ensures OwnInv(voters, BecomeLeader(u))
  {
    MatchOfOps(u.cfg, u.id, u.id + 1, "", |u.log| + 1, true);
  }

  lemma TimeoutKeepsOwn(voters: set<ServerId>, s: Server)
    requires UniqueIds(s.cfg) && Voters(s.cfg) == voters && CanStartElection(s)
    ensures OwnInv(voters, StartElection(s)) && StartElection(s).id == s.id
  {
    FirstVote(s.cfg, s.id);
    NewLeaderOwn(voters, Campaigning(s));
  }

  lemma VoteReplyKeepsOwn(voters: set<ServerId>, s: Server, m: Message)
    requires OwnInv(voters, s) && m.VoteReply?
    ensures OwnInv(voters, OnVoteReply(s, m)) && OnVoteReply(s, m).id == s.id
  {
    if s.role == Candidate {
      NewLeaderOwn(voters, s.(cfg := SetNewVote(s.cfg, m.src), rcvVotes := s.rcvVotes + 1));
    }
  }

  lemma AppendRequestKeepsOwn(voters: set<ServerId>, s: Server, m: Message)
    requires OwnInv(voters, s) && m.AppendRequest? && s.commit <= |s.log|
    requires Changes.NoConfig(m.entries)
    requires Changes.NoConfig(s.log[|LogSpec.Kept(0, s.log, m.prevIndex, m.prevTerm, s.commit)|..])
    ensures var (t, r) := OnAppendRequest(s, m); OwnInv(voters, t) && t.id == s.id && (m.src != s.id ==> NotToSelf(r))
  {
    var t := MatchTerms(s, m.term);
    if m.term >= s.term {
      var u := DropConflicts(t, m.prevIndex, m.prevTerm);
      Changes.NoConfigNoEffect(t.cfg, t.log[|u.log|..]);
      Changes.NoConfigNoEffect(u.cfg, m.entries);
      if LogSpec.PrevMatches(0, u.log, m.prevIndex, m.prevTerm, 0, 0) {
        CommitKeepsOwn(voters, AppendAll(u, m.entries), m.leaderCommit);
      }
    }
  }

  lemma AppendReplyKeepsOwn(voters: set<ServerId>, s: Server, m: Message)
    requires OwnInv(voters, s) && m.AppendReply? && m.src != s.id && s.commit <= |s.log|
    ensures OwnInv(voters, OnAppendReply(s, m)) && OnAppendReply(s, m).id == s.id
  {
    MatchOfOps(s.cfg, s.id, m.src, "", m.lastIndex, m.success);
    CommitKeepsOwn(voters, s.(cfg := SetIndexes(s.cfg, m.src, m.lastIndex, m.success)), m.lastIndex);
  }

  lemma OwnStepKeeps(c: Cluster, t: Server, msgs: set<Message>)
    requires LeaderInv(c) && t.id in c.servers && OwnInv(c.voters, t)
    requires forall m :: m in msgs ==> NotToSelf(m)
    ensures LeaderInv(Update(c, t, msgs))
  {
  }

  lemma TimeoutKeepsLeaderInv(c: Cluster, a: Action)
    requires LeaderInv(c) && Enabled(c, a) && a.Timeout?
    requires UniqueIds(c.servers[a.s].cfg) && Voters(c.servers[a.s].cfg) == c.voters
    ensures LeaderInv(Next(c, a))
  {
    var s := c.servers[a.s];
    var t := StartElection(s);
    TimeoutKeepsOwn(c.voters, s);
    OwnStepKeeps(c, t, if t.role == Leader then {} else {VoteRequest(t.id, t.term, |t.log|, LastTerm(t))});
  }

  lemma VoteReqKeepsLeaderInv(c: Cluster, a: Action)
    requires LeaderInv(c) && Enabled(c, a) && a.VoteReq?
    ensures LeaderInv(Next(c, a))
  {
    var s := c.servers[a.s];
    LogMatching.VoteRequestFacts(s, a.m, a.pending);
    OwnStepKeeps(c, OnVoteRequest(s, a.m, a.pending).0, {OnVoteRequest(s, a.m, a.pending).1});
  }

  lemma VoteRepKeepsLeaderInv(c: Cluster, a: Action)
    requires LeaderInv(c) && Enabled(c, a) && a.VoteRep?
    ensures LeaderInv(Next(c, a))
  {
    var s := c.servers[a.s];
    VoteReplyKeepsOwn(c.voters, s, a.m);
    OwnStepKeeps(c, OnVoteReply(s, a.m), {});
  }

  lemma SendKeepsLeaderInv(c: Cluster, a: Action)
    requires LeaderInv(c) && Enabled(c, a) && a.Send?
    ensures LeaderInv(Next(c, a))
  {
    var s := c.servers[a.s];
    OwnStepKeeps(c, s, {AppendRequestFor(s, a.dst, a.k)});
  }

  lemma AppendReqKeepsLeaderInv(c: Cluster, a: Action)
    requires LeaderInv(c) && Enabled(c, a) && a.AppendReq? && FixedVoting(c, a)
    ensures LeaderInv(Next(c, a))
  {
    var s := c.servers[a.s];
    AppendRequestKeepsOwn(c.voters, s, a.m);
    assert NotToSelf(a.m);
    OwnStepKeeps(c, OnAppendRequest(s, a.m).0, {OnAppendRequest(s, a.m).1});
  }

  lemma AppendRepKeepsLeaderInv(c: Cluster, a: Action)
    requires LeaderInv(c) && Enabled(c, a) && a.AppendRep?
    ensures LeaderInv(Next(c, a))
  {
    var s := c.servers[a.s];
    assert NotToSelf(a.m);
    AppendReplyKeepsOwn(c.voters, s, a.m);
    OwnStepKeeps(c, OnAppendReply(s, a.m), {});
  }

  lemma ProposeKeepsLeaderInv(c: Cluster, a: Action)
    requires LeaderInv(c) && Enabled(c, a) && a.Propose? && FixedVoting(c, a)
    ensures LeaderInv(Next(c, a))
  {
    var s := c.servers[a.s];
    OwnStepKeeps(c, AppendEntry(s, a.e), {});
  }

  lemma JoinKeepsLeaderInv(c: Cluster, a: Action)
    requires LeaderInv(c) && Enabled(c, a) && a.Join?
    ensures LeaderInv(Next(c, a))
  {
    var s := c.servers[a.s];
    if a.src != s.id { MatchOfOps(s.cfg, s.id, a.src, a.target, a.last, true); }
    OwnStepKeeps(c, OnMembership(s, a.src, a.target, a.last), {});
  }

  lemma StepKeepsLeaderInv(c: Cluster, a: Action)
    requires LeaderInv(c) && Enabled(c, a) && FixedVoting(c, a)
    requires UniqueIds(c.servers[a.s].cfg) && Voters(c.servers[a.s].cfg) == c.voters
    ensures LeaderInv(Next(c, a))
  {
    match a
    case Timeout(_) => TimeoutKeepsLeaderInv(c, a);
    case VoteReq(_, _, _) => VoteReqKeepsLeaderInv(c, a);
    case VoteRep(_, _) => VoteRepKeepsLeaderInv(c, a);
    case Send(_, _, _) => SendKeepsLeaderInv(c, a);
    case AppendReq(_, _) => AppendReqKeepsLeaderInv(c, a);
    case AppendRep(_, _) => AppendRepKeepsLeaderInv(c, a);
    case Propose(_, _) => ProposeKeepsLeaderInv(c, a);
    case Join(_, _, _, _) => JoinKeepsLeaderInv(c, a);
  }

  lemma InitLeaderInv(c: Cluster)
    requires Init(c)
    ensures LeaderInv(c)
  {
    forall x | x in c.servers ensures OwnInv(c.voters, c.servers[x]) {
      assert InitServerOk(c, x, c.servers[x]);
    }
  }

  lemma VotersAre(c: Cluster, x: ServerId)
    requires Election.VoteInv(c) && x in c.servers
    ensures UniqueIds(c.servers[x].cfg) && Voters(c.servers[x].cfg) == c.voters
  {
    assert Election.ServerInv(c, c.servers[x]);
  }

  lemma {:induction false} RunKeepsLeaderInv(cs: seq<Cluster>, acts: seq<Action>, i: nat)
    requires IsRun(cs, acts) && i < |cs|
    ensures LeaderInv(cs[i])
  {
    if i == 0 {
      InitLeaderInv(cs[0]);
    } else {
      RunKeepsLeaderInv(cs, acts, i - 1);
      LeaderInvStep(cs, acts, i - 1);
    }
  }

  lemma LeaderInvStep(cs: seq<Cluster>, acts: seq<Action>, i: nat)
    requires IsRun(cs, acts) && i < |acts| && LeaderInv(cs[i])
    ensures LeaderInv(cs[i + 1])
  {
    Election.RunKeepsVoteInv(cs, acts, i);
    assert StepAt(cs, acts, i);
    VotersAre(cs[i], acts[i].s);
    StepKeepsLeaderInv(cs[i], acts[i]);
  }

  /** The state in which the leader looks for an index to commit: the reply's indexes are
      already written. */
  function Informed(s: Server, m: Message): Server
    requires m.AppendReply?
  {
    s.(cfg := SetIndexes(s.cfg, m.src, m.lastIndex, m.success))
  }

  lemma InformedHypotheses(c: Cluster, s: Server, m: Message)
    requires Election.VoteInv(c) && LogMatching.LogInv(c) && LeaderInv(c)
    requires s.id in c.servers && c.servers[s.id] == s && s.role == Leader
    requires m.AppendReply? && m in c.net && m.dst == s.id
    ensures var u := Informed(s, m);
            && UniqueIds(u.cfg) && u.id in Voters(u.cfg) && MatchOf(u.cfg, u.id) == 0
            && NonDecreasing(u.log) && LogMatching.TermsUpTo(u.log, u.term) && u.commit <= |u.log|
  {
    assert OwnInv(c.voters, s) && NotToSelf(m);
    assert Election.ServerInv(c, s) && LogMatching.ServerLogInv(c, s);
    IndexOpsSets(s.cfg, m.src, m.lastIndex, m.success);
    MatchOfOps(s.cfg, s.id, m.src, "", m.lastIndex, m.success);
  }

  /** In every reachable state and for every reply that reaches it, a leader moves its commit
      index to exactly the highest index up to the one replied that is in its own term and,
      with this reply counted, held by a majority of the voters; it leaves the commit index
      alone if there is none, and on every other reply. */
  lemma LeaderCommitsHighest(cs: seq<Cluster>, acts: seq<Action>, i: nat, x: ServerId, m: Message)
    requires LogMatching.GuardedRun(cs, acts) && i < |cs|
    requires x in cs[i].servers && cs[i].servers[x].role == Leader
    requires m in cs[i].net && m.AppendReply? && m.dst == x
    ensures var s, n := cs[i].servers[x], m.lastIndex;
            && s.commit <= |s.log|
            && var u, r := Informed(s, m), OnAppendReply(s, m).commit;
            && (r > s.commit ==> Committable(u, r) && r <= n)
            && (m.success && m.term == s.term && Has(s.cfg, m.src) && n <= |s.log| ==>
                  r >= s.commit && forall k :: r < k <= n ==> !Committable(u, k))
            && (!m.success || m.term != s.term || !Has(s.cfg, m.src) || n > |s.log| ==> r == s.commit)
  {
    RunKeepsLeaderInv(cs, acts, i);
    LogMatching.RunKeepsLogInv(cs, acts, i);
    InformedHypotheses(cs[i], cs[i].servers[x], m);
    ReplyCommits(cs[i].servers[x], m);
  }

  lemma ReplyCommits(s: Server, m: Message)
    requires s.role == Leader && m.AppendReply?
    requires var u := Informed(s, m);
             && UniqueIds(u.cfg) && u.id in Voters(u.cfg) && MatchOf(u.cfg, u.id) == 0
             && NonDecreasing(u.log) && LogMatching.TermsUpTo(u.log, u.term) && u.commit <= |u.log|
    ensures var n, u, r := m.lastIndex, Informed(s, m), OnAppendReply(s, m).commit;
            && (r > s.commit ==> Committable(u, r) && r <= n)
            && (m.success && m.term == s.term && Has(s.cfg, m.src) && n <= |s.log| ==>
                  r >= s.commit && forall k :: r < k <= n ==> !Committable(u, k))
            && (!m.success || m.term != s.term || !Has(s.cfg, m.src) || n > |s.log| ==> r == s.commit)
  {
    if m.lastIndex <= |s.log| {
      ScanFindsHighest(Informed(s, m), m.lastIndex);
    }
  }
}
