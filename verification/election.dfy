/** Election Safety (section 5.2 of the Raft paper): at most one server leads each term. */
module Election {
  import opened Types
  import opened Members
  import opened Raft
  import opened Cluster
  import Changes
  import LogSpec

  function VotersFor(c: Cluster, t: nat, x: ServerId): set<ServerId> {
    set v | v in c.voters && Ballot(v, t, x) in c.ballots
  }

  /** Counting: received votes equal the marks, and marks are voters. */
  ghost predicate CountInv(c: Cluster, s: Server) {
    && UniqueIds(s.cfg) && Voters(s.cfg) == c.voters
    && Marked(s.cfg) <= c.voters
    && s.rcvVotes == |Marked(s.cfg)|
  }

  /** What the history says about one server. */
  ghost predicate ServerInv(c: Cluster, s: Server) {
    && CountInv(c, s)
    && (forall b :: b in c.ballots && b.voter == s.id && b.term == s.term ==> s.votedFor == Some(b.candidate))
    && (s.votedFor.Some? ==> Ballot(s.id, s.term, s.votedFor.value) in c.ballots)
    && (s.role == Candidate ==>
          s.votedFor == Some(s.id)
          && Win(s.term, s.id) !in c.elected
          && forall v :: v in Marked(s.cfg) ==> Ballot(v, s.term, s.id) in c.ballots)
    && (s.role == Leader ==> Win(s.term, s.id) in c.elected)
  }

  ghost predicate OneBallotPerTerm(ballots: set<Ballot>) {
    forall a, b :: a in ballots && b in ballots && a.voter == b.voter && a.term == b.term ==> a == b
  }

  ghost predicate BallotInv(c: Cluster) {
    && (forall b :: b in c.ballots ==> b.voter in c.servers && b.term <= c.servers[b.voter].term)
    && OneBallotPerTerm(c.ballots)
    && (forall m :: m in c.net && m.VoteReply? && m.granted ==> Ballot(m.src, m.term, m.dst) in c.ballots)
  }

  ghost predicate ElectedInv(c: Cluster) {
    forall w :: w in c.elected ==>
      w.id in c.servers && w.term <= c.servers[w.id].term && 2 * |VotersFor(c, w.term, w.id)| > |c.voters|
  }

  ghost predicate VoteInv(c: Cluster) {
    && BallotInv(c)
    && ElectedInv(c)
    && forall x :: x in c.servers ==> c.servers[x].id == x && ServerInv(c, c.servers[x])
  }

  lemma InitVoteInv(c: Cluster)
    requires Init(c)
    ensures VoteInv(c)
  {
    forall x | x in c.servers ensures c.servers[x].id == x && ServerInv(c, c.servers[x]) {
      assert InitServerOk(c, x, c.servers[x]);
    }
  }

  lemma SubsetSize<T>(a: set<T>, b: set<T>)
    requires a <= b
    ensures |a| <= |b|
    decreases a
  {
    if a != {} {
      var x :| x in a;
      SubsetSize(a - {x}, b - {x});
    }
  }

  /** Two majorities of one set share a member. */
  lemma QuorumsMeet<T>(a: set<T>, b: set<T>, all: set<T>) returns (v: T)
    requires a <= all && b <= all && 2 * |a| > |all| && 2 * |b| > |all|
    ensures v in a && v in b
  {
    if a * b == {} {
      assert |a + b| == |a| + |b|;
      SubsetSize(a + b, all);
      assert false;
    }
    v :| v in a * b;
  }

  lemma OneElectedPerTerm(c: Cluster, t: nat, x: ServerId, y: ServerId)
    requires VoteInv(c)
    requires Win(t, x) in c.elected && Win(t, y) in c.elected
    ensures x == y
  {
    var v := QuorumsMeet(VotersFor(c, t, x), VotersFor(c, t, y), c.voters);
    assert Ballot(v, t, x) in c.ballots && Ballot(v, t, y) in c.ballots;
  }

  lemma VotersForGrows(c: Cluster, d: Cluster, t: nat, x: ServerId)
    requires d.voters == c.voters && c.ballots <= d.ballots
    ensures |VotersFor(c, t, x)| <= |VotersFor(d, t, x)|
  {
    SubsetSize(VotersFor(c, t, x), VotersFor(d, t, x));
  }

  /** A server is not affected by what others cast or win. */
  lemma ServerInvFrame(c: Cluster, d: Cluster, s: Server)
    requires ServerInv(c, s)
    requires d.voters == c.voters && c.ballots <= d.ballots
    requires forall b :: b in d.ballots && b.voter == s.id && b.term == s.term ==> b in c.ballots
    requires Win(s.term, s.id) in d.elected <==> Win(s.term, s.id) in c.elected
    ensures ServerInv(d, s)
  {
  }

  /** What a step of one server has to show for the whole cluster to stay consistent. */
  ghost predicate HonestStep(c: Cluster, t: Server, msgs: set<Message>)
    requires t.id in c.servers
  {
    var s := c.servers[t.id];
    var d := Update(c, t, msgs);
    && t.term >= s.term
    && (t.term == s.term && s.votedFor.Some? ==> t.votedFor == s.votedFor)
    && ServerInv(d, t)
    && (forall m :: m in msgs && m.VoteReply? && m.granted ==> Ballot(m.src, m.term, m.dst) in d.ballots)
    && (t.role == Leader && s.role != Leader ==> 2 * |VotersFor(d, t.term, t.id)| > |d.voters|)
  }

  lemma AddBallot(ballots: set<Ballot>, b: Ballot)
    requires OneBallotPerTerm(ballots)
    requires forall a :: a in ballots && a.voter == b.voter && a.term == b.term ==> a == b
    ensures OneBallotPerTerm(ballots + {b})
  {
  }

  lemma BallotsKept(c: Cluster, t: Server, msgs: set<Message>)
    requires VoteInv(c) && t.id in c.servers && HonestStep(c, t, msgs)
    ensures BallotInv(Update(c, t, msgs))
  {
    var d := Update(c, t, msgs);
    assert ServerInv(c, c.servers[t.id]);
    if t.votedFor.Some? {
      AddBallot(c.ballots, Ballot(t.id, t.term, t.votedFor.value));
    }
    assert OneBallotPerTerm(d.ballots);
    forall b | b in d.ballots ensures b.voter in d.servers && b.term <= d.servers[b.voter].term {
    }
  }

  lemma ElectedKept(c: Cluster, t: Server, msgs: set<Message>)
    requires VoteInv(c) && t.id in c.servers && HonestStep(c, t, msgs)
    ensures ElectedInv(Update(c, t, msgs))
  {
    var d := Update(c, t, msgs);
    forall w | w in d.elected
      ensures w.id in d.servers && w.term <= d.servers[w.id].term
      ensures 2 * |VotersFor(d, w.term, w.id)| > |d.voters|
    {
      if w in c.elected {
        VotersForGrows(c, d, w.term, w.id);
      }
    }
  }

  lemma HonestStepKeeps(c: Cluster, t: Server, msgs: set<Message>)
    requires VoteInv(c) && t.id in c.servers && HonestStep(c, t, msgs)
    ensures VoteInv(Update(c, t, msgs))
  {
    var d := Update(c, t, msgs);
    BallotsKept(c, t, msgs);
    ElectedKept(c, t, msgs);
    forall x | x in d.servers ensures d.servers[x].id == x && ServerInv(d, d.servers[x]) {
      if x != t.id {
        ServerInvFrame(c, d, c.servers[x]);
      }
    }
  }

  /** The step of s to t neither casts nor counts a vote. */
  ghost predicate CastsNothing(s: Server, t: Server) {
    && t.id == s.id && t.rcvVotes == s.rcvVotes
    && (UniqueIds(s.cfg) ==> UniqueIds(t.cfg))
    && Voters(t.cfg) == Voters(s.cfg) && Marked(t.cfg) == Marked(s.cfg)
    && (if t.term == s.term then t.votedFor == s.votedFor && (t.role == s.role || t.role == Follower)
        else t.term > s.term && t.votedFor == None && t.role != Candidate && t.role != Leader)
  }

  lemma CastsNothingIsHonest(c: Cluster, t: Server, msgs: set<Message>)
    requires VoteInv(c) && t.id in c.servers && CastsNothing(c.servers[t.id], t)
    requires forall m :: m in msgs ==> !(m.VoteReply? && m.granted)
    ensures HonestStep(c, t, msgs)
  {
    var d := Update(c, t, msgs);
    var s := c.servers[t.id];
    assert ServerInv(c, s);
    assert d.elected == c.elected;
    if t.term == s.term {
      assert d.ballots == c.ballots;
    }
    assert ServerInv(d, t);
  }

  /** handle_vote_request: the vote is recorded before it is promised. */
  lemma VoteRequestIsHonest(c: Cluster, s: Server, m: Message, pending: bool)
    requires VoteInv(c) && s.id in c.servers && c.servers[s.id] == s && m.VoteRequest?
    ensures var (t, r) := OnVoteRequest(s, m, pending); t.id == s.id && HonestStep(c, t, {r})
  {
    var (t, r) := OnVoteRequest(s, m, pending);
    assert ServerInv(c, s);
    VotesOnce(c, s, t, {r});
  }

  /** A server that has no vote in its term may cast one. */
  lemma VotesOnce(c: Cluster, s: Server, t: Server, msgs: set<Message>)
    requires VoteInv(c) && s.id in c.servers && c.servers[s.id] == s
    requires t.id == s.id && t.cfg == s.cfg && t.rcvVotes == s.rcvVotes
    requires if t.term == s.term
             then t.role == s.role && (s.votedFor.Some? ==> t.votedFor == s.votedFor)
             else t.term > s.term && t.role != Candidate && t.role != Leader
    requires forall m :: m in msgs && m.VoteReply? && m.granted ==>
               m.src == t.id && m.term == t.term && t.votedFor == Some(m.dst)
    ensures HonestStep(c, t, msgs)
  {
    assert ServerInv(c, s);
    var d := Update(c, t, msgs);
    assert d.elected == c.elected;
    assert CountInv(d, t);
  }

  /** A majority of marks is a majority of ballots. */
  lemma MarksAreBallots(d: Cluster, s: Server)
    requires CountInv(d, s)
    requires forall v :: v in Marked(s.cfg) ==> Ballot(v, s.term, s.id) in d.ballots
    requires MajorityOfVotes(s.cfg, s.rcvVotes)
    ensures 2 * |VotersFor(d, s.term, s.id)| > |d.voters|
  {
    SubsetSize(Marked(s.cfg), VotersFor(d, s.term, s.id));
  }

  /** Counting marks up to a majority: u is the candidate with its new mark. */
  lemma CountedIsHonest(c: Cluster, u: Server, t: Server, msgs: set<Message>)
    requires VoteInv(c) && u.id in c.servers && CountInv(c, u)
    requires u.role == Candidate && u.votedFor == Some(u.id)
    requires var s := c.servers[u.id];
             && s.role != Leader
             && (u.term > s.term || (u.term == s.term && s.role == Candidate && s.votedFor == u.votedFor))
    requires forall v :: v in Marked(u.cfg) ==> v == u.id || Ballot(v, u.term, u.id) in c.ballots
    requires t == if MajorityOfVotes(u.cfg, u.rcvVotes) then BecomeLeader(u) else u
    requires forall m :: m in msgs ==> !m.VoteReply?
    ensures HonestStep(c, t, msgs)
  {
    IndexOpsSets(u.cfg, u.id, |u.log| + 1, true);
    var d := Update(c, t, msgs);
    assert ServerInv(c, c.servers[u.id]);
    assert forall v :: v in Marked(u.cfg) ==> Ballot(v, u.term, u.id) in d.ballots;
    if t.role == Leader {
      MarksAreBallots(d, u);
    }
    CountedBallots(c, u, d);
    assert CountInv(d, t);
  }

  /** A candidate of a new term, or of a term it has voted in, has cast its one ballot and not won. */
  lemma CountedBallots(c: Cluster, u: Server, d: Cluster)
    requires BallotInv(c) && ElectedInv(c) && u.id in c.servers && ServerInv(c, c.servers[u.id])
    requires c.servers[u.id].id == u.id && u.votedFor == Some(u.id)
    requires var s := c.servers[u.id];
             u.term > s.term || (u.term == s.term && s.role == Candidate && s.votedFor == u.votedFor)
    requires d.ballots == c.ballots + {Ballot(u.id, u.term, u.id)}
    ensures Win(u.term, u.id) !in c.elected
    ensures forall b :: b in d.ballots && b.voter == u.id && b.term == u.term ==> u.votedFor == Some(b.candidate)
  {
  }

  /** become_candidate. */
  lemma TimeoutIsHonest(c: Cluster, s: Server, t: Server, msgs: set<Message>)
    requires VoteInv(c) && s.id in c.servers && c.servers[s.id] == s
    requires CanStartElection(s) && t == StartElection(s)
    requires forall m :: m in msgs ==> !m.VoteReply?
    ensures t.id == s.id && HonestStep(c, t, msgs)
  {
    var u := s.(role := Candidate, term := s.term + 1, votedFor := Some(s.id), rcvVotes := 1,
                cfg := SetNewVote(ResetVotes(s.cfg), s.id));
    assert CountInv(c, u) && Marked(u.cfg) == {s.id} by {
      assert ServerInv(c, s);
      FirstVote(s.cfg, s.id);
    }
    CountedIsHonest(c, u, t, msgs);
  }

  /** handle_vote_reply: a counted vote is a ballot cast for this candidate in this term. */
  lemma VoteReplyIsHonest(c: Cluster, s: Server, m: Message)
    requires VoteInv(c) && s.id in c.servers && c.servers[s.id] == s
    requires m in c.net && m.VoteReply? && m.dst == s.id
    ensures OnVoteReply(s, m).id == s.id && HonestStep(c, OnVoteReply(s, m), {})
  {
    assert ServerInv(c, s);
    var t := OnVoteReply(s, m);
    SetNewVoteSets(s.cfg, m.src);
    if m.term == s.term && s.role == Candidate && m.granted && IsNewVote(s.cfg, m.src) {
      var u := s.(cfg := SetNewVote(s.cfg, m.src), rcvVotes := s.rcvVotes + 1);
      CountedIsHonest(c, u, t, {});
    } else {
      CastsNothingIsHonest(c, t, {});
    }
  }

  lemma CommitCastsNothing(s: Server, n: nat)
    requires s.commit <= |s.log|
    ensures CastsNothing(s, Commit(s, n))
    ensures Commit(s, n).log == s.log && Commit(s, n).cfg == s.cfg
  {
  }

  lemma AppendRequestCastsNothing(s: Server, m: Message)
    requires m.AppendRequest? && s.commit <= |s.log|
    requires Changes.NoConfig(m.entries)
    requires Changes.NoConfig(s.log[|LogSpec.Kept(0, s.log, m.prevIndex, m.prevTerm, s.commit)|..])
    ensures CastsNothing(s, OnAppendRequest(s, m).0)
  {
    var t := MatchTerms(s, m.term);
    if m.term >= s.term {
      var u := DropConflicts(t, m.prevIndex, m.prevTerm);
      Changes.NoConfigNoEffect(t.cfg, t.log[|u.log|..]);
      Changes.NoConfigNoEffect(u.cfg, m.entries);
      if LogSpec.PrevMatches(0, u.log, m.prevIndex, m.prevTerm, 0, 0) {
        var v := AppendAll(u, m.entries);
        CommitCastsNothing(v, m.leaderCommit);
      }
    }
  }

  lemma AppendReplyCastsNothing(s: Server, m: Message)
    requires m.AppendReply? && s.commit <= |s.log| && UniqueIds(s.cfg)
    ensures CastsNothing(s, OnAppendReply(s, m))
  {
    IndexOpsSets(s.cfg, m.src, m.lastIndex, m.success);
    if m.term == s.term && s.role == Leader && Has(s.cfg, m.src) {
      var t := s.(cfg := SetIndexes(s.cfg, m.src, m.lastIndex, m.success));
      CommitCastsNothing(t, m.lastIndex);
    }
  }

  lemma QuietKeeps(c: Cluster, t: Server, msgs: set<Message>)
    requires VoteInv(c) && t.id in c.servers && CastsNothing(c.servers[t.id], t)
    requires forall m :: m in msgs ==> !m.VoteReply?
    ensures VoteInv(Update(c, t, msgs))
  {
    CastsNothingIsHonest(c, t, msgs);
    HonestStepKeeps(c, t, msgs);
  }

  /** The steps that neither cast nor count a vote. */
  lemma QuietStepKeepsVoteInv(c: Cluster, a: Action)
    requires VoteInv(c) && Enabled(c, a) && FixedVoting(c, a)
    requires !a.Timeout? && !a.VoteReq? && !a.VoteRep?
    ensures VoteInv(Next(c, a))
  {
    var s := c.servers[a.s];
    assert ServerInv(c, s);
    match a
    case Send(_, dst, k) =>
      QuietKeeps(c, s, {AppendRequestFor(s, dst, k)});
    case AppendReq(_, m) =>
      AppendRequestCastsNothing(s, m);
      QuietKeeps(c, OnAppendRequest(s, m).0, {OnAppendRequest(s, m).1});
    case AppendRep(_, m) =>
      AppendReplyCastsNothing(s, m);
      QuietKeeps(c, OnAppendReply(s, m), {});
    case Propose(_, e) =>
      QuietKeeps(c, AppendEntry(s, e), {});
    case Join(_, src, target, last) =>
      AddServerSets(s.cfg, src, target, last);
      QuietKeeps(c, OnMembership(s, src, target, last), {});
  }

  lemma StepKeepsVoteInv(c: Cluster, a: Action)
    requires VoteInv(c) && Enabled(c, a) && FixedVoting(c, a)
    ensures VoteInv(Next(c, a))
  {
    var s := c.servers[a.s];
    match a
    case Timeout(_) =>
      var t := StartElection(s);
      var msgs: set<Message> := if t.role == Leader then {} else {VoteRequest(t.id, t.term, |t.log|, LastTerm(t))};
      TimeoutIsHonest(c, s, t, msgs);
      HonestStepKeeps(c, t, msgs);
    case VoteReq(_, m, pending) =>
      VoteRequestIsHonest(c, s, m, pending);
      HonestStepKeeps(c, OnVoteRequest(s, m, pending).0, {OnVoteRequest(s, m, pending).1});
    case VoteRep(_, m) =>
      VoteReplyIsHonest(c, s, m);
      HonestStepKeeps(c, OnVoteReply(s, m), {});
    case _ =>
      QuietStepKeepsVoteInv(c, a);
  }

  lemma {:induction false} RunKeepsVoteInv(cs: seq<Cluster>, acts: seq<Action>, i: nat)
    requires IsRun(cs, acts) && i < |cs|
    ensures VoteInv(cs[i])
  {
    if i == 0 {
      InitVoteInv(cs[0]);
    } else {
      RunKeepsVoteInv(cs, acts, i - 1);
      assert StepAt(cs, acts, i - 1);
      StepKeepsVoteInv(cs[i - 1], acts[i - 1]);
    }
  }

  lemma {:induction false} ElectedForever(cs: seq<Cluster>, acts: seq<Action>, i: nat, j: nat)
    requires IsRun(cs, acts) && i <= j < |cs|
    ensures cs[i].elected <= cs[j].elected
    decreases j
  {
    if i < j {
      ElectedForever(cs, acts, i, j - 1);
      assert StepAt(cs, acts, j - 1);
      var t, msgs := NextIsUpdate(cs[j - 1], acts[j - 1]);
    }
  }

  lemma {:induction false} SentForever(cs: seq<Cluster>, acts: seq<Action>, i: nat, j: nat)
    requires IsRun(cs, acts) && i <= j < |cs|
    ensures cs[i].net <= cs[j].net
    decreases j
  {
    if i < j {
      SentForever(cs, acts, i, j - 1);
      assert StepAt(cs, acts, j - 1);
    }
  }

  /** Over a whole run a server grants its vote in a term to one candidate only. */
  lemma OneVotePerTerm(cs: seq<Cluster>, acts: seq<Action>, i: nat, j: nat, m: Message, n: Message)
    requires IsRun(cs, acts) && i < |cs| && j < |cs| && m in cs[i].net && n in cs[j].net
    requires m.VoteReply? && m.granted && n.VoteReply? && n.granted && m.src == n.src && m.term == n.term
    ensures m.dst == n.dst
  {
    var last := |cs| - 1;
    SentForever(cs, acts, i, last);
    SentForever(cs, acts, j, last);
    RunKeepsVoteInv(cs, acts, last);
    assert Ballot(m.src, m.term, m.dst) in cs[last].ballots && Ballot(n.src, n.term, n.dst) in cs[last].ballots;
  }

  /** Over a whole run, whoever leads term t at one moment and whoever leads it at another are
      the same server. */
  lemma ElectionSafety(cs: seq<Cluster>, acts: seq<Action>, i: nat, j: nat, x: ServerId, y: ServerId)
    requires IsRun(cs, acts) && i < |cs| && j < |cs|
    requires x in cs[i].servers && cs[i].servers[x].role == Leader
    requires y in cs[j].servers && cs[j].servers[y].role == Leader
    requires cs[i].servers[x].term == cs[j].servers[y].term
    ensures x == y
  {
    var last := |cs| - 1;
    RunKeepsVoteInv(cs, acts, i);
    RunKeepsVoteInv(cs, acts, j);
    RunKeepsVoteInv(cs, acts, last);
    ElectedForever(cs, acts, i, last);
    ElectedForever(cs, acts, j, last);
    assert ServerInv(cs[i], cs[i].servers[x]) && ServerInv(cs[j], cs[j].servers[y]);
    OneElectedPerTerm(cs[last], cs[i].servers[x].term, x, y);
  }

  /** The exit "received more votes than available voting members" is unreachable: the count
      is the number of marks, and only voters are marked. */
  lemma NeverMoreVotesThanVoters(cs: seq<Cluster>, acts: seq<Action>, i: nat, x: ServerId)
    requires IsRun(cs, acts) && i < |cs| && x in cs[i].servers
    ensures var s := cs[i].servers[x];
            s.rcvVotes == |Marked(s.cfg)| && s.rcvVotes <= |Voters(s.cfg)|
  {
    RunKeepsVoteInv(cs, acts, i);
    var s := cs[i].servers[x];
    assert ServerInv(cs[i], s);
    SubsetSize(Marked(s.cfg), cs[i].voters);
  }
}
