/** Stretches of a run put together from a few moves of the protocol, for any voting set: a server
    stands for election, gets a vote, answers a membership request, replicates its log. */
module Moves {
  import opened Types
  import opened Members
  import opened Raft
  import opened Cluster
  import Changes
  import LogSpec
  import CommitRule
  import Completeness

  /** A step the theorems about committed entries allow; a careful one also leaves the match index
      of voters alone. */
  ghost predicate Fair(careful: bool, c: Cluster, a: Action) {
    && Enabled(c, a) && FixedVoting(c, a) && InPlace(c, a) && Completeness.KeepsAgreement(c, a)
    && (careful ==> Completeness.NotPromoted(c, a))
  }

  ghost predicate FairAt(careful: bool, cs: seq<Cluster>, acts: seq<Action>, i: nat)
    requires i < |acts| < |cs|
  {
    Fair(careful, cs[i], acts[i]) && cs[i + 1] == Next(cs[i], acts[i])
  }

  ghost predicate IsPath(careful: bool, cs: seq<Cluster>, acts: seq<Action>) {
    |cs| == |acts| + 1 && forall i: nat :: i < |acts| ==> FairAt(careful, cs, acts, i)
  }

  ghost predicate Reaches(careful: bool, c: Cluster, d: Cluster) {
    exists cs: seq<Cluster>, acts: seq<Action> :: IsPath(careful, cs, acts) && cs[0] == c && cs[|acts|] == d
  }

  lemma Stays(careful: bool, c: Cluster)
    ensures Reaches(careful, c, c)
  {
    var none: seq<Action> := [];
    assert IsPath(careful, [c], none) && [c][|none|] == c;
  }

  lemma Goes(careful: bool, b: Cluster, c: Cluster, a: Action)
    requires Reaches(careful, b, c) && Fair(careful, c, a)
    ensures Reaches(careful, b, Next(c, a))
  {
    var cs: seq<Cluster>, acts: seq<Action> :| IsPath(careful, cs, acts) && cs[0] == b && cs[|acts|] == c;
    var cs', acts' := cs + [Next(c, a)], acts + [a];
    forall i: nat | i < |acts'| ensures FairAt(careful, cs', acts', i) {
      if i < |acts| {
        assert FairAt(careful, cs, acts, i);
        assert cs'[i] == cs[i] && cs'[i + 1] == cs[i + 1] && acts'[i] == acts[i];
      } else {
        assert cs'[i] == c && acts'[i] == a;
      }
    }
    assert IsPath(careful, cs', acts') && cs'[0] == b && cs'[|acts'|] == Next(c, a);
  }

  lemma PathIsRun(careful: bool, cs: seq<Cluster>, acts: seq<Action>)
    requires IsPath(careful, cs, acts) && Init(cs[0])
    ensures IsRun(cs, acts)
  {
    forall i: nat | i < |acts| ensures StepAt(cs, acts, i) {
      assert FairAt(careful, cs, acts, i);
    }
  }

  // ---------- what is known of a server ----------

  ghost predicate Sane(voters: set<ServerId>, x: ServerId, s: Server) {
    && s.id == x && UniqueIds(s.cfg) && Voters(s.cfg) == voters
    && s.applied <= s.commit <= |s.log| && Changes.NoConfig(s.log)
  }

  ghost predicate At(c: Cluster, x: ServerId, s: Server) {
    x in c.servers && c.servers[x] == s && Sane(c.voters, x, s)
  }

  /** The rest of the cluster is as it was. */
  ghost predicate Only(c: Cluster, d: Cluster, x: ServerId) {
    && d.base == c.base && d.voters == c.voters && c.net <= d.net && d.servers.Keys == c.servers.Keys
    && forall y :: y in c.servers && y != x ==> d.servers[y] == c.servers[y]
  }

  /** Steps other than receiving entries, proposing one and joining are always fair. */
  lemma Steps(careful: bool, b: Cluster, c: Cluster, a: Action, t: Server, msgs: set<Message>) returns (d: Cluster)
    requires Reaches(careful, b, c) && Enabled(c, a) && !a.AppendReq? && !a.Propose?
    requires careful ==> Completeness.NotPromoted(c, a)
    requires t.id in c.servers && Next(c, a) == Update(c, t, msgs)
    ensures Reaches(careful, b, d) && d == Update(c, t, msgs) && Only(c, d, t.id)
  {
    Goes(careful, b, c, a);
    d := Next(c, a);
  }

  ghost predicate Leads(c: Cluster, l: Server) {
    && At(c, l.id, l) && l.role == Leader
    && l.term in c.leaderLog && c.leaderLog[l.term] == l.log
  }

  function Asks(s: Server): Message {
    VoteRequest(s.id, s.term, |s.log|, LastTerm(s))
  }

  /** A candidate with its votes counted and its requests sent. */
  ghost predicate Stands(c: Cluster, s: Server, marks: set<ServerId>) {
    && At(c, s.id, s) && s.role == Candidate && s.votedFor == Some(s.id)
    && Marked(s.cfg) == marks && s.rcvVotes == |marks| && Asks(s) in c.net
  }

  // ---------- elections ----------

  lemma StandsUp(careful: bool, b: Cluster, c: Cluster, s: Server) returns (d: Cluster, t: Server)
    requires Reaches(careful, b, c) && At(c, s.id, s) && s.id in c.voters && |c.voters| >= 2
    requires s.role == Follower || s.role == Candidate
    ensures Reaches(careful, b, d) && Only(c, d, s.id) && Stands(d, t, {s.id}) && d.leaderLog == c.leaderLog
    ensures t == s.(role := Candidate, term := s.term + 1, votedFor := Some(s.id), rcvVotes := 1, cfg := t.cfg)
  {
    ResetVotesSets(s.cfg);
    SetNewVoteSets(ResetVotes(s.cfg), s.id);
    FirstVote(s.cfg, s.id);
    t := Campaigning(s);
    assert StartElection(s) == t;
    d := Steps(careful, b, c, Timeout(s.id), t, {Asks(t)});
  }

  ghost predicate Ahead(s: Server, w: Server) {
    var last := LastTerm(MatchTerms(w, s.term));
    LastTerm(s) > last || (LastTerm(s) == last && |s.log| >= |w.log|)
  }

  function Voted(w: Server, s: Server): Server {
    MatchTerms(w, s.term).(votedFor := Some(s.id))
  }

  lemma Grants(careful: bool, b: Cluster, c: Cluster, s: Server, w: Server) returns (d: Cluster)
    requires Reaches(careful, b, c) && Asks(s) in c.net && At(c, w.id, w) && w.id != s.id
    requires (w.term < s.term || (w.term == s.term && w.votedFor == None)) && Ahead(s, w)
    requires w.role != Leader || w.term < s.term
    ensures Reaches(careful, b, d) && Only(c, d, w.id) && At(d, w.id, Voted(w, s)) && d.leaderLog == c.leaderLog
    ensures VoteReply(w.id, s.id, s.term, true) in d.net
  {
    var a := VoteReq(w.id, Asks(s), true);
    assert OnVoteRequest(w, Asks(s), true) == (Voted(w, s), VoteReply(w.id, s.id, s.term, true));
    d := Steps(careful, b, c, a, Voted(w, s), {VoteReply(w.id, s.id, s.term, true)});
  }

  /** The candidate with one more vote: still a candidate, or the leader. */
  ghost predicate Gained(c: Cluster, s: Server, v: ServerId, d: Cluster, t: Server) {
    if 2 * (s.rcvVotes + 1) > |c.voters| then
      && Leads(d, t) && t.term == s.term && t.log == s.log + [NoopEntry(s.term)]
      && t.commit == s.commit && t.votedFor == s.votedFor && forall y :: MatchOf(t.cfg, y) == 0
    else
      && Stands(d, t, Marked(s.cfg) + {v}) && d.leaderLog == c.leaderLog
      && t == s.(cfg := t.cfg, rcvVotes := s.rcvVotes + 1)
  }

  /** What handle_vote_reply makes of the candidate. */
  ghost predicate Counted(voters: set<ServerId>, s: Server, v: ServerId, t: Server) {
    && t.id == s.id && t.term == s.term && t.commit == s.commit && t.applied == s.applied && t.votedFor == s.votedFor
    && UniqueIds(t.cfg) && Voters(t.cfg) == voters
    && if 2 * (s.rcvVotes + 1) > |voters| then
         t.role == Leader && t.log == s.log + [NoopEntry(s.term)] && forall y :: MatchOf(t.cfg, y) == 0
       else
         t == s.(cfg := t.cfg, rcvVotes := s.rcvVotes + 1) && Marked(t.cfg) == Marked(s.cfg) + {v}
  }

  lemma CountIs(s: Server, v: ServerId)
    requires s.role == Candidate && UniqueIds(s.cfg) && v in Voters(s.cfg) && v !in Marked(s.cfg)
    ensures Counted(Voters(s.cfg), s, v, OnVoteReply(s, VoteReply(v, s.id, s.term, true)))
  {
    SetNewVoteSets(s.cfg, v);
    var u := s.(cfg := SetNewVote(s.cfg, v), rcvVotes := s.rcvVotes + 1);
    if MajorityOfVotes(u.cfg, u.rcvVotes) {
      IndexOpsSets(u.cfg, s.id, |s.log| + 1, true);
      Completeness.NoMatches(u.cfg, |s.log| + 1);
    }
  }

  lemma CountsOne(careful: bool, b: Cluster, c: Cluster, s: Server, v: ServerId) returns (d: Cluster, t: Server)
    requires Reaches(careful, b, c) && Stands(c, s, Marked(s.cfg)) && v in c.voters && v !in Marked(s.cfg)
    requires VoteReply(v, s.id, s.term, true) in c.net
    ensures Reaches(careful, b, d) && Only(c, d, s.id) && t.id == s.id && Gained(c, s, v, d, t)
  {
    var a := VoteRep(s.id, VoteReply(v, s.id, s.term, true));
    CountIs(s, v);
    t := OnVoteReply(s, a.m);
    d := Steps(careful, b, c, a, t, {});
    CountedIsGained(c, s, v, t);
  }

  lemma CountedIsGained(c: Cluster, s: Server, v: ServerId, t: Server)
    requires Stands(c, s, Marked(s.cfg)) && v !in Marked(s.cfg) && Counted(c.voters, s, v, t)
    ensures Gained(c, s, v, Update(c, t, {}), t)
  {
    if 2 * (s.rcvVotes + 1) > |c.voters| {
      LeadsNow(c, s, t);
    } else {
      assert |Marked(s.cfg) + {v}| == s.rcvVotes + 1;
    }
  }

  lemma LeadsNow(c: Cluster, s: Server, t: Server)
    requires At(c, s.id, s) && t.id == s.id && t.role == Leader && t.log == s.log + [NoopEntry(t.term)]
    requires UniqueIds(t.cfg) && Voters(t.cfg) == c.voters && t.commit == s.commit && t.applied == s.applied
    ensures Leads(Update(c, t, {}), t)
  {
  }

  /** Server w votes for the candidate s, and the vote is counted. */
  lemma Votes(careful: bool, b: Cluster, c: Cluster, s: Server, w: Server) returns (d: Cluster, t: Server)
    requires Reaches(careful, b, c) && Stands(c, s, Marked(s.cfg)) && At(c, w.id, w) && w.id != s.id
    requires w.id in c.voters && w.id !in Marked(s.cfg) && Ahead(s, w)
    requires w.term < s.term || (w.term == s.term && w.votedFor == None && w.role != Leader)
    ensures Reaches(careful, b, d) && d.base == c.base && d.voters == c.voters && d.servers.Keys == c.servers.Keys
    ensures c.net <= d.net && (forall y :: y in c.servers && y != s.id && y != w.id ==> d.servers[y] == c.servers[y])
    ensures At(d, w.id, Voted(w, s)) && t.id == s.id && Gained(c, s, w.id, d, t)
  {
    var e := Grants(careful, b, c, s, w);
    d, t := CountsOne(careful, b, e, s, w.id);
  }

  // ---------- replication ----------

  /** The leader expects server v to hold its log up to p. */
  predicate Tracks(ms: seq<Member>, v: ServerId, p: nat) {
    var i := Find(ms, v);
    i < |ms| && ms[i].nextIndex == p + 1 && ms[i].matchIndex == p
  }

  lemma Joins(careful: bool, b: Cluster, c: Cluster, s: Server, v: ServerId, last: nat)
    returns (d: Cluster, t: Server)
    requires Reaches(careful, b, c) && Leads(c, s) && v in c.voters && v != s.id
    requires careful ==> last <= MatchOf(s.cfg, v)
    ensures Reaches(careful, b, d) && Only(c, d, s.id) && Leads(d, t) && t == s.(cfg := t.cfg)
    ensures Tracks(t.cfg, v, last) && forall y :: MatchOf(t.cfg, y) == if y == v then last else MatchOf(s.cfg, y)
  {
    var a := Join(s.id, v, "", last);
    t := OnMembership(s, v, "", last);
    AddServerSets(s.cfg, v, "", last);
    InSelectUnique(s.cfg, Voting, v);
    FindSameIds(s.cfg, t.cfg, v);
    forall y ensures MatchOf(t.cfg, y) == if y == v then last else MatchOf(s.cfg, y) {
      if y != v {
        CommitRule.MatchOfOps(s.cfg, y, v, "", last, true);
      }
    }
    d := Steps(careful, b, c, a, t, {});
  }

  /** What the leader s sends to a server it expects to hold its log up to p. */
  function Sent(s: Server, v: ServerId, p: nat): Message
    requires p <= |s.log|
  {
    AppendRequest(s.id, v, s.term, p, if p == 0 then 0 else s.log[p - 1].term, s.log[p..], s.commit)
  }

  lemma SentIs(s: Server, v: ServerId, p: nat)
    requires s.role == Leader && v != s.id && Tracks(s.cfg, v, p) && p <= |s.log|
    ensures CanSend(s, v, |s.log| - p) && AppendRequestFor(s, v, |s.log| - p) == Sent(s, v, p)
  {
    assert s.log[p..|s.log|] == s.log[p..];
  }

  lemma SendIs(c: Cluster, s: Server, v: ServerId, p: nat)
    requires At(c, s.id, s) && s.role == Leader && v != s.id && Tracks(s.cfg, v, p) && p <= |s.log|
    ensures Enabled(c, Send(s.id, v, |s.log| - p))
    ensures Next(c, Send(s.id, v, |s.log| - p)) == Update(c, s, {Sent(s, v, p)})
  {
    SentIs(s, v, p);
  }

  lemma Sends(careful: bool, b: Cluster, c: Cluster, s: Server, v: ServerId, p: nat) returns (d: Cluster)
    requires Reaches(careful, b, c) && Leads(c, s) && v != s.id && Tracks(s.cfg, v, p) && p <= |s.log|
    ensures Reaches(careful, b, d) && Only(c, d, s.id) && Leads(d, s) && Sent(s, v, p) in d.net
  {
    SendIs(c, s, v, p);
    d := Steps(careful, b, c, Send(s.id, v, |s.log| - p), s, {Sent(s, v, p)});
  }

  /** A follower that holds the leader's log up to p, and has committed no more than that. */
  ghost predicate Fits(s: Server, w: Server, p: nat) {
    && w.role == Follower && w.term <= s.term && w.id != s.id
    && s.commit <= w.commit <= p <= |w.log| && p <= |s.log| && w.log[..p] == s.log[..p]
  }

  function Took(w: Server, s: Server): Server {
    MatchTerms(w, s.term).(log := s.log)
  }

  lemma KeptIs(s: Server, w: Server, p: nat)
    requires Fits(s, w, p)
    ensures var m := Sent(s, w.id, p);
            && LogSpec.Kept(0, w.log, p, m.prevTerm, w.commit) == w.log[..p]
            && LogSpec.Accepts(0, w.log, p, m.prevTerm, w.commit, 0, 0)
  {
    var m := Sent(s, w.id, p);
    LogSpec.TruncateIs(0, w.log, p, m.prevTerm, w.commit);
    if p > 0 {
      assert w.log[p - 1] == w.log[..p][p - 1] == s.log[..p][p - 1] == s.log[p - 1];
    }
  }

  lemma TakesIs(s: Server, w: Server, p: nat)
    requires Fits(s, w, p) && Changes.NoConfig(s.log) && Changes.NoConfig(w.log)
    ensures OnAppendRequest(w, Sent(s, w.id, p)) == (Took(w, s), AppendReply(w.id, s.id, s.term, |s.log|, true))
  {
    KeptIs(s, w, p);
    assert s.log == s.log[..p] + s.log[p..];
    Changes.NoConfigNoEffect(w.cfg, w.log[p..]);
    Changes.NoConfigNoEffect(w.cfg, s.log[p..]);
  }

  lemma Takes(careful: bool, b: Cluster, c: Cluster, s: Server, w: Server, p: nat) returns (d: Cluster)
    requires Reaches(careful, b, c) && Leads(c, s) && At(c, w.id, w) && Fits(s, w, p) && Sent(s, w.id, p) in c.net
    ensures Reaches(careful, b, d) && Only(c, d, w.id) && Leads(d, s) && At(d, w.id, Took(w, s))
    ensures AppendReply(w.id, s.id, s.term, |s.log|, true) in d.net
  {
    var a := AppendReq(w.id, Sent(s, w.id, p));
    KeptIs(s, w, p);
    TakesIs(s, w, p);
    assert FixedVoting(c, a) && InPlace(c, a) && Completeness.KeepsAgreement(c, a);
    Goes(careful, b, c, a);
    d := Next(c, a);
  }

  /** The leader after the reply of v that holds its whole log. */
  ghost predicate Heard(s: Server, v: ServerId, t: Server) {
    && t.id == s.id && t.log == s.log && t.term == s.term
    && (forall y :: MatchOf(t.cfg, y) == if y == v then |s.log| else MatchOf(s.cfg, y))
    && (if MajorityOfMatch(t.cfg, |s.log|) then t.commit == |s.log| else t == s.(cfg := t.cfg))
  }

  lemma IndexedMatch(ms: seq<Member>, v: ServerId, n: nat)
    requires Has(ms, v)
    ensures forall y :: MatchOf(SetIndexes(ms, v, n, true), y) == if y == v then n else MatchOf(ms, y)
  {
    var r := SetIndexes(ms, v, n, true);
    FindSameIds(ms, r, v);
    forall y ensures MatchOf(r, y) == if y == v then n else MatchOf(ms, y) {
      if y != v {
        CommitRule.MatchOfOps(ms, y, v, "", n, true);
      }
    }
  }

  lemma HeardIs(s: Server, v: ServerId)
    requires s.role == Leader && Has(s.cfg, v) && s.commit < |s.log| && s.log[|s.log| - 1].term == s.term
    requires s.commit + 1 == |s.log|
    ensures Heard(s, v, OnAppendReply(s, AppendReply(v, s.id, s.term, |s.log|, true)))
    ensures OnAppendReply(s, AppendReply(v, s.id, s.term, |s.log|, true)).cfg == SetIndexes(s.cfg, v, |s.log|, true)
  {
    var n := |s.log|;
    var u := s.(cfg := SetIndexes(s.cfg, v, n, true));
    IndexedMatch(s.cfg, v, n);
    assert LeaderScan(u, n) == if MajorityOfMatch(u.cfg, n) then n else s.commit;
  }

  lemma Hears(careful: bool, b: Cluster, c: Cluster, s: Server, v: ServerId) returns (d: Cluster, t: Server)
    requires Reaches(careful, b, c) && Leads(c, s) && v in c.voters && s.commit + 1 == |s.log|
    requires s.log[|s.log| - 1].term == s.term && AppendReply(v, s.id, s.term, |s.log|, true) in c.net
    ensures Reaches(careful, b, d) && Only(c, d, s.id) && s.id in d.servers && d.servers[s.id] == t && Heard(s, v, t)
    ensures !MajorityOfMatch(t.cfg, |s.log|) ==> Leads(d, t)
    ensures UniqueIds(t.cfg) && Voters(t.cfg) == c.voters
  {
    var m := AppendReply(v, s.id, s.term, |s.log|, true);
    var a := AppendRep(s.id, m);
    InSelectUnique(s.cfg, Voting, v);
    HeardIs(s, v);
    IndexOpsSets(s.cfg, v, |s.log|, true);
    t := OnAppendReply(s, m);
    d := Steps(careful, b, c, a, t, {});
    if !MajorityOfMatch(t.cfg, |s.log|) {
      assert d.leaderLog[t.term] == t.log;
    }
  }

  /** Server v joins again at p, gets the rest of the leader's log, and its reply is counted. */
  lemma Replicates(careful: bool, b: Cluster, c: Cluster, s: Server, w: Server, p: nat)
    returns (d: Cluster, t: Server)
    requires Reaches(careful, b, c) && Leads(c, s) && At(c, w.id, w) && w.id in c.voters && Fits(s, w, p)
    requires careful ==> p <= MatchOf(s.cfg, w.id)
    requires s.commit + 1 == |s.log| && s.log[|s.log| - 1].term == s.term
    ensures Reaches(careful, b, d) && d.base == c.base && d.voters == c.voters && c.net <= d.net
    ensures d.servers.Keys == c.servers.Keys
    ensures forall y :: y in c.servers && y != s.id && y != w.id ==> d.servers[y] == c.servers[y]
    ensures At(d, w.id, Took(w, s)) && s.id in d.servers && d.servers[s.id] == t && Heard(s, w.id, t)
    ensures !MajorityOfMatch(t.cfg, |s.log|) ==> Leads(d, t)
    ensures UniqueIds(t.cfg) && Voters(t.cfg) == c.voters
  {
    var e, u := Offers(careful, b, c, s, w, p);
    e := Takes(careful, b, e, u, w, p);
    d, t := Hears(careful, b, e, u, w.id);
  }

  lemma Offers(careful: bool, b: Cluster, c: Cluster, s: Server, w: Server, p: nat) returns (d: Cluster, t: Server)
    requires Reaches(careful, b, c) && Leads(c, s) && w.id in c.voters && w.id != s.id && p <= |s.log|
    requires careful ==> p <= MatchOf(s.cfg, w.id)
    ensures Reaches(careful, b, d) && Only(c, d, s.id) && Leads(d, t) && t == s.(cfg := t.cfg)
    ensures forall y :: MatchOf(t.cfg, y) == if y == w.id then p else MatchOf(s.cfg, y)
    ensures Sent(t, w.id, p) in d.net
  {
    d, t := Joins(careful, b, c, s, w.id, p);
    d := Sends(careful, b, d, t, w.id, p);
  }
}
