/** What each handler of rft.c does, stated in terms of the server before the call, the message and
    the server after it. Module Raft computes the same step by step. */
module RaftSpec {
  import opened Types
  import opened Members
  import opened Raft
  import opened MemberSpec
  import Chain
  import LogSpec

  // ---------- terms and votes ----------

  /** match_terms: only a higher term changes anything. */
  lemma TermsExact(s: Server, term: nat)
    ensures var t := MatchTerms(s, term);
            && t.term == Max(s.term, term)
            && t.votedFor == (if term > s.term then None else s.votedFor)
            && t.role == (if term > s.term && s.role != InitServer then Follower else s.role)
            && t == s.(term := t.term, votedFor := t.votedFor, role := t.role)
  {
  }

  /** The candidate's log is at least as up to date as the voter's. The last term of an empty log is
      the current term, which is the request's once it has been taken over. */
  predicate UpToDate(s: Server, m: Message)
    requires m.VoteRequest?
  {
    var last := if s.log == [] then m.term else s.log[|s.log| - 1].term;
    m.lastTerm > last || (m.lastTerm == last && m.lastIndex >= |s.log|)
  }

  /** A server that is not a follower, or would not be one after taking over the term, does not
      look at its election timer. */
  predicate IgnoresTimer(s: Server, m: Message)
    requires m.VoteRequest?
  {
    s.role == InitServer || (s.role != Follower && m.term == s.term)
  }

  /** A vote is granted if and only if the request is not outdated, the timer allows it, and either
      the server has voted for this candidate in this term, or it has not voted in it and the
      candidate's log is up to date. */
  lemma VoteGrantedIff(s: Server, m: Message, pending: bool)
    requires m.VoteRequest?
    ensures var (t, r) := OnVoteRequest(s, m, pending);
            && r == VoteReply(s.id, m.src, Max(s.term, m.term), r.granted)
            && (r.granted <==>
                  && m.term >= s.term && (pending || IgnoresTimer(s, m))
                  && if m.term == s.term && s.votedFor.Some? then s.votedFor == Some(m.src) else UpToDate(s, m))
            && t.votedFor == (if r.granted then Some(m.src) else if m.term > s.term then None else s.votedFor)
            && t == MatchTerms(s, m.term).(votedFor := t.votedFor)
  {
  }

  /** The reply is a vote that counts: granted, in the candidate's term, by a voter not counted yet. */
  ghost predicate IsCounted(s: Server, m: Message)
    requires m.VoteReply?
  {
    && s.role == Candidate && m.term == s.term && m.granted
    && m.src in Voters(s.cfg) && m.src !in Marked(s.cfg)
  }

  /** The candidate has counted src and leads if that makes more than half. */
  ghost predicate HasCounted(s: Server, src: ServerId, t: Server) {
    && t.rcvVotes == s.rcvVotes + 1 && Marked(t.cfg) == Marked(s.cfg) + {src} && Voters(t.cfg) == Voters(s.cfg)
    && t.role == (if 2 * (s.rcvVotes + 1) > |Voters(s.cfg)| then Leader else Candidate)
    && t.term == s.term && t.votedFor == s.votedFor && t.commit == s.commit && t.applied == s.applied
  }

  lemma CountingExact(s: Server, src: ServerId)
    requires UniqueIds(s.cfg) && s.role == Candidate && src in Voters(s.cfg) && src !in Marked(s.cfg)
    ensures var u := s.(cfg := SetNewVote(s.cfg, src), rcvVotes := s.rcvVotes + 1);
            && IsNewVote(s.cfg, src)
            && HasCounted(s, src, if MajorityOfVotes(u.cfg, u.rcvVotes) then BecomeLeader(u) else u)
  {
    SetNewVoteSets(s.cfg, src);
    IndexOpsSets(SetNewVote(s.cfg, src), src, |s.log| + 1, true);
  }

  /** A reply makes a leader of the server if and only if it is a vote that counts and with it more
      than half have voted. A vote that does not decide is counted, any other reply only concerns
      the term. */
  lemma WinsIff(s: Server, m: Message)
    requires m.VoteReply? && UniqueIds(s.cfg) && s.role != Leader
    ensures var t := OnVoteReply(s, m);
            && (t.role == Leader <==> IsCounted(s, m) && 2 * (s.rcvVotes + 1) > |Voters(s.cfg)|)
            && (IsCounted(s, m) ==> HasCounted(s, m.src, t))
            && (!IsCounted(s, m) ==> t == MatchTerms(s, m.term))
  {
    if IsCounted(s, m) {
      CountingExact(s, m.src);
    } else {
      SetNewVoteSets(s.cfg, m.src);
    }
  }

  /** A new leader has one more entry, a no-op of its term, and expects every server to hold the
      whole log while knowing of none that it does. */
  lemma NewLeaderExact(s: Server, id: ServerId)
    ensures var t := BecomeLeader(s);
            && t == s.(role := Leader, log := t.log, cfg := t.cfg)
            && t.log == s.log + [Entry(s.term, Noop, 0, 0, 0)] && Ids(t.cfg) == Ids(s.cfg)
            && (Has(s.cfg, id) ==>
                  Get(t.cfg, id) == Some(Get(s.cfg, id).value.(nextIndex := |t.log| + 1, matchIndex := 0)))
  {
    AllServersExact(s.cfg, |s.log| + 1, id);
  }

  /** A candidate of the next term has voted for itself and counted that vote only. */
  lemma CampaignExact(s: Server)
    requires CanStartElection(s) && UniqueIds(s.cfg)
    ensures var t := Campaigning(s);
            && t.role == Candidate && t.term == s.term + 1 && t.votedFor == Some(s.id) && t.rcvVotes == 1
            && Marked(t.cfg) == {s.id} && Voters(t.cfg) == Voters(s.cfg) && Ids(t.cfg) == Ids(s.cfg)
            && t.log == s.log && t.commit == s.commit && t.applied == s.applied && t.id == s.id
            && (StartElection(s).role == Leader <==> |Voters(s.cfg)| < 2)
  {
    FirstVote(s.cfg, s.id);
    AllServersExact(s.cfg, 0, s.id);
    SetNewVoteExact(ResetVotes(s.cfg), s.id);
  }

  // ---------- committing and applying ----------

  /** Among the entries from one index to another is one that adds the server itself. */
  ghost predicate AddsMe(s: Server, from: nat, to: nat)
    requires to <= |s.log|
  {
    exists i :: from <= i < to && s.log[i].command.AddMember? && s.log[i].command.id == s.id
  }

  /** Applying the committed entries makes a follower of the server if and only if it was one or one
      of them adds it while it is configured; otherwise it keeps its role. So this is also exactly
      when a server that has just started becomes a follower. */
  lemma {:induction false} StepsDownIff(s: Server)
    requires s.applied <= s.commit <= |s.log|
    ensures var t := ApplyCommitted(s);
            && t.role == (if AddsMe(s, s.applied, s.commit) && Has(s.cfg, s.id) then Follower else s.role)
            && t.applied == s.commit && t == s.(applied := t.applied, role := t.role)
    decreases s.commit - s.applied
  {
    if s.applied < s.commit {
      StepsDownIff(ApplyOne(s));
      AddsMeStep(s, s.applied, s.commit);
    }
  }

  lemma AddsMeStep(s: Server, from: nat, to: nat)
    requires from < to <= |s.log|
    ensures AddsMe(s, from, to)
       <==> (s.log[from].command.AddMember? && s.log[from].command.id == s.id) || AddsMe(s, from + 1, to)
  {
  }

  /** A server that does not lead commits as far as it is told and its log reaches, and never goes
      back. */
  lemma FollowerCommits(s: Server, n: nat)
    requires s.role != Leader && s.applied <= s.commit <= |s.log|
    ensures var t := Commit(s, n);
            && t.commit == Max(s.commit, Min(n, |s.log|))
            && t.applied == (if t.commit > s.commit then t.commit else s.applied)
            && t.role == (if t.commit > s.commit && AddsMe(s, s.applied, t.commit) && Has(s.cfg, s.id)
                          then Follower else s.role)
            && t == s.(commit := t.commit, applied := t.applied, role := t.role)
  {
    var target := Min(n, |s.log|);
    if s.commit < target {
      StepsDownIff(s.(commit := target));
      assert AddsMe(s.(commit := target), s.applied, target) <==> AddsMe(s, s.applied, target);
    }
  }

  // ---------- append entries ----------

  /** What a request does to a server that does not lead its term: an outdated one nothing at all; a
      rejected one drops entries but moves neither index; an accepted one appends its entries,
      commits min(leader's commit index, last index) unless it is there already, and applies all
      that is committed. */
  lemma RequestExact(s: Server, m: Message)
    requires m.AppendRequest? && s.applied <= s.commit <= |s.log|
    requires m.term < s.term || MatchTerms(s, m.term).role != Leader
    ensures var (t, r) := OnAppendRequest(s, m);
            var kept := LogSpec.Kept(0, s.log, m.prevIndex, m.prevTerm, s.commit);
            && r == AppendReply(s.id, m.src, Max(s.term, m.term), |t.log|, r.success)
            && (r.success <==>
                  m.term >= s.term && LogSpec.Accepts(0, s.log, m.prevIndex, m.prevTerm, s.commit, 0, 0))
            && t.term == Max(s.term, m.term) && t.votedFor == (if m.term > s.term then None else s.votedFor)
            && t.log == (if m.term < s.term then s.log else if r.success then kept + m.entries else kept)
            && t.commit == (if r.success then Max(s.commit, Min(m.leaderCommit, |t.log|)) else s.commit)
            && t.applied == (if t.commit > s.commit then t.commit else s.applied)
  {
    if m.term >= s.term {
      var u := DropConflicts(MatchTerms(s, m.term), m.prevIndex, m.prevTerm);
      if LogSpec.PrevMatches(0, u.log, m.prevIndex, m.prevTerm, 0, 0) {
        FollowerCommits(AppendAll(u, m.entries), m.leaderCommit);
      }
    }
  }

  /** Its role: an accepted request may apply the entry that adds the server, and nothing else makes
      it a follower but a higher term. */
  lemma RequestRole(s: Server, m: Message)
    requires m.AppendRequest? && s.applied <= s.commit <= |s.log| && m.term >= s.term
    requires MatchTerms(s, m.term).role != Leader
    ensures var (t, r) := OnAppendRequest(s, m);
            && t.commit <= |t.log|
            && t.role == (if t.commit > s.commit && AddsMe(t, s.applied, t.commit) && Has(t.cfg, s.id) then Follower
                          else MatchTerms(s, m.term).role)
  {
    var u := DropConflicts(MatchTerms(s, m.term), m.prevIndex, m.prevTerm);
    if LogSpec.PrevMatches(0, u.log, m.prevIndex, m.prevTerm, 0, 0) {
      var v := AppendAll(u, m.entries);
      FollowerCommits(v, m.leaderCommit);
      var t := OnAppendRequest(s, m).0;
      assert t.log == v.log && t.id == v.id && t.cfg == v.cfg;
      assert AddsMe(t, s.applied, t.commit) <==> AddsMe(v, s.applied, t.commit);
    }
  }

  /** The chain of one server's life takes the same step on a log that has not been compacted. */
  lemma ChainAgrees(s: Server, m: Message, c: Chain.Chain)
    requires m.AppendRequest? && s.applied <= s.commit <= |s.log| && m.term >= s.term
    requires MatchTerms(s, m.term).role != Leader
    requires c.base == c.first == 0 && c.snap == Chain.Label(0, 0) && c.all == s.log && c.commit == s.commit
    ensures var t, d := OnAppendRequest(s, m).0,
                        Chain.OnRequest(c, m.prevIndex, m.prevTerm, m.entries, m.leaderCommit);
            d.all == t.log && d.commit == t.commit
  {
    RequestExact(s, m);
    ChainRequest(c, m.prevIndex, m.prevTerm, m.entries, m.leaderCommit);
  }

  lemma ChainRequest(c: Chain.Chain, p: nat, pt: nat, es: seq<Entry>, leaderCommit: nat)
    requires c.base == c.first == 0 && c.snap == Chain.Label(0, 0) && c.commit <= |c.all|
    ensures var d, kept := Chain.OnRequest(c, p, pt, es, leaderCommit), LogSpec.Kept(0, c.all, p, pt, c.commit);
            var ok := LogSpec.Accepts(0, c.all, p, pt, c.commit, 0, 0);
            && d.all == (if ok then kept + es else kept)
            && d.commit == (if ok then Max(c.commit, Min(leaderCommit, |d.all|)) else c.commit)
  {
    assert Chain.Ring(c) == c.all;
    var kept := LogSpec.Kept(0, c.all, p, pt, c.commit);
    assert c.all[..0] + kept == kept;
  }

  /** The request for a server: it starts after the entry before the server's next index if the log
      has that entry, and carries entries, the k that fit, only if the server is known to match up
      to there. */
  lemma RequestNames(s: Server, dst: ServerId, k: nat)
    requires CanSend(s, dst, k)
    ensures var m, to := AppendRequestFor(s, dst, k), Get(s.cfg, dst).value;
            && m.src == s.id && m.dst == dst && m.term == s.term && m.leaderCommit == s.commit
            && m.prevIndex == (if to.nextIndex - 1 <= |s.log| then to.nextIndex - 1 else 0)
            && m.prevTerm == (if m.prevIndex == 0 then 0 else s.log[m.prevIndex - 1].term)
            && |m.entries| == (if to.matchIndex == to.nextIndex - 1 then k else 0)
            && m.prevIndex + |m.entries| <= |s.log|
            && m.entries == s.log[m.prevIndex..m.prevIndex + |m.entries|]
  {
    var i := Find(s.cfg, dst);
    if s.cfg[i].matchIndex != s.cfg[i].nextIndex - 1 {
      assert s.log[0..0] == [];
    }
  }

  /** The reply of a configured server in the leader's term: the next index kept for it is the one
      after its last entry, the match index moves on success only, nobody else's index moves, and
      the commit index only on success beyond it. Any other reply only concerns the term. */
  lemma ReplyExact(s: Server, m: Message, x: ServerId)
    requires m.AppendReply? && s.commit <= |s.log|
    ensures var t, heard := OnAppendReply(s, m), m.term == s.term && s.role == Leader && Has(s.cfg, m.src);
            && (!heard ==> t == MatchTerms(s, m.term))
            && (heard ==>
                  && Ids(t.cfg) == Ids(s.cfg) && (x != m.src ==> Get(t.cfg, x) == Get(s.cfg, x))
                  && Get(t.cfg, m.src).Some? && Get(t.cfg, m.src).value.nextIndex == m.lastIndex + 1
                  && Get(t.cfg, m.src).value.matchIndex
                     == (if m.success then m.lastIndex else Get(s.cfg, m.src).value.matchIndex)
                  && t.log == s.log && t.term == s.term && t.votedFor == s.votedFor
                  && (!m.success || m.lastIndex <= s.commit ==> t == s.(cfg := t.cfg)))
  {
    SetIndexesExact(s.cfg, m.src, m.lastIndex, m.success);
    CommitKeeps(s.(cfg := SetIndexes(s.cfg, m.src, m.lastIndex, m.success)), m.lastIndex);
  }

  lemma CommitKeeps(s: Server, n: nat)
    requires s.commit <= |s.log|
    ensures var t := Commit(s, n);
            t.cfg == s.cfg && t.log == s.log && t.term == s.term && t.votedFor == s.votedFor && t.id == s.id
  {
  }

  /** A membership request concerns a leader only, and not its own. */
  lemma MembershipExact(s: Server, src: ServerId, target: Target, last: nat, x: ServerId)
    ensures var t := OnMembership(s, src, target, last);
            && t == s.(cfg := t.cfg)
            && (s.role != Leader || src == s.id ==> t == s)
            && (x != src ==> Get(t.cfg, x) == Get(s.cfg, x))
            && (s.role == Leader && src != s.id ==>
                  && Get(t.cfg, src).Some? && Get(t.cfg, src).value.nextIndex == last + 1
                  && Get(t.cfg, src).value.matchIndex == last
                  && (Get(t.cfg, src).value.voting <==> Has(s.cfg, src) && Get(s.cfg, src).value.voting))
  {
    AddServerExact(s.cfg, src, target, last);
  }
}
