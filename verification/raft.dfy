/** One RFT server's raft state and the effect of each handler of rft.c on it. Every handler
    runs under raft_state_lock, so one handler is one step. */
module Raft {
  import opened Types
  import opened Members
  import Changes
  import LogSpec

  datatype Role = InitServer | Follower | Candidate | Leader

  /** `raft_state_t` with the configuration and the raft log. The log is complete here (no
      compaction, snapshot (0, 0)); LogSpec.CompactionTransparent says when that is no loss. */
  datatype Server = Server(
    id: ServerId,
    role: Role,
    term: nat,
    votedFor: Option<ServerId>,
    rcvVotes: nat,
    cfg: seq<Member>,
    changing: bool,
    log: seq<Entry>,
    commit: nat,
    applied: nat)

  datatype Message =
    | VoteRequest(src: ServerId, term: nat, lastIndex: nat, lastTerm: nat)
    | VoteReply(src: ServerId, dst: ServerId, term: nat, granted: bool)
    | AppendRequest(src: ServerId, dst: ServerId, term: nat, prevIndex: nat, prevTerm: nat,
                    entries: seq<Entry>, leaderCommit: nat)
    | AppendReply(src: ServerId, dst: ServerId, term: nat, lastIndex: nat, success: bool)

  /** get_raft_last_log_term. */
  function LastTerm(s: Server): nat {
    if s.log == [] then s.term else s.log[|s.log| - 1].term
  }

  /** match_terms. */
  function MatchTerms(s: Server, term: nat): Server {
    if term <= s.term then s
    else s.(term := term,
            votedFor := None,
            role := if s.role == Leader || s.role == Candidate then Follower else s.role)
  }

  /** append_raft_log_entry. */
  function AppendEntry(s: Server, e: Entry): Server {
    s.(log := s.log + [e], cfg := Changes.Apply(s.cfg, e.command))
  }

  function AppendAll(s: Server, es: seq<Entry>): Server {
    s.(log := s.log + es, cfg := Changes.ApplyAll(s.cfg, es))
  }

  function NoopEntry(term: nat): Entry {
    Entry(term, Noop, 0, 0, 0)
  }

  /** become_leader. */
  function BecomeLeader(s: Server): Server {
    s.(role := Leader,
       log := s.log + [NoopEntry(s.term)],
       cfg := SetAllIndexes(s.cfg, |s.log| + 1))
  }

  /** One pass of the loop of become_candidate. The source exits when the server cannot mark
      its own vote. */
  predicate CanStartElection(s: Server) {
    (s.role == Follower || s.role == Candidate)
    && IsNewVote(ResetVotes(s.cfg), s.id)
  }

  /** A candidate of a new term that has voted for itself. */
  function Campaigning(s: Server): Server {
    s.(role := Candidate,
       term := s.term + 1,
       votedFor := Some(s.id),
       rcvVotes := 1,
       cfg := SetNewVote(ResetVotes(s.cfg), s.id))
  }

  function StartElection(s: Server): Server {
    var t := Campaigning(s);
    if MajorityOfVotes(t.cfg, 1) then BecomeLeader(t) else t
  }

  /** handle_vote_request. `pending` is the source's `timed_out`: the election timer has not
      expired yet. */
  function OnVoteRequest(s: Server, m: Message, pending: bool): (Server, Message)
    requires m.VoteRequest?
  {
    var t := MatchTerms(s, m.term);
    if !pending && t.role == Follower then (t, VoteReply(s.id, m.src, t.term, false))
    else if m.term < s.term then (t, VoteReply(s.id, m.src, t.term, false))
    else
      var logOk := m.lastTerm > LastTerm(t) || (m.lastTerm == LastTerm(t) && m.lastIndex >= |t.log|);
      var u := if logOk && t.votedFor == None then t.(votedFor := Some(m.src)) else t;
      (u, VoteReply(s.id, m.src, u.term, u.votedFor == Some(m.src)))
  }

  /** handle_vote_reply. */
  function OnVoteReply(s: Server, m: Message): Server
    requires m.VoteReply?
  {
    if m.term == s.term && s.role == Candidate && m.granted && IsNewVote(s.cfg, m.src) then
      var t := s.(cfg := SetNewVote(s.cfg, m.src), rcvVotes := s.rcvVotes + 1);
      if MajorityOfVotes(t.cfg, t.rcvVotes) then BecomeLeader(t) else t
    else MatchTerms(s, m.term)
  }

  /** The search of raft_commit_log_entries, downwards from n. */
  function LeaderScan(s: Server, n: nat): (r: nat)
    requires s.commit <= |s.log|
    ensures s.commit <= r <= |s.log|
    decreases n
  {
    if n <= s.commit || n > |s.log| || s.log[n - 1].term != s.term then s.commit
    else if MajorityOfMatch(s.cfg, n) then n
    else LeaderScan(s, n - 1)
  }

  /** One pass of the loop of raft_apply_log_entries. */
  function ApplyOne(s: Server): Server
    requires s.applied < s.commit <= |s.log|
  {
    var c := s.log[s.applied].command;
    s.(applied := s.applied + 1,
       role := if c.AddMember? && c.id == s.id && Has(s.cfg, s.id) then Follower else s.role)
  }

  function ApplyCommitted(s: Server): (r: Server)
    requires s.commit <= |s.log|
    ensures r == s.(applied := r.applied, role := r.role)
    ensures r.role == s.role || r.role == Follower
    ensures s.applied <= s.commit ==> r.applied == s.commit
    decreases s.commit - s.applied
  {
    if s.applied < s.commit then ApplyCommitted(ApplyOne(s)) else s
  }

  /** raft_commit_log_entries. */
  function Commit(s: Server, n: nat): Server
    requires s.commit <= |s.log|
  {
    var target := if s.role == Leader then LeaderScan(s, n) else Min(n, |s.log|);
    if s.commit < target then
      var done := s.role == Leader && !Changes.NoConfig(s.log[s.commit..target]);
      ApplyCommitted(s.(commit := target, changing := if done then false else s.changing))
    else s
  }

  /** What send_append_entries puts in the message for server `dst`, when the size limit lets
      k entries through. The source exits if it has to serialize from beyond its own log. */
  predicate CanSend(s: Server, dst: ServerId, k: nat) {
    var i := Find(s.cfg, dst);
    s.role == Leader && dst != s.id && i < |s.cfg| && s.cfg[i].nextIndex > 0
    && (s.cfg[i].matchIndex == s.cfg[i].nextIndex - 1 ==> s.cfg[i].nextIndex - 1 + k <= |s.log|)
  }

  function AppendRequestFor(s: Server, dst: ServerId, k: nat): Message
    requires CanSend(s, dst, k)
  {
    var i := Find(s.cfg, dst);
    var prev := s.cfg[i].nextIndex - 1;
    var es := if s.cfg[i].matchIndex == prev then s.log[prev..prev + k] else [];
    if 0 < prev <= |s.log|
    then AppendRequest(s.id, dst, s.term, prev, s.log[prev - 1].term, es, s.commit)
    else AppendRequest(s.id, dst, s.term, 0, 0, es, s.commit)
  }

  /** Log and configuration after check_raft_log_consistency. The source exits instead where
      Changes.CanUndoAll does not hold of the dropped entries. */
  function DropConflicts(s: Server, p: nat, pt: nat): Server {
    var kept := LogSpec.Kept(0, s.log, p, pt, s.commit);
    s.(log := kept, cfg := Changes.UndoAll(s.cfg, s.log[|kept|..]))
  }

  /** handle_append_entries_request. */
  function OnAppendRequest(s: Server, m: Message): (Server, Message)
    requires m.AppendRequest? && s.commit <= |s.log|
  {
    var t := MatchTerms(s, m.term);
    if m.term < s.term then (t, AppendReply(s.id, m.src, t.term, |t.log|, false))
    else
      var u := DropConflicts(t, m.prevIndex, m.prevTerm);
      if LogSpec.PrevMatches(0, u.log, m.prevIndex, m.prevTerm, 0, 0) then
        var v := AppendAll(u, m.entries);
        var w := if v.commit < m.leaderCommit then Commit(v, m.leaderCommit) else v;
        (w, AppendReply(s.id, m.src, w.term, |w.log|, true))
      else (u, AppendReply(s.id, m.src, u.term, |u.log|, false))
  }

  /** handle_append_entries_reply. */
  function OnAppendReply(s: Server, m: Message): Server
    requires m.AppendReply? && s.commit <= |s.log|
  {
    if m.term == s.term && s.role == Leader && Has(s.cfg, m.src) then
      var t := s.(cfg := SetIndexes(s.cfg, m.src, m.lastIndex, m.success));
      if m.success && m.lastIndex > t.commit then Commit(t, m.lastIndex) else t
    else MatchTerms(s, m.term)
  }

  /** handle_membership_request. */
  function OnMembership(s: Server, src: ServerId, target: Target, last: nat): Server {
    if s.role == Leader && src != s.id then s.(cfg := AddServer(s.cfg, src, target, last)) else s
  }
}
