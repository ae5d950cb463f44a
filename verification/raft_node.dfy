/** The handlers of rft.c as they run: fields updated in place, loops over the ring-backed log
    and the configuration array. Each is proved to do what its function in module Raft says.
    `alive` is false where the source exits the process. The log has not been compacted. */
module RaftNode {
  import opened Types
  import opened Raft
  import Changes
  import Config
  import LogSpec
  import Members
  import RaftLog

  class Node {
    const id: ServerId
    var role: Role
    var term: nat
    var votedFor: Option<ServerId>
    var rcvVotes: nat
    var commit: nat
    var applied: nat
    const config: Config.Config
    const log: RaftLog.Log

    ghost predicate Valid()
      reads this, config, log, log.ring, log.ring.data
    {
      config.Valid() && log.Valid() && log.indexOffset == 0 && applied <= commit <= |log.entries|
    }

    ghost function State(): Server
      reads this, config, log
    {
      Server(id, role, term, votedFor, rcvVotes, config.servers, config.isChanging, log.entries, commit, applied)
    }

    ghost predicate HasRoom(n: nat)
      reads log
    {
      |log.entries| + n < log.ring.size
    }

    constructor (id: ServerId, config: Config.Config, log: RaftLog.Log)
      requires config.Valid() && log.Valid() && log.indexOffset == 0
      ensures Valid() && this.config == config && this.log == log
      ensures State() == Server(id, InitServer, 0, None, 0, config.servers, config.isChanging, log.entries, 0, 0)
    {
      this.id, role, term, votedFor, rcvVotes, commit, applied := id, InitServer, 0, None, 0, 0, 0;
      this.config, this.log := config, log;
    }

    /** match_terms; returns whether the message is outdated. */
    method MatchTerms(t: nat) returns (outdated: bool)
      modifies this
      ensures State() == Raft.MatchTerms(old(State()), t) && outdated == (t < old(term))
    {
      if t < term {
        return true;
      }
      if t > term {
        term, votedFor := t, None;
        if role == Leader || role == Candidate {
          role := Follower;
        }
      }
      return false;
    }

    /** become_leader. */
    method BecomeLeader() returns (alive: bool)
      requires Valid()
      modifies this`role, config, log, log.ring, log.ring.data
      ensures Valid() && alive == old(HasRoom(1))
      ensures alive ==> State() == Raft.BecomeLeader(old(State()))
    {
      role := Leader;
      alive := AppendOne(NoopEntry(term));
      if alive {
        config.SetAllIndexes(log.lastLogIndex);
      }
    }

    /** The votes received so far decide; the source exits when they exceed the voters. */
    method Tally() returns (alive: bool)
      requires Valid()
      modifies this`role, config, log, log.ring, log.ring.data
      ensures Valid()
      ensures alive ==>
                var s := old(State());
                State() == if Members.MajorityOfVotes(s.cfg, s.rcvVotes) then Raft.BecomeLeader(s) else s
      ensures old(rcvVotes <= config.votingMembers && HasRoom(1)) ==> alive
    {
      var won;
      won, alive := config.HasMajorityOfVotes(rcvVotes);
      if alive && won {
        alive := BecomeLeader();
      }
    }

    /** A candidate clears the marks of the last election and marks its own vote. */
    method MarkSelf() returns (marked: bool)
      requires Valid()
      modifies config`servers
      ensures Valid() && marked == old(Members.IsNewVote(Members.ResetVotes(config.servers), id))
      ensures config.servers == Members.SetNewVote(Members.ResetVotes(old(config.servers)), id)
      ensures marked ==> config.votingMembers >= 1
    {
      config.ResetVotes();
      Members.SetNewVoteSets(config.servers, id);
      marked := config.SetNewVote(id);
    }

    method NewTerm()
      modifies this
      ensures State() == old(State()).(role := Candidate, term := old(term) + 1, votedFor := Some(id), rcvVotes := 1)
    {
      role, term, votedFor, rcvVotes := Candidate, term + 1, Some(id), 1;
    }

    /** A new term, and a vote for itself. */
    method Campaign() returns (marked: bool)
      requires Valid()
      modifies this, config`servers
      ensures Valid() && State() == Campaigning(old(State()))
      ensures marked == old(Members.IsNewVote(Members.ResetVotes(config.servers), id))
      ensures marked ==> config.votingMembers >= 1
    {
      NewTerm();
      marked := MarkSelf();
    }

    /** One pass of the loop of become_candidate. */
    method StartElection() returns (alive: bool)
      requires Valid() && (role == Follower || role == Candidate)
      modifies this, config, log, log.ring, log.ring.data
      ensures Valid()
      ensures alive ==> old(CanStartElection(State())) && State() == Raft.StartElection(old(State()))
      ensures old(CanStartElection(State()) && HasRoom(1)) ==> alive
    {
      alive := Campaign();
      if alive {
        alive := Tally();
      }
    }

    /** handle_vote_request. */
    method HandleVoteRequest(m: Message, pending: bool) returns (reply: Message)
      requires Valid() && m.VoteRequest?
      modifies this
      ensures Valid() && (State(), reply) == OnVoteRequest(old(State()), m, pending)
    {
      var outdated := MatchTerms(m.term);
      var granted := false;
      if !pending && role == Follower {
      } else if outdated {
      } else {
        var last := log.Get(log.lastLogIndex);
        var lastTerm := if last.Some? then last.value.term else term;
        var logOk := m.lastTerm > lastTerm || (m.lastTerm == lastTerm && m.lastIndex >= log.lastLogIndex);
        if logOk && votedFor.None? {
          votedFor := Some(m.src);
        }
        granted := votedFor == Some(m.src);
      }
      reply := VoteReply(id, m.src, term, granted);
    }

    /** handle_vote_reply. */
    method HandleVoteReply(m: Message) returns (alive: bool)
      requires Valid() && m.VoteReply?
      modifies this, config, log, log.ring, log.ring.data
      ensures Valid()
      ensures alive ==> State() == OnVoteReply(old(State()), m)
      ensures old(rcvVotes < config.votingMembers && HasRoom(1)) ==> alive
    {
      alive := true;
      var before := term;
      var outdated := MatchTerms(m.term);
      if m.term == before && role == Candidate && m.granted {
        alive := CountVote(m.src);
      }
    }

    /** A granted vote that arrives while the election is open. */
    method CountVote(src: ServerId) returns (alive: bool)
      requires Valid()
      modifies this`rcvVotes, this`role, config, log, log.ring, log.ring.data
      ensures Valid()
      ensures alive ==>
                var s := old(State());
                State() == if !Members.IsNewVote(s.cfg, src) then s
                           else
                             var t := s.(cfg := Members.SetNewVote(s.cfg, src), rcvVotes := s.rcvVotes + 1);
                             if Members.MajorityOfVotes(t.cfg, t.rcvVotes) then Raft.BecomeLeader(t) else t
      ensures old(rcvVotes < config.votingMembers && HasRoom(1)) ==> alive
    {
      alive := true;
      var isNew := MarkVote(src);
      if isNew {
        alive := Tally();
      }
    }

    /** Marks a vote that is new, and counts it. */
    method MarkVote(src: ServerId) returns (isNew: bool)
      requires Valid()
      modifies this`rcvVotes, config`servers
      ensures Valid() && isNew == Members.IsNewVote(old(config.servers), src)
      ensures var s := old(State());
              State() == if isNew then s.(cfg := Members.SetNewVote(s.cfg, src), rcvVotes := s.rcvVotes + 1) else s
    {
      isNew := config.SetNewVote(src);
      if isNew {
        rcvVotes := rcvVotes + 1;
      }
    }

    /** Whether index i of the log may be committed, as the loop tests it: None stops the search. */
    method TestIndex(i: nat) returns (r: Option<bool>)
      requires Valid() && i > commit
      ensures r == Tested(State(), i)
    {
      var entry := log.Get(i);
      if entry.None? || entry.value.term != term {
        return None;
      }
      var enough := config.HasMajorityOfMatchIndex(i);
      return Some(enough);
    }

    /** The leader's search in raft_commit_log_entries: None when it returns early. */
    method FindCommittable(n: nat) returns (r: Option<nat>)
      requires Valid()
      ensures LeaderScan(State(), n) == if r.Some? && r.value > commit then r.value else commit
      ensures r.Some? ==> r.value <= n
    {
      var i: nat := n;
      ghost var s := State();
      while i > commit
        invariant i <= n && s == State() && LeaderScan(s, i) == LeaderScan(s, n)
      {
        ScanStep(s, i);
        var test := TestIndex(i);
        if test.None? {
          return None;
        }
        if test.value {
          return Some(i);
        }
        i := i - 1;
      }
      return Some(i);
    }

    /** The search for a configuration entry among those about to be committed. */
    method HasConfigUpTo(n: nat) returns (found: bool)
      requires Valid() && commit <= n <= |log.entries|
      ensures found <==> !Changes.NoConfig(log.entries[commit..n])
    {
      var i := commit + 1;
      while i <= n
        invariant commit < i <= n + 1
        invariant Changes.NoConfig(log.entries[commit..i - 1])
      {
        var entry := log.Get(i);
        if entry.value.command.IsConfig() {
          assert log.entries[commit..n][i - 1 - commit] == entry.value;
          return true;
        }
        assert log.entries[commit..i] == log.entries[commit..i - 1] + [entry.value];
        i := i + 1;
      }
      return false;
    }

    /** One pass of the loop of raft_apply_log_entries. */
    method ApplyNext()
      requires Valid() && applied < commit
      modifies this`applied, this`role
      ensures Valid() && State() == ApplyOne(old(State()))
    {
      var entry := log.Get(applied + 1);
      var me := Adds(entry.value.command);
      if me {
        role := Follower;
      }
      applied := applied + 1;
    }

    /** The command adds this server, and it is configured. */
    method Adds(c: Command) returns (me: bool)
      ensures me <==> c.AddMember? && c.id == id && Members.Has(config.servers, id)
    {
      me := false;
      match c {
        case AddMember(who, _) =>
          var i := config.GetServer(who);
          me := i < |config.servers| && who == id;
        case _ =>
      }
    }

    /** raft_apply_log_entries. */
    method ApplyLogEntries()
      requires Valid()
      modifies this`applied, this`role
      ensures Valid() && State() == ApplyCommitted(old(State()))
    {
      while applied < commit
        invariant Valid() && ApplyCommitted(State()) == ApplyCommitted(old(State()))
      {
        ApplyNext();
      }
    }

    /** raft_commit_log_entries. */
    method CommitLogEntries(n: nat)
      requires Valid()
      modifies this`commit, this`applied, this`role, config`isChanging
      ensures Valid() && State() == Commit(old(State()), n)
    {
      var target := ChooseTarget(n);
      if target > commit {
        commit := target;
        ApplyLogEntries();
      }
    }

    /** The index to commit up to; a leader that is about to commit a change clears its flag. */
    method ChooseTarget(n: nat) returns (target: nat)
      requires Valid()
      modifies config`isChanging
      ensures Valid() && target <= |log.entries|
      ensures var s := old(State());
              var bound := if s.role == Leader then LeaderScan(s, n) else Min(n, |s.log|);
              && (target > s.commit <==> bound > s.commit) && (target > s.commit ==> target == bound)
              && State() == s.(changing := s.changing && !(s.role == Leader && target > s.commit
                                                           && !Changes.NoConfig(s.log[s.commit..target])))
    {
      if role != Leader {
        return Min(n, log.lastLogIndex);
      }
      var found := FindCommittable(n);
      if found.None? || found.value <= commit {
        return commit;
      }
      target := found.value;
      var change := HasConfigUpTo(target);
      if change {
        var _ := config.SetConfigurationChanging(false);
      }
    }

    /** append_raft_log_entry on this server's log and configuration. */
    method AppendOne(e: Entry) returns (alive: bool)
      requires Valid()
      modifies config, log, log.ring, log.ring.data
      ensures Valid() && alive == old(HasRoom(1))
      ensures alive ==> State() == AppendEntry(old(State()), e)
    {
      alive := RaftLog.AppendRaft(log, config, e);
    }

    /** The append loop of handle_append_entries_request. */
    method AppendEntries(es: seq<Entry>) returns (alive: bool)
      requires Valid()
      modifies config, log, log.ring, log.ring.data
      ensures Valid() && alive == old(HasRoom(|es|))
      ensures alive ==> State() == AppendAll(old(State()), es)
    {
      ghost var start, n := State(), |log.entries|;
      assert es[..0] == [] && start.log + [] == start.log;
      for i := 0 to |es|
        invariant Valid() && HasRoom(0) && |log.entries| == n + i
        invariant State() == AppendAll(start, es[..i])
      {
        AppendStep(start, es, i);
        alive := AppendOne(es[i]);
        if !alive {
          return;
        }
      }
      assert es[..|es|] == es;
      return true;
    }

    /** The accepting branch of handle_append_entries_request. */
    method Accept(es: seq<Entry>, leaderCommit: nat) returns (alive: bool)
      requires Valid()
      modifies this`commit, this`applied, this`role, config, log, log.ring, log.ring.data
      ensures Valid() && alive == old(HasRoom(|es|))
      ensures alive ==>
                var v := AppendAll(old(State()), es);
                State() == if v.commit < leaderCommit then Commit(v, leaderCommit) else v
    {
      alive := AppendEntries(es);
      if alive && commit < leaderCommit {
        CommitLogEntries(leaderCommit);
      }
    }

    /** check_raft_log_consistency on this server's log and configuration. */
    method CheckPrevious(p: nat, pt: nat) returns (success: bool, alive: bool)
      requires Valid()
      modifies config, log, log.ring, log.ring.data
      ensures alive == CanDrop(old(State()), p, pt)
      ensures alive ==> Valid() && State() == DropConflicts(old(State()), p, pt)
      ensures alive ==> success == LogSpec.PrevMatches(0, log.entries, p, pt, 0, 0)
    {
      success, alive := RaftLog.CheckConsistency(log, config, p, pt, commit, 0, 0);
    }

    /** handle_append_entries_request. The process survives it exactly if the message is
        outdated, or the entries it drops can be taken back and the ring has room for those it
        stores. */
    method HandleAppendRequest(m: Message) returns (reply: Message, alive: bool)
      requires Valid() && m.AppendRequest?
      modifies this, config, log, log.ring, log.ring.data
      ensures alive ==> Valid() && (State(), reply) == OnAppendRequest(old(State()), m)
      ensures alive <==>
                var s := old(State());
                m.term < s.term
                || (CanDrop(s, m.prevIndex, m.prevTerm)
                    && (OnAppendRequest(s, m).1.success ==>
                          |LogSpec.Kept(0, s.log, m.prevIndex, m.prevTerm, s.commit)| + |m.entries| < log.ring.size))
    {
      var outdated := MatchTerms(m.term);
      var replyTerm := term;
      var success := false;
      alive := true;
      if !outdated {
        success, alive := CheckPrevious(m.prevIndex, m.prevTerm);
        if alive && success {
          alive := Accept(m.entries, m.leaderCommit);
        }
      }
      reply := AppendReply(id, m.src, replyTerm, log.lastLogIndex, success);
    }

    /** commit_raft_config_snapshot: configuration and log start over from the snapshot, and the
        current term is the one in its label. */
    method CommitSnapshot(items: seq<Config.Item>, lastIndex: nat, lastTerm: nat) returns (alive: bool)
      requires Valid()
      modifies this, config, log, log.ring, log.ring.data
      ensures alive <==> Config.UniqueItems(items)
      ensures alive ==>
                && State() == old(State()).(cfg := Config.Restored(items, lastIndex), term := lastTerm, log := [],
                                            applied := lastIndex, commit := lastIndex)
                && config.Valid() && log.Valid() && log.RaftAccounted()
                && log.indexOffset == log.lastLogIndex == lastIndex
    {
      log.FreeAll(lastIndex);
      term, applied, commit := lastTerm, lastIndex, lastIndex;
      alive := config.CommitSnapshot(items, lastIndex);
    }

    /** handle_append_entries_reply. */
    method HandleAppendReply(m: Message)
      requires Valid() && m.AppendReply?
      modifies this, config
      ensures Valid() && State() == OnAppendReply(old(State()), m)
    {
      var before := term;
      var outdated := MatchTerms(m.term);
      if m.term == before && role == Leader {
        var found := config.SetIndexes(m.src, m.lastIndex, m.success);
        if found && m.success && m.lastIndex > commit {
          CommitLogEntries(m.lastIndex);
        }
      }
    }
  }

  /** check_raft_log_consistency does not exit. */
  predicate CanDrop(s: Server, p: nat, pt: nat)
  {
    Changes.CanUndoAll(s.cfg, s.log[|LogSpec.Kept(0, s.log, p, pt, s.commit)|..])
  }

  /** The loop's test of index i: None stops the search. */
  function Tested(s: Server, i: nat): Option<bool>
    requires i > 0
  {
    if i > |s.log| || s.log[i - 1].term != s.term then None else Some(Members.MajorityOfMatch(s.cfg, i))
  }

  lemma ScanStep(s: Server, n: nat)
    requires s.commit < n && s.commit <= |s.log|
    ensures LeaderScan(s, n)
         == (match Tested(s, n)
             case None => s.commit
             case Some(enough) => if enough then n else LeaderScan(s, n - 1))
  {
  }

  lemma AppendStep(s: Server, es: seq<Entry>, i: nat)
    requires i < |es|
    ensures AppendAll(s, es[..i + 1]) == AppendEntry(AppendAll(s, es[..i]), es[i])
  {
    assert es[..i + 1][..i] == es[..i];
    assert s.log + es[..i + 1] == s.log + es[..i] + [es[i]];
  }
}
