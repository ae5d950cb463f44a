/** Installing a raft snapshot also sets the current term to the one in the snapshot. */
module Install {
  import opened Types
  import opened Members
  import opened Raft
  import opened Cluster
  import opened Moves
  import opened Needed
  import Config

  /** handle_raft_snapshot_request, when the snapshot is installed. `log` stands for the entries
      the snapshot replaces. */
  function OnSnapshot(s: Server, term: nat, lastTerm: nat, cfg: seq<Member>, log: seq<Entry>): Server {
    var t := MatchTerms(s, term);
    if term < s.term then t
    else t.(term := lastTerm, cfg := cfg, log := log, commit := |log|, applied := |log|)
  }

  predicate Grants(s: Server, m: Message, pending: bool)
    requires m.VoteRequest?
  {
    OnVoteRequest(s, m, pending).1.granted
  }

  /** A server votes at most once in a term, until it installs a snapshot. After that it can
      vote for someone else in the same term, on a request a candidate may send, if and only if
      the snapshot was taken in an earlier term. */
  lemma SecondVoteIff(s: Server, x: ServerId, y: ServerId, lastTerm: nat, cfg: seq<Member>, log: seq<Entry>)
    requires s.votedFor == Some(x) && x != y && (log != [] ==> log[|log| - 1].term <= s.term)
    ensures (exists m: Message, pending: bool ::
               m.VoteRequest? && m.src == y && m.term == s.term && m.lastTerm <= m.term
               && Grants(OnSnapshot(s, s.term, lastTerm, cfg, log), m, pending))
       <==> lastTerm < s.term
  {
    var t := OnSnapshot(s, s.term, lastTerm, cfg, log);
    if lastTerm < s.term {
      var m := VoteRequest(y, s.term, |log|, LastTerm(MatchTerms(t, s.term)));
      assert Grants(t, m, true);
    }
  }

  // ---------- two leaders in one term ----------

  /** Three voters in term 1 with one committed entry; server 1 wins term 2 with the vote of
      server 2. */
  lemma FirstLeader() returns (b: Cluster, c: Cluster)
    ensures Init(b) && Reaches(true, b, c) && |c.voters| == 3 && 2 in c.voters && 3 in c.voters
    ensures Follows(b, 1, 1, [B], 1) && Rules(c, 1, 2, [B] + [NoopEntry(2)], 1)
    ensures Follows(c, 2, 2, [B], 1) && Follows(c, 3, 1, [B], 1)
  {
    b := Three(1, [B]);
    c := WinsTwo(b, b, 1, 2, 1, [B]);
  }

  /** Server 2 has installed the snapshot that server 1 took in term 1 and sent in term 2. */
  function AfterInstall(c: Cluster): Cluster
    requires 1 in c.servers && 2 in c.servers
  {
    var cfg := Config.Installed(c.servers[1].cfg, 1);
    c.(servers := c.servers[2 := OnSnapshot(c.servers[2], 2, 1, cfg, [B])])
  }

  lemma Installs(c: Cluster) returns (d: Cluster)
    requires Rules(c, 1, 2, [B] + [NoopEntry(2)], 1) && Follows(c, 2, 2, [B], 1)
    ensures d == AfterInstall(c)
    ensures Follows(d, 2, 1, [B], 1)
  {
    var cfg := c.servers[1].cfg;
    Config.SnapshotRoundTrip(cfg, 1);
    d := AfterInstall(c);
  }

  /** Server 3 asks server 2, which is back in term 1, for its vote in term 2. */
  lemma SecondLeader(d: Cluster) returns (e: Cluster)
    requires |d.voters| == 3 && 2 in d.voters && 3 in d.voters
    requires Follows(d, 2, 1, [B], 1) && Follows(d, 3, 1, [B], 1)
    ensures Reaches(true, d, e) && Others(d, e, {2, 3}) && Rules(e, 3, 2, [B] + [NoopEntry(2)], 1)
  {
    Stays(true, d);
    e := WinsTwo(d, d, 3, 2, 1, [B]);
  }

  /** Election Safety does not survive an install: from a state c that a run reaches, one install
      of a snapshot taken in the term before leads to a state e with two leaders in one term. */
  lemma TwoLeadersAfterInstall() returns (b: Cluster, c: Cluster, d: Cluster, e: Cluster)
    ensures Init(b) && Reaches(true, b, c) && Reaches(true, d, e)
    ensures 1 in c.servers && 2 in c.servers && c.servers[1].role == Leader && c.servers[1].term == 2
    ensures d == AfterInstall(c)
    ensures 1 in e.servers && 3 in e.servers && e.servers[1].role == Leader && e.servers[3].role == Leader
    ensures e.servers[1].term == e.servers[3].term
  {
    b, c := FirstLeader();
    d := Installs(c);
    e := SecondLeader(d);
  }
}
