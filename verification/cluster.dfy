/** A set of RFT servers exchanging messages over a network that may lose, duplicate, delay
    and reorder them: a message once sent may be delivered any number of times, or never. */
module Cluster {
  import opened Types
  import opened Members
  import opened Raft
  import Changes
  import LogSpec

  datatype Ballot = Ballot(voter: ServerId, term: nat, candidate: ServerId)
  datatype Win = Win(term: nat, id: ServerId)

  /** `elected`, `ballots` and `leaderLog` record history; no step reads them. */
  datatype Cluster = Cluster(
    base: seq<Entry>,
    voters: set<ServerId>,
    servers: map<ServerId, Server>,
    net: set<Message>,
    elected: set<Win>,
    ballots: set<Ballot>,
    leaderLog: map<nat, seq<Entry>>)

  datatype Action =
    | Timeout(s: ServerId)
    | VoteReq(s: ServerId, m: Message, pending: bool)
    | VoteRep(s: ServerId, m: Message)
    | Send(s: ServerId, dst: ServerId, k: nat)
    | AppendReq(s: ServerId, m: Message)
    | AppendRep(s: ServerId, m: Message)
    | Propose(s: ServerId, e: Entry)
    | Join(s: ServerId, src: ServerId, target: Target, last: nat)

  /** Server s is now t and has sent msgs. */
  function Update(c: Cluster, t: Server, msgs: set<Message>): Cluster
    requires t.id in c.servers
  {
    c.(servers := c.servers[t.id := t],
       net := c.net + msgs,
       elected := if t.role == Leader && c.servers[t.id].role != Leader
                  then c.elected + {Win(t.term, t.id)} else c.elected,
       ballots := if t.votedFor.Some?
                  then c.ballots + {Ballot(t.id, t.term, t.votedFor.value)} else c.ballots,
       leaderLog := if t.role == Leader then c.leaderLog[t.term := t.log] else c.leaderLog)
  }

  ghost predicate Enabled(c: Cluster, a: Action) {
    && a.s in c.servers
    && var s := c.servers[a.s];
    && s.id == a.s && s.commit <= |s.log|
    && match a
       case Timeout(_) => CanStartElection(s)
       case VoteReq(_, m, _) => m in c.net && m.VoteRequest? && m.src != s.id
       case VoteRep(_, m) => m in c.net && m.VoteReply? && m.dst == s.id
       case Send(_, dst, k) => CanSend(s, dst, k)
       case AppendReq(_, m) => m in c.net && m.AppendRequest? && m.dst == s.id
       case AppendRep(_, m) => m in c.net && m.AppendReply? && m.dst == s.id
       case Propose(_, e) => s.role == Leader && e.term == s.term
       case Join(_, _, _, _) => true
  }

  ghost function Next(c: Cluster, a: Action): Cluster
    requires Enabled(c, a)
  {
    var s := c.servers[a.s];
    match a
    case Timeout(_) =>
      var t := StartElection(s);
      Update(c, t, if t.role == Leader then {} else {VoteRequest(t.id, t.term, |t.log|, LastTerm(t))})
    case VoteReq(_, m, pending) => var (t, r) := OnVoteRequest(s, m, pending); Update(c, t, {r})
    case VoteRep(_, m) => Update(c, OnVoteReply(s, m), {})
    case Send(_, dst, k) => Update(c, s, {AppendRequestFor(s, dst, k)})
    case AppendReq(_, m) => var (t, r) := OnAppendRequest(s, m); Update(c, t, {r})
    case AppendRep(_, m) => Update(c, OnAppendReply(s, m), {})
    case Propose(_, e) => Update(c, AppendEntry(s, e), {})
    case Join(_, src, target, last) => Update(c, OnMembership(s, src, target, last), {})
  }

  /** No restart and one common history: every server starts with the committed log `base`,
      the same voting set, and no vote. */
  ghost predicate Init(c: Cluster) {
    && c.net == {} && c.elected == {} && c.ballots == {} && c.leaderLog == map[]
    && NonDecreasing(c.base)
    && forall x :: x in c.servers ==> InitServerOk(c, x, c.servers[x])
  }

  ghost predicate InitServerOk(c: Cluster, x: ServerId, s: Server) {
    && s.id == x && (s.role == InitServer || s.role == Follower)
    && s.votedFor == None && s.rcvVotes == 0
    && UniqueIds(s.cfg) && Voters(s.cfg) == c.voters && Marked(s.cfg) == {}
    && s.log == c.base && s.commit == |c.base| && s.applied <= s.commit
    && forall i :: 0 <= i < |c.base| ==> c.base[i].term <= s.term + 1
  }

  ghost predicate NonDecreasing(log: seq<Entry>) {
    forall i, j :: 0 <= i < j < |log| ==> log[i].term <= log[j].term
  }

  /** The voting set is fixed: the step appends or drops no configuration entry. */
  ghost predicate FixedVoting(c: Cluster, a: Action)
    requires Enabled(c, a)
  {
    var s := c.servers[a.s];
    match a
    case Propose(_, e) => !e.command.IsConfig()
    case AppendReq(_, m) =>
      Changes.NoConfig(m.entries)
      && Changes.NoConfig(s.log[|LogSpec.Kept(0, s.log, m.prevIndex, m.prevTerm, s.commit)|..])
    case _ => true
  }

  /** A request with entries that the receiver accepts names a previous index the receiver has
      not committed past, so the entries are stored under the sender's indexes. Requests of an
      older term, empty ones and rejected ones are free. */
  ghost predicate InPlace(c: Cluster, a: Action)
    requires Enabled(c, a)
  {
    a.AppendReq? ==>
      var s, m := c.servers[a.s], a.m;
      (m.term >= s.term && m.entries != []
       && LogSpec.Accepts(0, s.log, m.prevIndex, m.prevTerm, s.commit, 0, 0)) ==> m.prevIndex >= s.commit
  }

  ghost predicate StepAt(cs: seq<Cluster>, acts: seq<Action>, i: nat)
    requires i < |acts| < |cs|
  {
    Enabled(cs[i], acts[i]) && FixedVoting(cs[i], acts[i]) && cs[i + 1] == Next(cs[i], acts[i])
  }

  ghost predicate IsRun(cs: seq<Cluster>, acts: seq<Action>) {
    && |cs| == |acts| + 1
    && Init(cs[0])
    && forall i :: 0 <= i < |acts| ==> StepAt(cs, acts, i)
  }

  lemma RunSnoc(cs: seq<Cluster>, acts: seq<Action>, act: Action)
    requires IsRun(cs, acts)
    requires Enabled(cs[|cs| - 1], act) && FixedVoting(cs[|cs| - 1], act)
    ensures IsRun(cs + [Next(cs[|cs| - 1], act)], acts + [act])
  {
    var cs', acts' := cs + [Next(cs[|cs| - 1], act)], acts + [act];
    assert cs'[0] == cs[0];
    forall i: nat | i < |acts'| ensures StepAt(cs', acts', i) {
      if i < |acts| {
        assert StepAt(cs, acts, i);
        assert cs'[i] == cs[i] && cs'[i + 1] == cs[i + 1] && acts'[i] == acts[i];
      } else {
        assert cs'[i] == cs[|cs| - 1] && acts'[i] == act;
      }
    }
  }

  /** Every step replaces one server and sends some messages. */
  lemma NextIsUpdate(c: Cluster, a: Action) returns (t: Server, msgs: set<Message>)
    requires Enabled(c, a)
    ensures t.id == a.s && Next(c, a) == Update(c, t, msgs)
  {
    var s := c.servers[a.s];
    match a
    case Timeout(_) =>
      t := StartElection(s);
      msgs := if t.role == Leader then {} else {VoteRequest(t.id, t.term, |t.log|, LastTerm(t))};
    case VoteReq(_, m, pending) =>
      t, msgs := OnVoteRequest(s, m, pending).0, {OnVoteRequest(s, m, pending).1};
    case VoteRep(_, m) => t, msgs := OnVoteReply(s, m), {};
    case Send(_, dst, k) => t, msgs := s, {AppendRequestFor(s, dst, k)};
    case AppendReq(_, m) => t, msgs := OnAppendRequest(s, m).0, {OnAppendRequest(s, m).1};
    case AppendRep(_, m) => t, msgs := OnAppendReply(s, m), {};
    case Propose(_, e) => t, msgs := AppendEntry(s, e), {};
    case Join(_, src, target, last) => t, msgs := OnMembership(s, src, target, last), {};
  }
}
