/** Why the theorems about committed entries ask for a common log that is not empty and for voters
    whose match index no membership request raises: two runs that keep every other condition, and
    in which two servers commit different entries at one index. */
module Needed {
  import opened Types
  import opened Members
  import opened Raft
  import opened Cluster
  import opened Moves
  import CommitRule

  /** Server i + 1 in a configuration of n voters. */
  function Voter(i: nat): Member {
    Member(i + 1, "", true, false, 2, 0, 0, 0)
  }

  function Cfg(n: nat): seq<Member> {
    seq(n, i requires 0 <= i < n => Voter(i))
  }

  function Ids(n: nat): set<ServerId> {
    if n == 0 then {} else Ids(n - 1) + {n}
  }

  function Start(id: ServerId, term: nat, n: nat, base: seq<Entry>): Server {
    Server(id, Follower, term, None, 0, Cfg(n), false, base, |base|, |base|)
  }

  function Servers(term: nat, n: nat, base: seq<Entry>): map<ServerId, Server> {
    map x | x in Ids(n) :: Start(x, term, n, base)
  }

  function Fresh(term: nat, n: nat, base: seq<Entry>): Cluster {
    Cluster(base, Ids(n), Servers(term, n, base), {}, {}, {}, map[])
  }

  lemma {:induction false} IdsAre(n: nat)
    ensures |Ids(n)| == n && forall x :: x in Ids(n) <==> 1 <= x <= n
  {
    if n > 0 {
      IdsAre(n - 1);
    }
  }

  lemma CfgIs(n: nat)
    ensures UniqueIds(Cfg(n)) && Voters(Cfg(n)) == Ids(n) && Marked(Cfg(n)) == {}
  {
    forall x ensures x in Voters(Cfg(n)) <==> x in Ids(n) {
      VoterIs(n, x);
    }
    forall x ensures x !in Marked(Cfg(n)) {
      VoterIs(n, x);
    }
  }

  lemma VoterIs(n: nat, x: ServerId)
    ensures x in Voters(Cfg(n)) <==> x in Ids(n)
    ensures x !in Marked(Cfg(n))
  {
    var ms := Cfg(n);
    assert forall i :: 0 <= i < n ==> ms[i].id == i + 1 && ms[i].voting && !ms[i].votedForMe;
    InSelect(ms, Voting, x);
    InSelect(ms, VotedForMe, x);
    IdsAre(n);
    if 1 <= x <= n {
      assert ms[x - 1].id == x;
    }
  }

  /** How many voters a leader of servers 1 to n counts. */
  lemma MatchingIs(ms: seq<Member>, n: nat, q: set<ServerId>)
    requires UniqueIds(ms) && n > 0 && q <= Voters(ms)
    requires forall v :: v in Voters(ms) ==> (MatchOf(ms, v) >= n <==> v in q)
    ensures MajorityOfMatch(ms, n) <==> |q| + 1 > |Voters(ms)| / 2
  {
    forall v ensures v in Matching(ms, n) <==> v in q {
      CommitRule.MatchingIsMatchOf(ms, n, v);
    }
    assert Matching(ms, n) == q;
  }

  /** Servers x and y have committed different entries at index n. */
  ghost predicate Diverged(c: Cluster, x: ServerId, y: ServerId, n: nat) {
    && x in c.servers && y in c.servers
    && var s, t := c.servers[x], c.servers[y];
    0 < n <= s.commit && n <= t.commit && n <= |s.log| && n <= |t.log| && s.log[n - 1] != t.log[n - 1]
  }

  lemma Unpack(careful: bool, b: Cluster, c: Cluster) returns (cs: seq<Cluster>, acts: seq<Action>)
    requires Reaches(careful, b, c) && Init(b)
    ensures IsRun(cs, acts) && IsPath(careful, cs, acts) && cs[0] == b && cs[|acts|] == c
  {
    cs, acts :| IsPath(careful, cs, acts) && cs[0] == b && cs[|acts|] == c;
    PathIsRun(careful, cs, acts);
  }

  // ---------- reigns ----------

  ghost predicate Follows(c: Cluster, x: ServerId, term: nat, log: seq<Entry>, commit: nat) {
    && x in c.servers && At(c, x, c.servers[x])
    && var s := c.servers[x]; s.role == Follower && s.term == term && s.log == log && s.commit == commit
  }

  /** A cluster of n voters that all hold one plain entry, or none. */
  lemma Begins(careful: bool, term: nat, n: nat, base: seq<Entry>) returns (c: Cluster)
    requires base == [] || (term == 1 && base == [NoopEntry(1)])
    ensures Init(c) && c.base == base && Reaches(careful, c, c) && |c.voters| == n
    ensures forall x :: 1 <= x <= n ==> x in c.voters && Follows(c, x, term, base, |base|)
  {
    c := Fresh(term, n, base);
    CfgIs(n);
    IdsAre(n);
    Stays(careful, c);
  }

  ghost predicate Rules(c: Cluster, x: ServerId, term: nat, log: seq<Entry>, commit: nat) {
    && x in c.servers && c.servers[x].id == x && Leads(c, c.servers[x])
    && var s := c.servers[x]; s.term == term && s.log == log && s.commit == commit
  }

  ghost predicate Committed(c: Cluster, x: ServerId, log: seq<Entry>) {
    x in c.servers && c.servers[x].log == log && c.servers[x].commit == |log|
  }

  /** Whoever is not named is as before. */
  ghost predicate Others(c: Cluster, d: Cluster, xs: set<ServerId>) {
    && d.base == c.base && d.voters == c.voters && d.servers.Keys == c.servers.Keys
    && forall y :: y in c.servers && y !in xs ==> d.servers[y] == c.servers[y]
  }

  /** The leader x counts server v up to index n. */
  ghost function Counts(c: Cluster, x: ServerId, v: ServerId): nat
    requires x in c.servers
  {
    MatchOf(c.servers[x].cfg, v)
  }

  /** One more vote makes s the leader. */
  lemma Elects(careful: bool, b: Cluster, c: Cluster, s: Server, v: ServerId) returns (d: Cluster)
    requires Reaches(careful, b, c) && Stands(c, s, Marked(s.cfg)) && v in c.servers && At(c, v, c.servers[v])
    requires v in c.voters && v != s.id && v !in Marked(s.cfg) && 2 * (s.rcvVotes + 1) > |c.voters|
    requires var w := c.servers[v]; w.role == Follower && w.term < s.term && Ahead(s, w)
    ensures Reaches(careful, b, d) && Others(c, d, {s.id, v})
    ensures Follows(d, v, s.term, c.servers[v].log, c.servers[v].commit)
    ensures Rules(d, s.id, s.term, s.log + [NoopEntry(s.term)], s.commit) && forall y :: Counts(d, s.id, y) == 0
  {
    var t;
    d, t := Votes(careful, b, c, s, c.servers[v]);
  }

  lemma SameLogIsAhead(s: Server, w: Server)
    requires w.log == s.log && w.term < s.term
    ensures Ahead(s, w)
  {
  }

  /** Of three voters, x wins the next term with server v, which holds what it holds. */
  lemma WinsTwo(b: Cluster, c: Cluster, x: ServerId, v: ServerId, term: nat, log: seq<Entry>) returns (d: Cluster)
    requires Reaches(true, b, c) && x in c.voters && v in c.voters && x != v && |c.voters| == 3
    requires Follows(c, x, term, log, |log|)
    requires v in c.servers && c.servers[v].term <= term && Follows(c, v, c.servers[v].term, log, |log|)
    ensures Reaches(true, b, d) && Others(c, d, {x, v}) && Follows(d, v, term + 1, log, |log|)
    ensures Rules(d, x, term + 1, log + [NoopEntry(term + 1)], |log|) && forall y :: Counts(d, x, y) == 0
  {
    var t;
    d, t := StandsUp(true, b, c, c.servers[x]);
    SameLogIsAhead(t, d.servers[v]);
    d := Elects(true, b, d, t, v);
  }

  /** One more vote, and one is still missing. */
  lemma Collects(careful: bool, b: Cluster, c: Cluster, s: Server, v: ServerId) returns (d: Cluster, t: Server)
    requires Reaches(careful, b, c) && Stands(c, s, Marked(s.cfg)) && v in c.servers && At(c, v, c.servers[v])
    requires v in c.voters && v != s.id && v !in Marked(s.cfg) && 2 * (s.rcvVotes + 1) <= |c.voters|
    requires var w := c.servers[v]; w.role == Follower && w.term < s.term && Ahead(s, w)
    ensures Reaches(careful, b, d) && Others(c, d, {s.id, v})
    ensures Follows(d, v, s.term, c.servers[v].log, c.servers[v].commit)
    ensures Stands(d, t, Marked(s.cfg) + {v}) && t == s.(cfg := t.cfg, rcvVotes := s.rcvVotes + 1)
  {
    d, t := Votes(careful, b, c, s, c.servers[v]);
  }

  /** The leader x brings follower v up to date from index p on, and does not commit yet. */
  lemma Extends(b: Cluster, c: Cluster, x: ServerId, v: ServerId, term: nat, log: seq<Entry>, e: Entry,
                q: set<ServerId>)
    returns (d: Cluster)
    requires Reaches(false, b, c) && Rules(c, x, term, log + [e], |log|) && e.term == term
    requires v in c.voters && v != x && v in c.servers && c.servers[v].term <= term
    requires Follows(c, v, c.servers[v].term, log, |log|)
    requires q <= c.voters && v in q && forall y :: y in c.voters && y != v ==> (Counts(c, x, y) > |log| <==> y in q)
    requires |q| + 1 <= |c.voters| / 2
    ensures Reaches(false, b, d) && Others(c, d, {x, v}) && Rules(d, x, term, log + [e], |log|)
    ensures forall y :: y in c.voters ==> (Counts(d, x, y) > |log| <==> y in q)
  {
    var s, w, t := c.servers[x], c.servers[v], c.servers[x];
    assert (log + [e])[..|log|] == log[..|log|];
    d, t := Replicates(false, b, c, s, w, |log|);
    MatchingIs(t.cfg, |log| + 1, q);
  }

  /** The leader x brings follower v up to date from index p on, counts a majority and commits. */
  lemma Concludes(careful: bool, b: Cluster, c: Cluster, x: ServerId, v: ServerId, term: nat, log: seq<Entry>, e: Entry,
                  q: set<ServerId>) returns (d: Cluster)
    requires Reaches(careful, b, c) && Rules(c, x, term, log + [e], |log|) && e.term == term
    requires v in c.voters && v != x && v in c.servers && c.servers[v].role == Follower && c.servers[v].term <= term
    requires At(c, v, c.servers[v]) && c.servers[v].commit == |log| && log <= c.servers[v].log
    requires careful ==> log == []
    requires q <= c.voters && v in q && forall y :: y in c.voters && y != v ==> (Counts(c, x, y) > |log| <==> y in q)
    requires |q| + 1 > |c.voters| / 2
    ensures Reaches(careful, b, d) && Others(c, d, {x, v}) && Committed(d, x, log + [e])
    ensures Follows(d, v, term, log + [e], |log|)
  {
    var s, w, t := c.servers[x], c.servers[v], c.servers[x];
    assert (log + [e])[..|log|] == log == w.log[..|log|];
    d, t := Replicates(careful, b, c, s, w, |log|);
    MatchingIs(t.cfg, |log| + 1, q);
  }

  lemma Three(term: nat, base: seq<Entry>) returns (b: Cluster)
    requires base == [] || (term == 1 && base == [B])
    ensures Init(b) && b.base == base && Reaches(true, b, b) && |b.voters| == 3
    ensures Follows(b, 1, term, base, |base|) && Follows(b, 2, term, base, |base|) && Follows(b, 3, term, base, |base|)
    ensures 1 in b.voters && 2 in b.voters && 3 in b.voters
  {
    b := Begins(true, term, 3, base);
  }

  // ---------- an empty log ----------

  /** Server 1 leads term 1 and commits its first entry with server 2. */
  lemma EmptyFirstReign() returns (b: Cluster, c: Cluster)
    ensures Init(b) && b.base == [] && Reaches(true, b, c) && |c.voters| == 3
    ensures Committed(c, 1, [NoopEntry(1)]) && Follows(c, 2, 1, [NoopEntry(1)], 0) && Follows(c, 3, 0, [], 0)
    ensures 2 in c.voters && 3 in c.voters
  {
    var d;
    b, d := EmptyFirstWin();
    assert [] + [NoopEntry(1)] == [NoopEntry(1)];
    c := Concludes(true, b, d, 1, 2, 1, [], NoopEntry(1), {2});
  }

  lemma EmptyFirstWin() returns (b: Cluster, c: Cluster)
    ensures Init(b) && b.base == [] && Reaches(true, b, c) && |c.voters| == 3
    ensures Rules(c, 1, 1, [] + [NoopEntry(1)], 0) && forall y :: Counts(c, 1, y) == 0
    ensures Follows(c, 2, 1, [], 0) && Follows(c, 3, 0, [], 0)
    ensures 2 in c.voters && 3 in c.voters
  {
    b := Three(0, []);
    c := WinsTwo(b, b, 1, 2, 0, []);
  }

  /** Server 3, which holds nothing, stands twice. */
  lemma StandsTwice(b: Cluster, c: Cluster) returns (d: Cluster, t: Server)
    requires Reaches(true, b, c) && Follows(c, 3, 0, [], 0) && 3 in c.voters && |c.voters| == 3
    ensures Reaches(true, b, d) && Others(c, d, {3}) && Stands(d, t, {3})
    ensures t.id == 3 && t.term == 2 && t.log == [] && t.commit == 0
  {
    d, t := StandsUp(true, b, c, c.servers[3]);
    d, t := StandsUp(true, b, d, t);
  }

  /** The last term of an empty log is the current term, so server 3 gets the vote of server 2,
      which holds what server 1 has committed. */
  lemma EmptyLogBreaksSafety() returns (cs: seq<Cluster>, acts: seq<Action>)
    ensures IsRun(cs, acts) && IsPath(true, cs, acts) && cs[0].base == [] && Diverged(cs[|acts|], 1, 3, 1)
  {
    var b, c := EmptyFirstReign();
    var d, t := StandsTwice(b, c);
    d := Elects(true, b, d, t, 2);
    assert [] + [NoopEntry(2)] == [NoopEntry(2)];
    d := Concludes(true, b, d, 3, 2, 2, [], NoopEntry(2), {2});
    cs, acts := Unpack(true, b, d);
  }

  // ---------- a voter that is promoted ----------

  const B: Entry := NoopEntry(1)

  lemma FirstTwo(b: Cluster, c: Cluster, x: ServerId, v: ServerId, term: nat) returns (d: Cluster, t: Server)
    requires Reaches(false, b, c) && x in c.voters && v in c.voters && |c.voters| == 5 && x != v
    requires Follows(c, x, term, [B], 1)
    requires v in c.servers && c.servers[v].term <= term && Follows(c, v, c.servers[v].term, [B], 1)
    ensures Reaches(false, b, d) && Others(c, d, {x, v}) && Follows(d, v, term + 1, [B], 1)
    ensures Stands(d, t, {x, v}) && t.id == x && t.term == term + 1 && t.log == [B] && t.commit == 1
    ensures t.rcvVotes == 2
  {
    d, t := StandsUp(false, b, c, c.servers[x]);
    SameLogIsAhead(t, d.servers[v]);
    d, t := Collects(false, b, d, t, v);
    assert {x} + {v} == {x, v};
  }

  /** Server x wins the next term with servers v and w, which hold what it holds. */
  lemma WinsThree(b: Cluster, c: Cluster, x: ServerId, v: ServerId, w: ServerId, term: nat) returns (d: Cluster)
    requires Reaches(false, b, c) && x in c.voters && v in c.voters && w in c.voters && |c.voters| == 5
    requires x != v && x != w && v != w
    requires Follows(c, x, term, [B], 1)
    requires v in c.servers && c.servers[v].term <= term && Follows(c, v, c.servers[v].term, [B], 1)
    requires w in c.servers && c.servers[w].term <= term && Follows(c, w, c.servers[w].term, [B], 1)
    ensures Reaches(false, b, d) && Others(c, d, {x, v, w})
    ensures Rules(d, x, term + 1, [B] + [NoopEntry(term + 1)], 1) && forall y :: Counts(d, x, y) == 0
    ensures Follows(d, v, term + 1, [B], 1) && Follows(d, w, term + 1, [B], 1)
  {
    var t;
    d, t := FirstTwo(b, c, x, v, term);
    SameLogIsAhead(t, d.servers[w]);
    d := Elects(false, b, d, t, w);
  }

  /** Server 3 names, in a membership request to server 1, an index it does not hold. */
  lemma Promotes(b: Cluster, c: Cluster) returns (d: Cluster)
    requires Reaches(false, b, c) && Rules(c, 1, 2, [B] + [NoopEntry(2)], 1) && 3 in c.voters
    requires forall y :: Counts(c, 1, y) == 0
    ensures Reaches(false, b, d) && Others(c, d, {1}) && Rules(d, 1, 2, [B] + [NoopEntry(2)], 1)
    ensures forall y :: Counts(d, 1, y) == if y == 3 then 2 else 0
  {
    var s := c.servers[1];
    var t;
    d, t := Joins(false, b, c, s, 3, 2);
    forall y ensures Counts(d, 1, y) == if y == 3 then 2 else 0 {
      assert Counts(c, 1, y) == 0;
    }
  }

  /** So server 1, leading term 2, commits its entry with server 2 alone. */
  lemma PromotedFirstReign() returns (b: Cluster, c: Cluster)
    ensures Init(b) && b.base == [B] && Reaches(false, b, c) && |c.voters| == 5
    ensures Committed(c, 1, [B] + [NoopEntry(2)]) && Follows(c, 3, 2, [B], 1)
    ensures Follows(c, 4, 1, [B], 1) && Follows(c, 5, 1, [B], 1)
    ensures 3 in c.voters && 4 in c.voters && 5 in c.voters
  {
    b, c := FirstWin();
    c := Promotes(b, c);
    c := CountsPromoted(b, c);
  }

  lemma FirstWin() returns (b: Cluster, c: Cluster)
    ensures Init(b) && b.base == [B] && Reaches(false, b, c) && |c.voters| == 5
    ensures Rules(c, 1, 2, [B] + [NoopEntry(2)], 1) && forall y :: Counts(c, 1, y) == 0
    ensures Follows(c, 2, 2, [B], 1) && Follows(c, 3, 2, [B], 1) && Follows(c, 4, 1, [B], 1) && Follows(c, 5, 1, [B], 1)
    ensures 2 in c.voters && 3 in c.voters && 4 in c.voters && 5 in c.voters
  {
    b := Five();
    c := WinsThree(b, b, 1, 2, 3, 1);
  }

  lemma Five() returns (b: Cluster)
    ensures Init(b) && b.base == [B] && Reaches(false, b, b) && |b.voters| == 5
    ensures Follows(b, 1, 1, [B], 1) && Follows(b, 2, 1, [B], 1) && Follows(b, 3, 1, [B], 1)
    ensures Follows(b, 4, 1, [B], 1) && Follows(b, 5, 1, [B], 1)
    ensures 1 in b.voters && 2 in b.voters && 3 in b.voters && 4 in b.voters && 5 in b.voters
  {
    b := Begins(false, 1, 5, [B]);
  }

  lemma CountsPromoted(b: Cluster, c: Cluster) returns (d: Cluster)
    requires Reaches(false, b, c) && |c.voters| == 5 && 2 in c.voters && 3 in c.voters
    requires Rules(c, 1, 2, [B] + [NoopEntry(2)], 1) && Follows(c, 2, 2, [B], 1)
    requires forall y :: Counts(c, 1, y) == if y == 3 then 2 else 0
    ensures Reaches(false, b, d) && Others(c, d, {1, 2}) && Committed(d, 1, [B] + [NoopEntry(2)])
  {
    d := Concludes(false, b, c, 1, 2, 2, [B], NoopEntry(2), {2, 3});
  }

  /** Server 3 then wins with servers 4 and 5 and commits its own entry in that place. */
  lemma PromotionBreaksSafety() returns (cs: seq<Cluster>, acts: seq<Action>)
    ensures IsRun(cs, acts) && IsPath(false, cs, acts) && cs[0].base != [] && Diverged(cs[|acts|], 1, 3, 2)
  {
    var b, c := PromotedFirstReign();
    var d := SecondReign(b, c);
    assert ([B] + [NoopEntry(2)])[1] != ([B] + [NoopEntry(3)])[1];
    cs, acts := Unpack(false, b, d);
  }

  lemma SecondReign(b: Cluster, c: Cluster) returns (d: Cluster)
    requires Reaches(false, b, c) && |c.voters| == 5 && 3 in c.voters && 4 in c.voters && 5 in c.voters
    requires Follows(c, 3, 2, [B], 1) && Follows(c, 4, 1, [B], 1) && Follows(c, 5, 1, [B], 1)
    ensures Reaches(false, b, d) && Others(c, d, {3, 4, 5}) && Committed(d, 3, [B] + [NoopEntry(3)])
  {
    d := WinsThree(b, c, 3, 4, 5, 2);
    d := Extends(b, d, 3, 4, 3, [B], NoopEntry(3), {4});
    d := Concludes(false, b, d, 3, 5, 3, [B], NoopEntry(3), {4, 5});
  }
}
