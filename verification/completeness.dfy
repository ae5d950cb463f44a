/** Leader Completeness and State Machine Safety (section 5.4.3 of the Raft paper), for the runs
    in which no follower drops an entry on which it agrees with the sender: later leaders hold
    every committed entry, and committed logs never disagree. Divergence shows a run without
    that condition in which they do. */
module Completeness {
  import opened Types
  import opened Members
  import opened Raft
  import opened Cluster
  import Election
  import LogMatching
  import CommitRule
  import LogSpec

  type Logs = map<nat, seq<Entry>>

  /** Entry k of the log of term t's leader is one it wrote itself. */
  ghost predicate Own(ll: Logs, t: nat, k: nat) {
    t in ll && 0 < k <= |ll[t]| && ll[t][k - 1].term == t
  }

  /** The leader of term w does not hold the first k entries of the leader of term t. */
  ghost predicate Lacks(ll: Logs, w: nat, t: nat, k: nat) {
    t in ll && k <= |ll[t]| && w in ll && !(ll[t][..k] <= ll[w])
  }

  ghost predicate BadBefore(ll: Logs, t: nat, k: nat, u: nat) {
    exists w: nat :: t < w < u && Lacks(ll, w, t, k)
  }

  /** The log holds what term t's leader wrote up to k, unless some leader in between did not. */
  ghost predicate Safe(ll: Logs, t: nat, k: nat, u: nat, log: seq<Entry>) {
    BadBefore(ll, t, k, u) || (t in ll && k <= |ll[t]| && ll[t][..k] <= log)
  }

  ghost predicate IsAck(m: Message, v: ServerId, t: nat, k: nat) {
    m.AppendReply? && m.success && m.src == v && m.term == t && m.lastIndex >= k
  }

  /** Server v has stored the log of term t's leader up to its own entry k: it confirmed it, or
      it is that leader. */
  ghost predicate Acked(c: Cluster, v: ServerId, t: nat, k: nat) {
    Own(c.leaderLog, t, k) && (Win(t, v) in c.elected || exists m :: m in c.net && IsAck(m, v, t, k))
  }

  ghost predicate Majority(c: Cluster, q: set<ServerId>) {
    q <= c.voters && 2 * |q| > |c.voters|
  }

  ghost predicate AllAcked(c: Cluster, q: set<ServerId>, t: nat, k: nat) {
    forall v :: v in q ==> Acked(c, v, t, k)
  }

  /** A majority has stored it. */
  ghost predicate Chosen(c: Cluster, t: nat, k: nat) {
    Own(c.leaderLog, t, k) && exists q: set<ServerId> :: Majority(c, q) && AllAcked(c, q, t, k)
  }

  /** The first n entries of a log are the beginning of something chosen by term u. */
  ghost predicate CommitOk(c: Cluster, u: nat, n: nat, log: seq<Entry>) {
    n <= |c.base|
    || exists t: nat, k: nat :: t <= u && Chosen(c, t, k) && n <= k && n <= |log| && log[..n] == c.leaderLog[t][..n]
  }

  /** Everything v stored before term u is safe in this log. */
  ghost predicate VoterOk(c: Cluster, v: ServerId, u: nat, log: seq<Entry>) {
    && v in c.servers && c.servers[v].term >= u
    && forall t: nat, k: nat :: t < u && Acked(c, v, t, k) ==> Safe(c.leaderLog, t, k, u, log)
  }

  ghost predicate AllOk(c: Cluster, q: set<ServerId>, u: nat, log: seq<Entry>) {
    forall v :: v in q ==> VoterOk(c, v, u, log)
  }

  /** x is a candidate of term u, and nobody has won it. */
  ghost predicate Open(c: Cluster, x: ServerId, u: nat) {
    x in c.servers && c.servers[x].role == Candidate && c.servers[x].term == u && u !in c.leaderLog
  }

  ghost predicate AckInv(c: Cluster, s: Server) {
    forall t: nat, k: nat :: Acked(c, s.id, t, k) ==> t <= s.term && Safe(c.leaderLog, t, k, s.term + 1, s.log)
  }

  ghost predicate CandidateInv(c: Cluster, s: Server) {
    Open(c, s.id, s.term) ==> AllOk(c, Marked(s.cfg), s.term, s.log)
  }

  ghost predicate MatchInv(c: Cluster, s: Server) {
    s.role == Leader ==> forall v :: v in c.voters && v != s.id && MatchOf(s.cfg, v) > 0 ==>
      exists m :: m in c.net && IsAck(m, v, s.term, MatchOf(s.cfg, v))
  }

  ghost predicate GrantSent(c: Cluster, s: Server) {
    s.votedFor.Some? && s.votedFor.value != s.id ==> VoteReply(s.id, s.votedFor.value, s.term, true) in c.net
  }

  ghost predicate ServerOk(c: Cluster, s: Server) {
    && AckInv(c, s) && CandidateInv(c, s) && MatchInv(c, s) && GrantSent(c, s)
    && CommitOk(c, s.term, s.commit, s.log)
  }

  ghost predicate WinOk(c: Cluster, u: nat) {
    u in c.leaderLog && exists q: set<ServerId> :: Majority(c, q) && AllOk(c, q, u, c.leaderLog[u])
  }

  ghost predicate MsgOk(c: Cluster, m: Message) {
    match m
    case AppendReply(_, _, t, n, success) => success ==> t in c.leaderLog && n <= |c.leaderLog[t]|
    case VoteRequest(x, u, i, t) =>
      && x in c.servers && u <= c.servers[x].term
      && (Open(c, x, u) ==>
            var log := c.servers[x].log; log != [] && i == |log| && t == log[|log| - 1].term)
    case VoteReply(v, x, u, granted) =>
      granted ==>
        && x in c.servers && u <= c.servers[x].term
        && (Open(c, x, u) ==> VoterOk(c, v, u, c.servers[x].log))
    case AppendRequest(_, _, t, _, _, _, n) => t in c.leaderLog && CommitOk(c, t, n, c.leaderLog[t])
  }

  ghost predicate MsgsOk(c: Cluster, msgs: set<Message>) {
    forall m :: m in msgs ==> MsgOk(c, m)
  }

  ghost predicate CompInv(c: Cluster) {
    && (forall x :: x in c.servers ==> ServerOk(c, c.servers[x]))
    && (forall m :: m in c.net ==> MsgOk(c, m))
    && (forall u :: u in c.leaderLog ==> WinOk(c, u))
  }

  /** What the other theorems give. */
  ghost predicate Base(c: Cluster) {
    c.base != [] && Election.VoteInv(c) && LogMatching.LogInv(c) && CommitRule.LeaderInv(c)
  }

  // ---------- leaders hold what was chosen ----------

  lemma {:induction false} LeaderHolds(c: Cluster, t: nat, k: nat, u: nat)
    requires (forall w :: w in c.leaderLog ==> WinOk(c, w)) && Chosen(c, t, k) && u in c.leaderLog && u > t
    ensures c.leaderLog[t][..k] <= c.leaderLog[u]
    decreases u
  {
    assert WinOk(c, u);
    var q: set<ServerId> :| Majority(c, q) && AllOk(c, q, u, c.leaderLog[u]);
    var p: set<ServerId> :| Majority(c, p) && AllAcked(c, p, t, k);
    var v := Election.QuorumsMeet(q, p, c.voters);
    assert VoterOk(c, v, u, c.leaderLog[u]) && Acked(c, v, t, k);
    if BadBefore(c.leaderLog, t, k, u) {
      var w: nat :| t < w < u && Lacks(c.leaderLog, w, t, k);
      LeaderHolds(c, t, k, w);
    }
  }

  /** A committed prefix is in the log of every leader from that term on. */
  lemma CommittedInLeader(c: Cluster, u: nat, n: nat, log: seq<Entry>, w: nat)
    requires (forall x :: x in c.leaderLog ==> WinOk(c, x)) && CommitOk(c, u, n, log)
    requires u <= w && w in c.leaderLog && n <= |log| && c.base <= log && c.base <= c.leaderLog[w]
    ensures log[..n] <= c.leaderLog[w]
  {
    if n <= |c.base| {
      assert log[..n] == c.base[..n] == c.leaderLog[w][..n];
    } else {
      var t: nat, k: nat :| t <= u && Chosen(c, t, k) && n <= k && n <= |log| && log[..n] == c.leaderLog[t][..n];
      if t < w {
        LeaderHolds(c, t, k, w);
        assert c.leaderLog[t][..k][..n] == c.leaderLog[t][..n];
      }
    }
  }

  /** Two committed prefixes agree. */
  lemma CommittedAgree(c: Cluster, u: nat, a: nat, log: seq<Entry>, w: nat, b: nat, other: seq<Entry>, n: nat)
    requires (forall x :: x in c.leaderLog ==> WinOk(c, x)) && CommitOk(c, u, a, log) && CommitOk(c, w, b, other)
    requires n <= a <= |log| && n <= b <= |other| && c.base <= log && c.base <= other
    requires forall x :: x in c.leaderLog ==> c.base <= c.leaderLog[x]
    ensures log[..n] == other[..n]
  {
    if n <= |c.base| {
      assert log[..n] == c.base[..n] == other[..n];
    } else {
      var t: nat, k: nat :| t <= u && Chosen(c, t, k) && a <= k && a <= |log| && log[..a] == c.leaderLog[t][..a];
      var s: nat, j: nat :| s <= w && Chosen(c, s, j) && b <= j && b <= |other| && other[..b] == c.leaderLog[s][..b];
      if t < s {
        LeaderHolds(c, t, k, s);
      } else if s < t {
        LeaderHolds(c, s, j, t);
      }
      assert log[..n] == log[..a][..n] == c.leaderLog[t][..n];
      assert other[..n] == other[..b][..n] == c.leaderLog[s][..n];
    }
  }

  // ---------- what one step leaves true ----------

  /** One step: a leader's log grows by at most one entry, of its own term. */
  ghost predicate Grows(a: Logs, b: Logs) {
    forall t :: t in a ==>
      t in b && (b[t] == a[t] || (|b[t]| == |a[t]| + 1 && a[t] <= b[t] && b[t][|a[t]|].term == t))
  }

  ghost predicate Later(c: Cluster, d: Cluster) {
    && d.base == c.base && d.voters == c.voters && c.net <= d.net && c.elected <= d.elected
    && LogMatching.Extends(c.leaderLog, d.leaderLog)
  }

  lemma OwnLater(a: Logs, b: Logs, t: nat, k: nat)
    requires LogMatching.Extends(a, b) && Own(a, t, k)
    ensures Own(b, t, k) && b[t][..k] == a[t][..k]
  {
    assert a[t] <= b[t];
  }

  lemma AckedLater(c: Cluster, d: Cluster, v: ServerId, t: nat, k: nat)
    requires Later(c, d) && Acked(c, v, t, k)
    ensures Acked(d, v, t, k)
  {
    OwnLater(c.leaderLog, d.leaderLog, t, k);
    if Win(t, v) !in c.elected {
      var m :| m in c.net && IsAck(m, v, t, k);
      assert m in d.net;
    }
  }

  lemma ChosenLater(c: Cluster, d: Cluster, t: nat, k: nat)
    requires Later(c, d) && Chosen(c, t, k)
    ensures Chosen(d, t, k) && d.leaderLog[t][..k] == c.leaderLog[t][..k]
  {
    OwnLater(c.leaderLog, d.leaderLog, t, k);
    var q: set<ServerId> :| Majority(c, q) && AllAcked(c, q, t, k);
    forall v | v in q ensures Acked(d, v, t, k) {
      assert Acked(c, v, t, k);
      AckedLater(c, d, v, t, k);
    }
    assert Majority(d, q) && AllAcked(d, q, t, k);
  }

  /** The log may grow and change above n, the term may rise. */
  lemma CommitOkLater(c: Cluster, d: Cluster, u: nat, n: nat, log: seq<Entry>, u': nat, log': seq<Entry>)
    requires Later(c, d) && CommitOk(c, u, n, log) && u <= u' && n <= |log| && n <= |log'| && log[..n] == log'[..n]
    ensures CommitOk(d, u', n, log')
  {
    if n > |c.base| {
      var t: nat, k: nat :| t <= u && Chosen(c, t, k) && n <= k && n <= |log| && log[..n] == c.leaderLog[t][..n];
      ChosenLater(c, d, t, k);
      assert c.leaderLog[t][..n] == c.leaderLog[t][..k][..n] == d.leaderLog[t][..k][..n] == d.leaderLog[t][..n];
    }
  }

  /** What a leader holds after a step and did not write in it, it held before. */
  lemma HeldBefore(a: Logs, b: Logs, w: nat, x: seq<Entry>, t: nat)
    requires Grows(a, b) && w in a && x <= b[w] && t < w && LogMatching.TermsUpTo(x, t)
    ensures x <= a[w]
  {
  }

  lemma LacksLater(a: Logs, b: Logs, w: nat, t: nat, k: nat)
    requires Grows(a, b) && Lacks(a, w, t, k) && t < w && LogMatching.TermsUpTo(a[t], t)
    ensures Lacks(b, w, t, k)
  {
    var x := a[t][..k];
    assert b[t][..k] == x;
    if x <= b[w] {
      HeldBefore(a, b, w, x, t);
    }
  }

  lemma SafeLater(a: Logs, b: Logs, t: nat, k: nat, u: nat, u': nat, log: seq<Entry>, log': seq<Entry>)
    requires Grows(a, b) && t in a && k <= |a[t]| && LogMatching.TermsUpTo(a[t], t)
    requires Safe(a, t, k, u, log) && u <= u' && (a[t][..k] <= log ==> a[t][..k] <= log')
    ensures Safe(b, t, k, u', log')
  {
    if BadBefore(a, t, k, u) {
      var w: nat :| t < w < u && Lacks(a, w, t, k);
      LacksLater(a, b, w, t, k);
    } else {
      assert b[t][..k] == a[t][..k];
    }
  }

  // ---------- the other servers and the old messages ----------

  /** What holds of every step of one server to t, sending msgs. */
  ghost predicate Step(c: Cluster, t: Server, msgs: set<Message>)
    requires t.id in c.servers
  {
    && Election.VoteInv(Update(c, t, msgs)) && t.term >= c.servers[t.id].term
    && Grows(c.leaderLog, Update(c, t, msgs).leaderLog)
    && (forall m :: m in c.net ==> MsgOk(c, m))
    && (forall m :: m in msgs && m.AppendReply? ==> m.src == t.id && m.term == t.term)
  }

  /** What each step has to show. */
  ghost predicate CompHonest(c: Cluster, t: Server, msgs: set<Message>)
    requires t.id in c.servers
  {
    var s, d := c.servers[t.id], Update(c, t, msgs);
    && Step(c, t, msgs)
    && ServerOk(d, t)
    && MsgsOk(d, msgs)
    && (Open(d, t.id, t.term) ==> t.term > s.term || (s.role == Candidate && t.log == s.log))
    && (t.role == Leader ==> WinOk(d, t.term))
  }

  lemma IsLater(c: Cluster, t: Server, msgs: set<Message>)
    requires t.id in c.servers && Grows(c.leaderLog, Update(c, t, msgs).leaderLog)
    ensures Later(c, Update(c, t, msgs))
  {
  }

  lemma WinBack(c: Cluster, t: Server, msgs: set<Message>, v: ServerId, u: nat)
    requires t.id in c.servers && Election.VoteInv(Update(c, t, msgs))
    requires Win(u, v) in Update(c, t, msgs).elected && !(v == t.id && u == t.term)
    ensures Win(u, v) in c.elected
    ensures u in c.leaderLog ==> Update(c, t, msgs).leaderLog[u] == c.leaderLog[u]
  {
    var d := Update(c, t, msgs);
    if t.role == Leader && u == t.term {
      assert Election.ServerInv(d, d.servers[t.id]);
      Election.OneElectedPerTerm(d, u, v, t.id);
    }
  }

  lemma ReplyBack(c: Cluster, t: Server, msgs: set<Message>, v: ServerId, u: nat, k: nat, m: Message)
    requires t.id in c.servers && m in Update(c, t, msgs).net && IsAck(m, v, u, k) && !(v == t.id && u == t.term)
    requires Grows(c.leaderLog, Update(c, t, msgs).leaderLog)
    requires forall n :: n in msgs && n.AppendReply? ==> n.src == t.id && n.term == t.term
    requires (m in c.net ==> MsgOk(c, m)) && Own(Update(c, t, msgs).leaderLog, u, k)
    ensures m in c.net && Own(c.leaderLog, u, k)
  {
    assert m in c.net;
    assert c.leaderLog[u] <= Update(c, t, msgs).leaderLog[u];
  }

  /** A step adds confirmations only of the server that takes it, in its term. */
  lemma AckedBack(c: Cluster, t: Server, msgs: set<Message>, v: ServerId, u: nat, k: nat)
    requires LogMatching.LogInv(c) && t.id in c.servers && Step(c, t, msgs)
    requires Acked(Update(c, t, msgs), v, u, k)
    ensures Acked(c, v, u, k) || (v == t.id && u == t.term)
  {
    var d := Update(c, t, msgs);
    if !(v == t.id && u == t.term) {
      if Win(u, v) in d.elected {
        WinBack(c, t, msgs, v, u);
      } else {
        var m :| m in d.net && IsAck(m, v, u, k);
        ReplyBack(c, t, msgs, v, u, k, m);
      }
    }
  }

  lemma VoterOkLater(c: Cluster, t: Server, msgs: set<Message>, v: ServerId, u: nat, log: seq<Entry>, log': seq<Entry>)
    requires Base(c) && t.id in c.servers && Step(c, t, msgs)
    requires VoterOk(c, v, u, log) && log <= log'
    ensures VoterOk(Update(c, t, msgs), v, u, log')
  {
    var d := Update(c, t, msgs);
    forall w: nat, k: nat | w < u && Acked(d, v, w, k) ensures Safe(d.leaderLog, w, k, u, log') {
      AckedBack(c, t, msgs, v, w, k);
      assert Acked(c, v, w, k);
      assert LogMatching.LeaderLogInv(c, w);
      SafeLater(c.leaderLog, d.leaderLog, w, k, u, u, log, log');
    }
  }

  lemma AllOkLater(c: Cluster, t: Server, msgs: set<Message>, q: set<ServerId>, u: nat, log: seq<Entry>,
                   log': seq<Entry>)
    requires Base(c) && t.id in c.servers && Step(c, t, msgs)
    requires AllOk(c, q, u, log) && log <= log'
    ensures AllOk(Update(c, t, msgs), q, u, log')
  {
    forall v | v in q ensures VoterOk(Update(c, t, msgs), v, u, log') {
      VoterOkLater(c, t, msgs, v, u, log, log');
    }
  }

  lemma OtherServerOk(c: Cluster, t: Server, msgs: set<Message>, x: ServerId)
    requires Base(c) && CompInv(c) && t.id in c.servers && CompHonest(c, t, msgs)
    requires x in c.servers && x != t.id
    ensures ServerOk(Update(c, t, msgs), c.servers[x])
  {
    var d, s := Update(c, t, msgs), c.servers[x];
    assert s.id == x && ServerOk(c, s);
    IsLater(c, t, msgs);
    LeadsItsLog(c, s);
    OtherAcks(c, t, msgs, s);
    if Open(d, x, s.term) {
      assert Open(c, x, s.term);
      AllOkLater(c, t, msgs, Marked(s.cfg), s.term, s.log, s.log);
    }
    MatchKept(c, d, s);
    CommitOkLater(c, d, s.term, s.commit, s.log, s.term, s.log);
  }

  lemma OtherAcks(c: Cluster, t: Server, msgs: set<Message>, s: Server)
    requires LogMatching.LogInv(c) && t.id in c.servers && Step(c, t, msgs) && s.id != t.id && AckInv(c, s)
    ensures AckInv(Update(c, t, msgs), s)
  {
    var d := Update(c, t, msgs);
    forall u: nat, k: nat | Acked(d, s.id, u, k) ensures u <= s.term && Safe(d.leaderLog, u, k, s.term + 1, s.log) {
      AckedBack(c, t, msgs, s.id, u, k);
      assert LogMatching.LeaderLogInv(c, u);
      SafeLater(c.leaderLog, d.leaderLog, u, k, s.term + 1, s.term + 1, s.log, s.log);
    }
  }

  lemma OpenBefore(c: Cluster, t: Server, msgs: set<Message>, x: ServerId, u: nat)
    requires t.id in c.servers && Grows(c.leaderLog, Update(c, t, msgs).leaderLog)
    requires var s, d := c.servers[t.id], Update(c, t, msgs);
             Open(d, t.id, t.term) ==> t.term > s.term || (s.role == Candidate && t.log == s.log)
    requires x in c.servers && u <= c.servers[x].term && Open(Update(c, t, msgs), x, u)
    requires t.term >= c.servers[t.id].term
    ensures Open(c, x, u) && Update(c, t, msgs).servers[x].log == c.servers[x].log
  {
  }

  lemma OldGrantOk(c: Cluster, t: Server, msgs: set<Message>, m: Message)
    requires Base(c) && CompInv(c) && t.id in c.servers && CompHonest(c, t, msgs)
    requires m in c.net && m.VoteReply?
    ensures MsgOk(Update(c, t, msgs), m)
  {
    var d := Update(c, t, msgs);
    assert MsgOk(c, m);
    if m.granted && Open(d, m.dst, m.term) {
      OpenBefore(c, t, msgs, m.dst, m.term);
      VoterOkLater(c, t, msgs, m.src, m.term, c.servers[m.dst].log, d.servers[m.dst].log);
    }
  }

  lemma OldVoteRequestOk(c: Cluster, t: Server, msgs: set<Message>, m: Message)
    requires t.id in c.servers && CompHonest(c, t, msgs) && MsgOk(c, m) && m.VoteRequest?
    ensures MsgOk(Update(c, t, msgs), m)
  {
    if Open(Update(c, t, msgs), m.src, m.term) {
      OpenBefore(c, t, msgs, m.src, m.term);
    }
  }

  lemma OldAppendRequestOk(c: Cluster, t: Server, msgs: set<Message>, m: Message)
    requires t.id in c.servers && Grows(c.leaderLog, Update(c, t, msgs).leaderLog) && MsgOk(c, m) && m.AppendRequest?
    ensures MsgOk(Update(c, t, msgs), m)
  {
    var d, n := Update(c, t, msgs), m.leaderCommit;
    IsLater(c, t, msgs);
    if n > |c.base| {
      assert n <= |c.leaderLog[m.term]|;
      assert c.leaderLog[m.term] <= d.leaderLog[m.term];
      CommitOkLater(c, d, m.term, n, c.leaderLog[m.term], m.term, d.leaderLog[m.term]);
    }
  }

  lemma OldMessageOk(c: Cluster, t: Server, msgs: set<Message>, m: Message)
    requires Base(c) && CompInv(c) && t.id in c.servers && CompHonest(c, t, msgs)
    requires m in c.net
    ensures MsgOk(Update(c, t, msgs), m)
  {
    assert MsgOk(c, m);
    match m
    case AppendReply(_, _, _, _, _) =>
    case VoteRequest(_, _, _, _) => OldVoteRequestOk(c, t, msgs, m);
    case VoteReply(_, _, _, _) => OldGrantOk(c, t, msgs, m);
    case AppendRequest(_, _, _, _, _, _, _) => OldAppendRequestOk(c, t, msgs, m);
  }

  lemma OldWinOk(c: Cluster, t: Server, msgs: set<Message>, u: nat)
    requires Base(c) && t.id in c.servers && Step(c, t, msgs) && WinOk(c, u)
    ensures WinOk(Update(c, t, msgs), u)
  {
    var d := Update(c, t, msgs);
    var q: set<ServerId> :| Majority(c, q) && AllOk(c, q, u, c.leaderLog[u]);
    IsLater(c, t, msgs);
    AllOkLater(c, t, msgs, q, u, c.leaderLog[u], d.leaderLog[u]);
    assert Majority(d, q);
  }

  lemma CompHonestKeeps(c: Cluster, t: Server, msgs: set<Message>)
    requires Base(c) && CompInv(c) && t.id in c.servers && CompHonest(c, t, msgs)
    ensures CompInv(Update(c, t, msgs))
  {
    var d := Update(c, t, msgs);
    forall x | x in d.servers ensures ServerOk(d, d.servers[x]) {
      if x != t.id {
        OtherServerOk(c, t, msgs, x);
      }
    }
    forall m | m in d.net ensures MsgOk(d, m) {
      if m in c.net {
        OldMessageOk(c, t, msgs, m);
      }
    }
    forall u | u in d.leaderLog ensures WinOk(d, u) {
      if u in c.leaderLog {
        OldWinOk(c, t, msgs, u);
      }
    }
  }

  // ---------- steps that leave log and commit index alone ----------

  /** Neither the log nor the commit index changes, nobody wins and nothing is confirmed. */
  ghost predicate Quiet(c: Cluster, t: Server, msgs: set<Message>)
    requires t.id in c.servers
  {
    var s := c.servers[t.id];
    && t.log == s.log && t.commit == s.commit && t.term >= s.term
    && (t.role == Leader ==> s.role == Leader && t.term == s.term)
    && (t.role == Candidate ==> s.role == Candidate && t.term == s.term && Marked(t.cfg) == Marked(s.cfg))
    && (forall m :: m in msgs && m.AppendReply? ==> !m.success && m.src == t.id && m.term == t.term)
  }

  lemma QuietSame(c: Cluster, t: Server, msgs: set<Message>)
    requires Base(c) && t.id in c.servers && Quiet(c, t, msgs)
    ensures Update(c, t, msgs).leaderLog == c.leaderLog && Update(c, t, msgs).elected == c.elected
    ensures forall v, u: nat, k: nat :: Acked(Update(c, t, msgs), v, u, k) ==> Acked(c, v, u, k)
  {
    var d := Update(c, t, msgs);
    QuietHistory(c, t, msgs);
    forall v, u: nat, k: nat | Acked(d, v, u, k) ensures Acked(c, v, u, k) {
      NothingConfirmed(c, d, v, u, k);
    }
  }

  lemma QuietHistory(c: Cluster, t: Server, msgs: set<Message>)
    requires LogMatching.LogInv(c) && t.id in c.servers && c.servers[t.id].id == t.id && Quiet(c, t, msgs)
    ensures Update(c, t, msgs).leaderLog == c.leaderLog && Update(c, t, msgs).elected == c.elected
    ensures forall m :: m in Update(c, t, msgs).net && m !in c.net && m.AppendReply? ==> !m.success
  {
    LeadsItsLog(c, c.servers[t.id]);
  }

  lemma NothingConfirmed(c: Cluster, d: Cluster, v: ServerId, u: nat, k: nat)
    requires d.leaderLog == c.leaderLog && d.elected == c.elected && Acked(d, v, u, k)
    requires forall m :: m in d.net && m !in c.net && m.AppendReply? ==> !m.success
    ensures Acked(c, v, u, k)
  {
    if Win(u, v) !in c.elected {
      var m :| m in d.net && IsAck(m, v, u, k);
      assert m in c.net;
    }
  }

  lemma QuietAcks(c: Cluster, t: Server, msgs: set<Message>)
    requires Base(c) && t.id in c.servers && Quiet(c, t, msgs) && AckInv(c, c.servers[t.id])
    ensures AckInv(Update(c, t, msgs), t)
  {
    var d, s := Update(c, t, msgs), c.servers[t.id];
    QuietSame(c, t, msgs);
    assert s.id == t.id;
    forall u: nat, k: nat | Acked(d, t.id, u, k) ensures u <= t.term && Safe(d.leaderLog, u, k, t.term + 1, t.log) {
      assert Acked(c, s.id, u, k);
      assert LogMatching.LeaderLogInv(c, u);
      SafeLater(c.leaderLog, d.leaderLog, u, k, s.term + 1, t.term + 1, s.log, t.log);
    }
  }

  lemma QuietIsHonest(c: Cluster, t: Server, msgs: set<Message>)
    requires Base(c) && CompInv(c) && t.id in c.servers && Quiet(c, t, msgs) && Election.VoteInv(Update(c, t, msgs))
    requires MatchInv(c, t) && GrantSent(Update(c, t, msgs), t)
    requires MsgsOk(Update(c, t, msgs), msgs)
    ensures CompHonest(c, t, msgs)
  {
    var d, s := Update(c, t, msgs), c.servers[t.id];
    assert s.id == t.id && ServerOk(c, s) && LogMatching.ServerLogInv(c, s);
    QuietSame(c, t, msgs);
    QuietAcks(c, t, msgs);
    IsLater(c, t, msgs);
    assert Step(c, t, msgs);
    CommitOkLater(c, d, s.term, s.commit, s.log, t.term, t.log);
    if Open(d, t.id, t.term) {
      AllOkLater(c, t, msgs, Marked(s.cfg), s.term, s.log, t.log);
    }
    MatchKept(c, d, t);
    if t.role == Leader {
      OldWinOk(c, t, msgs, t.term);
    }
  }

  lemma QuietKeeps(c: Cluster, t: Server, msgs: set<Message>)
    requires Base(c) && CompInv(c) && t.id in c.servers && Quiet(c, t, msgs) && Election.VoteInv(Update(c, t, msgs))
    requires MatchInv(c, t) && GrantSent(Update(c, t, msgs), t)
    requires MsgsOk(Update(c, t, msgs), msgs)
    ensures CompInv(Update(c, t, msgs))
  {
    QuietIsHonest(c, t, msgs);
    CompHonestKeeps(c, t, msgs);
  }

  /** The same with one message sent. */
  lemma QuietOne(c: Cluster, t: Server, m: Message)
    requires Base(c) && CompInv(c) && t.id in c.servers && Quiet(c, t, {m}) && Election.VoteInv(Update(c, t, {m}))
    requires MatchInv(c, t) && GrantSent(Update(c, t, {m}), t) && MsgOk(Update(c, t, {m}), m)
    ensures CompInv(Update(c, t, {m}))
  {
    OneMessage(Update(c, t, {m}), m);
    QuietKeeps(c, t, {m});
  }

  lemma MatchKept(c: Cluster, d: Cluster, t: Server)
    requires MatchInv(c, t) && c.net <= d.net && d.voters == c.voters
    ensures MatchInv(d, t)
  {
    if t.role == Leader {
      forall v | v in d.voters && v != t.id && MatchOf(t.cfg, v) > 0
        ensures exists m :: m in d.net && IsAck(m, v, t.term, MatchOf(t.cfg, v))
      {
        var m :| m in c.net && IsAck(m, v, t.term, MatchOf(t.cfg, v));
        assert m in d.net;
      }
    }
  }

  // ---------- elections ----------

  /** A candidate at least as up to date as a log that holds something chosen before holds it
      too, unless a leader in between did not. */
  lemma UpToDateHolds(base: seq<Entry>, ll: Logs, t: nat, k: nat, u: nat, mine: seq<Entry>, other: seq<Entry>)
    requires base != [] && LogMatching.Sound(base, ll, mine) && LogMatching.Sound(base, ll, other)
    requires NonDecreasing(mine) && NonDecreasing(other) && LogMatching.TermsUpTo(other, u) && u !in ll
    requires Own(ll, t, k) && t < u && ll[t][..k] <= mine
    requires forall w :: w in ll ==> NonDecreasing(ll[w]) && base <= ll[w]
    requires var a, b := mine[|mine| - 1].term, other[|other| - 1].term;
             b > a || (b == a && |other| >= |mine|)
    ensures Safe(ll, t, k, u, other)
  {
    var i, j := |mine| - 1, |other| - 1;
    if k <= |base| {
      assert ll[t][..k] == base[..k] == other[..k];
    } else {
      assert mine[k - 1].term == t;
      if other[j].term == mine[i].term {
        assert LogMatching.Grounded(ll, mine, i) && LogMatching.Grounded(ll, other, j);
        assert mine[..i + 1] == mine && other[..j + 1] == other;
        assert mine <= other;
      } else {
        NewerEntry(base, ll, t, k, u, mine, other);
      }
    }
  }

  lemma NewerEntry(base: seq<Entry>, ll: Logs, t: nat, k: nat, u: nat, mine: seq<Entry>, other: seq<Entry>)
    requires LogMatching.Sound(base, ll, mine) && LogMatching.Sound(base, ll, other) && base != []
    requires NonDecreasing(mine) && NonDecreasing(other) && LogMatching.TermsUpTo(other, u) && u !in ll
    requires Own(ll, t, k) && t < u && ll[t][..k] <= mine && |base| < k
    requires forall w :: w in ll ==> NonDecreasing(ll[w])
    requires other[|other| - 1].term > mine[|mine| - 1].term
    ensures Safe(ll, t, k, u, other)
  {
    var j := |other| - 1;
    var x := other[j].term;
    assert mine[k - 1].term == t && mine[|mine| - 1].term >= t;
    assert LogMatching.Grounded(ll, other, j);
    assert x in ll && t < x < u;
    if ll[t][..k] <= ll[x] {
      assert ll[x][k - 1].term == t && ll[x][j].term == x;
      assert j >= k;
      assert other == other[..j + 1] == ll[x][..j + 1];
    } else {
      assert Lacks(ll, x, t, k);
    }
  }

  lemma OneGrant(base: seq<Entry>, ll: Logs, t: nat, k: nat, v: nat, u: nat, mine: seq<Entry>, other: seq<Entry>)
    requires base != [] && LogMatching.Sound(base, ll, mine) && LogMatching.Sound(base, ll, other)
    requires NonDecreasing(mine) && NonDecreasing(other) && LogMatching.TermsUpTo(other, u) && u !in ll
    requires Own(ll, t, k) && t < u && v <= u && Safe(ll, t, k, v + 1, mine)
    requires forall w :: w in ll ==> NonDecreasing(ll[w]) && base <= ll[w]
    requires var a, b := mine[|mine| - 1].term, other[|other| - 1].term;
             b > a || (b == a && |other| >= |mine|)
    ensures Safe(ll, t, k, u, other)
  {
    if BadBefore(ll, t, k, v + 1) {
      var w: nat :| t < w < v + 1 && Lacks(ll, w, t, k);
      assert w != u;
    } else {
      UpToDateHolds(base, ll, t, k, u, mine, other);
    }
  }

  ghost predicate AsUpToDate(other: seq<Entry>, mine: seq<Entry>) {
    && other != [] && mine != []
    && (other[|other| - 1].term > mine[|mine| - 1].term
        || (other[|other| - 1].term == mine[|mine| - 1].term && |other| >= |mine|))
  }

  /** A vote given to an open candidate. */
  lemma GrantIsOk(c: Cluster, s: Server, x: ServerId, u: nat)
    requires c.base != [] && LogMatching.LogInv(c) && Holds(c, s) && AckInv(c, s)
    requires s.term <= u && Open(c, x, u) && AsUpToDate(c.servers[x].log, s.log)
    ensures forall t: nat, k: nat :: t < u && Acked(c, s.id, t, k) ==> Safe(c.leaderLog, t, k, u, c.servers[x].log)
  {
    var y := c.servers[x];
    assert LogMatching.ServerLogInv(c, s) && LogMatching.ServerLogInv(c, y);
    forall w | w in c.leaderLog ensures NonDecreasing(c.leaderLog[w]) && c.base <= c.leaderLog[w] {
      assert LogMatching.LeaderLogInv(c, w);
    }
    forall t: nat, k: nat | t < u && Acked(c, s.id, t, k) ensures Safe(c.leaderLog, t, k, u, y.log) {
      OneGrant(c.base, c.leaderLog, t, k, s.term, u, s.log, y.log);
    }
  }

  ghost predicate Holds(c: Cluster, s: Server) {
    s.id in c.servers && c.servers[s.id] == s
  }

  /** What handle_vote_request makes of s, and answers. */
  ghost predicate Answered(s: Server, m: Message, t: Server, r: Message)
    requires m.VoteRequest? && s.log != []
  {
    var last := s.log[|s.log| - 1].term;
    var again := s.votedFor == Some(m.src) && s.term == t.term;
    var behind := m.lastTerm > last || (m.lastTerm == last && m.lastIndex >= |s.log|);
    && t == s.(term := t.term, role := t.role, votedFor := t.votedFor) && t.term >= s.term
    && (t.role == Leader || t.role == Candidate ==> s.role == t.role && t.term == s.term)
    && r.VoteReply? && r == VoteReply(s.id, m.src, t.term, r.granted)
    && (r.granted ==> t.term == m.term && (again || behind))
    && (t.votedFor == None || (t.votedFor == s.votedFor && t.term == s.term)
        || (t.votedFor == Some(m.src) && r.granted))
  }

  lemma VoteFacts(s: Server, m: Message, pending: bool)
    requires m.VoteRequest? && s.log != []
    ensures var (t, r) := OnVoteRequest(s, m, pending); Answered(s, m, t, r)
  {
  }

  lemma VoteReplyOk(c: Cluster, s: Server, t: Server, x: ServerId, r: Message)
    requires Base(c) && CompInv(c) && Holds(c, s) && t.id == s.id && x != s.id
    requires Quiet(c, t, {r}) && Election.VoteInv(Update(c, t, {r}))
    requires r.VoteReply? && r.src == s.id && r.dst == x && r.term == t.term
    requires x in c.servers && (r.granted ==> t.term <= c.servers[x].term)
    requires r.granted && Open(c, x, t.term) ==>
               (s.votedFor == Some(x) && s.term == t.term) || AsUpToDate(c.servers[x].log, s.log)
    ensures MsgOk(Update(c, t, {r}), r)
  {
    var d := Update(c, t, {r});
    QuietSame(c, t, {r});
    assert ServerOk(c, s);
    if r.granted && Open(d, x, t.term) {
      if s.votedFor == Some(x) && s.term == t.term {
        assert VoteReply(s.id, x, s.term, true) == r;
        assert MsgOk(c, r);
        VoterOkLater(c, t, {r}, s.id, r.term, c.servers[x].log, c.servers[x].log);
      } else {
        GrantIsOk(c, s, x, t.term);
        SameAcksOk(c, d, s.id, t.term, c.servers[x].log);
      }
    }
  }

  lemma SameAcksOk(c: Cluster, d: Cluster, v: ServerId, u: nat, log: seq<Entry>)
    requires d.leaderLog == c.leaderLog && v in d.servers && d.servers[v].term >= u
    requires forall t: nat, k: nat :: Acked(d, v, t, k) ==> Acked(c, v, t, k)
    requires forall t: nat, k: nat :: t < u && Acked(c, v, t, k) ==> Safe(c.leaderLog, t, k, u, log)
    ensures VoterOk(d, v, u, log)
  {
  }

  /** handle_vote_request. */
  lemma VoteRequestKeeps(c: Cluster, a: Action)
    requires Base(c) && CompInv(c) && Enabled(c, a) && a.VoteReq? && Election.VoteInv(Next(c, a))
    ensures CompInv(Next(c, a))
  {
    var s := c.servers[a.s];
    assert ServerOk(c, s) && MsgOk(c, a.m) && LogMatching.ServerLogInv(c, s);
    VoteFacts(s, a.m, a.pending);
    VoteStep(c, s, a.m, OnVoteRequest(s, a.m, a.pending).0, OnVoteRequest(s, a.m, a.pending).1);
  }

  lemma VoteStep(c: Cluster, s: Server, m: Message, t: Server, r: Message)
    requires Base(c) && CompInv(c) && Holds(c, s) && m in c.net && m.VoteRequest? && m.src != s.id && s.log != []
    requires t.id in c.servers && Election.VoteInv(Update(c, t, {r})) && Answered(s, m, t, r)
    ensures CompInv(Update(c, t, {r}))
  {
    ServerIsOk(c, s);
    AnswerIsQuiet(c, s, m, t, r);
    AnswerIsOk(c, s, m, t, r);
    QuietOne(c, t, r);
  }

  lemma AnswerIsOk(c: Cluster, s: Server, m: Message, t: Server, r: Message)
    requires Base(c) && CompInv(c) && Holds(c, s) && m in c.net && m.VoteRequest? && m.src != s.id && s.log != []
    requires t.id in c.servers && Election.VoteInv(Update(c, t, {r})) && Answered(s, m, t, r) && Quiet(c, t, {r})
    ensures MsgOk(Update(c, t, {r}), r)
  {
    MsgIsOk(c, m);
    AnswerFits(c, s, m, t, r);
    VoteReplyOk(c, s, t, m.src, r);
  }

  lemma MsgIsOk(c: Cluster, m: Message)
    requires CompInv(c) && m in c.net
    ensures MsgOk(c, m)
  {
  }

  /** A vote goes to the sender again, or to one whose log is as up to date as the request says. */
  lemma AnswerFits(c: Cluster, s: Server, m: Message, t: Server, r: Message)
    requires m.VoteRequest? && s.log != [] && Answered(s, m, t, r) && MsgOk(c, m)
    ensures r.VoteReply? && r.src == s.id && r.dst == m.src && r.term == t.term
    ensures m.src in c.servers && (r.granted ==> t.term <= c.servers[m.src].term)
    ensures r.granted && Open(c, m.src, t.term) ==>
              (s.votedFor == Some(m.src) && s.term == t.term) || AsUpToDate(c.servers[m.src].log, s.log)
  {
  }

  lemma AnswerIsQuiet(c: Cluster, s: Server, m: Message, t: Server, r: Message)
    requires Holds(c, s) && ServerOk(c, s) && m.VoteRequest? && s.log != [] && Answered(s, m, t, r)
    ensures Quiet(c, t, {r}) && MatchInv(c, t) && GrantSent(Update(c, t, {r}), t)
  {
  }

  /** A candidate: the log is the one it had, and everyone it has marked is accounted for. */
  lemma CandidateIsHonest(c: Cluster, t: Server, msgs: set<Message>)
    requires Base(c) && CompInv(c) && t.id in c.servers && Election.VoteInv(Update(c, t, msgs))
    requires var s := c.servers[t.id];
             t.log == s.log && t.commit == s.commit && t.role == Candidate && t.votedFor == Some(t.id)
             && (t.term > s.term || (s.role == Candidate && t.term == s.term))
    requires MsgsOk(Update(c, t, msgs), msgs) && forall m :: m in msgs ==> !m.AppendReply?
    requires CandidateInv(Update(c, t, msgs), t)
    ensures CompHonest(c, t, msgs)
  {
    var d, s := Update(c, t, msgs), c.servers[t.id];
    assert s.id == t.id && ServerOk(c, s) && LogMatching.ServerLogInv(c, s);
    IsLater(c, t, msgs);
    assert Step(c, t, msgs);
    CommitOkLater(c, d, s.term, s.commit, s.log, t.term, t.log);
    forall u: nat, k: nat | Acked(d, t.id, u, k) ensures u <= t.term && Safe(d.leaderLog, u, k, t.term + 1, t.log) {
      SameAcks(c, t, msgs, u, k);
      assert LogMatching.LeaderLogInv(c, u);
      SafeLater(c.leaderLog, d.leaderLog, u, k, s.term + 1, t.term + 1, s.log, t.log);
    }
  }

  /** Without a new leader or a new reply nothing new is confirmed. */
  lemma SameAcks(c: Cluster, t: Server, msgs: set<Message>, u: nat, k: nat)
    requires t.id in c.servers && t.role != Leader && (forall m :: m in msgs ==> !m.AppendReply?)
    requires Acked(Update(c, t, msgs), t.id, u, k)
    ensures Acked(c, t.id, u, k)
  {
    var d := Update(c, t, msgs);
    if Win(u, t.id) !in c.elected {
      var m :| m in d.net && IsAck(m, t.id, u, k);
      assert m in c.net;
    }
  }

  /** What the candidate itself stored before is in its own log. */
  lemma OwnVoteOk(c: Cluster, t: Server, msgs: set<Message>)
    requires Base(c) && CompInv(c) && t.id in c.servers && t.role != Leader
    requires forall m :: m in msgs ==> !m.AppendReply?
    requires var s := c.servers[t.id]; t.log == s.log && t.term == s.term + 1
    ensures VoterOk(Update(c, t, msgs), t.id, t.term, t.log)
  {
    var d, s := Update(c, t, msgs), c.servers[t.id];
    assert s.id == t.id && ServerOk(c, s);
    forall u: nat, k: nat | u < t.term && Acked(d, t.id, u, k) ensures Safe(d.leaderLog, u, k, t.term, t.log) {
      SameAcks(c, t, msgs, u, k);
    }
  }

  /** s has just become the leader t. */
  ghost predicate Wins(s: Server, t: Server) {
    && t.id == s.id && s.role != Leader && t.role == Leader && t.votedFor == Some(t.id)
    && t.log == s.log + [NoopEntry(t.term)] && t.commit == s.commit
    && (t.term == s.term || t.term == s.term + 1)
    && forall v :: MatchOf(t.cfg, v) == 0
  }

  lemma WinnerAcks(c: Cluster, s: Server, t: Server)
    requires LogMatching.LogInv(c) && Holds(c, s) && Wins(s, t) && AckInv(c, s) && Step(c, t, {})
    ensures AckInv(Update(c, t, {}), t)
  {
    var d := Update(c, t, {});
    forall u: nat, k: nat | Acked(d, t.id, u, k) ensures u <= t.term && Safe(d.leaderLog, u, k, t.term + 1, t.log) {
      if u != t.term {
        OldAckSafe(c, s, t, {}, u, k);
      }
    }
  }

  lemma WinnerIsOk(c: Cluster, s: Server, t: Server)
    requires LogMatching.LogInv(c) && Holds(c, s) && Wins(s, t) && ServerOk(c, s) && Step(c, t, {})
    ensures ServerOk(Update(c, t, {}), t)
  {
    WinnerCommit(c, s, t);
    WinnerAcks(c, s, t);
  }

  lemma WinnerCommit(c: Cluster, s: Server, t: Server)
    requires LogMatching.LogInv(c) && Holds(c, s) && t.id == s.id && s.log <= t.log && t.commit == s.commit
    requires t.term >= s.term && CommitOk(c, s.term, s.commit, s.log)
    requires Grows(c.leaderLog, Update(c, t, {}).leaderLog)
    ensures CommitOk(Update(c, t, {}), t.term, t.commit, t.log)
  {
    LeadsItsLog(c, s);
    IsLater(c, t, {});
    assert s.log[..s.commit] == t.log[..s.commit];
    CommitOkLater(c, Update(c, t, {}), s.term, s.commit, s.log, t.term, t.log);
  }

  /** A new leader, whose votes were all accounted for. */
  lemma WinnerIsHonest(c: Cluster, t: Server, q: set<ServerId>)
    requires Base(c) && CompInv(c) && t.id in c.servers && Step(c, t, {})
    requires Wins(c.servers[t.id], t) && Majority(c, q) && AllOk(Update(c, t, {}), q, t.term, t.log)
    ensures CompHonest(c, t, {})
  {
    assert ServerOk(c, c.servers[t.id]);
    WinnerIsOk(c, c.servers[t.id], t);
    assert Majority(Update(c, t, {}), q);
  }

  lemma NoMatches(ms: seq<Member>, last: nat)
    ensures forall v :: MatchOf(SetAllIndexes(ms, last), v) == 0
  {
    forall v ensures MatchOf(SetAllIndexes(ms, last), v) == 0 {
      CommitRule.MatchOfOps(ms, v, v + 1, "", last, true);
    }
  }

  lemma WinStepOf(c: Cluster, t: Server)
    requires Base(c) && CompInv(c) && t.id in c.servers && Election.VoteInv(Update(c, t, {}))
    requires t.term !in c.leaderLog && t.term >= c.servers[t.id].term && t.role == Leader
    ensures Step(c, t, {})
  {
  }

  /** A server that is a majority by itself. */
  lemma AloneIsOk(c: Cluster, t: Server)
    requires Base(c) && CompInv(c) && t.id in c.servers && Step(c, t, {}) && t.term !in c.leaderLog && t.role == Leader
    requires var s := c.servers[t.id]; s.log <= t.log && t.term == s.term + 1
    ensures AllOk(Update(c, t, {}), {t.id}, t.term, t.log)
  {
    var d, s := Update(c, t, {}), c.servers[t.id];
    assert s.id == t.id && ServerOk(c, s);
    forall u: nat, k: nat | u < t.term && Acked(d, t.id, u, k) ensures Safe(d.leaderLog, u, k, t.term, t.log) {
      AckedBack(c, t, {}, t.id, u, k);
      assert LogMatching.LeaderLogInv(c, u);
      SafeLater(c.leaderLog, d.leaderLog, u, k, s.term + 1, t.term, s.log, t.log);
    }
  }

  lemma WinsAlone(c: Cluster, s: Server, t: Server)
    requires Base(c) && CompInv(c) && Holds(c, s) && t.id == s.id && Election.VoteInv(Update(c, t, {}))
    requires Wins(s, t) && t.term == s.term + 1 && t.id in c.voters && |c.voters| < 2
    ensures CompInv(Update(c, t, {}))
  {
    LogMatching.NewTerm(c, t);
    WinStepOf(c, t);
    AloneIsOk(c, t);
    WinnerIsHonest(c, t, {t.id});
    CompHonestKeeps(c, t, {});
  }

  lemma AsksForVotes(c: Cluster, s: Server, t: Server)
    requires Base(c) && CompInv(c) && Holds(c, s) && t.id == s.id && s.log != []
    requires t.role == Candidate && t.log == s.log && t.commit == s.commit && t.term == s.term + 1
    requires t.votedFor == Some(t.id) && Marked(t.cfg) == {t.id}
    requires Election.VoteInv(Update(c, t, {VoteRequest(t.id, t.term, |t.log|, LastTerm(t))}))
    ensures CompInv(Update(c, t, {VoteRequest(t.id, t.term, |t.log|, LastTerm(t))}))
  {
    var msgs := {VoteRequest(t.id, t.term, |t.log|, LastTerm(t))};
    OwnVoteOk(c, t, msgs);
    RequestIsOk(Update(c, t, msgs), t);
    OneMessage(Update(c, t, msgs), VoteRequest(t.id, t.term, |t.log|, LastTerm(t)));
    CandidateIsHonest(c, t, msgs);
    CompHonestKeeps(c, t, msgs);
  }

  lemma RequestIsOk(c: Cluster, t: Server)
    requires t.id in c.servers && c.servers[t.id] == t && t.log != []
    ensures MsgOk(c, VoteRequest(t.id, t.term, |t.log|, LastTerm(t)))
  {
  }

  lemma NewLeaderWins(s: Server, u: Server)
    requires u.id == s.id && s.role != Leader && u.log == s.log && u.commit == s.commit && u.votedFor == Some(u.id)
    requires u.term == s.term || u.term == s.term + 1
    ensures Wins(s, BecomeLeader(u))
  {
    NoMatches(u.cfg, |u.log| + 1);
  }

  /** become_candidate. */
  lemma TimeoutKeeps(c: Cluster, a: Action)
    requires Base(c) && CompInv(c) && Enabled(c, a) && a.Timeout? && Election.VoteInv(Next(c, a))
    ensures CompInv(Next(c, a))
  {
    var s := c.servers[a.s];
    var t := StartElection(s);
    LogMatching.TimeoutFacts(s);
    assert Election.ServerInv(c, s) && LogMatching.ServerLogInv(c, s);
    FirstVote(s.cfg, s.id);
    if t.role == Leader {
      NewLeaderWins(s, Campaigning(s));
      WinsAlone(c, s, t);
    } else {
      AsksForVotes(c, s, t);
    }
  }

  /** match_terms alone. */
  lemma MatchTermsKeeps(c: Cluster, s: Server, term: nat)
    requires Base(c) && CompInv(c) && Holds(c, s) && Election.VoteInv(Update(c, MatchTerms(s, term), {}))
    ensures CompInv(Update(c, MatchTerms(s, term), {}))
  {
    var t := MatchTerms(s, term);
    assert ServerOk(c, s);
    QuietKeeps(c, t, {});
  }

  ghost predicate Grant(c: Cluster, s: Server, m: Message) {
    m in c.net && m.VoteReply? && m.granted && m.dst == s.id && m.term == s.term && s.role == Candidate
  }

  lemma CountedOk(c: Cluster, s: Server, m: Message)
    requires CompInv(c) && Holds(c, s) && s.term !in c.leaderLog && Grant(c, s, m)
    ensures AllOk(c, Marked(s.cfg) + {m.src}, s.term, s.log)
  {
    assert ServerOk(c, s) && MsgOk(c, m) && Open(c, s.id, s.term);
  }

  lemma CountsVote(c: Cluster, s: Server, t: Server, m: Message)
    requires Base(c) && CompInv(c) && Holds(c, s) && Grant(c, s, m)
    requires t == s.(cfg := t.cfg, rcvVotes := t.rcvVotes) && Marked(t.cfg) == Marked(s.cfg) + {m.src}
    requires Election.VoteInv(Update(c, t, {}))
    ensures CompInv(Update(c, t, {}))
  {
    assert Election.ServerInv(c, s);
    if s.term !in c.leaderLog {
      CountedOk(c, s, m);
      assert Step(c, t, {});
      AllOkLater(c, t, {}, Marked(t.cfg), s.term, s.log, t.log);
    }
    CandidateIsHonest(c, t, {});
    CompHonestKeeps(c, t, {});
  }

  lemma WinsVote(c: Cluster, s: Server, t: Server, m: Message)
    requires Base(c) && CompInv(c) && Holds(c, s) && Grant(c, s, m)
    requires Wins(s, t) && t.term == s.term && Election.VoteInv(Update(c, t, {}))
    requires Majority(c, Marked(s.cfg) + {m.src})
    ensures CompInv(Update(c, t, {}))
  {
    LogMatching.NewTerm(c, t);
    WinStepOf(c, t);
    CountedOk(c, s, m);
    AllOkLater(c, t, {}, Marked(s.cfg) + {m.src}, s.term, s.log, t.log);
    WinnerIsHonest(c, t, Marked(s.cfg) + {m.src});
    CompHonestKeeps(c, t, {});
  }

  function Counting(s: Server, src: ServerId): Server {
    s.(cfg := SetNewVote(s.cfg, src), rcvVotes := s.rcvVotes + 1)
  }

  lemma CountFacts(c: Cluster, s: Server, src: ServerId)
    requires Election.ServerInv(c, s) && s.role == Candidate && IsNewVote(s.cfg, src)
    ensures var u := Counting(s, src);
            && Marked(u.cfg) == Marked(s.cfg) + {src} && s.votedFor == Some(s.id)
            && (MajorityOfVotes(u.cfg, u.rcvVotes) ==> Majority(c, Marked(s.cfg) + {src}))
  {
    SetNewVoteSets(s.cfg, src);
  }

  /** handle_vote_reply. */
  lemma VoteReplyKeeps(c: Cluster, a: Action)
    requires Base(c) && CompInv(c) && Enabled(c, a) && a.VoteRep? && Election.VoteInv(Next(c, a))
    ensures CompInv(Next(c, a))
  {
    var s, m := c.servers[a.s], a.m;
    if m.term == s.term && s.role == Candidate && m.granted && IsNewVote(s.cfg, m.src) {
      var u := Counting(s, m.src);
      assert Election.ServerInv(c, s);
      CountFacts(c, s, m.src);
      if MajorityOfVotes(u.cfg, u.rcvVotes) {
        NewLeaderWins(s, u);
        WinsVote(c, s, BecomeLeader(u), m);
      } else {
        CountsVote(c, s, u, m);
      }
    } else {
      MatchTermsKeeps(c, s, m.term);
    }
  }

  // ---------- replication ----------

  lemma SentOk(c: Cluster, s: Server, m: Message)
    requires Base(c) && Holds(c, s) && ServerOk(c, s) && s.role == Leader
    requires m.AppendRequest? && m.term == s.term && m.leaderCommit == s.commit
    ensures MsgOk(Update(c, s, {m}), m)
  {
    var d := Update(c, s, {m});
    LeadsItsLog(c, s);
    IsLater(c, s, {m});
    CommitOkLater(c, d, s.term, s.commit, s.log, s.term, s.log);
  }

  lemma SendingIsQuiet(c: Cluster, s: Server, m: Message)
    requires Holds(c, s) && ServerOk(c, s)
    requires m.AppendReply? ==> !m.success && m.src == s.id && m.term == s.term
    ensures Quiet(c, s, {m}) && MatchInv(c, s) && GrantSent(Update(c, s, {m}), s)
  {
  }

  /** Nothing changes but the message sent. */
  lemma OnlySends(c: Cluster, s: Server, m: Message)
    requires Base(c) && CompInv(c) && Holds(c, s) && Election.VoteInv(Update(c, s, {m}))
    requires m.AppendReply? ==> !m.success && m.src == s.id && m.term == s.term
    requires MsgOk(Update(c, s, {m}), m)
    ensures CompInv(Update(c, s, {m}))
  {
    ServerIsOk(c, s);
    SendingIsQuiet(c, s, m);
    QuietOne(c, s, m);
  }

  lemma ServerIsOk(c: Cluster, s: Server)
    requires CompInv(c) && Holds(c, s)
    ensures ServerOk(c, s)
  {
  }

  lemma OneMessage(c: Cluster, m: Message)
    requires MsgOk(c, m)
    ensures MsgsOk(c, {m})
  {
  }

  /** send_append_entries. */
  lemma SendKeeps(c: Cluster, a: Action)
    requires Base(c) && CompInv(c) && Enabled(c, a) && a.Send? && Election.VoteInv(Next(c, a))
    ensures CompInv(Next(c, a))
  {
    var s := c.servers[a.s];
    assert ServerOk(c, s);
    SentOk(c, s, AppendRequestFor(s, a.dst, a.k));
    OnlySends(c, s, AppendRequestFor(s, a.dst, a.k));
  }

  /** A leader s becomes t: its log may grow, or it may step down with the log it has. */
  ghost predicate Moves(s: Server, t: Server) {
    && s.role == Leader && t.id == s.id && t.term == s.term && t.votedFor == s.votedFor && s.log <= t.log
    && (t.role == Leader || (t.role == Follower && t.log == s.log))
  }

  lemma LeadsItsLog(c: Cluster, s: Server)
    requires LogMatching.LogInv(c) && Holds(c, s)
    ensures s.commit <= |s.log| && (s.role == Leader ==> s.term in c.leaderLog && c.leaderLog[s.term] == s.log)
  {
    assert LogMatching.ServerLogInv(c, s);
  }

  /** What was confirmed in another term stays safe. */
  lemma OldAckSafe(c: Cluster, s: Server, t: Server, msgs: set<Message>, u: nat, k: nat)
    requires LogMatching.LogInv(c) && Holds(c, s) && t.id == s.id && AckInv(c, s) && Step(c, t, msgs)
    requires s.log <= t.log && u != t.term && Acked(Update(c, t, msgs), t.id, u, k)
    ensures u <= t.term && Safe(Update(c, t, msgs).leaderLog, u, k, t.term + 1, t.log)
  {
    AckedBack(c, t, msgs, t.id, u, k);
    assert LogMatching.LeaderLogInv(c, u);
    SafeLater(c.leaderLog, Update(c, t, msgs).leaderLog, u, k, s.term + 1, t.term + 1, s.log, t.log);
  }

  lemma LeaderAcks(c: Cluster, s: Server, t: Server)
    requires LogMatching.LogInv(c) && Holds(c, s) && AckInv(c, s) && Moves(s, t) && Step(c, t, {})
    ensures AckInv(Update(c, t, {}), t)
  {
    var d := Update(c, t, {});
    LeadsItsLog(c, s);
    assert d.leaderLog[t.term] == t.log;
    forall u: nat, k: nat | Acked(d, t.id, u, k) ensures u <= t.term && Safe(d.leaderLog, u, k, t.term + 1, t.log) {
      if u != t.term {
        OldAckSafe(c, s, t, {}, u, k);
      } else {
        OwnLogSafe(d.leaderLog, u, k, t.log);
      }
    }
  }

  lemma OwnLogSafe(ll: Logs, u: nat, k: nat, log: seq<Entry>)
    requires Own(ll, u, k) && ll[u] == log
    ensures Safe(ll, u, k, u + 1, log)
  {
  }

  lemma LeaderIsOk(c: Cluster, s: Server, t: Server)
    requires LogMatching.LogInv(c) && Holds(c, s) && ServerOk(c, s) && Moves(s, t) && Step(c, t, {})
    requires MatchInv(c, t) && CommitOk(Update(c, t, {}), t.term, t.commit, t.log)
    ensures ServerOk(Update(c, t, {}), t)
  {
    LeaderAcks(c, s, t);
    MatchKept(c, Update(c, t, {}), t);
  }

  lemma LeaderMoves(c: Cluster, s: Server, t: Server)
    requires Base(c) && CompInv(c) && Holds(c, s) && Moves(s, t) && Step(c, t, {})
    requires MatchInv(c, t) && CommitOk(Update(c, t, {}), t.term, t.commit, t.log)
    ensures CompInv(Update(c, t, {}))
  {
    LeaderIsOk(c, s, t);
    if t.role == Leader {
      LeadsItsLog(c, s);
      OldWinOk(c, t, {}, t.term);
    }
    CompHonestKeeps(c, t, {});
  }

  lemma AppendGrows(ll: Logs, t: nat, log: seq<Entry>, e: Entry)
    requires t in ll && ll[t] == log && e.term == t
    ensures Grows(ll, ll[t := log + [e]])
  {
  }

  lemma LeaderGrows(c: Cluster, s: Server, t: Server, e: Entry)
    requires LogMatching.LogInv(c) && Holds(c, s) && s.role == Leader && t == s.(log := s.log + [e])
    requires e.term == s.term && ServerOk(c, s)
    ensures Grows(c.leaderLog, Update(c, t, {}).leaderLog)
    ensures MatchInv(c, t) && CommitOk(Update(c, t, {}), t.term, t.commit, t.log)
  {
    LeadsItsLog(c, s);
    AppendGrows(c.leaderLog, s.term, s.log, e);
    IsLater(c, t, {});
    assert s.log[..s.commit] == t.log[..s.commit];
    CommitOkLater(c, Update(c, t, {}), s.term, s.commit, s.log, t.term, t.log);
  }

  /** A client's entry. */
  lemma ProposeKeeps(c: Cluster, a: Action)
    requires Base(c) && CompInv(c) && Enabled(c, a) && a.Propose? && FixedVoting(c, a) && Election.VoteInv(Next(c, a))
    ensures CompInv(Next(c, a))
  {
    var s := c.servers[a.s];
    assert ServerOk(c, s);
    LeaderGrows(c, s, AppendEntry(s, a.e), a.e);
    LeaderMoves(c, s, AppendEntry(s, a.e));
  }

  /** No membership request of a voter raises the match index its leader keeps for it. */
  ghost predicate NotPromoted(c: Cluster, a: Action)
    requires Enabled(c, a)
  {
    a.Join? && c.servers[a.s].role == Leader && a.src in c.voters && a.src != a.s ==>
      a.last <= MatchOf(c.servers[a.s].cfg, a.src)
  }

  lemma JoinMatches(c: Cluster, s: Server, a: Action)
    requires a.Join? && s.role == Leader && a.src != s.id && MatchInv(c, s)
    requires a.src in c.voters ==> Has(s.cfg, a.src) && a.last <= MatchOf(s.cfg, a.src)
    ensures MatchInv(c, s.(cfg := AddServer(s.cfg, a.src, a.target, a.last)))
  {
    var t := s.(cfg := AddServer(s.cfg, a.src, a.target, a.last));
    forall v | v in c.voters && v != t.id && MatchOf(t.cfg, v) > 0
      ensures exists m :: m in c.net && IsAck(m, v, t.term, MatchOf(t.cfg, v))
    {
      if v == a.src {
        FindSameIds(s.cfg, t.cfg, v);
      } else {
        CommitRule.MatchOfOps(s.cfg, v, a.src, a.target, a.last, true);
      }
      var m :| m in c.net && IsAck(m, v, s.term, MatchOf(s.cfg, v));
      assert IsAck(m, v, t.term, MatchOf(t.cfg, v));
    }
  }

  /** handle_membership_request. */
  lemma JoinKeeps(c: Cluster, a: Action)
    requires Base(c) && CompInv(c) && Enabled(c, a) && a.Join? && Election.VoteInv(Next(c, a)) && NotPromoted(c, a)
    ensures CompInv(Next(c, a))
  {
    var s := c.servers[a.s];
    var t := OnMembership(s, a.src, a.target, a.last);
    assert ServerOk(c, s) && Election.ServerInv(c, s);
    if s.role == Leader && a.src != s.id {
      InSelectUnique(s.cfg, Voting, a.src);
      JoinMatches(c, s, a);
    }
    QuietKeeps(c, t, {});
  }

  /** What a leader may commit by counting replicas is chosen. */
  lemma CommittableIsChosen(c: Cluster, u: Server, r: nat)
    requires u.role == Leader && u.term in c.leaderLog && c.leaderLog[u.term] == u.log
    requires Win(u.term, u.id) in c.elected && Voters(u.cfg) == c.voters && MatchInv(c, u)
    requires CommitRule.Committable(u, r)
    ensures Chosen(c, u.term, r) && CommitOk(c, u.term, r, u.log)
  {
    var q := CommitRule.Holders(u, r);
    forall v | v in q ensures Acked(c, v, u.term, r) {
      if v != u.id {
        var m :| m in c.net && IsAck(m, v, u.term, MatchOf(u.cfg, v));
        assert IsAck(m, v, u.term, r);
      }
    }
    assert Majority(c, q) && AllAcked(c, q, u.term, r);
  }

  lemma InformedMatches(c: Cluster, s: Server, m: Message)
    requires s.role == Leader && MatchInv(c, s) && m in c.net && m.AppendReply? && m.term == s.term
    ensures MatchInv(c, CommitRule.Informed(s, m))
  {
    var u := CommitRule.Informed(s, m);
    forall v | v in c.voters && v != u.id && MatchOf(u.cfg, v) > 0
      ensures exists n :: n in c.net && IsAck(n, v, u.term, MatchOf(u.cfg, v))
    {
      if v != m.src {
        CommitRule.MatchOfOps(s.cfg, v, m.src, "", m.lastIndex, m.success);
      } else {
        FindSameIds(s.cfg, u.cfg, v);
        assert m.success && Has(s.cfg, v) ==> IsAck(m, v, u.term, MatchOf(u.cfg, v));
      }
    }
  }

  /** What raft_commit_log_entries does to a leader. */
  lemma LeaderCommit(u: Server, n: nat)
    requires u.role == Leader && u.applied <= u.commit && UniqueIds(u.cfg) && u.id in Voters(u.cfg)
    requires MatchOf(u.cfg, u.id) == 0 && NonDecreasing(u.log) && LogMatching.TermsUpTo(u.log, u.term)
    requires u.commit <= |u.log|
    ensures var t := Commit(u, n);
            && Moves(u, t) && t.log == u.log && t.cfg == u.cfg
            && (t.commit == u.commit || CommitRule.Committable(u, t.commit))
  {
    Election.CommitCastsNothing(u, n);
    if n <= |u.log| {
      CommitRule.ScanFindsHighest(u, n);
    }
  }

  lemma ReplyFacts(c: Cluster, s: Server, m: Message)
    requires Base(c) && Holds(c, s) && m in c.net && m.AppendReply? && m.dst == s.id
    requires m.term == s.term && s.role == Leader && Has(s.cfg, m.src) && s.commit <= |s.log|
    ensures var u, t := CommitRule.Informed(s, m), OnAppendReply(s, m);
            && Moves(s, t) && t.log == s.log && t.cfg == u.cfg && Voters(u.cfg) == c.voters
            && (t.commit == s.commit || CommitRule.Committable(u, t.commit))
            && Win(s.term, s.id) in c.elected
  {
    CommitRule.InformedHypotheses(c, s, m);
    assert Election.ServerInv(c, s) && LogMatching.ServerLogInv(c, s);
    IndexOpsSets(s.cfg, m.src, m.lastIndex, m.success);
    LeaderCommit(CommitRule.Informed(s, m), m.lastIndex);
  }

  lemma ReplyCommits(c: Cluster, s: Server, u: Server, t: Server)
    requires LogMatching.LogInv(c) && Holds(c, s) && ServerOk(c, s)
    requires Moves(s, t) && t.log == s.log && u == s.(cfg := t.cfg) && Voters(u.cfg) == c.voters && MatchInv(c, u)
    requires t.commit == s.commit || CommitRule.Committable(u, t.commit)
    requires Win(s.term, s.id) in c.elected
    ensures Grows(c.leaderLog, Update(c, t, {}).leaderLog)
    ensures CommitOk(Update(c, t, {}), t.term, t.commit, t.log)
  {
    LeadsItsLog(c, s);
    if t.commit != s.commit {
      CommittableIsChosen(c, u, t.commit);
    }
    IsLater(c, t, {});
    CommitOkLater(c, Update(c, t, {}), s.term, t.commit, s.log, t.term, t.log);
  }

  /** handle_append_entries_reply. */
  lemma AppendReplyKeeps(c: Cluster, a: Action)
    requires Base(c) && CompInv(c) && Enabled(c, a) && a.AppendRep? && Election.VoteInv(Next(c, a))
    ensures CompInv(Next(c, a))
  {
    var s, m := c.servers[a.s], a.m;
    if m.term == s.term && s.role == Leader && Has(s.cfg, m.src) {
      assert ServerOk(c, s);
      ReplyFacts(c, s, m);
      InformedMatches(c, s, m);
      var t := OnAppendReply(s, m);
      ReplyCommits(c, s, CommitRule.Informed(s, m), t);
      LeaderMoves(c, s, t);
    } else {
      MatchTermsKeeps(c, s, m.term);
    }
  }

  // ---------- what a follower forgets ----------

  ghost predicate Agree(a: seq<Entry>, b: seq<Entry>, n: nat) {
    n <= |a| && n <= |b| && a[..n] == b[..n]
  }

  ghost predicate KeepsCommon(log: seq<Entry>, leader: seq<Entry>, after: seq<Entry>) {
    forall n: nat :: Agree(log, leader, n) ==> log[..n] <= after
  }

  /** The receiver of a request keeps every entry on which it agrees with the leader of the
      request's term. */
  ghost predicate KeepsAgreement(c: Cluster, a: Action)
    requires Enabled(c, a)
  {
    a.AppendReq? && a.m.term in c.leaderLog ==>
      var s := c.servers[a.s];
      KeepsCommon(s.log, c.leaderLog[a.m.term], OnAppendRequest(s, a.m).0.log)
  }

  /** What a request of the receiver's term or a later one makes of s, and the answer. */
  ghost predicate Obeyed(c: Cluster, s: Server, m: Message, t: Server, r: Message) {
    && m.AppendRequest? && m.term in c.leaderLog && m.term >= s.term
    && t.id == s.id && t.term == m.term && t.role != Leader
    && r.AppendReply? && r.src == s.id && r.term == m.term && r.lastIndex == |t.log|
    && s.commit <= |s.log| && s.log[..s.commit] <= t.log && t.commit <= |t.log|
    && (t.commit == s.commit || (r.success && t.commit <= m.leaderCommit))
    && (t.votedFor == None || (t.votedFor == s.votedFor && t.term == s.term))
    && (r.success ==> t.log <= c.leaderLog[m.term])
  }

  lemma CommitOkPrefix(c: Cluster, u: nat, n: nat, log: seq<Entry>, n': nat, log': seq<Entry>)
    requires CommitOk(c, u, n, log) && n' <= n && n' <= |log'| && (n <= |log| ==> log[..n'] == log'[..n'])
    ensures CommitOk(c, u, n', log')
  {
    if n > |c.base| {
      var t: nat, k: nat :| t <= u && Chosen(c, t, k) && n <= k && n <= |log| && log[..n] == c.leaderLog[t][..n];
      assert log[..n'] == log[..n][..n'] == c.leaderLog[t][..n'];
    }
  }

  lemma ObeyedCommit(c: Cluster, s: Server, m: Message, t: Server, r: Message)
    requires t.id in c.servers && Obeyed(c, s, m, t, r) && ServerOk(c, s) && MsgOk(c, m)
    ensures CommitOk(Update(c, t, {r}), t.term, t.commit, t.log)
  {
    IsLater(c, t, {r});
    if t.commit == s.commit {
      assert t.log[..s.commit] == s.log[..s.commit];
      CommitOkLater(c, Update(c, t, {r}), s.term, s.commit, s.log, t.term, t.log);
    } else {
      assert t.log[..t.commit] == c.leaderLog[m.term][..t.commit];
      CommitOkPrefix(c, m.term, m.leaderCommit, c.leaderLog[m.term], t.commit, t.log);
      CommitOkLater(c, Update(c, t, {r}), m.term, t.commit, t.log, t.term, t.log);
    }
  }

  lemma OldAckObeyed(ll: Logs, w: nat, u: nat, k: nat, v: nat, log: seq<Entry>, after: seq<Entry>)
    requires w in ll && KeepsCommon(log, ll[w], after)
    requires u <= v <= w && Own(ll, u, k) && Safe(ll, u, k, v + 1, log)
    ensures Safe(ll, u, k, w + 1, after)
  {
    if !BadBefore(ll, u, k, v + 1) {
      if ll[u][..k] <= ll[w] {
        assert Agree(log, ll[w], k);
      } else {
        assert Lacks(ll, w, u, k);
      }
    }
  }

  lemma ObeyedAcks(c: Cluster, s: Server, m: Message, t: Server, r: Message)
    requires Holds(c, s) && Obeyed(c, s, m, t, r) && AckInv(c, s)
    requires KeepsCommon(s.log, c.leaderLog[m.term], t.log)
    ensures AckInv(Update(c, t, {r}), t)
  {
    var d := Update(c, t, {r});
    forall u: nat, k: nat | Acked(d, t.id, u, k) ensures u <= t.term && Safe(d.leaderLog, u, k, t.term + 1, t.log) {
      if Acked(c, s.id, u, k) {
        OldAckObeyed(c.leaderLog, m.term, u, k, s.term, s.log, t.log);
      } else {
        var n :| n in d.net && IsAck(n, t.id, u, k);
        assert n == r;
      }
    }
  }

  lemma ObeyedIsOk(c: Cluster, s: Server, m: Message, t: Server, r: Message)
    requires Holds(c, s) && Obeyed(c, s, m, t, r) && ServerOk(c, s) && MsgOk(c, m)
    requires KeepsCommon(s.log, c.leaderLog[m.term], t.log)
    ensures ServerOk(Update(c, t, {r}), t) && MsgOk(Update(c, t, {r}), r)
  {
    ObeyedCommit(c, s, m, t, r);
    ObeyedAcks(c, s, m, t, r);
  }

  lemma ObeyedStep(c: Cluster, s: Server, m: Message, t: Server, r: Message)
    requires Holds(c, s) && Obeyed(c, s, m, t, r) && Election.VoteInv(Update(c, t, {r}))
    requires forall n :: n in c.net ==> MsgOk(c, n)
    ensures Step(c, t, {r}) && !Open(Update(c, t, {r}), t.id, t.term)
  {
  }

  lemma ObeyedIsHonest(c: Cluster, s: Server, m: Message, t: Server, r: Message)
    requires Holds(c, s) && Obeyed(c, s, m, t, r) && ServerOk(c, s) && MsgOk(c, m)
    requires KeepsCommon(s.log, c.leaderLog[m.term], t.log) && Election.VoteInv(Update(c, t, {r}))
    requires forall n :: n in c.net ==> MsgOk(c, n)
    ensures CompHonest(c, t, {r})
  {
    ObeyedIsOk(c, s, m, t, r);
    ObeyedStep(c, s, m, t, r);
  }

  lemma ObeyedKeeps(c: Cluster, s: Server, m: Message, t: Server, r: Message)
    requires Base(c) && CompInv(c) && Holds(c, s) && m in c.net && Obeyed(c, s, m, t, r)
    requires KeepsCommon(s.log, c.leaderLog[m.term], t.log) && Election.VoteInv(Update(c, t, {r}))
    ensures CompInv(Update(c, t, {r}))
  {
    assert ServerOk(c, s) && MsgOk(c, m);
    ObeyedIsHonest(c, s, m, t, r);
    CompHonestKeeps(c, t, {r});
  }

  /** What the handler does, whatever the cluster. */
  ghost predicate Handled(s: Server, m: Message, t: Server, r: Message)
    requires m.AppendRequest? && s.commit <= |s.log|
  {
    var kept := LogSpec.Kept(0, s.log, m.prevIndex, m.prevTerm, s.commit);
    && t.id == s.id && t.term == m.term && t.role != Leader
    && r.AppendReply? && r.src == s.id && r.term == m.term && r.lastIndex == |t.log|
    && (r.success <==> LogSpec.Accepts(0, s.log, m.prevIndex, m.prevTerm, s.commit, 0, 0))
    && t.log == (if r.success then kept + m.entries else kept)
    && t.commit <= |t.log| && (t.commit == s.commit || (r.success && t.commit <= m.leaderCommit))
  }

  lemma HandlerFacts(s: Server, m: Message)
    requires m.AppendRequest? && s.applied <= s.commit <= |s.log| && m.term >= s.term
    requires MatchTerms(s, m.term).role != Leader
    ensures var (t, r) := OnAppendRequest(s, m); Handled(s, m, t, r)
  {
    LogMatching.RequestFacts(s, m);
    LogMatching.ReplyFacts(s, m);
    RequestCommit(s, m);
  }

  lemma RequestCommit(s: Server, m: Message)
    requires m.AppendRequest? && s.commit <= |s.log| && m.term >= s.term
    requires MatchTerms(s, m.term).role != Leader
    ensures var (t, r) := OnAppendRequest(s, m);
            && (t.commit == s.commit || (r.success && t.commit <= m.leaderCommit))
            && r.AppendReply? && r.src == s.id
  {
  }

  lemma EmptyBelowCommit(c: Cluster, s: Server, m: Message)
    requires Base(c) && CompInv(c) && Holds(c, s) && m.AppendRequest? && m.term in c.leaderLog && m.term >= s.term
    requires s.commit <= |s.log| && m.prevIndex < s.commit
    requires LogSpec.Accepts(0, s.log, m.prevIndex, m.prevTerm, s.commit, 0, 0)
    ensures LogSpec.Kept(0, s.log, m.prevIndex, m.prevTerm, s.commit) <= c.leaderLog[m.term]
  {
    KeepsCommittedOnly(s, m);
    CommittedInLater(c, s, m.term);
  }

  /** What a server has committed is in the log of every leader of its term or a later one. */
  lemma CommittedInLater(c: Cluster, s: Server, u: nat)
    requires Base(c) && CompInv(c) && Holds(c, s) && u in c.leaderLog && u >= s.term && s.commit <= |s.log|
    ensures s.log[..s.commit] <= c.leaderLog[u]
  {
    LogHasBase(c, s);
    LeaderLogsHaveBase(c, u);
    assert ServerOk(c, s);
    CommittedInLeader(c, s.term, s.commit, s.log, u);
  }

  lemma LogHasBase(c: Cluster, s: Server)
    requires LogMatching.LogInv(c) && Holds(c, s)
    ensures c.base <= s.log
  {
    assert LogMatching.ServerLogInv(c, s);
  }

  /** A success reply means the log is the beginning of the log of the request's term. */
  lemma SuccessIsLeaderPrefix(c: Cluster, s: Server, m: Message, t: Server, r: Message)
    requires Base(c) && CompInv(c) && Holds(c, s) && m in c.net && m.AppendRequest? && m.term >= s.term
    requires s.commit <= |s.log| && Handled(s, m, t, r) && r.success
    requires m.entries != [] ==> m.prevIndex >= s.commit
    ensures m.term in c.leaderLog && t.log <= c.leaderLog[m.term]
  {
    RequestHasLeader(c, m);
    if m.prevIndex >= s.commit {
      StoredIsLeaderPrefix(c, s, m);
    } else {
      EmptyBelowCommit(c, s, m);
    }
  }

  lemma RequestHasLeader(c: Cluster, m: Message)
    requires LogMatching.LogInv(c) && m in c.net && m.AppendRequest?
    ensures m.term in c.leaderLog
  {
    assert LogMatching.RequestInv(c, m);
  }

  lemma StoredIsLeaderPrefix(c: Cluster, s: Server, m: Message)
    requires LogMatching.LogInv(c) && Holds(c, s) && m in c.net && m.AppendRequest?
    requires s.commit <= |s.log| && m.prevIndex >= s.commit && m.term in c.leaderLog
    requires LogSpec.Accepts(0, s.log, m.prevIndex, m.prevTerm, s.commit, 0, 0)
    ensures LogSpec.Kept(0, s.log, m.prevIndex, m.prevTerm, s.commit) + m.entries <= c.leaderLog[m.term]
  {
    assert LogMatching.RequestInv(c, m) && LogMatching.ServerLogInv(c, s) && LogMatching.LeaderLogInv(c, m.term);
    LogMatching.AcceptedIsLeaderPrefix(c, s, m);
  }

  lemma HandledObeys(c: Cluster, s: Server, m: Message, t: Server, r: Message)
    requires m.AppendRequest? && m.term in c.leaderLog && s.commit <= |s.log| && m.term >= s.term
    requires Handled(s, m, t, r) && Election.CastsNothing(s, t)
    requires r.success ==> t.log <= c.leaderLog[m.term]
    ensures Obeyed(c, s, m, t, r)
  {
  }

  lemma HandlerObeys(c: Cluster, s: Server, m: Message)
    requires Base(c) && CompInv(c) && Holds(c, s) && m in c.net && m.AppendRequest? && m.dst == s.id
    requires s.commit <= |s.log| && m.term >= s.term
    requires m.entries != [] && LogSpec.Accepts(0, s.log, m.prevIndex, m.prevTerm, s.commit, 0, 0) ==>
               m.prevIndex >= s.commit
    requires Election.CastsNothing(s, OnAppendRequest(s, m).0)
    ensures var (t, r) := OnAppendRequest(s, m); Obeyed(c, s, m, t, r)
  {
    var (t, r) := OnAppendRequest(s, m);
    assert LogMatching.ServerLogInv(c, s) && LogMatching.RequestInv(c, m);
    LogMatching.ReceiverDoesNotLead(c, s, m);
    HandlerFacts(s, m);
    if r.success {
      SuccessIsLeaderPrefix(c, s, m, t, r);
    }
    HandledObeys(c, s, m, t, r);
  }

  /** handle_append_entries_request, when it drops nothing the sender has. */
  lemma AppendRequestKeeps(c: Cluster, a: Action)
    requires Base(c) && CompInv(c) && Enabled(c, a) && a.AppendReq? && Election.VoteInv(Next(c, a))
    requires FixedVoting(c, a) && InPlace(c, a) && KeepsAgreement(c, a)
    ensures CompInv(Next(c, a))
  {
    var s, m := c.servers[a.s], a.m;
    if m.term < s.term {
      OnlySends(c, s, OnAppendRequest(s, m).1);
    } else {
      Election.AppendRequestCastsNothing(s, m);
      HandlerObeys(c, s, m);
      ObeyedKeeps(c, s, m, OnAppendRequest(s, m).0, OnAppendRequest(s, m).1);
    }
  }

  /** An uncommitted entry on which follower and leader agree survives a request exactly when
      the follower accepts it and the request, which has to start at or above the commit index,
      reaches at least as far. A caller can tell from the request and the follower's log. */
  lemma AgreementKeptIff(c: Cluster, s: Server, m: Message, n: nat)
    requires LogMatching.ServerLogInv(c, s) && m.AppendRequest? && LogMatching.RequestInv(c, m)
    requires LogMatching.LeaderLogInv(c, m.term) && m.term >= s.term && MatchTerms(s, m.term).role != Leader
    requires m.entries != [] && LogSpec.Accepts(0, s.log, m.prevIndex, m.prevTerm, s.commit, 0, 0) ==>
               m.prevIndex >= s.commit
    requires s.commit < n && Agree(s.log, c.leaderLog[m.term], n)
    ensures s.log[..n] <= OnAppendRequest(s, m).0.log
       <==> && LogSpec.Accepts(0, s.log, m.prevIndex, m.prevTerm, s.commit, 0, 0)
            && s.commit <= m.prevIndex && n <= m.prevIndex + |m.entries|
  {
    HandlerFacts(s, m);
    if LogSpec.Accepts(0, s.log, m.prevIndex, m.prevTerm, s.commit, 0, 0) && s.commit <= m.prevIndex {
      LogMatching.AcceptedIsLeaderPrefix(c, s, m);
      PrefixIff(s.log, c.leaderLog[m.term], n, m.prevIndex + |m.entries|);
    } else {
      KeepsCommittedOnly(s, m);
    }
  }

  lemma PrefixIff(log: seq<Entry>, leader: seq<Entry>, n: nat, k: nat)
    requires Agree(log, leader, n) && k <= |leader|
    ensures log[..n] <= leader[..k] <==> n <= k
  {
    if n <= k {
      assert leader[..k][..n] == leader[..n];
    }
  }

  /** Rejected, or accepted below the commit index: nothing above it is left. */
  lemma KeepsCommittedOnly(s: Server, m: Message)
    requires m.AppendRequest? && s.commit <= |s.log|
    requires !LogSpec.Accepts(0, s.log, m.prevIndex, m.prevTerm, s.commit, 0, 0) || m.prevIndex < s.commit
    ensures |LogSpec.Kept(0, s.log, m.prevIndex, m.prevTerm, s.commit)| == s.commit
  {
    LogSpec.TruncateIs(0, s.log, m.prevIndex, m.prevTerm, s.commit);
  }

  // ---------- every run ----------

  /** A follower forgets nothing it shares with the sender, and no voter is promoted. */
  ghost predicate Careful(c: Cluster, a: Action) {
    Enabled(c, a) && InPlace(c, a) && KeepsAgreement(c, a) && NotPromoted(c, a)
  }

  ghost predicate CarefulRun(cs: seq<Cluster>, acts: seq<Action>) {
    && IsRun(cs, acts) && cs[0].base != []
    && forall i: nat :: i < |acts| ==> Careful(cs[i], acts[i])
  }

  lemma CarefulIsGuarded(cs: seq<Cluster>, acts: seq<Action>)
    requires CarefulRun(cs, acts)
    ensures LogMatching.GuardedRun(cs, acts)
  {
    forall i: nat | i < |acts| ensures LogMatching.GuardedAt(cs, acts, i) {
      assert Careful(cs[i], acts[i]) && StepAt(cs, acts, i);
    }
  }

  lemma InitCompInv(c: Cluster)
    requires Init(c)
    ensures CompInv(c)
  {
    forall x | x in c.servers ensures ServerOk(c, c.servers[x]) {
      assert InitServerOk(c, x, c.servers[x]);
    }
  }

  lemma StepKeepsCompInv(c: Cluster, a: Action)
    requires Base(c) && CompInv(c) && Careful(c, a) && FixedVoting(c, a)
    ensures CompInv(Next(c, a))
  {
    Election.StepKeepsVoteInv(c, a);
    match a
    case Timeout(_) => TimeoutKeeps(c, a);
    case VoteReq(_, _, _) => VoteRequestKeeps(c, a);
    case VoteRep(_, _) => VoteReplyKeeps(c, a);
    case Send(_, _, _) => SendKeeps(c, a);
    case AppendReq(_, _) => AppendRequestKeeps(c, a);
    case AppendRep(_, _) => AppendReplyKeeps(c, a);
    case Propose(_, _) => ProposeKeeps(c, a);
    case Join(_, _, _, _) => JoinKeeps(c, a);
  }

  lemma RunBase(cs: seq<Cluster>, acts: seq<Action>, i: nat)
    requires CarefulRun(cs, acts) && i < |cs|
    ensures Base(cs[i])
  {
    CarefulIsGuarded(cs, acts);
    LogMatching.RunKeepsLogInv(cs, acts, i);
    LogMatching.LeaderLogsGrow(cs, acts, 0, i);
    CommitRule.RunKeepsLeaderInv(cs, acts, i);
  }

  lemma CompInvStep(cs: seq<Cluster>, acts: seq<Action>, i: nat)
    requires CarefulRun(cs, acts) && i < |acts| && CompInv(cs[i])
    ensures CompInv(cs[i + 1])
  {
    RunBase(cs, acts, i);
    assert StepAt(cs, acts, i);
    assert Careful(cs[i], acts[i]);
    StepKeepsCompInv(cs[i], acts[i]);
  }

  lemma {:induction false} RunKeepsCompInv(cs: seq<Cluster>, acts: seq<Action>, i: nat)
    requires CarefulRun(cs, acts) && i < |cs|
    ensures CompInv(cs[i])
  {
    if i == 0 {
      InitCompInv(cs[0]);
    } else {
      RunKeepsCompInv(cs, acts, i - 1);
      CompInvStep(cs, acts, i - 1);
    }
  }

  lemma LaterStep(cs: seq<Cluster>, acts: seq<Action>, j: nat)
    requires LogMatching.GuardedRun(cs, acts) && 0 < j < |cs|
    ensures Later(cs[j - 1], cs[j])
  {
    LogMatching.LeaderLogsGrowStep(cs, acts, j);
    assert StepAt(cs, acts, j - 1);
    var t, msgs := NextIsUpdate(cs[j - 1], acts[j - 1]);
  }

  lemma {:induction false} LaterInRun(cs: seq<Cluster>, acts: seq<Action>, i: nat, j: nat)
    requires LogMatching.GuardedRun(cs, acts) && i <= j < |cs|
    ensures Later(cs[i], cs[j])
    decreases j
  {
    if i < j {
      LaterInRun(cs, acts, i, j - 1);
      LaterStep(cs, acts, j);
      LogMatching.ExtendsTransitive(cs[i].leaderLog, cs[j - 1].leaderLog, cs[j].leaderLog);
    }
  }

  /** What x had committed at moment i is committed, in the same sense, at every later one. */
  lemma StaysCommitted(cs: seq<Cluster>, acts: seq<Action>, i: nat, j: nat, x: ServerId)
    requires CarefulRun(cs, acts) && i <= j < |cs| && x in cs[i].servers
    ensures var s := cs[i].servers[x];
            s.commit <= |s.log| && cs[j].base <= s.log && CommitOk(cs[j], s.term, s.commit, s.log)
  {
    var s := cs[i].servers[x];
    RunBase(cs, acts, i);
    RunKeepsCompInv(cs, acts, i);
    assert ServerOk(cs[i], s) && LogMatching.ServerLogInv(cs[i], s);
    CarefulIsGuarded(cs, acts);
    LaterInRun(cs, acts, i, j);
    CommitOkLater(cs[i], cs[j], s.term, s.commit, s.log, s.term, s.log);
  }

  lemma LeaderLogsHaveBase(c: Cluster, u: nat)
    requires LogMatching.LogInv(c) && u in c.leaderLog
    ensures c.base <= c.leaderLog[u]
  {
    assert LogMatching.LeaderLogInv(c, u);
  }

  /** Leader Completeness: whoever leads later, in the same or a later term, holds everything
      that any server had committed. */
  lemma LeaderCompleteness(cs: seq<Cluster>, acts: seq<Action>, i: nat, j: nat, x: ServerId, y: ServerId)
    requires CarefulRun(cs, acts) && i <= j < |cs|
    requires x in cs[i].servers && y in cs[j].servers
    requires cs[j].servers[y].role == Leader && cs[j].servers[y].term >= cs[i].servers[x].term
    ensures var s := cs[i].servers[x]; s.commit <= |s.log| && s.log[..s.commit] <= cs[j].servers[y].log
  {
    var s, l := cs[i].servers[x], cs[j].servers[y];
    RunBase(cs, acts, j);
    RunKeepsCompInv(cs, acts, j);
    StaysCommitted(cs, acts, i, j, x);
    assert l.id == y;
    LeadsItsLog(cs[j], l);
    LeaderLogsHaveBase(cs[j], l.term);
    CommittedInLeader(cs[j], s.term, s.commit, s.log, l.term);
  }

  /** State Machine Safety: whatever two servers have committed at any two moments agrees. */
  lemma StateMachineSafety(cs: seq<Cluster>, acts: seq<Action>, i: nat, j: nat, x: ServerId, y: ServerId, n: nat)
    requires CarefulRun(cs, acts) && i < |cs| && j < |cs|
    requires x in cs[i].servers && y in cs[j].servers
    requires n <= cs[i].servers[x].commit && n <= cs[j].servers[y].commit
    ensures n <= |cs[i].servers[x].log| && n <= |cs[j].servers[y].log|
    ensures cs[i].servers[x].log[..n] == cs[j].servers[y].log[..n]
  {
    var s, t := cs[i].servers[x], cs[j].servers[y];
    var k := if i < j then j else i;
    RunBase(cs, acts, k);
    RunKeepsCompInv(cs, acts, k);
    StaysCommitted(cs, acts, i, k, x);
    StaysCommitted(cs, acts, j, k, y);
    forall u | u in cs[k].leaderLog ensures cs[k].base <= cs[k].leaderLog[u] {
      LeaderLogsHaveBase(cs[k], u);
    }
    CommittedAgree(cs[k], s.term, s.commit, s.log, t.term, t.commit, t.log, n);
  }
}
