/** Log Matching (section 5.3 of the Raft paper): two logs that hold an entry with the same
    index and term are identical up to it. */
module LogMatching {
  import opened Types
  import opened Raft
  import opened Cluster
  import opened Election
  import Members
  import LogSpec

  /** The log leaders have written so far, term by term, only ever grows. */
  ghost predicate Extends(a: map<nat, seq<Entry>>, b: map<nat, seq<Entry>>) {
    forall t :: t in a ==> t in b && a[t] <= b[t]
  }

  /** Entry i of the log was written by the leader of its term, on top of the same prefix. */
  ghost predicate Grounded(ll: map<nat, seq<Entry>>, log: seq<Entry>, i: nat)
    requires i < |log|
  {
    var t := log[i].term;
    t in ll && i < |ll[t]| && log[..i + 1] == ll[t][..i + 1]
  }

  ghost predicate Sound(base: seq<Entry>, ll: map<nat, seq<Entry>>, log: seq<Entry>) {
    && base <= log
    && forall i :: |base| <= i < |log| ==> Grounded(ll, log, i)
  }

  ghost predicate TermsUpTo(log: seq<Entry>, t: nat) {
    forall i :: 0 <= i < |log| ==> log[i].term <= t
  }

  /** The highest term a server's log may hold: one ahead of its own only before its first
      election (the bootstrap entry has term 1 while the server is in term 0). */
  function TermBound(s: Server): nat {
    if s.role == Candidate || s.role == Leader then s.term else s.term + 1
  }

  ghost predicate ServerLogInv(c: Cluster, s: Server) {
    && |c.base| <= s.commit <= |s.log| && s.applied <= s.commit
    && Sound(c.base, c.leaderLog, s.log)
    && NonDecreasing(s.log) && TermsUpTo(s.log, TermBound(s))
    && (s.role == Leader ==> s.term in c.leaderLog && s.log == c.leaderLog[s.term])
  }

  ghost predicate LeaderLogInv(c: Cluster, t: nat)
    requires t in c.leaderLog
  {
    && Sound(c.base, c.leaderLog, c.leaderLog[t])
    && NonDecreasing(c.leaderLog[t]) && TermsUpTo(c.leaderLog[t], t)
    && exists w :: w in c.elected && w.term == t
  }

  /** A request carries a slice of the log of its term's leader. */
  ghost predicate RequestInv(c: Cluster, m: Message)
    requires m.AppendRequest?
  {
    && m.src != m.dst
    && Win(m.term, m.src) in c.elected
    && m.term in c.leaderLog
    && var g := c.leaderLog[m.term];
    && m.prevIndex + |m.entries| <= |g|
    && m.entries == g[m.prevIndex..m.prevIndex + |m.entries|]
    && m.prevTerm == (if m.prevIndex == 0 then 0 else g[m.prevIndex - 1].term)
  }

  ghost predicate LogInv(c: Cluster) {
    && (forall x :: x in c.servers ==> ServerLogInv(c, c.servers[x]))
    && (forall t :: t in c.leaderLog ==> LeaderLogInv(c, t))
    && (forall m :: m in c.net && m.AppendRequest? ==> RequestInv(c, m))
    && (forall w :: w in c.elected ==> w.term in c.leaderLog)
  }

  lemma InitLogInv(c: Cluster)
    requires Init(c)
    ensures LogInv(c)
  {
    forall x | x in c.servers ensures ServerLogInv(c, c.servers[x]) {
      assert InitServerOk(c, x, c.servers[x]);
    }
  }

  // ---------- facts about logs alone ----------

  lemma SoundMono(base: seq<Entry>, a: map<nat, seq<Entry>>, b: map<nat, seq<Entry>>, log: seq<Entry>)
    requires Sound(base, a, log) && Extends(a, b)
    ensures Sound(base, b, log)
  {
    forall i | |base| <= i < |log| ensures Grounded(b, log, i) {
      assert Grounded(a, log, i);
      var t := log[i].term;
      assert a[t][..i + 1] == b[t][..i + 1];
    }
  }

  lemma SoundPrefix(base: seq<Entry>, ll: map<nat, seq<Entry>>, log: seq<Entry>, k: nat)
    requires Sound(base, ll, log) && |base| <= k <= |log|
    ensures Sound(base, ll, log[..k])
  {
    forall i | |base| <= i < k ensures Grounded(ll, log[..k], i) {
      assert Grounded(ll, log, i);
      assert log[..k][..i + 1] == log[..i + 1];
    }
  }

  /** Two sound logs that agree on the term at one index agree up to it. */
  lemma SoundMatch(base: seq<Entry>, ll: map<nat, seq<Entry>>, a: seq<Entry>, b: seq<Entry>, i: nat)
    requires Sound(base, ll, a) && Sound(base, ll, b)
    requires i < |a| && i < |b| && a[i].term == b[i].term
    ensures a[..i + 1] == b[..i + 1]
  {
    if |base| <= i {
      assert Grounded(ll, a, i) && Grounded(ll, b, i);
    }
  }

  /** The leader of term t adds an entry of its term to its log. */
  lemma SoundAppend(base: seq<Entry>, ll: map<nat, seq<Entry>>, t: nat, log: seq<Entry>, e: Entry)
    requires Sound(base, ll, log) && e.term == t
    requires t in ll ==> ll[t] == log
    ensures Extends(ll, ll[t := log + [e]])
    ensures Sound(base, ll[t := log + [e]], log + [e])
  {
    var r := log + [e];
    var l2 := ll[t := r];
    assert Extends(ll, l2);
    SoundMono(base, ll, l2, log);
    forall i | |base| <= i < |r| ensures Grounded(l2, r, i) {
      if i < |log| {
        assert Grounded(l2, log, i);
        assert r[..i + 1] == log[..i + 1];
      }
    }
  }

  // ---------- one step ----------

  /** What a step of one server has to show. */
  ghost predicate LogHonest(c: Cluster, t: Server, msgs: set<Message>)
    requires t.id in c.servers
  {
    var d := Update(c, t, msgs);
    && Extends(c.leaderLog, d.leaderLog)
    && ServerLogInv(d, t)
    && (t.role == Leader ==> Win(t.term, t.id) in d.elected && LeaderLogInv(d, t.term))
    && forall m :: m in msgs && m.AppendRequest? ==> RequestInv(d, m)
  }

  lemma ServerLogMono(c: Cluster, d: Cluster, s: Server)
    requires ServerLogInv(c, s) && d.base == c.base && Extends(c.leaderLog, d.leaderLog)
    requires s.role == Leader ==> d.leaderLog[s.term] == c.leaderLog[s.term]
    ensures ServerLogInv(d, s)
  {
    SoundMono(c.base, c.leaderLog, d.leaderLog, s.log);
  }

  lemma RequestMono(c: Cluster, d: Cluster, m: Message)
    requires m.AppendRequest? && RequestInv(c, m)
    requires Extends(c.leaderLog, d.leaderLog) && c.elected <= d.elected
    ensures RequestInv(d, m)
  {
    var k := m.prevIndex + |m.entries|;
    assert c.leaderLog[m.term][..k] == d.leaderLog[m.term][..k];
    assert m.entries == c.leaderLog[m.term][..k][m.prevIndex..];
    assert m.entries == d.leaderLog[m.term][..k][m.prevIndex..];
  }

  lemma LeaderLogMono(c: Cluster, d: Cluster, u: nat)
    requires u in c.leaderLog && LeaderLogInv(c, u)
    requires d.base == c.base && Extends(c.leaderLog, d.leaderLog) && c.elected <= d.elected
    requires d.leaderLog[u] == c.leaderLog[u]
    ensures LeaderLogInv(d, u)
  {
    SoundMono(c.base, c.leaderLog, d.leaderLog, c.leaderLog[u]);
    var w :| w in c.elected && w.term == u;
    assert w in d.elected;
  }

  lemma ServerLogsKept(c: Cluster, t: Server, msgs: set<Message>, x: ServerId)
    requires LogInv(c) && t.id in c.servers && LogHonest(c, t, msgs)
    requires VoteInv(Update(c, t, msgs))
    requires x in c.servers
    ensures ServerLogInv(Update(c, t, msgs), Update(c, t, msgs).servers[x])
  {
    var d := Update(c, t, msgs);
    if x != t.id {
      var s := c.servers[x];
      assert ServerLogInv(c, s);
      if s.role == Leader && t.role == Leader && s.term == t.term {
        assert ServerInv(d, d.servers[x]) && ServerInv(d, t);
        OneElectedPerTerm(d, s.term, d.servers[x].id, t.id);
      }
      ServerLogMono(c, d, s);
    }
  }

  lemma LeaderLogsKept(c: Cluster, t: Server, msgs: set<Message>, u: nat)
    requires LogInv(c) && t.id in c.servers && LogHonest(c, t, msgs)
    requires u in Update(c, t, msgs).leaderLog
    ensures LeaderLogInv(Update(c, t, msgs), u)
  {
    if !(t.role == Leader && u == t.term) {
      LeaderLogMono(c, Update(c, t, msgs), u);
    }
  }

  lemma RequestsKept(c: Cluster, t: Server, msgs: set<Message>, m: Message)
    requires LogInv(c) && t.id in c.servers && LogHonest(c, t, msgs)
    requires m in Update(c, t, msgs).net && m.AppendRequest?
    ensures RequestInv(Update(c, t, msgs), m)
  {
    if m in c.net {
      RequestMono(c, Update(c, t, msgs), m);
    }
  }

  lemma WinsKept(c: Cluster, t: Server, msgs: set<Message>, w: Win)
    requires LogInv(c) && t.id in c.servers && w in Update(c, t, msgs).elected
    ensures w.term in Update(c, t, msgs).leaderLog
  {
  }

  lemma LogHonestKeeps(c: Cluster, t: Server, msgs: set<Message>)
    requires LogInv(c) && t.id in c.servers && LogHonest(c, t, msgs)
    requires VoteInv(Update(c, t, msgs))
    ensures LogInv(Update(c, t, msgs))
    ensures Extends(c.leaderLog, Update(c, t, msgs).leaderLog)
  {
    var d := Update(c, t, msgs);
    forall x | x in d.servers ensures ServerLogInv(d, d.servers[x]) {
      ServerLogsKept(c, t, msgs, x);
    }
    forall u | u in d.leaderLog ensures LeaderLogInv(d, u) {
      LeaderLogsKept(c, t, msgs, u);
    }
    forall m | m in d.net && m.AppendRequest? ensures RequestInv(d, m) {
      RequestsKept(c, t, msgs, m);
    }
    forall w | w in d.elected ensures w.term in d.leaderLog {
      WinsKept(c, t, msgs, w);
    }
  }

  /** Log and, while leading, role and term are what they were. */
  lemma SameLogIsHonest(c: Cluster, s: Server, t: Server, msgs: set<Message>)
    requires t.id in c.servers && c.servers[t.id] == s && ServerLogInv(c, s)
    requires t.log == s.log && s.commit <= t.commit <= |t.log| && t.applied <= t.commit
    requires TermBound(s) <= TermBound(t)
    requires t.role == Leader ==>
               s.role == Leader && s.term == t.term && Win(s.term, t.id) in c.elected && LeaderLogInv(c, s.term)
    requires forall m :: m in msgs && m.AppendRequest? ==> RequestInv(c, m)
    ensures LogHonest(c, t, msgs)
  {
    var d := Update(c, t, msgs);
    assert d.leaderLog == c.leaderLog;
    if t.role == Leader {
      LeaderLogMono(c, d, t.term);
    }
    forall m | m in msgs && m.AppendRequest? ensures RequestInv(d, m) {
      RequestMono(c, d, m);
    }
  }

  /** What the invariants say about one server. */
  lemma About(c: Cluster, s: Server)
    requires LogInv(c) && VoteInv(c) && s.id in c.servers && c.servers[s.id] == s
    ensures ServerLogInv(c, s)
    ensures s.role == Leader ==> Win(s.term, s.id) in c.elected && LeaderLogInv(c, s.term)
  {
    assert ServerLogInv(c, s) && ServerInv(c, s);
  }

  /** Nobody has led the term a candidate is about to win. */
  lemma NewTerm(c: Cluster, t: Server)
    requires LogInv(c) && VoteInv(c) && t.id in c.servers && VoteInv(Update(c, t, {}))
    requires var s := c.servers[t.id];
             t.role == Leader && s.role != Leader
             && (t.term == s.term + 1 || (t.term == s.term && s.role == Candidate))
    ensures t.term !in c.leaderLog
  {
    var d := Update(c, t, {});
    assert ServerInv(c, c.servers[t.id]);
    if t.term in c.leaderLog {
      assert LeaderLogInv(c, t.term);
      var w :| w in c.elected && w.term == t.term;
      assert w in d.elected && Win(t.term, t.id) in d.elected;
      OneElectedPerTerm(d, t.term, w.id, t.id);
      assert false;
    }
  }

  lemma AppendKeepsOrder(log: seq<Entry>, e: Entry)
    requires NonDecreasing(log) && TermsUpTo(log, e.term)
    ensures NonDecreasing(log + [e]) && TermsUpTo(log + [e], e.term)
  {
  }

  /** A leader's log grows by one entry of its own term; a new leader's term is new. */
  lemma LeaderAppendIsHonest(c: Cluster, s: Server, t: Server, e: Entry)
    requires ServerLogInv(c, s) && t.id == s.id && t.id in c.servers && c.servers[t.id] == s
    requires t.log == s.log + [e] && e.term == t.term && t.role == Leader
             && t.commit == s.commit && t.applied == s.applied && TermBound(s) <= t.term
    requires if s.role == Leader then t.term == s.term && Win(t.term, t.id) in c.elected
             else t.term !in c.leaderLog
    ensures LogHonest(c, t, {})
  {
    var d := Update(c, t, {});
    SoundAppend(c.base, c.leaderLog, t.term, s.log, e);
    assert d.leaderLog == c.leaderLog[t.term := t.log];
    AppendKeepsOrder(s.log, e);
    assert Win(t.term, t.id) in d.elected;
  }

  /** send_append_entries: what goes out is a slice of the sender's log, with the term of the
      entry before it. */
  lemma RequestForIsSlice(s: Server, dst: ServerId, k: nat)
    requires CanSend(s, dst, k)
    ensures var m := AppendRequestFor(s, dst, k);
            && m.prevIndex + |m.entries| <= |s.log|
            && m.entries == s.log[m.prevIndex..m.prevIndex + |m.entries|]
            && m.prevTerm == (if m.prevIndex == 0 then 0 else s.log[m.prevIndex - 1].term)
  {
    var i := Members.Find(s.cfg, dst);
    var prev := s.cfg[i].nextIndex - 1;
    if s.cfg[i].matchIndex == prev {
    } else {
      assert s.log[0..0] == [];
    }
  }

  /** The log a follower keeps after accepting is the sender's log up to the last entry sent. */
  lemma AcceptedIsLeaderPrefix(c: Cluster, s: Server, m: Message)
    requires ServerLogInv(c, s) && m.AppendRequest? && RequestInv(c, m) && LeaderLogInv(c, m.term)
    requires m.prevIndex >= s.commit
    requires LogSpec.Accepts(0, s.log, m.prevIndex, m.prevTerm, s.commit, 0, 0)
    ensures LogSpec.Kept(0, s.log, m.prevIndex, m.prevTerm, s.commit) + m.entries
         == c.leaderLog[m.term][..m.prevIndex + |m.entries|]
  {
    var g := c.leaderLog[m.term];
    var p := m.prevIndex;
    LogSpec.AcceptedPrefix(0, s.log, p, m.prevTerm, s.commit, 0);
    if p > 0 {
      SoundMatch(c.base, c.leaderLog, s.log, g, p - 1);
    }
    assert s.log[..p] == g[..p];
    assert g[..p] + g[p..p + |m.entries|] == g[..p + |m.entries|];
  }

  lemma PrefixKeepsOrder(log: seq<Entry>, k: nat, t: nat)
    requires NonDecreasing(log) && TermsUpTo(log, t) && k <= |log|
    ensures NonDecreasing(log[..k]) && TermsUpTo(log[..k], t)
  {
  }

  /** A server that holds a log written under term m.term and is in that term. */
  lemma FollowerLogIsHonest(c: Cluster, t: Server, msgs: set<Message>)
    requires t.id in c.servers && t.role != Leader
    requires |c.base| <= t.commit <= |t.log| && t.applied <= t.commit
    requires Sound(c.base, c.leaderLog, t.log) && NonDecreasing(t.log) && TermsUpTo(t.log, TermBound(t))
    requires forall m :: m in msgs ==> !m.AppendRequest?
    ensures LogHonest(c, t, msgs)
  {
    var d := Update(c, t, msgs);
    assert d.leaderLog == c.leaderLog;
  }

  lemma CommitFacts(s: Server, n: nat)
    requires s.commit <= |s.log| && s.applied <= s.commit
    ensures var r := Commit(s, n);
            r.log == s.log && s.commit <= r.commit <= |s.log| && r.applied <= r.commit
            && r.id == s.id && r.term == s.term && (r.role == s.role || r.role == Follower)
  {
  }

  /** The sender of a request of the receiver's own term is another server, so the receiver
      does not lead that term. */
  lemma ReceiverDoesNotLead(c: Cluster, s: Server, m: Message)
    requires VoteInv(c) && s.id in c.servers && c.servers[s.id] == s
    requires m.AppendRequest? && m.dst == s.id && RequestInv(c, m) && m.term >= s.term
    ensures MatchTerms(s, m.term).role != Leader && MatchTerms(s, m.term).term == m.term
  {
    assert ServerInv(c, s);
    if s.role == Leader && m.term == s.term {
      OneElectedPerTerm(c, s.term, s.id, m.src);
    }
  }

  ghost predicate FollowerOk(c: Cluster, t: Server) {
    && |c.base| <= t.commit <= |t.log| && t.applied <= t.commit
    && Sound(c.base, c.leaderLog, t.log) && NonDecreasing(t.log) && TermsUpTo(t.log, TermBound(t))
  }

  lemma RejectedLog(c: Cluster, s: Server, t: Server, k: nat)
    requires ServerLogInv(c, s) && s.commit <= k <= |s.log|
    requires t.log == s.log[..k] && s.commit <= t.commit <= k && t.applied <= t.commit
    requires TermBound(s) <= TermBound(t)
    ensures FollowerOk(c, t)
  {
    SoundPrefix(c.base, c.leaderLog, s.log, k);
    PrefixKeepsOrder(s.log, k, TermBound(s));
  }

  lemma AcceptedLog(c: Cluster, t: Server, term: nat, k: nat)
    requires term in c.leaderLog && LeaderLogInv(c, term) && |c.base| <= k <= |c.leaderLog[term]|
    requires t.log == c.leaderLog[term][..k] && t.term == term
    requires |c.base| <= t.commit <= |t.log| && t.applied <= t.commit
    ensures FollowerOk(c, t)
  {
    SoundPrefix(c.base, c.leaderLog, c.leaderLog[term], k);
    PrefixKeepsOrder(c.leaderLog[term], k, term);
  }

  /** What a request does to the receiver, whatever the cluster. */
  lemma RequestFacts(s: Server, m: Message)
    requires m.AppendRequest? && s.applied <= s.commit <= |s.log| && m.term >= s.term
    requires MatchTerms(s, m.term).role != Leader
    ensures var (t, r) := OnAppendRequest(s, m);
            var kept := LogSpec.Kept(0, s.log, m.prevIndex, m.prevTerm, s.commit);
            && t.id == s.id && t.term == m.term && t.role != Leader
            && t.log == (if r.success then kept + m.entries else kept)
            && s.commit <= t.commit <= |t.log| && t.applied <= t.commit
            && TermBound(s) <= TermBound(t)
  {
    var u := DropConflicts(MatchTerms(s, m.term), m.prevIndex, m.prevTerm);
    if LogSpec.PrevMatches(0, u.log, m.prevIndex, m.prevTerm, 0, 0) {
      CommitFacts(AppendAll(u, m.entries), m.leaderCommit);
    }
  }

  lemma ReplyFacts(s: Server, m: Message)
    requires m.AppendRequest? && s.applied <= s.commit <= |s.log| && m.term >= s.term
    ensures var (t, r) := OnAppendRequest(s, m);
            && r.AppendReply? && r.lastIndex == |t.log| && r.term == m.term
            && (r.success <==> LogSpec.Accepts(0, s.log, m.prevIndex, m.prevTerm, s.commit, 0, 0))
  {
    var u := DropConflicts(MatchTerms(s, m.term), m.prevIndex, m.prevTerm);
    if LogSpec.PrevMatches(0, u.log, m.prevIndex, m.prevTerm, 0, 0) {
      CommitFacts(AppendAll(u, m.entries), m.leaderCommit);
    }
  }

  lemma LogAfterRequest(c: Cluster, s: Server, m: Message, t: Server, ok: bool)
    requires ServerLogInv(c, s) && m.AppendRequest? && RequestInv(c, m) && LeaderLogInv(c, m.term)
    requires m.term >= s.term && t.term == m.term && t.role != Leader && TermBound(s) <= TermBound(t)
    requires ok <==> LogSpec.Accepts(0, s.log, m.prevIndex, m.prevTerm, s.commit, 0, 0)
    requires ok && m.entries != [] ==> m.prevIndex >= s.commit
    requires t.log == LogSpec.Kept(0, s.log, m.prevIndex, m.prevTerm, s.commit) + (if ok then m.entries else [])
    requires s.commit <= t.commit <= |t.log| && t.applied <= t.commit
    ensures FollowerOk(c, t) && (ok && m.prevIndex >= s.commit ==> t.log <= c.leaderLog[m.term])
  {
    if ok && m.prevIndex >= s.commit {
      AcceptedIsLeaderPrefix(c, s, m);
      AcceptedLog(c, t, m.term, m.prevIndex + |m.entries|);
    } else {
      assert t.log == LogSpec.Kept(0, s.log, m.prevIndex, m.prevTerm, s.commit);
      RejectedLog(c, s, t, |t.log|);
    }
  }

  /** handle_append_entries_request, unless it accepts entries below the commit index: the log
      stays sound, and a success reply to a request at or above the commit index means the log
      is now a prefix of the log of that term's leader. */
  lemma AppendRequestLog(c: Cluster, s: Server, m: Message)
    requires ServerLogInv(c, s)
    requires m.AppendRequest? && RequestInv(c, m) && LeaderLogInv(c, m.term) && m.term >= s.term
    requires MatchTerms(s, m.term).role != Leader
    requires m.entries != [] && LogSpec.Accepts(0, s.log, m.prevIndex, m.prevTerm, s.commit, 0, 0) ==>
               m.prevIndex >= s.commit
    ensures var (t, r) := OnAppendRequest(s, m);
            && t.id == s.id && t.term == m.term && t.role != Leader
            && FollowerOk(c, t)
            && r.AppendReply? && r.lastIndex == |t.log| && r.term == m.term
            && (r.success && m.prevIndex >= s.commit ==> t.log <= c.leaderLog[m.term])
  {
    RequestFacts(s, m);
    ReplyFacts(s, m);
    var (t, r) := OnAppendRequest(s, m);
    assert LogSpec.Kept(0, s.log, m.prevIndex, m.prevTerm, s.commit) + []
        == LogSpec.Kept(0, s.log, m.prevIndex, m.prevTerm, s.commit);
    LogAfterRequest(c, s, m, t, r.success);
  }

  /** An accepted request stores its entries, the last ones of the new log, under the sender's
      indexes if and only if it is empty or its previous index is not below the receiver's
      commit index. */
  lemma StoredInPlaceIff(s: Server, m: Message)
    requires m.AppendRequest? && s.applied <= s.commit <= |s.log| && m.term >= s.term
    requires MatchTerms(s, m.term).role != Leader && OnAppendRequest(s, m).1.success
    ensures var t := OnAppendRequest(s, m).0;
            && |t.log| >= |m.entries| && t.log[|t.log| - |m.entries|..] == m.entries
            && ((m.entries != [] ==> |t.log| == m.prevIndex + |m.entries|)
                <==> m.entries == [] || m.prevIndex >= s.commit)
  {
    RequestFacts(s, m);
    ReplyFacts(s, m);
    LogSpec.AcceptedPrefix(0, s.log, m.prevIndex, m.prevTerm, s.commit, 0);
  }

  // ---------- every step, every run ----------

  lemma WinStep(c: Cluster, t: Server, msgs: set<Message>)
    requires LogInv(c) && VoteInv(c) && t.id in c.servers && VoteInv(Update(c, t, msgs))
    requires forall m :: m in msgs ==> !m.AppendRequest?
    requires var s := c.servers[t.id];
             && s.role != Leader && t.commit == s.commit && t.applied == s.applied && s.term <= t.term
             && if t.role == Leader
                then msgs == {} && t.log == s.log + [NoopEntry(t.term)]
                     && (t.term == s.term + 1 || (t.term == s.term && s.role == Candidate))
                else t.log == s.log && TermBound(s) <= TermBound(t)
    ensures LogHonest(c, t, msgs)
  {
    var s := c.servers[t.id];
    About(c, s);
    if t.role == Leader {
      NewTerm(c, t);
      LeaderAppendIsHonest(c, s, t, NoopEntry(t.term));
    } else {
      SameLogIsHonest(c, s, t, msgs);
    }
  }

  lemma SentIsSlice(c: Cluster, s: Server, dst: ServerId, k: nat)
    requires ServerLogInv(c, s) && CanSend(s, dst, k) && Win(s.term, s.id) in c.elected
    ensures RequestInv(c, AppendRequestFor(s, dst, k))
  {
    RequestForIsSlice(s, dst, k);
  }

  lemma OnlySendsIsHonest(c: Cluster, s: Server, m: Message)
    requires s.id in c.servers && c.servers[s.id] == s && ServerLogInv(c, s) && m.AppendRequest? && RequestInv(c, m)
    requires s.role == Leader && Win(s.term, s.id) in c.elected && LeaderLogInv(c, s.term)
    ensures LogHonest(c, s, {m})
  {
    SameLogIsHonest(c, s, s, {m});
  }

  lemma SendStep(c: Cluster, s: Server, dst: ServerId, k: nat)
    requires LogInv(c) && VoteInv(c) && s.id in c.servers && c.servers[s.id] == s && CanSend(s, dst, k)
    ensures LogHonest(c, s, {AppendRequestFor(s, dst, k)})
  {
    About(c, s);
    SentIsSlice(c, s, dst, k);
    OnlySendsIsHonest(c, s, AppendRequestFor(s, dst, k));
  }

  lemma AppendRequestStep(c: Cluster, s: Server, m: Message)
    requires LogInv(c) && VoteInv(c) && s.id in c.servers && c.servers[s.id] == s
    requires m in c.net && m.AppendRequest? && m.dst == s.id && s.commit <= |s.log|
    requires (m.term >= s.term && m.entries != []
              && LogSpec.Accepts(0, s.log, m.prevIndex, m.prevTerm, s.commit, 0, 0)) ==> m.prevIndex >= s.commit
    ensures OnAppendRequest(s, m).0.id == s.id
    ensures LogHonest(c, OnAppendRequest(s, m).0, {OnAppendRequest(s, m).1})
  {
    About(c, s);
    assert RequestInv(c, m);
    if m.term < s.term {
      SameLogIsHonest(c, s, s, {OnAppendRequest(s, m).1});
    } else {
      CurrentRequestStep(c, s, m);
    }
  }

  lemma CurrentRequestStep(c: Cluster, s: Server, m: Message)
    requires LogInv(c) && VoteInv(c) && s.id in c.servers && c.servers[s.id] == s && ServerLogInv(c, s)
    requires m.AppendRequest? && RequestInv(c, m) && m.dst == s.id && m.term >= s.term
    requires m.entries != [] && LogSpec.Accepts(0, s.log, m.prevIndex, m.prevTerm, s.commit, 0, 0) ==>
               m.prevIndex >= s.commit
    ensures OnAppendRequest(s, m).0.id == s.id
    ensures LogHonest(c, OnAppendRequest(s, m).0, {OnAppendRequest(s, m).1})
  {
    assert LeaderLogInv(c, m.term);
    ReceiverDoesNotLead(c, s, m);
    AppendRequestLog(c, s, m);
    var (t, r) := OnAppendRequest(s, m);
    FollowerOkIsHonest(c, t, r);
  }

  lemma FollowerOkIsHonest(c: Cluster, t: Server, r: Message)
    requires t.id in c.servers && t.role != Leader && FollowerOk(c, t) && !r.AppendRequest?
    ensures LogHonest(c, t, {r})
  {
    FollowerLogIsHonest(c, t, {r});
  }

  lemma AppendReplyStep(c: Cluster, s: Server, m: Message)
    requires LogInv(c) && VoteInv(c) && s.id in c.servers && c.servers[s.id] == s
    requires m.AppendReply? && s.commit <= |s.log|
    ensures OnAppendReply(s, m).id == s.id && LogHonest(c, OnAppendReply(s, m), {})
  {
    About(c, s);
    if m.term == s.term && s.role == Leader && Members.Has(s.cfg, m.src) {
      CommitFacts(s.(cfg := Members.SetIndexes(s.cfg, m.src, m.lastIndex, m.success)), m.lastIndex);
    }
    SameLogIsHonest(c, s, OnAppendReply(s, m), {});
  }

  lemma ProposeStep(c: Cluster, s: Server, e: Entry)
    requires LogInv(c) && VoteInv(c) && s.id in c.servers && c.servers[s.id] == s
    requires s.role == Leader && e.term == s.term
    ensures LogHonest(c, AppendEntry(s, e), {})
  {
    About(c, s);
    LeaderAppendIsHonest(c, s, AppendEntry(s, e), e);
  }

  lemma TimeoutFacts(s: Server)
    requires CanStartElection(s)
    ensures var t := StartElection(s);
            && s.role != Leader && t.id == s.id && t.commit == s.commit && t.applied == s.applied
            && t.term == s.term + 1 && t.role != InitServer && t.role != Follower
            && t.log == if t.role == Leader then s.log + [NoopEntry(t.term)] else s.log
  {
  }

  lemma VoteRequestFacts(s: Server, m: Message, pending: bool)
    requires m.VoteRequest?
    ensures var (t, r) := OnVoteRequest(s, m, pending);
            && t == s.(term := t.term, role := t.role, votedFor := t.votedFor)
            && TermBound(s) <= TermBound(t) && (t.role == Leader ==> s.role == Leader && s.term == t.term)
            && r.VoteReply?
  {
  }

  lemma VoteReplyFacts(s: Server, m: Message)
    requires m.VoteReply?
    ensures var t := OnVoteReply(s, m);
            && t.id == s.id && t.commit == s.commit && t.applied == s.applied && s.term <= t.term
            && if t.role == Leader && s.role != Leader
               then t.log == s.log + [NoopEntry(t.term)] && t.term == s.term && s.role == Candidate
               else t.log == s.log && TermBound(s) <= TermBound(t) && (t.role == Leader ==> t.term == s.term)
  {
  }

  lemma VoteRequestStep(c: Cluster, s: Server, m: Message, pending: bool)
    requires LogInv(c) && VoteInv(c) && s.id in c.servers && c.servers[s.id] == s && m.VoteRequest?
    ensures var (t, r) := OnVoteRequest(s, m, pending); t.id == s.id && LogHonest(c, t, {r})
  {
    About(c, s);
    VoteRequestFacts(s, m, pending);
    var (t, r) := OnVoteRequest(s, m, pending);
    SameLogIsHonest(c, s, t, {r});
  }

  lemma VoteReplyStep(c: Cluster, s: Server, t: Server, m: Message)
    requires LogInv(c) && VoteInv(c) && s.id in c.servers && c.servers[s.id] == s && m.VoteReply?
    requires t == OnVoteReply(s, m) && t.id == s.id && VoteInv(Update(c, t, {}))
    ensures LogHonest(c, t, {})
  {
    VoteReplyFacts(s, m);
    if s.role == Leader {
      About(c, s);
      SameLogIsHonest(c, s, t, {});
    } else {
      WinStep(c, t, {});
    }
  }

  lemma TimeoutKeepsLogInv(c: Cluster, a: Action)
    requires LogInv(c) && VoteInv(c) && Enabled(c, a) && VoteInv(Next(c, a)) && a.Timeout?
    ensures LogInv(Next(c, a)) && Extends(c.leaderLog, Next(c, a).leaderLog)
  {
    var s := c.servers[a.s];
    TimeoutFacts(s);
    var t := StartElection(s);
    var msgs: set<Message> := if t.role == Leader then {} else {VoteRequest(t.id, t.term, |t.log|, LastTerm(t))};
    WinStep(c, t, msgs);
    LogHonestKeeps(c, t, msgs);
  }

  lemma VoteRequestKeepsLogInv(c: Cluster, a: Action)
    requires LogInv(c) && VoteInv(c) && Enabled(c, a) && VoteInv(Next(c, a)) && a.VoteReq?
    ensures LogInv(Next(c, a)) && Extends(c.leaderLog, Next(c, a).leaderLog)
  {
    var s := c.servers[a.s];
    VoteRequestStep(c, s, a.m, a.pending);
    LogHonestKeeps(c, OnVoteRequest(s, a.m, a.pending).0, {OnVoteRequest(s, a.m, a.pending).1});
  }

  lemma VoteReplyKeepsLogInv(c: Cluster, a: Action)
    requires LogInv(c) && VoteInv(c) && Enabled(c, a) && VoteInv(Next(c, a)) && a.VoteRep?
    ensures LogInv(Next(c, a)) && Extends(c.leaderLog, Next(c, a).leaderLog)
  {
    var s := c.servers[a.s];
    VoteReplyFacts(s, a.m);
    VoteReplyStep(c, s, OnVoteReply(s, a.m), a.m);
    LogHonestKeeps(c, OnVoteReply(s, a.m), {});
  }

  lemma SendKeepsLogInv(c: Cluster, a: Action)
    requires LogInv(c) && VoteInv(c) && Enabled(c, a) && VoteInv(Next(c, a)) && a.Send?
    ensures LogInv(Next(c, a)) && Extends(c.leaderLog, Next(c, a).leaderLog)
  {
    var s := c.servers[a.s];
    SendStep(c, s, a.dst, a.k);
    LogHonestKeeps(c, s, {AppendRequestFor(s, a.dst, a.k)});
  }

  lemma RequestKeepsLogInv(c: Cluster, a: Action)
    requires LogInv(c) && VoteInv(c) && Enabled(c, a) && VoteInv(Next(c, a)) && a.AppendReq? && InPlace(c, a)
    ensures LogInv(Next(c, a)) && Extends(c.leaderLog, Next(c, a).leaderLog)
  {
    var s := c.servers[a.s];
    AppendRequestStep(c, s, a.m);
    LogHonestKeeps(c, OnAppendRequest(s, a.m).0, {OnAppendRequest(s, a.m).1});
  }

  lemma ReplyKeepsLogInv(c: Cluster, a: Action)
    requires LogInv(c) && VoteInv(c) && Enabled(c, a) && VoteInv(Next(c, a)) && a.AppendRep?
    ensures LogInv(Next(c, a)) && Extends(c.leaderLog, Next(c, a).leaderLog)
  {
    var s := c.servers[a.s];
    AppendReplyStep(c, s, a.m);
    LogHonestKeeps(c, OnAppendReply(s, a.m), {});
  }

  lemma ProposeKeepsLogInv(c: Cluster, a: Action)
    requires LogInv(c) && VoteInv(c) && Enabled(c, a) && VoteInv(Next(c, a)) && a.Propose?
    ensures LogInv(Next(c, a)) && Extends(c.leaderLog, Next(c, a).leaderLog)
  {
    var s := c.servers[a.s];
    ProposeStep(c, s, a.e);
    LogHonestKeeps(c, AppendEntry(s, a.e), {});
  }

  lemma JoinKeepsLogInv(c: Cluster, a: Action)
    requires LogInv(c) && VoteInv(c) && Enabled(c, a) && VoteInv(Next(c, a)) && a.Join?
    ensures LogInv(Next(c, a)) && Extends(c.leaderLog, Next(c, a).leaderLog)
  {
    var s := c.servers[a.s];
    var t := OnMembership(s, a.src, a.target, a.last);
    About(c, s);
    SameLogIsHonest(c, s, t, {});
    LogHonestKeeps(c, t, {});
  }

  lemma StepKeepsLogInv(c: Cluster, a: Action)
    requires LogInv(c) && VoteInv(c) && Enabled(c, a) && FixedVoting(c, a) && InPlace(c, a)
    ensures LogInv(Next(c, a)) && Extends(c.leaderLog, Next(c, a).leaderLog)
  {
    StepKeepsVoteInv(c, a);
    match a
    case Timeout(_) => TimeoutKeepsLogInv(c, a);
    case VoteReq(_, _, _) => VoteRequestKeepsLogInv(c, a);
    case VoteRep(_, _) => VoteReplyKeepsLogInv(c, a);
    case Send(_, _, _) => SendKeepsLogInv(c, a);
    case AppendReq(_, _) => RequestKeepsLogInv(c, a);
    case AppendRep(_, _) => ReplyKeepsLogInv(c, a);
    case Propose(_, _) => ProposeKeepsLogInv(c, a);
    case Join(_, _, _, _) => JoinKeepsLogInv(c, a);
  }

  ghost predicate GuardedAt(cs: seq<Cluster>, acts: seq<Action>, i: nat)
    requires i < |acts| < |cs|
  {
    StepAt(cs, acts, i) && InPlace(cs[i], acts[i])
  }

  /** A run in which no entries are accepted below the receiver's commit index. */
  ghost predicate GuardedRun(cs: seq<Cluster>, acts: seq<Action>) {
    && IsRun(cs, acts)
    && forall i: nat :: i < |acts| ==> GuardedAt(cs, acts, i)
  }

  lemma {:induction false} RunKeepsLogInv(cs: seq<Cluster>, acts: seq<Action>, i: nat)
    requires GuardedRun(cs, acts) && i < |cs|
    ensures LogInv(cs[i]) && VoteInv(cs[i])
    ensures i > 0 ==> Extends(cs[i - 1].leaderLog, cs[i].leaderLog) && cs[i].base == cs[i - 1].base
  {
    RunKeepsVoteInv(cs, acts, i);
    if i == 0 {
      InitLogInv(cs[0]);
    } else {
      RunKeepsLogInv(cs, acts, i - 1);
      assert GuardedAt(cs, acts, i - 1);
      StepKeepsLogInv(cs[i - 1], acts[i - 1]);
      var t, msgs := NextIsUpdate(cs[i - 1], acts[i - 1]);
    }
  }

  lemma ExtendsTransitive(a: map<nat, seq<Entry>>, b: map<nat, seq<Entry>>, c: map<nat, seq<Entry>>)
    requires Extends(a, b) && Extends(b, c)
    ensures Extends(a, c)
  {
    forall t | t in a ensures t in c && a[t] <= c[t] {
      assert a[t] <= b[t] && b[t] <= c[t];
    }
  }

  lemma LeaderLogsGrowStep(cs: seq<Cluster>, acts: seq<Action>, j: nat)
    requires GuardedRun(cs, acts) && 0 < j < |cs|
    ensures Extends(cs[j - 1].leaderLog, cs[j].leaderLog) && cs[j].base == cs[j - 1].base
  {
    RunKeepsLogInv(cs, acts, j);
  }

  lemma {:induction false} LeaderLogsGrow(cs: seq<Cluster>, acts: seq<Action>, i: nat, j: nat)
    requires GuardedRun(cs, acts) && i <= j < |cs|
    ensures Extends(cs[i].leaderLog, cs[j].leaderLog) && cs[i].base == cs[j].base
    decreases j
  {
    if i < j {
      LeaderLogsGrow(cs, acts, i, j - 1);
      LeaderLogsGrowStep(cs, acts, j);
      ExtendsTransitive(cs[i].leaderLog, cs[j - 1].leaderLog, cs[j].leaderLog);
    }
  }

  /** Any two logs ever held, by any two servers at any two moments, that share an index and
      a term are identical up to that index. */
  lemma LogMatchingHolds(cs: seq<Cluster>, acts: seq<Action>, i: nat, j: nat,
                         x: ServerId, y: ServerId, k: nat)
    requires GuardedRun(cs, acts) && i <= j < |cs|
    requires x in cs[i].servers && y in cs[j].servers
    requires k < |cs[i].servers[x].log| && k < |cs[j].servers[y].log|
    requires cs[i].servers[x].log[k].term == cs[j].servers[y].log[k].term
    ensures cs[i].servers[x].log[..k + 1] == cs[j].servers[y].log[..k + 1]
  {
    RunKeepsLogInv(cs, acts, i);
    RunKeepsLogInv(cs, acts, j);
    LeaderLogsGrow(cs, acts, i, j);
    var a, b := cs[i].servers[x], cs[j].servers[y];
    assert ServerLogInv(cs[i], a) && ServerLogInv(cs[j], b);
    SoundMono(cs[i].base, cs[i].leaderLog, cs[j].leaderLog, a.log);
    SoundMatch(cs[j].base, cs[j].leaderLog, a.log, b.log, k);
  }

  /** Terms never decrease along a log, in any reachable state. */
  lemma LogTermsNonDecreasing(cs: seq<Cluster>, acts: seq<Action>, i: nat, x: ServerId)
    requires GuardedRun(cs, acts) && i < |cs| && x in cs[i].servers
    ensures NonDecreasing(cs[i].servers[x].log)
    ensures cs[i].servers[x].applied <= cs[i].servers[x].commit <= |cs[i].servers[x].log|
  {
    RunKeepsLogInv(cs, acts, i);
    assert ServerLogInv(cs[i], cs[i].servers[x]);
  }

  /** Whatever is recorded as the log of term t was the log of a leader of term t. */
  lemma {:induction false} LeaderLogWasHeld(cs: seq<Cluster>, acts: seq<Action>, i: nat, t: nat)
    returns (j: nat, x: ServerId)
    requires IsRun(cs, acts) && i < |cs| && t in cs[i].leaderLog
    ensures j <= i && x in cs[j].servers
    ensures var s := cs[j].servers[x]; s.role == Leader && s.term == t && s.log == cs[i].leaderLog[t]
    decreases i
  {
    if i > 0 && t in cs[i - 1].leaderLog && cs[i].leaderLog[t] == cs[i - 1].leaderLog[t] {
      j, x := LeaderLogWasHeld(cs, acts, i - 1, t);
    } else {
      assert StepAt(cs, acts, i - 1);
      var s, msgs := NextIsUpdate(cs[i - 1], acts[i - 1]);
      j, x := i, acts[i - 1].s;
    }
  }

  lemma SuccessReplyState(c: Cluster, s: Server, m: Message, t: Server, r: Message)
    requires LogInv(c) && VoteInv(c) && s.id in c.servers && c.servers[s.id] == s
    requires m in c.net && m.AppendRequest? && m.dst == s.id && m.prevIndex >= s.commit
    requires s.commit <= |s.log| && (t, r) == OnAppendRequest(s, m) && r.AppendReply? && r.success
    ensures m.term in c.leaderLog && Win(m.term, m.src) in c.elected
    ensures r.term == m.term && r.lastIndex == |t.log| && t.log <= c.leaderLog[m.term]
  {
    assert ServerLogInv(c, s) && RequestInv(c, m) && LeaderLogInv(c, m.term);
    ReceiverDoesNotLead(c, s, m);
    AppendRequestLog(c, s, m);
  }

  lemma SuccessReplyInRun(cs: seq<Cluster>, acts: seq<Action>, i: nat)
    requires GuardedRun(cs, acts) && i < |acts| && StepAt(cs, acts, i) && acts[i].AppendReq?
    requires acts[i].m.prevIndex >= cs[i].servers[acts[i].s].commit
    requires OnAppendRequest(cs[i].servers[acts[i].s], acts[i].m).1.success
    ensures var m := acts[i].m;
            var (t, r) := OnAppendRequest(cs[i].servers[acts[i].s], m);
            && m.term in cs[i].leaderLog && Win(m.term, m.src) in cs[i].elected
            && r.term == m.term && r.lastIndex == |t.log| && t.log <= cs[i].leaderLog[m.term]
  {
    RunKeepsLogInv(cs, acts, i);
    var (t, r) := OnAppendRequest(cs[i].servers[acts[i].s], acts[i].m);
    SuccessReplyState(cs[i], cs[i].servers[acts[i].s], acts[i].m, t, r);
  }

  lemma LeaderWasElected(cs: seq<Cluster>, acts: seq<Action>, i: nat, j: nat, x: ServerId, y: ServerId)
    requires IsRun(cs, acts) && j <= i < |cs|
    requires x in cs[j].servers && cs[j].servers[x].role == Leader
    requires Win(cs[j].servers[x].term, y) in cs[i].elected
    ensures x == y
  {
    RunKeepsVoteInv(cs, acts, j);
    assert ServerInv(cs[j], cs[j].servers[x]);
    RunKeepsVoteInv(cs, acts, i);
    ElectedForever(cs, acts, j, i);
    OneElectedPerTerm(cs[i], cs[j].servers[x].term, x, y);
  }

  /** A success reply carrying last_log_index n, to a request at or above the commit index, says
      that the follower's log, all n entries of it, was the beginning of the sender's log at a
      moment when the sender led that term. */
  lemma SuccessReplyMeans(cs: seq<Cluster>, acts: seq<Action>, i: nat) returns (j: nat)
    requires GuardedRun(cs, acts) && i < |acts| && StepAt(cs, acts, i) && acts[i].AppendReq?
    requires acts[i].m.prevIndex >= cs[i].servers[acts[i].s].commit
    requires OnAppendRequest(cs[i].servers[acts[i].s], acts[i].m).1.success
    ensures var m := acts[i].m;
            var (t, r) := OnAppendRequest(cs[i].servers[acts[i].s], m);
            && j <= i && m.src in cs[j].servers
            && var leader := cs[j].servers[m.src];
            && leader.role == Leader && leader.term == m.term == r.term
            && r.lastIndex <= |leader.log| && t.log == leader.log[..r.lastIndex]
  {
    var m := acts[i].m;
    SuccessReplyInRun(cs, acts, i);
    var x;
    j, x := LeaderLogWasHeld(cs, acts, i, m.term);
    LeaderWasElected(cs, acts, i, j, x, m.src);
  }
}
