/** The raft configuration as a value: the ordered array of servers that config.c grows,
    shifts and shrinks, and what each of its operations does to it. */
module Members {
  import opened Types

  /** One `server_t`; only the fields the protocols read. */
  datatype Member = Member(
    id: ServerId,
    target: Target,
    voting: bool,
    votedForMe: bool,
    nextIndex: nat,
    matchIndex: nat,
    masterIndex: nat,
    replicaIndex: nat)

  predicate Has(ms: seq<Member>, id: ServerId) {
    exists i :: 0 <= i < |ms| && ms[i].id == id
  }

  ghost predicate UniqueIds(ms: seq<Member>) {
    forall i, j :: 0 <= i < j < |ms| ==> ms[i].id != ms[j].id
  }

  datatype Quality = Voting | VotedForMe | Holding(n: nat)

  predicate Fits(m: Member, q: Quality) {
    match q
    case Voting => m.voting
    case VotedForMe => m.votedForMe
    case Holding(n) => m.voting && m.matchIndex >= n
  }

  /** The ids of the members with a quality. */
  function Select(ms: seq<Member>, q: Quality): set<ServerId> {
    if ms == [] then {}
    else Select(ms[..|ms| - 1], q) + (if Fits(ms[|ms| - 1], q) then {ms[|ms| - 1].id} else {})
  }

  function Voters(ms: seq<Member>): set<ServerId> {
    Select(ms, Voting)
  }

  /** The servers whose `voted_for_me` flag is set. */
  function Marked(ms: seq<Member>): set<ServerId> {
    Select(ms, VotedForMe)
  }

  /** The voting members known to hold the log up to index n. */
  function Matching(ms: seq<Member>, n: nat): set<ServerId> {
    Select(ms, Holding(n))
  }

  /** Position of the first server with this id; |ms| when there is none. */
  function Find(ms: seq<Member>, id: ServerId): (r: nat)
    ensures r <= |ms|
    ensures r < |ms| ==> ms[r].id == id
    ensures forall i :: 0 <= i < r ==> ms[i].id != id
    ensures Has(ms, id) <==> r < |ms|
  {
    if ms == [] then 0
    else if ms[0].id == id then 0
    else
      var r := Find(ms[1..], id);
      assert forall i :: 1 <= i < |ms| ==> ms[i] == ms[1..][i - 1];
      r + 1
  }

  function NewMember(id: ServerId, target: Target, last: nat): Member {
    Member(id, target, false, false, last + 1, last, 0, 0)
  }

  /** add_server: appends a non-voting member, or resets the indexes of one already there. */
  function AddServer(ms: seq<Member>, id: ServerId, target: Target, last: nat): seq<Member> {
    var i := Find(ms, id);
    if i < |ms|
    then ms[i := ms[i].(matchIndex := last, nextIndex := last + 1, masterIndex := last)]
    else ms + [NewMember(id, target, last)]
  }

  /** remove_server. */
  function RemoveServer(ms: seq<Member>, id: ServerId): seq<Member> {
    var i := Find(ms, id);
    if i < |ms| then ms[..i] + ms[i + 1..] else ms
  }

  /** set_server_voting_status. */
  function SetStatus(ms: seq<Member>, id: ServerId, voting: bool): seq<Member> {
    var i := Find(ms, id);
    if i < |ms| then ms[i := ms[i].(voting := voting)] else ms
  }

  predicate IsNewVote(ms: seq<Member>, id: ServerId) {
    var i := Find(ms, id);
    i < |ms| && ms[i].voting && !ms[i].votedForMe
  }

  /** raft_config_set_new_vote. */
  function SetNewVote(ms: seq<Member>, id: ServerId): seq<Member> {
    var i := Find(ms, id);
    if IsNewVote(ms, id) then ms[i := ms[i].(votedForMe := true)] else ms
  }

  /** raft_config_reset_votes. */
  function ResetVotes(ms: seq<Member>): seq<Member> {
    seq(|ms|, i requires 0 <= i < |ms| => ms[i].(votedForMe := false))
  }

  /** raft_config_set_all_server_indexes. */
  function SetAllIndexes(ms: seq<Member>, last: nat): seq<Member> {
    seq(|ms|, i requires 0 <= i < |ms| => ms[i].(nextIndex := last + 1, matchIndex := 0))
  }

  /** handle_append_entries_reply, for the server that replied. */
  function SetIndexes(ms: seq<Member>, id: ServerId, last: nat, success: bool): seq<Member> {
    var i := Find(ms, id);
    if i < |ms|
    then ms[i := ms[i].(nextIndex := last + 1, matchIndex := if success then last else ms[i].matchIndex)]
    else ms
  }

  predicate MajorityOfVotes(ms: seq<Member>, votes: nat) {
    votes > |Voters(ms)| / 2
  }

  /** has_majority_of_match_index: the leader adds one for itself. */
  predicate MajorityOfMatch(ms: seq<Member>, n: nat) {
    |Matching(ms, n)| + 1 > |Voters(ms)| / 2
  }

  function MatchOf(ms: seq<Member>, id: ServerId): nat {
    var i := Find(ms, id);
    if i < |ms| then ms[i].matchIndex else 0
  }

  // ---------- membership as sets ----------

  lemma {:induction false} InSelect(ms: seq<Member>, q: Quality, id: ServerId)
    ensures id in Select(ms, q) <==> exists i :: 0 <= i < |ms| && Fits(ms[i], q) && ms[i].id == id
  {
    if ms != [] {
      var init := ms[..|ms| - 1];
      InSelect(init, q, id);
      assert forall i :: 0 <= i < |init| ==> init[i] == ms[i];
    }
  }

  lemma InSelectUnique(ms: seq<Member>, q: Quality, id: ServerId)
    requires UniqueIds(ms)
    ensures id in Select(ms, q) <==> (var i := Find(ms, id); i < |ms| && Fits(ms[i], q))
  {
    InSelect(ms, q, id);
  }

  /** Servers that keep their id and a quality in place keep the set of those that have it. */
  lemma {:induction false} SameSelect(a: seq<Member>, b: seq<Member>, q: Quality)
    requires |a| == |b|
    requires forall i :: 0 <= i < |a| ==> a[i].id == b[i].id && (Fits(a[i], q) <==> Fits(b[i], q))
    ensures Select(a, q) == Select(b, q)
  {
    if a != [] {
      SameSelect(a[..|a| - 1], b[..|b| - 1], q);
    }
  }

  lemma ResetVotesSets(ms: seq<Member>)
    requires UniqueIds(ms)
    ensures var r := ResetVotes(ms);
            UniqueIds(r) && Voters(r) == Voters(ms) && Marked(r) == {}
  {
    var r := ResetVotes(ms);
    SameSelect(ms, r, Voting);
    forall id ensures id !in Marked(r) {
      InSelect(r, VotedForMe, id);
    }
  }

  lemma MarkOne(ms: seq<Member>, i: nat, x: ServerId)
    requires i < |ms| && !ms[i].votedForMe
    ensures x in Marked(ms[i := ms[i].(votedForMe := true)]) <==> x in Marked(ms) || x == ms[i].id
  {
    var r := ms[i := ms[i].(votedForMe := true)];
    InSelect(ms, VotedForMe, x);
    InSelect(r, VotedForMe, x);
    if x in Marked(ms) {
      var j :| 0 <= j < |ms| && Fits(ms[j], VotedForMe) && ms[j].id == x;
      assert r[j] == ms[j];
    }
    assert r[i].id == ms[i].id && Fits(r[i], VotedForMe);
  }

  /** A vote is new exactly when it comes from an unmarked voting member, and then it marks
      that member and nobody else. */
  lemma SetNewVoteSets(ms: seq<Member>, id: ServerId)
    requires UniqueIds(ms)
    ensures IsNewVote(ms, id) <==> id in Voters(ms) && id !in Marked(ms)
    ensures var r := SetNewVote(ms, id);
            UniqueIds(r) && Voters(r) == Voters(ms)
            && Marked(r) == (if id in Voters(ms) then Marked(ms) + {id} else Marked(ms))
  {
    InSelectUnique(ms, Voting, id);
    InSelectUnique(ms, VotedForMe, id);
    if IsNewVote(ms, id) {
      var r := SetNewVote(ms, id);
      SameSelect(ms, r, Voting);
      forall x ensures x in Marked(r) <==> x in Marked(ms) || x == id {
        MarkOne(ms, Find(ms, id), x);
      }
    }
  }

  /** A candidate's ballot box after it has voted for itself. */
  lemma FirstVote(ms: seq<Member>, id: ServerId)
    requires UniqueIds(ms) && IsNewVote(ResetVotes(ms), id)
    ensures var r := SetNewVote(ResetVotes(ms), id);
            UniqueIds(r) && Voters(r) == Voters(ms) && Marked(r) == {id} && id in Voters(ms)
  {
    ResetVotesSets(ms);
    SetNewVoteSets(ResetVotes(ms), id);
  }

  /** The operations that only touch indexes leave voters and marks alone. */
  lemma IndexOpsSets(ms: seq<Member>, id: ServerId, last: nat, success: bool)
    requires UniqueIds(ms)
    ensures var r := SetAllIndexes(ms, last);
            UniqueIds(r) && Voters(r) == Voters(ms) && Marked(r) == Marked(ms)
    ensures var r := SetIndexes(ms, id, last, success);
            UniqueIds(r) && Voters(r) == Voters(ms) && Marked(r) == Marked(ms)
  {
    SameSelect(ms, SetAllIndexes(ms, last), Voting);
    SameSelect(ms, SetAllIndexes(ms, last), VotedForMe);
    SameSelect(ms, SetIndexes(ms, id, last, success), Voting);
    SameSelect(ms, SetIndexes(ms, id, last, success), VotedForMe);
  }

  lemma AddServerSets(ms: seq<Member>, id: ServerId, target: Target, last: nat)
    requires UniqueIds(ms)
    ensures var r := AddServer(ms, id, target, last);
            UniqueIds(r) && Voters(r) == Voters(ms) && Marked(r) == Marked(ms) && Has(r, id)
  {
    var r := AddServer(ms, id, target, last);
    var i := Find(ms, id);
    assert r[i].id == id;
    if i < |ms| {
      SameSelect(ms, r, Voting);
      SameSelect(ms, r, VotedForMe);
    } else {
      assert r[..|r| - 1] == ms;
    }
  }

  lemma RemoveServerUnique(ms: seq<Member>, id: ServerId)
    requires UniqueIds(ms)
    ensures UniqueIds(RemoveServer(ms, id)) && !Has(RemoveServer(ms, id), id)
  {
    var i := Find(ms, id);
    var r := RemoveServer(ms, id);
    if i < |ms| {
      assert forall j :: 0 <= j < |r| ==> r[j] == if j < i then ms[j] else ms[j + 1];
    }
  }

  lemma RemoveOne(ms: seq<Member>, i: nat, q: Quality, x: ServerId)
    requires UniqueIds(ms) && i < |ms|
    ensures x in Select(ms[..i] + ms[i + 1..], q) <==> x in Select(ms, q) && x != ms[i].id
  {
    var r := ms[..i] + ms[i + 1..];
    assert forall j :: 0 <= j < |r| ==> r[j] == if j < i then ms[j] else ms[j + 1];
    InSelect(ms, q, x);
    InSelect(r, q, x);
    if x in Select(ms, q) && x != ms[i].id {
      var j :| 0 <= j < |ms| && Fits(ms[j], q) && ms[j].id == x;
      assert r[if j < i then j else j - 1] == ms[j];
    }
  }

  lemma RemoveServerSets(ms: seq<Member>, id: ServerId, q: Quality)
    requires UniqueIds(ms)
    ensures Select(RemoveServer(ms, id), q) == Select(ms, q) - {id}
  {
    var i := Find(ms, id);
    if i < |ms| {
      forall x ensures x in Select(RemoveServer(ms, id), q) <==> x in Select(ms, q) && x != id {
        RemoveOne(ms, i, q, x);
      }
    } else {
      InSelect(ms, q, id);
    }
  }

  lemma SetStatusSets(ms: seq<Member>, id: ServerId, voting: bool)
    requires UniqueIds(ms) && Has(ms, id)
    ensures var r := SetStatus(ms, id, voting);
            && UniqueIds(r)
            && Voters(r) == (if voting then Voters(ms) + {id} else Voters(ms) - {id})
            && Marked(r) == Marked(ms)
  {
    var i := Find(ms, id);
    var r := SetStatus(ms, id, voting);
    assert forall j :: 0 <= j < |r| ==> r[j].id == ms[j].id && (j != i ==> r[j] == ms[j]);
    SameSelect(ms, r, VotedForMe);
    forall x ensures x in Voters(r) <==> (if voting then x in Voters(ms) || x == id else x in Voters(ms) && x != id) {
      InSelectUnique(ms, Voting, x);
      InSelectUnique(r, Voting, x);
      FindSameIds(ms, r, x);
    }
  }

  lemma FindSameIds(a: seq<Member>, b: seq<Member>, id: ServerId)
    requires |a| <= |b| && forall i :: 0 <= i < |a| ==> a[i].id == b[i].id
    requires Has(a, id) || |a| == |b|
    ensures Find(a, id) == Find(b, id)
  {
  }
}
