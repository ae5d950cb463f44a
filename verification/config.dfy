/** config.c: the configuration array, its counters and its scans, updated in place. */
module Config {
  import opened Types
  import opened Bits
  import opened Members

  /** One record of a configuration snapshot. */
  datatype Item = Item(id: ServerId, target: Target, voting: bool)

  function Items(ms: seq<Member>): (r: seq<Item>) {
    seq(|ms|, i requires 0 <= i < |ms| => Item(ms[i].id, ms[i].target, ms[i].voting))
  }

  ghost predicate UniqueItems(items: seq<Item>) {
    forall i, j :: 0 <= i < j < |items| ==> items[i].id != items[j].id
  }

  /** The configuration commit_raft_config_snapshot builds. */
  function Restored(items: seq<Item>, last: nat): seq<Member> {
    seq(|items|, i requires 0 <= i < |items| =>
      NewMember(items[i].id, items[i].target, last).(voting := items[i].voting))
  }

  /** The configuration installed from a snapshot that was captured as ms. */
  function Installed(ms: seq<Member>, last: nat): seq<Member> {
    Restored(Items(ms), last)
  }

  /** Ids of the voting members, in array order. */
  function VotingIds(ms: seq<Member>): seq<ServerId> {
    if ms == [] then []
    else VotingIds(ms[..|ms| - 1]) + (if ms[|ms| - 1].voting then [ms[|ms| - 1].id] else [])
  }

  /** The array read circularly from the server after position k. */
  function RingAfter(ms: seq<Member>, k: nat): seq<Member>
    requires k < |ms|
  {
    ms[k + 1..] + ms[..k]
  }

  /** Where the circular scan starts from; a server that is not in the array counts as the
      first one. */
  function Home(ms: seq<Member>, self: ServerId): (k: nat)
    requires ms != []
    ensures k < |ms|
  {
    if Find(ms, self) < |ms| then Find(ms, self) else 0
  }

  /** (i + 1) % n, where i may also be the position just past the end. */
  function Succ(i: nat, n: nat): (r: nat)
    requires i <= n && 1 < n
    ensures r == if i + 1 < n then i + 1 else i + 1 - n
  {
    (i + 1) % n
  }

  /** Array position of element j of the ring after home. */
  function RingIndex(home: nat, j: nat, n: nat): nat
    requires home < n && j < n
  {
    if home + 1 + j < n then home + 1 + j else home + 1 + j - n
  }

  function Take<T>(s: seq<T>, n: nat): seq<T> {
    if n < |s| then s[..n] else s
  }

  /** The backups get_replica_servers chooses. */
  function Replicas(ms: seq<Member>, self: ServerId, n: nat): seq<ServerId> {
    if |ms| <= 1 then [] else Take(VotingIds(RingAfter(ms, Home(ms, self))), n)
  }

  lemma SelectSnoc(ms: seq<Member>, i: nat, q: Quality)
    requires UniqueIds(ms) && i < |ms|
    ensures Select(ms[..i + 1], q) == Select(ms[..i], q) + (if Fits(ms[i], q) then {ms[i].id} else {})
    ensures ms[i].id !in Select(ms[..i], q)
  {
    assert ms[..i + 1][..i] == ms[..i];
    InSelect(ms[..i], q, ms[i].id);
  }

  lemma StatusCount(ms: seq<Member>, id: ServerId, voting: bool)
    requires UniqueIds(ms) && Has(ms, id)
    ensures var r, was := Members.SetStatus(ms, id, voting), ms[Find(ms, id)].voting;
            && UniqueIds(r)
            && |Voters(r)| == |Voters(ms)| + (if voting && !was then 1 else if was && !voting then -1 else 0)
  {
    SetStatusSets(ms, id, voting);
    InSelectUnique(ms, Voting, id);
  }

  class Config {
    var servers: seq<Member>
    var votingMembers: nat
    var isChanging: bool
    const self: ServerId

    ghost predicate Valid()
      reads this
    {
      UniqueIds(servers) && votingMembers == |Voters(servers)|
    }

    constructor (self: ServerId)
      ensures Valid() && servers == [] && !isChanging && this.self == self
    {
      servers, votingMembers, isChanging, this.self := [], 0, false, self;
    }

    /** get_server. */
    method GetServer(id: ServerId) returns (i: nat)
      ensures i == Find(servers, id)
    {
      i := 0;
      while i < |servers|
        invariant i <= |servers|
        invariant forall k :: 0 <= k < i ==> servers[k].id != id
      {
        if servers[i].id == id {
          return;
        }
        i := i + 1;
      }
    }

    /** add_server. */
    method AddServer(id: ServerId, target: Target, last: nat) returns (ok: bool)
      requires Valid()
      modifies this`servers
      ensures Valid()
      ensures servers == Members.AddServer(old(servers), id, target, last)
      ensures ok == !Has(old(servers), id)
    {
      AddServerSets(servers, id, target, last);
      var i := GetServer(id);
      if i < |servers| {
        servers := servers[i := servers[i].(matchIndex := last, nextIndex := last + 1, masterIndex := last)];
        return false;
      }
      servers := servers + [NewMember(id, target, last)];
      return true;
    }

    /** remove_server. */
    method RemoveServer(id: ServerId)
      requires Valid()
      modifies this`servers, this`votingMembers
      ensures Valid()
      ensures servers == Members.RemoveServer(old(servers), id)
    {
      RemoveServerUnique(servers, id);
      RemoveServerSets(servers, id, Voting);
      InSelectUnique(servers, Voting, id);
      var i := GetServer(id);
      if i < |servers| {
        if servers[i].voting {
          votingMembers := votingMembers - 1;
        }
        servers := servers[..i] + servers[i + 1..];
      }
    }

    /** set_server_voting_status. */
    method SetStatus(id: ServerId, voting: bool) returns (ok: bool)
      requires Valid()
      modifies this`servers, this`votingMembers
      ensures Valid()
      ensures servers == Members.SetStatus(old(servers), id, voting)
      ensures ok == Has(old(servers), id)
    {
      var i := GetServer(id);
      if i < |servers| {
        StatusCount(servers, id, voting);
        if servers[i].voting != voting {
          votingMembers := if voting then votingMembers + 1 else votingMembers - 1;
          servers := servers[i := servers[i].(voting := voting)];
        } else {
          assert servers[i := servers[i].(voting := voting)] == servers;
        }
        return true;
      }
      return false;
    }

    /** raft_config_set_new_vote. */
    method SetNewVote(id: ServerId) returns (isNew: bool)
      requires Valid()
      modifies this`servers
      ensures Valid()
      ensures servers == Members.SetNewVote(old(servers), id)
      ensures isNew == IsNewVote(old(servers), id)
    {
      SetNewVoteSets(servers, id);
      var i := GetServer(id);
      isNew := false;
      if i < |servers| && servers[i].voting && !servers[i].votedForMe {
        servers := servers[i := servers[i].(votedForMe := true)];
        isNew := true;
      }
    }

    /** raft_config_reset_votes. */
    method ResetVotes()
      requires Valid()
      modifies this`servers
      ensures Valid()
      ensures servers == Members.ResetVotes(old(servers))
    {
      ResetVotesSets(servers);
      ghost var was := servers;
      var i := 0;
      while i < |servers|
        invariant i <= |servers| == |was|
        invariant forall k :: 0 <= k < i ==> servers[k] == was[k].(votedForMe := false)
        invariant forall k :: i <= k < |was| ==> servers[k] == was[k]
      {
        servers := servers[i := servers[i].(votedForMe := false)];
        i := i + 1;
      }
      assert servers == Members.ResetVotes(was);
    }

    /** raft_config_set_all_server_indexes. */
    method SetAllIndexes(last: nat)
      requires Valid()
      modifies this`servers
      ensures Valid()
      ensures servers == Members.SetAllIndexes(old(servers), last)
    {
      IndexOpsSets(servers, self, last, true);
      ghost var was := servers;
      var i := 0;
      while i < |servers|
        invariant i <= |servers| == |was|
        invariant forall k :: 0 <= k < i ==> servers[k] == was[k].(nextIndex := last + 1, matchIndex := 0)
        invariant forall k :: i <= k < |was| ==> servers[k] == was[k]
      {
        servers := servers[i := servers[i].(nextIndex := last + 1, matchIndex := 0)];
        i := i + 1;
      }
      assert servers == Members.SetAllIndexes(was, last);
    }

    /** handle_append_entries_reply, the part that updates the replying server. */
    method SetIndexes(id: ServerId, last: nat, success: bool) returns (found: bool)
      requires Valid()
      modifies this`servers
      ensures Valid()
      ensures servers == Members.SetIndexes(old(servers), id, last, success)
      ensures found == Has(old(servers), id)
    {
      IndexOpsSets(servers, id, last, success);
      var i := GetServer(id);
      found := i < |servers|;
      if found {
        servers := servers[i := servers[i].(nextIndex := last + 1,
                                            matchIndex := if success then last else servers[i].matchIndex)];
      }
    }

    /** has_majority_of_votes; false where the source exits, on more votes than voting members. */
    method HasMajorityOfVotes(votes: nat) returns (r: bool, ok: bool)
      requires Valid()
      ensures ok <==> votes <= |Voters(servers)|
      ensures ok ==> (r <==> 2 * votes > |Voters(servers)|)
    {
      r, ok := votes > votingMembers / 2, votes <= votingMembers;
    }

    /** has_majority_of_match_index: counts the voting members that match, plus the leader. */
    method HasMajorityOfMatchIndex(n: nat) returns (r: bool)
      requires Valid()
      ensures r <==> 2 * (|Matching(servers, n)| + 1) > |Voters(servers)|
    {
      var count, i := 0, 0;
      while i < |servers|
        invariant i <= |servers|
        invariant count == |Matching(servers[..i], n)|
      {
        SelectSnoc(servers, i, Holding(n));
        if servers[i].voting {
          if servers[i].matchIndex >= n {
            count := count + 1;
          }
        }
        i := i + 1;
      }
      assert servers[..i] == servers;
      r := count + 1 > votingMembers / 2;
    }

    /** set_configuration_changing. */
    method SetConfigurationChanging(changing: bool) returns (ok: bool)
      modifies this`isChanging
      ensures ok == !(old(isChanging) && changing)
      ensures isChanging == changing
    {
      if isChanging && changing {
        return false;
      }
      isChanging := changing;
      return true;
    }

    /** get_replica_servers: at most n voting members after this one, in circular order. */
    method GetReplicaServers(n: nat) returns (replicas: seq<ServerId>)
      requires Valid()
      ensures replicas == Replicas(servers, self, n)
      ensures |replicas| <= n
    {
      replicas := [];
      var limit := if n > |servers| && |servers| > 0 then |servers| - 1 else n;
      if |servers| > 1 && limit > 0 {
        var me := GetServer(self);
        var home := if me < |servers| then me else 0;
        replicas := ScanFrom(home, Succ(me, |servers|), limit);
        VotingIdsShort(RingAfter(servers, home));
      }
    }

    /** The circular search of get_replica_servers. */
    method ScanFrom(home: nat, first: nat, limit: nat) returns (replicas: seq<ServerId>)
      requires home < |servers| && 1 < |servers| && first == Succ(home, |servers|)
      ensures replicas == Take(VotingIds(RingAfter(servers, home)), limit)
    {
      replicas := [];
      ghost var ring := RingAfter(servers, home);
      ghost var j := 0;
      var i := first;
      while i != home && |replicas| < limit
        invariant 0 <= j < |servers| && i == RingIndex(home, j, |servers|)
        invariant replicas == VotingIds(ring[..j]) && |replicas| <= limit
        decreases |servers| - j
      {
        VotingIdsSnoc(ring, j);
        if servers[i].voting {
          replicas := replicas + [servers[i].id];
        }
        i := Succ(i, |servers|);
        j := j + 1;
      }
      VotingIdsPrefix(ring, j);
      if i == home {
        assert ring[..j] == ring;
      }
    }

    /** create_raft_config_snapshot. */
    method CreateSnapshot() returns (items: seq<Item>)
      ensures items == Items(servers) && |items| == |servers|
      ensures forall i :: 0 <= i < |servers| ==>
                && items[i].id == servers[i].id && items[i].target == servers[i].target
                && items[i].voting == servers[i].voting
    {
      items := [];
      for i := 0 to |servers|
        invariant items == Items(servers)[..i]
      {
        items := items + [Item(servers[i].id, servers[i].target, servers[i].voting)];
      }
    }

    /** commit_raft_config_snapshot, configuration part: the array is emptied and rebuilt; false
        where the source exits, when a record repeats an id. */
    method CommitSnapshot(items: seq<Item>, last: nat) returns (ok: bool)
      requires Valid()
      modifies this`servers, this`votingMembers
      ensures Valid() && (ok <==> UniqueItems(items))
      ensures ok ==> servers == Restored(items, last) && |servers| == |items|
      ensures ok ==> forall i :: 0 <= i < |items| ==>
                && servers[i].id == items[i].id && servers[i].target == items[i].target
                && servers[i].voting == items[i].voting && !servers[i].votedForMe
                && servers[i].matchIndex == last && servers[i].nextIndex == last + 1
    {
      while |servers| > 0
        invariant Valid()
        decreases |servers|
      {
        RemoveServer(servers[0].id);
      }
      var i := 0;
      while i < |items|
        invariant i <= |items| && Valid()
        invariant servers == Restored(items[..i], last) && UniqueItems(items[..i])
      {
        RestoredSnoc(items, i, last);
        ok := AddServer(items[i].id, items[i].target, last);
        if !ok {
          return;
        }
        var found := SetStatus(items[i].id, items[i].voting);
        i := i + 1;
      }
      assert items[..i] == items;
      ok := true;
    }
  }

  lemma FindNew(ms: seq<Member>, m: Member)
    requires forall k :: 0 <= k < |ms| ==> ms[k].id != m.id
    ensures !Has(ms, m.id) && Find(ms + [m], m.id) == |ms|
  {
    assert (ms + [m])[|ms|].id == m.id;
    assert forall k :: 0 <= k < |ms| ==> (ms + [m])[k] == ms[k];
  }

  /** Restoring one more record is adding the server and setting its status. */
  lemma RestoredSnoc(items: seq<Item>, i: nat, last: nat)
    requires i < |items| && UniqueItems(items[..i])
    ensures var ms := Restored(items[..i], last);
            var added := Members.AddServer(ms, items[i].id, items[i].target, last);
            && (Has(ms, items[i].id) <==> !UniqueItems(items[..i + 1]))
            && (Has(ms, items[i].id) ==> !UniqueItems(items))
            && (!Has(ms, items[i].id) ==>
                  Members.SetStatus(added, items[i].id, items[i].voting) == Restored(items[..i + 1], last))
  {
    var ms := Restored(items[..i], last);
    var m := NewMember(items[i].id, items[i].target, last);
    assert forall k :: 0 <= k < i ==> ms[k].id == items[k].id == items[..i][k].id == items[..i + 1][k].id;
    assert items[..i + 1][i].id == m.id;
    if !Has(ms, m.id) {
      FindNew(ms, m);
      assert (ms + [m])[i := m.(voting := items[i].voting)] == Restored(items[..i + 1], last);
    }
  }

  /** What create captures, commit restores: the same servers, addresses and statuses in the
      same order, hence the same voting set. */
  lemma SnapshotRoundTrip(ms: seq<Member>, last: nat)
    requires UniqueIds(ms)
    ensures var r := Restored(Items(ms), last);
            && UniqueItems(Items(ms)) && |r| == |ms| && Voters(r) == Voters(ms)
            && forall i :: 0 <= i < |ms| ==>
                 && r[i].id == ms[i].id && r[i].target == ms[i].target && r[i].voting == ms[i].voting
                 && !r[i].votedForMe && r[i].matchIndex == last && r[i].nextIndex == last + 1
  {
    SameSelect(Restored(Items(ms), last), ms, Voting);
  }

  // ---------- what the chosen backups are ----------

  ghost predicate Distinct<T>(s: seq<T>) {
    forall i, j :: 0 <= i < j < |s| ==> s[i] != s[j]
  }

  lemma {:induction false} VotingIdsExact(ms: seq<Member>)
    requires UniqueIds(ms)
    ensures Distinct(VotingIds(ms)) && |VotingIds(ms)| == |Voters(ms)|
    ensures forall x :: x in VotingIds(ms) <==> x in Voters(ms)
  {
    if ms != [] {
      var n := |ms| - 1;
      VotingIdsExact(ms[..n]);
      assert ms[..n + 1] == ms;
      SelectSnoc(ms, n, Voting);
    }
  }

  lemma InRingAfter(ms: seq<Member>, k: nat, x: ServerId)
    requires UniqueIds(ms) && k < |ms|
    ensures UniqueIds(RingAfter(ms, k))
    ensures x in Voters(RingAfter(ms, k)) <==> x in Voters(ms) && x != ms[k].id
  {
    var r := RingAfter(ms, k);
    var cut := |ms| - k - 1;
    assert forall j :: 0 <= j < |r| ==> r[j] == if j < cut then ms[k + 1 + j] else ms[j - cut];
    InSelect(r, Voting, x);
    InSelect(ms, Voting, x);
    if x in Voters(ms) && x != ms[k].id {
      var i :| 0 <= i < |ms| && Fits(ms[i], Voting) && ms[i].id == x;
      assert r[if i < k then i + cut else i - k - 1] == ms[i];
    }
  }

  lemma RingVoters(ms: seq<Member>, k: nat)
    requires UniqueIds(ms) && k < |ms|
    ensures UniqueIds(RingAfter(ms, k)) && Voters(RingAfter(ms, k)) == Voters(ms) - {ms[k].id}
  {
    InRingAfter(ms, k, ms[k].id);
    forall x ensures x in Voters(RingAfter(ms, k)) <==> x in Voters(ms) - {ms[k].id} {
      InRingAfter(ms, k, x);
    }
  }

  /** A server in the configuration gets min(n, number of other voters) distinct backups, all of
      them voters and never itself. */
  lemma ReplicasExact(ms: seq<Member>, self: ServerId, n: nat)
    requires UniqueIds(ms) && Has(ms, self)
    ensures var r := Replicas(ms, self, n);
            var others := Voters(ms) - {self};
            && Distinct(r)
            && |r| == (if n < |others| then n else |others|)
            && forall x :: x in r ==> x in others
  {
    var k := Find(ms, self);
    RingVoters(ms, k);
    VotingIdsExact(RingAfter(ms, k));
    if |ms| == 1 {
      assert RingAfter(ms, k) == [];
    } else {
      FirstOnes(VotingIds(RingAfter(ms, k)), n);
    }
  }

  lemma FirstOnes(ids: seq<ServerId>, n: nat)
    requires Distinct(ids)
    ensures Distinct(Take(ids, n)) && |Take(ids, n)| == (if n < |ids| then n else |ids|)
    ensures forall x :: x in Take(ids, n) ==> x in ids
  {
  }

  /** d positions above home, modulo the size of the array. */
  function Above(home: nat, d: nat, n: nat): (r: nat)
    requires n > 0
    ensures r < n
  {
    (home + d) % n
  }

  lemma AboveIs(home: nat, j: nat, n: nat)
    requires home < n && j < n - 1
    ensures Above(home, j + 1, n) == RingIndex(home, j, n)
  {
    var x := home + (j + 1);
    if x < n {
      ModIs(x, n, 0, x);
    } else {
      ModIs(x, n, 1, x - n);
    }
  }

  /** How many voters the scan meets on the first j positions above home. */
  function VotersMet(ms: seq<Member>, home: nat, j: nat): nat
    requires home < |ms|
  {
    if j == 0 then 0
    else VotersMet(ms, home, j - 1) + (if ms[Above(home, j, |ms|)].voting then 1 else 0)
  }

  lemma RingPosition(ms: seq<Member>, home: nat, j: nat)
    requires home < |ms| && j < |ms| - 1
    ensures RingAfter(ms, home)[j] == ms[Above(home, j + 1, |ms|)]
  {
    AboveIs(home, j, |ms|);
  }

  lemma {:induction false} VotersMetIs(ms: seq<Member>, home: nat, j: nat)
    requires home < |ms| && j < |ms|
    ensures |VotingIds(RingAfter(ms, home)[..j])| == VotersMet(ms, home, j)
    decreases j
  {
    if j > 0 {
      VotersMetIs(ms, home, j - 1);
      VotingIdsSnoc(RingAfter(ms, home), j - 1);
      RingPosition(ms, home, j - 1);
    }
  }

  /** Server number k of the list is the voter j + 1 positions above home. */
  lemma PlaceInRing(ms: seq<Member>, home: nat, j: nat)
    requires home < |ms| && j < |ms| - 1 && ms[Above(home, j + 1, |ms|)].voting
    ensures var ids, k := VotingIds(RingAfter(ms, home)), VotersMet(ms, home, j);
            k < |ids| && ids[k] == ms[Above(home, j + 1, |ms|)].id
  {
    var ring := RingAfter(ms, home);
    VotersMetIs(ms, home, j);
    RingPosition(ms, home, j);
    VotingIdsSnoc(ring, j);
    VotingIdsPrefix(ring, j + 1);
  }

  /** The order of the backups: the voter j + 1 positions above the own one, modulo the size of the
      array, is the backup whose number is the number of voters met before it, and there are
      min(n, voters met in all) of them. A server that is not in the configuration counts from the
      first one. */
  lemma ReplicasInOrder(ms: seq<Member>, self: ServerId, n: nat, home: nat)
    requires UniqueIds(ms) && |ms| > 1 && home < |ms| && (if Has(ms, self) then ms[home].id == self else home == 0)
    ensures |Replicas(ms, self, n)| == Min(n, VotersMet(ms, home, |ms| - 1))
    ensures forall j: nat ::
              j < |ms| - 1 && ms[Above(home, j + 1, |ms|)].voting && VotersMet(ms, home, j) < n ==>
                && VotersMet(ms, home, j) < |Replicas(ms, self, n)|
                && Replicas(ms, self, n)[VotersMet(ms, home, j)] == ms[Above(home, j + 1, |ms|)].id
  {
    assert Home(ms, self) == home;
    VotersMetIs(ms, home, |ms| - 1);
    assert RingAfter(ms, home)[..|ms| - 1] == RingAfter(ms, home);
    forall j: nat | j < |ms| - 1 && ms[Above(home, j + 1, |ms|)].voting && VotersMet(ms, home, j) < n
      ensures VotersMet(ms, home, j) < |Replicas(ms, self, n)|
      ensures Replicas(ms, self, n)[VotersMet(ms, home, j)] == ms[Above(home, j + 1, |ms|)].id
    {
      PlaceInRing(ms, home, j);
    }
  }

  /** For a server that is not in the configuration the scan passes over the first server
      instead of itself, so all voters are offered exactly when that one does not vote. */
  lemma ReplicasCoverIff(ms: seq<Member>, self: ServerId, n: nat)
    requires UniqueIds(ms) && |ms| > 1 && n >= |ms|
    ensures (forall x :: x in Voters(ms) && x != self ==> x in Replicas(ms, self, n))
       <==> Has(ms, self) || !ms[0].voting
  {
    var k := Home(ms, self);
    RingVoters(ms, k);
    VotingIdsExact(RingAfter(ms, k));
    VotingIdsShort(RingAfter(ms, k));
    InSelectUnique(ms, Voting, ms[0].id);
    assert Find(ms, ms[0].id) == 0 by { assert ms[0].id == ms[0].id; }
    if !Has(ms, self) && ms[0].voting {
      assert ms[0].id in Voters(ms) && ms[0].id != self && ms[0].id !in Replicas(ms, self, n);
    }
  }

  lemma {:induction false} VotingIdsPrefix(ms: seq<Member>, j: nat)
    requires j <= |ms|
    ensures VotingIds(ms[..j]) <= VotingIds(ms)
  {
    if j < |ms| {
      VotingIdsPrefix(ms[..|ms| - 1], j);
      assert ms[..|ms| - 1][..j] == ms[..j];
    } else {
      assert ms[..j] == ms;
    }
  }

  lemma VotingIdsSnoc(ms: seq<Member>, j: nat)
    requires j < |ms|
    ensures VotingIds(ms[..j + 1]) == VotingIds(ms[..j]) + (if ms[j].voting then [ms[j].id] else [])
  {
    assert ms[..j + 1][..j] == ms[..j];
  }

  lemma VotingIdsShort(ms: seq<Member>)
    ensures |VotingIds(ms)| <= |ms|
  {
  }
}
