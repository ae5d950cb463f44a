/** What the operations on the configuration and the membership commands do to each server, told
    by server id: the servers they name change as stated, every other one keeps all its fields,
    and the order of the servers is the order in which they were added. */
module MemberSpec {
  import opened Types
  import opened Members
  import Changes

  function Get(ms: seq<Member>, id: ServerId): (r: Option<Member>)
    ensures r.Some? <==> Has(ms, id)
    ensures r.Some? ==> r.value.id == id
  {
    var i := Find(ms, id);
    if i < |ms| then Some(ms[i]) else None
  }

  function Ids(ms: seq<Member>): (r: seq<ServerId>)
    ensures |r| == |ms| && forall i :: 0 <= i < |ms| ==> r[i] == ms[i].id
  {
    seq(|ms|, i requires 0 <= i < |ms| => ms[i].id)
  }

  /** The same servers in the same order, and only the one named may differ. */
  ghost predicate Only(ms: seq<Member>, r: seq<Member>, id: ServerId) {
    Ids(r) == Ids(ms) && forall x :: x != id ==> Get(r, x) == Get(ms, x)
  }

  lemma GetAt(ms: seq<Member>, r: seq<Member>, x: ServerId)
    requires Ids(r) == Ids(ms)
    ensures Find(r, x) == Find(ms, x)
  {
    forall i | 0 <= i < |ms| ensures ms[i].id == r[i].id {
      assert Ids(r)[i] == Ids(ms)[i];
    }
    FindSameIds(ms, r, x);
  }

  lemma PointUpdate(ms: seq<Member>, id: ServerId, m: Member)
    requires Has(ms, id) && m.id == id
    ensures Only(ms, ms[Find(ms, id) := m], id) && Get(ms[Find(ms, id) := m], id) == Some(m)
  {
    var r := ms[Find(ms, id) := m];
    assert Ids(r) == Ids(ms);
    GetAt(ms, r, id);
    forall x | x != id ensures Get(r, x) == Get(ms, x) {
      GetAt(ms, r, x);
    }
  }

  lemma AppendOne(ms: seq<Member>, m: Member)
    requires !Has(ms, m.id)
    ensures Get(ms + [m], m.id) == Some(m) && Ids(ms + [m]) == Ids(ms) + [m.id]
    ensures forall x :: x != m.id ==> Get(ms + [m], x) == Get(ms, x)
  {
    var r := ms + [m];
    assert r[|ms|].id == m.id;
    assert forall i :: 0 <= i < |ms| ==> ms[i].id != m.id && r[i] == ms[i];
    forall x | x != m.id ensures Get(r, x) == Get(ms, x) {
      if Has(ms, x) {
        FindSameIds(ms, r, x);
      }
    }
  }

  /** add_server: a server that is there only gets new indexes, raft's and the xApp log's; a new one
      comes last, as a non-voter. */
  lemma AddServerExact(ms: seq<Member>, id: ServerId, target: Target, last: nat)
    ensures var r, was := AddServer(ms, id, target, last), Get(ms, id);
            && (forall x :: x != id ==> Get(r, x) == Get(ms, x))
            && Ids(r) == Ids(ms) + (if was.Some? then [] else [id])
            && Get(r, id) == Some(
                 if was.Some? then was.value.(matchIndex := last, nextIndex := last + 1, masterIndex := last)
                 else Member(id, target, false, false, last + 1, last, 0, 0))
  {
    var i := Find(ms, id);
    if i < |ms| {
      PointUpdate(ms, id, ms[i].(matchIndex := last, nextIndex := last + 1, masterIndex := last));
    } else {
      AppendOne(ms, NewMember(id, target, last));
    }
  }

  lemma SetStatusExact(ms: seq<Member>, id: ServerId, voting: bool)
    ensures var r := SetStatus(ms, id, voting);
            && Only(ms, r, id)
            && Get(r, id) == (if Has(ms, id) then Some(Get(ms, id).value.(voting := voting)) else None)
  {
    if Has(ms, id) {
      PointUpdate(ms, id, ms[Find(ms, id)].(voting := voting));
    }
  }

  /** remove_server: the server is gone, the others close up. */
  lemma RemoveServerExact(ms: seq<Member>, id: ServerId)
    requires UniqueIds(ms)
    ensures var r, i := RemoveServer(ms, id), Find(ms, id);
            && Get(r, id) == None && (forall x :: x != id ==> Get(r, x) == Get(ms, x))
            && Ids(r) == (if i < |ms| then Ids(ms)[..i] + Ids(ms)[i + 1..] else Ids(ms))
  {
    var r, i := RemoveServer(ms, id), Find(ms, id);
    RemoveServerUnique(ms, id);
    forall x | x != id ensures Get(r, x) == Get(ms, x) {
      RemovedOther(ms, id, x);
    }
  }

  lemma RemovedOther(ms: seq<Member>, id: ServerId, x: ServerId)
    requires UniqueIds(ms) && x != id
    ensures Get(RemoveServer(ms, id), x) == Get(ms, x)
  {
    var r, i, j := RemoveServer(ms, id), Find(ms, id), Find(ms, x);
    if i < |ms| {
      RemoveServerUnique(ms, id);
      assert forall k :: 0 <= k < |r| ==> r[k] == ms[if k < i then k else k + 1];
      if j < |ms| {
        assert r[if j < i then j else j - 1] == ms[j];
      }
    }
  }

  /** raft_config_set_new_vote. */
  lemma SetNewVoteExact(ms: seq<Member>, id: ServerId)
    ensures var r := SetNewVote(ms, id);
            && Only(ms, r, id)
            && Get(r, id) == (if IsNewVote(ms, id) then Some(Get(ms, id).value.(votedForMe := true)) else Get(ms, id))
  {
    if IsNewVote(ms, id) {
      PointUpdate(ms, id, ms[Find(ms, id)].(votedForMe := true));
    }
  }

  /** raft_config_reset_votes and raft_config_set_all_server_indexes: every server, and only these
      fields. */
  lemma AllServersExact(ms: seq<Member>, last: nat, id: ServerId)
    ensures Ids(ResetVotes(ms)) == Ids(ms) == Ids(SetAllIndexes(ms, last))
    ensures Has(ms, id) ==>
              && Get(ResetVotes(ms), id) == Some(Get(ms, id).value.(votedForMe := false))
              && Get(SetAllIndexes(ms, last), id) == Some(Get(ms, id).value.(nextIndex := last + 1, matchIndex := 0))
  {
    GetAt(ms, ResetVotes(ms), id);
    GetAt(ms, SetAllIndexes(ms, last), id);
  }

  /** A reply moves the next index of the server that sent it, and on success its match index. */
  lemma SetIndexesExact(ms: seq<Member>, id: ServerId, last: nat, success: bool)
    ensures var r, was := SetIndexes(ms, id, last, success), Get(ms, id);
            && Only(ms, r, id)
            && (was.Some? ==>
                  && Get(r, id) == Some(was.value.(nextIndex := last + 1, matchIndex := Get(r, id).value.matchIndex))
                  && Get(r, id).value.matchIndex == if success then last else was.value.matchIndex)
  {
    var i := Find(ms, id);
    if i < |ms| {
      PointUpdate(ms, id, ms[i].(nextIndex := last + 1, matchIndex := if success then last else ms[i].matchIndex));
    }
  }

  /** Appending a membership entry: an ADD makes the server a voter, at the address it names if it
      was not there, and leaves its indexes alone if it was; a DEL removes it. Nobody else is
      touched. */
  lemma ApplyExact(ms: seq<Member>, c: Command)
    requires UniqueIds(ms)
    ensures var r := Changes.Apply(ms, c);
            match c
            case AddMember(id, target) =>
              && (forall x :: x != id ==> Get(r, x) == Get(ms, x))
              && Ids(r) == Ids(ms) + (if Has(ms, id) then [] else [id])
              && Get(r, id) == Some(if Has(ms, id) then Get(ms, id).value.(voting := true)
                                    else Member(id, target, true, false, 1, 0, 0, 0))
            case DelMember(id, _) => Get(r, id) == None && forall x :: x != id ==> Get(r, x) == Get(ms, x)
            case _ => r == ms
  {
    match c
    case AddMember(id, target) =>
      AddServerExact(ms, id, target, 0);
      SetStatusExact(if Has(ms, id) then ms else AddServer(ms, id, target, 0), id, true);
    case DelMember(id, _) => RemoveServerExact(ms, id);
    case _ =>
  }

  /** Dropping one, where the source survives it: an ADD is taken back by removing the server, a
      DEL by adding it last, at the address the entry names, as a voter nothing is known of. */
  lemma UndoExact(ms: seq<Member>, c: Command)
    requires UniqueIds(ms) && Changes.CanUndo(ms, c)
    ensures var r := Changes.Undo(ms, c);
            match c
            case AddMember(id, _) => Get(r, id) == None && forall x :: x != id ==> Get(r, x) == Get(ms, x)
            case DelMember(id, target) =>
              && (forall x :: x != id ==> Get(r, x) == Get(ms, x)) && Ids(r) == Ids(ms) + [id]
              && Get(r, id) == Some(Member(id, target, true, false, 1, 0, 0, 0))
            case _ => r == ms
  {
    match c
    case AddMember(id, _) => RemoveServerExact(ms, id);
    case DelMember(id, target) =>
      AddServerExact(ms, id, target, 0);
      SetStatusExact(AddServer(ms, id, target, 0), id, true);
    case _ =>
  }
}
