/** Membership commands: their effect when an entry is appended, and how that effect is taken
    back when the entry is dropped again. */
module Changes {
  import opened Types
  import opened Members

  /** append_raft_log_entry, configuration part. */
  function Apply(ms: seq<Member>, c: Command): seq<Member> {
    match c
    case AddMember(id, target) =>
      SetStatus(if Has(ms, id) then ms else AddServer(ms, id, target, 0), id, true)
    case DelMember(id, _) => RemoveServer(ms, id)
    case _ => ms
  }

  /** remove_raft_conflicting_entries, configuration part. */
  function Undo(ms: seq<Member>, c: Command): seq<Member> {
    match c
    case AddMember(id, _) => RemoveServer(ms, id)
    case DelMember(id, target) => SetStatus(AddServer(ms, id, target, 0), id, true)
    case _ => ms
  }

  /** The source exits when it has to put back a server that is configured again by then. */
  predicate CanUndo(ms: seq<Member>, c: Command) {
    c.DelMember? ==> !Has(ms, c.id)
  }

  /** Takes back a dropped suffix, newest entry first. */
  function UndoAll(ms: seq<Member>, dropped: seq<Entry>): seq<Member>
    decreases |dropped|
  {
    if dropped == [] then ms
    else UndoAll(Undo(ms, dropped[|dropped| - 1].command), dropped[..|dropped| - 1])
  }

  predicate CanUndoAll(ms: seq<Member>, dropped: seq<Entry>)
    decreases |dropped|
  {
    dropped != [] ==>
      var e := dropped[|dropped| - 1];
      CanUndo(ms, e.command) && CanUndoAll(Undo(ms, e.command), dropped[..|dropped| - 1])
  }

  function ApplyAll(ms: seq<Member>, added: seq<Entry>): seq<Member> {
    if added == [] then ms
    else Apply(ApplyAll(ms, added[..|added| - 1]), added[|added| - 1].command)
  }

  predicate NoConfig(es: seq<Entry>) {
    forall i :: 0 <= i < |es| ==> !es[i].command.IsConfig()
  }

  lemma {:induction false} NoConfigNoEffect(ms: seq<Member>, es: seq<Entry>)
    requires NoConfig(es)
    ensures UndoAll(ms, es) == ms && ApplyAll(ms, es) == ms && CanUndoAll(ms, es)
    decreases |es|
  {
    if es != [] {
      NoConfigNoEffect(ms, es[..|es| - 1]);
    }
  }
}
