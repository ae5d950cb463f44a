/** Values shared by every part of the model. */
module Types {

  datatype Option<+T> = None | Some(value: T)

  // Server ids and addresses are only ever compared for equality.
  type ServerId = int
  type Target = string

  /** What a log entry asks for: the pair (type, command) of `log_entry_t`, with the
      server a configuration command names. */
  datatype Command =
    | Noop
    | Regular(code: int)
    | AddMember(id: ServerId, target: Target)
    | DelMember(id: ServerId, target: Target)
  {
    predicate IsConfig() {
      AddMember? || DelMember?
    }
  }

  /** A log entry. Its index is its position in the log: `append_log_entry` assigns it. */
  datatype Entry = Entry(term: nat, command: Command, dlen: nat, clen: nat, klen: nat)

  /** A stored entry with the index append_log_entry gave it. */
  datatype Slot = Slot(index: nat, entry: Entry)

  function Min(a: nat, b: nat): nat {
    if a < b then a else b
  }

  function Max(a: nat, b: nat): nat {
    if a < b then b else a
  }

  // sizeof(log_entry_t) on an LP64 host.
  const ENTRY_HEADER: nat := 64

  /** Bytes `append_log_entry` charges to the log for one entry. */
  function Footprint(e: Entry): nat {
    ENTRY_HEADER + e.dlen + e.clen + e.klen
  }
}
