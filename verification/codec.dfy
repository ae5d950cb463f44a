/** log.c: log entries as bytes on the wire, for both logs. */
module Codec {
  import opened Bits
  import opened ByteOrder

  datatype Format = RaftFormat | XappFormat

  /** A log entry with its contents. */
  datatype Record = Record(
    term: nat, index: nat, kind: nat, command: int,
    context: seq<Byte>, key: seq<Byte>, data: seq<Byte>)

  // sizeof both entry headers on an LP64 host; the xApp one ends in four bytes of padding.
  const HEADER: nat := 32
  // SERVER_COMMAND
  const SERVER_KIND: nat := 3
  const SIGN: int := 0x8000_0000

  predicate Encodable(e: Record) {
    && e.term < WORD * WORD && e.index < WORD * WORD && |e.data| < WORD * WORD
    && e.kind < WORD && |e.context| < WORD && |e.key| < WORD && -SIGN <= e.command < SIGN
  }

  /** int to uint32_t and back. */
  function Unsigned(c: int): nat
    requires -SIGN <= c < SIGN
  {
    if c < 0 then c + WORD else c
  }

  function Signed(u: nat): int {
    if u < SIGN then u else u - WORD
  }

  function Put64(host: Host, x: nat): (s: seq<Byte>)
    ensures |s| == 8
  {
    Store(host, 8, Htonll(host, x))
  }

  function Put32(host: Host, x: nat): (s: seq<Byte>)
    ensures |s| == 4
  {
    Store(host, 4, Htonl(host, x))
  }

  function Get64(host: Host, s: seq<Byte>): nat { Htonll(host, Load(host, s)) }

  function Get32(host: Host, s: seq<Byte>): nat { Htonl(host, Load(host, s)) }

  /** Fields of an entry header, in either format. */
  datatype Head = Head(term: nat, index: nat, dlen: nat, clen: nat, klen: nat, kind: nat, command: int)

  predicate HeadOk(h: Head) {
    && h.term < WORD * WORD && h.index < WORD * WORD && h.dlen < WORD * WORD
    && h.kind < WORD && h.clen < WORD && h.klen < WORD && -SIGN <= h.command < SIGN
  }

  function PutHead(host: Host, f: Format, h: Head, pad: seq<Byte>): (s: seq<Byte>)
    requires HeadOk(h) && |pad| == 4
    ensures |s| == HEADER
  {
    match f
    case RaftFormat =>
      Put64(host, h.term) + Put64(host, h.index) + Put64(host, h.dlen)
      + Put32(host, h.kind) + Put32(host, Unsigned(h.command))
    case XappFormat =>
      Put64(host, h.index) + Put64(host, h.dlen) + Put32(host, h.clen)
      + Put32(host, h.klen) + Put32(host, Unsigned(h.command)) + pad
  }

  /** What the receiver makes of a header. The term of an xApp entry is never set; zero stands
      for it here. */
  function GetHead(host: Host, f: Format, s: seq<Byte>): Head
    requires |s| >= HEADER
  {
    match f
    case RaftFormat =>
      Head(Get64(host, s[..8]), Get64(host, s[8..16]), Get64(host, s[16..24]), 0, 0,
           Get32(host, s[24..28]), Signed(Get32(host, s[28..32])))
    case XappFormat =>
      Head(0, Get64(host, s[..8]), Get64(host, s[8..16]), Get32(host, s[16..20]), Get32(host, s[20..24]),
           SERVER_KIND, Signed(Get32(host, s[24..28])))
  }

  function HeadOf(e: Record): Head {
    Head(e.term, e.index, |e.data|, |e.context|, |e.key|, e.kind, e.command)
  }

  function PayloadLen(f: Format, h: Head): nat {
    if f == RaftFormat then h.dlen else h.clen + h.klen + h.dlen
  }

  function Payload(f: Format, e: Record): seq<Byte> {
    if f == RaftFormat then e.data else e.context + e.key + e.data
  }

  /** esize in serialize_log_entries. */
  function EntrySize(f: Format, e: Record): nat { HEADER + PayloadLen(f, HeadOf(e)) }

  function Encode(host: Host, f: Format, e: Record, pad: seq<Byte>): (s: seq<Byte>)
    requires Encodable(e) && |pad| == 4
    ensures |s| == EntrySize(f, e)
  {
    PutHead(host, f, HeadOf(e), pad) + Payload(f, e)
  }

  /** strndup: stops at the first NUL byte. */
  function CutNul(s: seq<Byte>): seq<Byte> {
    if s == [] || s[0] == 0 then [] else [s[0]] + CutNul(s[1..])
  }

  /** The entry a header and the bytes after it describe. */
  function Assemble(f: Format, h: Head, p: seq<Byte>): Record
    requires PayloadLen(f, h) <= |p|
  {
    match f
    case RaftFormat => Record(h.term, h.index, h.kind, h.command, [], [], p[..h.dlen])
    case XappFormat =>
      Record(h.term, h.index, h.kind, h.command,
             CutNul(p[..h.clen]), CutNul(p[h.clen..h.clen + h.klen]),
             p[h.clen + h.klen..h.clen + h.klen + h.dlen])
  }

  /** The entry the receiver ends up with. */
  function Delivered(f: Format, e: Record): Record {
    match f
    case RaftFormat => e.(context := [], key := [])
    case XappFormat => e.(term := 0, kind := SERVER_KIND, context := CutNul(e.context), key := CutNul(e.key))
  }

  /** r is s up to its first NUL byte, or all of it. */
  ghost predicate UpToNul(s: seq<Byte>, r: seq<Byte>) {
    r <= s && 0 !in r && (|r| < |s| ==> s[|r|] == 0)
  }

  /** What has to arrive of an entry, field by field. */
  ghost predicate Arrives(f: Format, e: Record, r: Record) {
    && r.index == e.index && r.command == e.command && r.data == e.data
    && match f
       case RaftFormat => r.term == e.term && r.kind == e.kind && r.context == [] && r.key == []
       case XappFormat =>
         r.term == 0 && r.kind == SERVER_KIND && UpToNul(e.context, r.context) && UpToNul(e.key, r.key)
  }

  lemma {:induction false} CutNulIs(s: seq<Byte>)
    ensures UpToNul(s, CutNul(s))
  {
    if s != [] && s[0] != 0 {
      CutNulIs(s[1..]);
      assert s == [s[0]] + s[1..];
    }
  }

  lemma DeliveredArrives(f: Format, e: Record)
    ensures Arrives(f, e, Delivered(f, e))
  {
    CutNulIs(e.context);
    CutNulIs(e.key);
  }

  // ---------- one entry ----------

  lemma PutGet64(a: Host, b: Host, x: nat)
    requires x < WORD * WORD
    ensures Put64(a, x) == BE(8, x) && Get64(b, Put64(a, x)) == x
  {
    HtonllIsNetworkOrder(a, x);
    NtohllReads(b, x);
  }

  lemma PutGet32(a: Host, b: Host, x: nat)
    requires x < WORD
    ensures Put32(a, x) == BE(4, x) && Get32(b, Put32(a, x)) == x
  {
    HtonlIsNetworkOrder(a, x);
    NtohlReads(b, x);
  }

  lemma SignedUnsigned(c: int)
    requires -SIGN <= c < SIGN
    ensures Unsigned(c) < WORD && Signed(Unsigned(c)) == c
  {
  }

  lemma RaftFields(a: seq<Byte>, b: seq<Byte>, c: seq<Byte>, d: seq<Byte>, e: seq<Byte>, rest: seq<Byte>)
    requires |a| == |b| == |c| == 8 && |d| == |e| == 4
    ensures var s := a + b + c + d + e + rest;
            s[..8] == a && s[8..16] == b && s[16..24] == c && s[24..28] == d && s[28..32] == e && s[32..] == rest
  {
  }

  lemma XappFields(a: seq<Byte>, b: seq<Byte>, c: seq<Byte>, d: seq<Byte>, e: seq<Byte>, pad: seq<Byte>,
                   rest: seq<Byte>)
    requires |a| == |b| == 8 && |c| == |d| == |e| == |pad| == 4
    ensures var s := a + b + c + d + e + pad + rest;
            s[..8] == a && s[8..16] == b && s[16..20] == c && s[20..24] == d && s[24..28] == e && s[32..] == rest
  {
  }

  /** A header written by one host is read by any other as it was meant. */
  lemma HeadRoundTrip(a: Host, b: Host, f: Format, h: Head, pad: seq<Byte>, rest: seq<Byte>)
    requires HeadOk(h) && |pad| == 4
    ensures var s := PutHead(a, f, h, pad) + rest;
            s[HEADER..] == rest && GetHead(b, f, s) == HeadSeen(f, h)
  {
    SignedUnsigned(h.command);
    PutGet64(a, b, h.index);
    PutGet64(a, b, h.dlen);
    PutGet32(a, b, Unsigned(h.command));
    if f == RaftFormat {
      PutGet64(a, b, h.term);
      PutGet32(a, b, h.kind);
      RaftFields(Put64(a, h.term), Put64(a, h.index), Put64(a, h.dlen),
                 Put32(a, h.kind), Put32(a, Unsigned(h.command)), rest);
    } else {
      PutGet32(a, b, h.clen);
      PutGet32(a, b, h.klen);
      XappFields(Put64(a, h.index), Put64(a, h.dlen), Put32(a, h.clen),
                 Put32(a, h.klen), Put32(a, Unsigned(h.command)), pad, rest);
    }
  }

  lemma PayloadFields(a: seq<Byte>, b: seq<Byte>, c: seq<Byte>, rest: seq<Byte>)
    ensures var p := a + b + c + rest;
            && p[..|a|] == a && p[|a|..|a| + |b|] == b
            && p[|a| + |b|..|a| + |b| + |c|] == c && p[|a| + |b| + |c|..] == rest
  {
  }

  /** What the receiver reads in a header. */
  function HeadSeen(f: Format, h: Head): Head {
    if f == RaftFormat then h.(clen := 0, klen := 0) else h.(term := 0, kind := SERVER_KIND)
  }

  lemma AssembleDelivers(f: Format, e: Record, rest: seq<Byte>)
    ensures var h, p := HeadSeen(f, HeadOf(e)), Payload(f, e) + rest;
            && PayloadLen(f, h) == |Payload(f, e)|
            && Assemble(f, h, p) == Delivered(f, e) && p[PayloadLen(f, h)..] == rest
  {
    if f == RaftFormat {
      PayloadFields([], [], e.data, rest);
      assert e.data + rest == [] + [] + e.data + rest;
    } else {
      PayloadFields(e.context, e.key, e.data, rest);
    }
  }

  lemma {:induction false} CutNulIff(s: seq<Byte>)
    ensures CutNul(s) == s <==> 0 !in s
  {
    if s != [] {
      CutNulIff(s[1..]);
      assert s == [s[0]] + s[1..];
    }
  }

  /** An xApp command arrives unchanged if and only if context and key hold no NUL byte, as the
      entries made by new_log_entry never do; the data may hold any byte. */
  lemma XappDeliveryExactIff(e: Record)
    ensures Delivered(XappFormat, e) == e.(term := 0, kind := SERVER_KIND) <==> 0 !in e.context && 0 !in e.key
  {
    CutNulIff(e.context);
    CutNulIff(e.key);
  }

  // ---------- messages ----------

  predicate AllEncodable(es: seq<Record>) {
    forall i :: 0 <= i < |es| ==> Encodable(es[i])
  }

  function Flatten(chunks: seq<seq<Byte>>): seq<Byte> {
    if chunks == [] then [] else chunks[0] + Flatten(chunks[1..])
  }

  lemma {:induction false} FlattenSnoc(chunks: seq<seq<Byte>>, c: seq<Byte>)
    ensures Flatten(chunks + [c]) == Flatten(chunks) + c
  {
    if chunks == [] {
      assert ([] + [c])[1..] == [];
    } else {
      FlattenSnoc(chunks[1..], c);
      assert (chunks + [c])[1..] == chunks[1..] + [c];
    }
  }

  /** A message body: the entries one after the other. */
  function EncodeAll(host: Host, f: Format, es: seq<Record>, pad: seq<Byte>): seq<Byte>
    requires AllEncodable(es) && |pad| == 4
  {
    Flatten(Chunks(host, f, es, pad))
  }

  function Chunks(host: Host, f: Format, es: seq<Record>, pad: seq<Byte>): (r: seq<seq<Byte>>)
    requires AllEncodable(es) && |pad| == 4
    ensures |r| == |es|
  {
    if es == [] then [] else [Encode(host, f, es[0], pad)] + Chunks(host, f, es[1..], pad)
  }

  lemma Regroup<T>(a: seq<T>, b: seq<T>, c: seq<T>)
    ensures a + (b + c) == a + b + c
  {
  }

  lemma {:induction false} ChunksSnoc(host: Host, f: Format, es: seq<Record>, e: Record, pad: seq<Byte>)
    requires AllEncodable(es) && Encodable(e) && |pad| == 4
    ensures Chunks(host, f, es + [e], pad) == Chunks(host, f, es, pad) + [Encode(host, f, e, pad)]
  {
    var all := es + [e];
    if es == [] {
      assert all[1..] == [] && Chunks(host, f, all[1..], pad) == [];
    } else {
      assert all[1..] == es[1..] + [e] && all[0] == es[0];
      ChunksSnoc(host, f, es[1..], e, pad);
      Regroup([Encode(host, f, es[0], pad)], Chunks(host, f, es[1..], pad), [Encode(host, f, e, pad)]);
    }
  }

  lemma EncodeSnoc(host: Host, f: Format, es: seq<Record>, k: nat, pad: seq<Byte>)
    requires AllEncodable(es) && |pad| == 4 && k < |es|
    ensures EncodeAll(host, f, es[..k + 1], pad) == EncodeAll(host, f, es[..k], pad) + Encode(host, f, es[k], pad)
  {
    var init, e := es[..k], es[k];
    assert es[..k + 1] == init + [e];
    ChunksSnoc(host, f, init, e, pad);
    FlattenSnoc(Chunks(host, f, init, pad), Encode(host, f, e, pad));
  }

  lemma EncodeFirst(host: Host, f: Format, es: seq<Record>, k: nat, pad: seq<Byte>, tail: seq<Byte>)
    requires AllEncodable(es) && |pad| == 4 && k < |es|
    ensures EncodeAll(host, f, es[k..], pad) + tail
         == Encode(host, f, es[k], pad) + (EncodeAll(host, f, es[k + 1..], pad) + tail)
  {
    assert es[k..][1..] == es[k + 1..];
  }

  function Sizes(f: Format, es: seq<Record>): (r: seq<nat>)
    ensures |r| == |es|
  {
    seq(|es|, i requires 0 <= i < |es| => EntrySize(f, es[i]))
  }

  function Sum(sizes: seq<nat>): nat {
    if sizes == [] then 0 else Sum(sizes[..|sizes| - 1]) + sizes[|sizes| - 1]
  }

  /** k is how many leading entries fit in `room` bytes: all of them do, or one more does not. */
  ghost predicate IsFit(sizes: seq<nat>, room: int, k: nat) {
    k <= |sizes| && (k > 0 ==> Sum(sizes[..k]) <= room) && (k < |sizes| ==> Sum(sizes[..k + 1]) > room)
  }

  lemma {:induction false} SumGrows(sizes: seq<nat>, k: nat, n: nat)
    requires k <= n <= |sizes|
    ensures Sum(sizes[..k]) <= Sum(sizes[..n])
    decreases n
  {
    if k < n {
      SumGrows(sizes, k, n - 1);
      assert sizes[..n][..n - 1] == sizes[..n - 1];
    }
  }

  lemma FitUnique(sizes: seq<nat>, room: int, k: nat, n: nat)
    requires IsFit(sizes, room, k) && IsFit(sizes, room, n)
    ensures k == n
  {
    if k < n {
      SumGrows(sizes, k + 1, n);
    } else if n < k {
      SumGrows(sizes, n + 1, k);
    }
  }

  lemma StepSizes(f: Format, es: seq<Record>, k: nat)
    requires k < |es|
    ensures Sum(Sizes(f, es)[..k + 1]) == Sum(Sizes(f, es)[..k]) + EntrySize(f, es[k])
  {
    assert Sizes(f, es)[..k + 1][..k] == Sizes(f, es)[..k];
  }

  /** The first k entries wanted have been written to out. */
  ghost predicate Written(host: Host, f: Format, want: seq<Record>, pad: seq<Byte>, k: nat, out: seq<Byte>)
    requires AllEncodable(want) && |pad| == 4
  {
    k <= |want| && out == EncodeAll(host, f, want[..k], pad) && |out| == Sum(Sizes(f, want)[..k])
  }

  lemma WriteOne(host: Host, f: Format, want: seq<Record>, pad: seq<Byte>, k: nat, out: seq<Byte>)
    requires AllEncodable(want) && |pad| == 4 && k < |want| && Written(host, f, want, pad, k, out)
    ensures Written(host, f, want, pad, k + 1, out + Encode(host, f, want[k], pad))
    ensures Sum(Sizes(f, want)[..k + 1]) == |out| + EntrySize(f, want[k])
    ensures |out + Encode(host, f, want[k], pad)| == |out| + EntrySize(f, want[k])
  {
    StepSizes(f, want, k);
    EncodeSnoc(host, f, want, k, pad);
  }

  lemma FitReached(host: Host, f: Format, want: seq<Record>, pad: seq<Byte>, k: nat, out: seq<Byte>, room: int)
    requires AllEncodable(want) && |pad| == 4 && Written(host, f, want, pad, k, out)
    requires |out| <= (if room > 0 then room else 0) && (k < |want| ==> |out| + EntrySize(f, want[k]) > room)
    ensures IsFit(Sizes(f, want), room, k)
  {
    if k < |want| {
      StepSizes(f, want, k);
    }
    if k > 0 {
      StepSizes(f, want, k - 1);
    }
  }

  /** The loop of serialize_log_entries over the entries wanted, once the first is found. */
  method SerializeFound(host: Host, f: Format, want: seq<Record>, room: int, pad: seq<Byte>)
    returns (out: seq<Byte>, count: nat)
    requires AllEncodable(want) && |pad| == 4
    ensures IsFit(Sizes(f, want), room, count) && out == EncodeAll(host, f, want[..count], pad)
    ensures |out| <= if room > 0 then room else 0
  {
    out, count := [], 0;
    while count < |want| && |out| < room && room > 0
      invariant Written(host, f, want, pad, count, out) && |out| <= if room > 0 then room else 0
    {
      if |out| + EntrySize(f, want[count]) > room {
        break;
      }
      WriteOne(host, f, want, pad, count, out);
      out, count := out + Encode(host, f, want[count], pad), count + 1;
    }
    FitReached(host, f, want, pad, count, out, room);
  }

  /** serialize_log_entries on a log holding `es` after index `offset`. The source exits when
      asked beyond its log. `nodata` is errno == ENODATA: the receiver needs a snapshot. */
  method Serialize(host: Host, f: Format, offset: nat, es: seq<Record>, from: nat, n: nat, room: int, pad: seq<Byte>)
    returns (out: seq<Byte>, count: nat, nodata: bool)
    requires AllEncodable(es) && |pad| == 4 && 1 <= from && from - 1 + n <= offset + |es|
    ensures nodata <==> 0 < n && 0 < room && from <= offset
    ensures from <= offset ==> count == 0 && out == []
    ensures from > offset ==>
              var want := es[from - 1 - offset..from - 1 - offset + n];
              IsFit(Sizes(f, want), room, count) && out == EncodeAll(host, f, want[..count], pad)
  {
    out, count, nodata := [], 0, false;
    if from <= offset {
      nodata := 0 < n && 0 < room;
    } else {
      out, count := SerializeFound(host, f, es[from - 1 - offset..from - 1 - offset + n], room, pad);
    }
  }

  /** What host finds at the start of s is the entry e as some host wrote it, and then rest. */
  ghost predicate StartsWith(host: Host, f: Format, s: seq<Byte>, e: Record, rest: seq<Byte>) {
    |s| >= HEADER && s[HEADER..] == Payload(f, e) + rest && GetHead(host, f, s) == HeadSeen(f, HeadOf(e))
  }

  lemma EncodedStarts(host: Host, sender: Host, f: Format, e: Record, pad: seq<Byte>, rest: seq<Byte>)
    requires Encodable(e) && |pad| == 4
    ensures StartsWith(host, f, Encode(sender, f, e, pad) + rest, e, rest)
  {
    assert Encode(sender, f, e, pad) + rest == PutHead(sender, f, HeadOf(e), pad) + (Payload(f, e) + rest);
    HeadRoundTrip(sender, host, f, HeadOf(e), pad, Payload(f, e) + rest);
  }

  /** One pass of the loop of deserialize_log_entries, on an entry written by any host. */
  method DecodeNext(host: Host, f: Format, s: seq<Byte>, ghost e: Record, ghost rest: seq<Byte>)
    returns (r: Record, next: seq<Byte>)
    requires StartsWith(host, f, s, e, rest)
    ensures r == Delivered(f, e) && next == rest
  {
    AssembleDelivers(f, e, rest);
    var h := GetHead(host, f, s);
    var p := s[HEADER..];
    r := Assemble(f, h, p);
    next := p[PayloadLen(f, h)..];
  }

  function DeliveredAll(f: Format, es: seq<Record>): (r: seq<Record>)
    ensures |r| == |es|
  {
    if es == [] then [] else DeliveredAll(f, es[..|es| - 1]) + [Delivered(f, es[|es| - 1])]
  }

  lemma DeliveredSnoc(f: Format, es: seq<Record>, i: nat)
    requires i < |es|
    ensures DeliveredAll(f, es[..i + 1]) == DeliveredAll(f, es[..i]) + [Delivered(f, es[i])]
  {
    assert es[..i + 1][..i] == es[..i];
  }

  /** deserialize_log_entries: a message of any number of entries, written on a host of either
      endianness, delivers them all in order, whatever follows it in the buffer. */
  method Deserialize(host: Host, f: Format, s: seq<Byte>, n: nat,
                     ghost sender: Host, ghost es: seq<Record>, ghost pad: seq<Byte>, ghost tail: seq<Byte>)
    returns (r: seq<Record>)
    requires AllEncodable(es) && |pad| == 4 && n == |es| && s == EncodeAll(sender, f, es, pad) + tail
    ensures r == DeliveredAll(f, es)
    ensures |r| == |es| && forall i :: 0 <= i < |es| ==> Arrives(f, es[i], r[i])
  {
    r := [];
    var rest := s;
    assert es[0..] == es;
    for i := 0 to n
      invariant rest == EncodeAll(sender, f, es[i..], pad) + tail
      invariant r == DeliveredAll(f, es[..i])
    {
      EncodeFirst(sender, f, es, i, pad, tail);
      ghost var left := EncodeAll(sender, f, es[i + 1..], pad) + tail;
      EncodedStarts(host, sender, f, es[i], pad, left);
      DeliveredSnoc(f, es, i);
      var e, next := DecodeNext(host, f, rest, es[i], left);
      r, rest := r + [e], next;
    }
    assert es[..n] == es;
    AllArrive(f, es);
  }

  lemma {:induction false} AllArrive(f: Format, es: seq<Record>)
    ensures forall i :: 0 <= i < |es| ==> Arrives(f, es[i], DeliveredAll(f, es)[i])
    decreases |es|
  {
    if es != [] {
      AllArrive(f, es[..|es| - 1]);
      DeliveredArrives(f, es[|es| - 1]);
    }
  }

  /** The i-th raft entry of a message arrives with its term, index, kind, command and data, and
      without context and key; it arrives unchanged if and only if it had none. */
  lemma RaftDeliveryExact(es: seq<Record>, i: nat)
    requires i < |es|
    ensures var r, e := DeliveredAll(RaftFormat, es)[i], es[i];
            && r.term == e.term && r.index == e.index && r.kind == e.kind && r.command == e.command
            && r.data == e.data && r.context == [] && r.key == []
            && (r == e <==> e.context == [] && e.key == [])
  {
    AllArrive(RaftFormat, es);
  }

  // ---------- the bytes of an entry ----------

  /** The bytes of an entry, field by field in network order whatever the host; the payload
      follows at byte 32. */
  lemma EntryBytes(host: Host, f: Format, e: Record, pad: seq<Byte>)
    requires Encodable(e) && |pad| == 4
    ensures var s := Encode(host, f, e, pad);
            |s| >= 32
            && match f
               case RaftFormat =>
                 && s[..8] == BE(8, e.term) && s[8..16] == BE(8, e.index) && s[16..24] == BE(8, |e.data|)
                 && s[24..28] == BE(4, e.kind) && s[28..32] == BE(4, Unsigned(e.command)) && s[32..] == e.data
               case XappFormat =>
                 && s[..8] == BE(8, e.index) && s[8..16] == BE(8, |e.data|) && s[16..20] == BE(4, |e.context|)
                 && s[20..24] == BE(4, |e.key|) && s[24..28] == BE(4, Unsigned(e.command))
                 && s[32..] == e.context + e.key + e.data
  {
    SignedUnsigned(e.command);
    PutGet64(host, host, e.index);
    PutGet64(host, host, |e.data|);
    PutGet32(host, host, Unsigned(e.command));
    if f == RaftFormat {
      PutGet64(host, host, e.term);
      PutGet32(host, host, e.kind);
      RaftFields(BE(8, e.term), BE(8, e.index), BE(8, |e.data|), BE(4, e.kind), BE(4, Unsigned(e.command)), e.data);
    } else {
      PutGet32(host, host, |e.context|);
      PutGet32(host, host, |e.key|);
      XappFields(BE(8, e.index), BE(8, |e.data|), BE(4, |e.context|), BE(4, |e.key|), BE(4, Unsigned(e.command)),
                 pad, e.context + e.key + e.data);
    }
  }
}
