/** ringbuf.c: one producer and one consumer running interleaved (RING_MP and RING_MC add a
    lock that lets one producer and one consumer in at a time). Every step makes at most one
    access to memory the other side writes. Head and tail wrap at 2^32. */
module RingBuf {
  import opened Types
  import opened Bits

  // Pointers are stored and handed over, never inspected.
  type Data = int

  datatype ProducerAt = PIdle | PWrite | PBump | PLock | PNotify | PUnlock
  datatype ConsumerAt = CIdle | CCheck | CLock | CRecheck | CSleep | CRelock | CUnlock | CLook | CRead | CClear | CBump
  datatype Owner = Nobody | Producer | Consumer

  /** The buffer with its counters; inserted and extracted are its history. */
  datatype Store = Store(
    head: nat, tail: nat, slots: seq<Option<Data>>,
    inserted: seq<Data>, extracted: seq<Data>)

  /** The call to ring_insert in progress. */
  datatype Inserting = Inserting(at: ProducerAt, item: Data)

  /** The call to ring_extract_timeout in progress. History: `spurious` when it was woken
      without a signal, `late` when it fell asleep while an insert still had its signal to
      send. */
  datatype Extracting = Extracting(
    at: ConsumerAt, timed: bool, ptr: Option<Data>, signalled: bool, timedOut: bool,
    spurious: bool, late: bool)

  /** A ring of 2^order slots; blocking is RING_EBLOCK, lock is cond_lock, waiters is cond_th. */
  datatype Ring = Ring(
    order: nat, blocking: bool, store: Store, lock: Owner, waiters: int,
    p: Inserting, c: Extracting)

  function Size(s: Ring): nat { Pow2(s.order) }

  /** ring_count. */
  function Count(s: Ring): nat
    requires s.store.head < WORD && s.store.tail < WORD
  {
    Sub32(s.store.head, s.store.tail)
  }

  /** ring_count_free: mask + tail - head on 32-bit values. */
  function CountFree(s: Ring): nat
    requires s.store.head < WORD && s.store.tail < WORD
  {
    Sub32((Size(s) - 1 + s.store.tail) % WORD, s.store.head)
  }

  /** The slot of counter j: its remainder by the size. */
  function SlotOf(j: nat, order: nat): nat {
    if j < Pow2(order) then j else SlotOf(j - Pow2(order), order)
  }

  function Masked(i: nat, order: nat): nat { BitAnd(i, Pow2(order) - 1) }

  predicate Sized(s: Ring) {
    s.order <= 31 && |s.store.slots| == Size(s) && s.store.head < WORD && s.store.tail < WORD
  }

  datatype Action =
    | Insert(d: Data)       // ring_insert is called
    | Produce               // the producer's next step
    | Extract(timed: bool)  // ring_extract or ring_extract_timeout is called
    | Consume               // the consumer's next step
    | Spurious              // pthread_cond_wait returns by itself
    | Timeout               // pthread_cond_timedwait gives up

  predicate Enabled(s: Ring, a: Action) {
    && Sized(s)
    && match a
       case Insert(_) => s.p.at == PIdle
       case Produce => s.p.at != PIdle && (s.p.at == PLock ==> s.lock == Nobody)
       case Extract(_) => s.c.at == CIdle
       case Consume =>
         && s.c.at != CIdle
         && (s.c.at == CLock || s.c.at == CRelock ==> s.lock == Nobody)
         && (s.c.at == CSleep ==> s.c.signalled)
         && (Taking(s) ==> Masked(s.store.tail, s.order) < |s.store.slots|)
         && (s.c.at == CBump ==> s.c.ptr.Some?)
       case Spurious => s.c.at == CSleep
       case Timeout => s.c.at == CSleep && s.c.timed
  }

  /** Storing the element and moving the head. */
  function StoreStep(s: Ring): Ring
    requires Sized(s)
  {
    var i := Masked(s.store.head, s.order);
    if s.p.at == PWrite then
      if i < |s.store.slots|
      then s.(store := s.store.(slots := s.store.slots[i := Some(s.p.item)]), p := s.p.(at := PBump))
      else s
    else
      s.(store := s.store.(head := (s.store.head + 1) % WORD, inserted := s.store.inserted + [s.p.item]),
         p := s.p.(at := if s.blocking then PLock else PIdle))
  }

  /** Waking the consumer, under cond_lock. */
  function NotifyStep(s: Ring): Ring {
    match s.p.at
    case PLock => s.(lock := Producer, p := s.p.(at := PNotify))
    case PNotify =>
      if s.waiters > 0
      then s.(waiters := s.waiters - 1, c := s.c.(signalled := s.c.signalled || s.c.at == CSleep),
              p := s.p.(at := PUnlock))
      else s.(p := s.p.(at := PUnlock))
    case _ => s.(lock := Nobody, p := s.p.(at := PIdle))
  }

  predicate Storing(s: Ring) { s.p.at == PWrite || s.p.at == PBump }

  function ProducerStep(s: Ring): Ring
    requires Enabled(s, Produce)
  {
    if Storing(s) then StoreStep(s) else NotifyStep(s)
  }

  /** Looking for an element, and sleeping while there is none. */
  function WaitStep(s: Ring): Ring
    requires Sized(s)
  {
    Waiting(s, Count(s) == 0)
  }

  function Goto(s: Ring, at: ConsumerAt): (r: Ring)
    ensures r.c.at == at
  {
    s.(c := s.c.(at := at))
  }

  function Waiting(s: Ring, none: bool): Ring {
    Goto(Locking(s, none), After(s, none))
  }

  /** Where the next step takes the call, and what it does to the lock and the waiters. */
  function After(s: Ring, none: bool): ConsumerAt {
    match s.c.at
    case CCheck => if s.blocking && none then CLock else CLook
    case CLock => CRecheck
    case CRecheck => if none then CSleep else CUnlock
    case CSleep => CRelock
    case CRelock => CUnlock
    case CUnlock => if s.c.timedOut then CIdle else CLook
    case _ => if none then CIdle else CRead
  }

  function Locking(s: Ring, none: bool): Ring {
    match s.c.at
    case CLock => s.(lock := Consumer)
    case CRecheck =>
      if none
      then s.(waiters := s.waiters + 1, lock := Nobody, c := s.c.(signalled := false, late := s.p.at == PLock))
      else s
    case CRelock => s.(lock := Consumer)
    case CUnlock => s.(lock := Nobody)
    case _ => s
  }

  predicate Taking(s: Ring) { s.c.at == CRead || s.c.at == CClear || s.c.at == CBump }

  /** Reading the element, clearing its slot and moving the tail. */
  function TakeStep(s: Ring): Ring
    requires Enabled(s, Consume) && Taking(s)
  {
    var i := Masked(s.store.tail, s.order);
    if s.c.at == CRead then s.(c := s.c.(ptr := s.store.slots[i], at := CClear))
    else if s.c.at == CClear then
      s.(store := s.store.(slots := s.store.slots[i := None]), c := s.c.(at := CBump))
    else
      s.(store := s.store.(tail := (s.store.tail + 1) % WORD, extracted := s.store.extracted + [s.c.ptr.value]),
         c := s.c.(at := CIdle))
  }

  function ConsumerStep(s: Ring): Ring
    requires Enabled(s, Consume)
  {
    if Taking(s) then TakeStep(s) else WaitStep(s)
  }

  function Next(s: Ring, a: Action): Ring
    requires Enabled(s, a)
  {
    match a
    case Insert(d) => if CountFree(s) > 0 then s.(p := Inserting(PWrite, d)) else s
    case Produce => ProducerStep(s)
    case Extract(timed) => s.(c := Extracting(CCheck, timed, None, false, false, false, false))
    case Consume => ConsumerStep(s)
    case Spurious => s.(c := s.c.(spurious := true, at := CRelock))
    case Timeout => s.(c := s.c.(timedOut := true, at := CRelock))
  }

  /** ring_create. */
  ghost predicate Init(s: Ring) {
    && 4 <= s.order && Sized(s) && s.store.head == 0 == s.store.tail && s.lock == Nobody && s.waiters == 0
    && s.p.at == PIdle && s.c.at == CIdle && !s.c.timedOut && s.store.inserted == [] == s.store.extracted
    && forall i :: 0 <= i < |s.store.slots| ==> s.store.slots[i] == None
  }

  // ---------- arithmetic of the counters ----------

  lemma {:induction false} SlotIsMod(j: nat, order: nat)
    ensures SlotOf(j, order) == j % Pow2(order) < Pow2(order)
  {
    var m := Pow2(order);
    DivMod(j, m);
    if j < m {
      ModIs(j, m, 0, j);
    } else {
      SlotIsMod(j - m, order);
      DivMod(j - m, m);
      ModIs(j, m, (j - m) / m + 1, (j - m) % m);
    }
  }

  /** Fewer than `size` apart, two counters never share a slot. */
  lemma {:induction false} SlotsApart(a: nat, b: nat, order: nat)
    requires a < b < a + Pow2(order)
    ensures SlotOf(a, order) != SlotOf(b, order)
  {
    if Pow2(order) <= a {
      SlotsApart(a - Pow2(order), b - Pow2(order), order);
    } else if Pow2(order) <= b {
      SlotIsMod(b - Pow2(order), order);
    }
  }

  /** The masked 32-bit counter points at the slot of the unbounded one. */
  lemma MaskedIsSlot(n: nat, order: nat)
    requires order <= 32
    ensures Masked(n % WORD, order) == SlotOf(n, order)
  {
    MaskIsMod(n % WORD, order);
    WrapKeepsSlot(n, order);
    SlotIsMod(n, order);
  }

  /** Counters fewer than 2^32 apart are equal when their 32-bit values are. */
  lemma CountExact(h: nat, t: nat)
    requires t <= h < t + WORD
    ensures Sub32(h % WORD, t % WORD) == h - t
  {
    var q, r := t / WORD, t % WORD;
    if r + (h - t) < WORD {
      ModIs(h, WORD, q, r + (h - t));
    } else {
      ModIs(h, WORD, q + 1, r + (h - t) - WORD);
    }
  }

  lemma FreeExact(h: nat, t: nat, mask: nat)
    requires t <= h <= t + mask && mask < WORD
    ensures Sub32((mask + t % WORD) % WORD, h % WORD) == mask - (h - t)
  {
    ModSum(mask, t);
    CountExact(mask + t, h);
  }

  lemma ModSum(a: nat, t: nat)
    ensures (a + t % WORD) % WORD == (a + t) % WORD
  {
  }

  lemma ModNext(n: nat)
    ensures (n % WORD + 1) % WORD == (n + 1) % WORD
  {
  }

  // ---------- the data in the ring ----------

  /** What slot j must hold, for j from the oldest unread counter on. */
  ghost function Expected(s: Ring, j: nat): Option<Data>
    requires |s.store.extracted| <= j
  {
    if j < |s.store.inserted| then
      if j == |s.store.extracted| && s.c.at == CBump then None else Some(s.store.inserted[j])
    else if j == |s.store.inserted| && s.p.at == PBump then Some(s.p.item)
    else None
  }

  ghost predicate SlotsInv(s: Ring)
    requires Sized(s)
  {
    forall j: nat :: |s.store.extracted| <= j < |s.store.extracted| + Size(s) ==>
      SlotOf(j, s.order) < |s.store.slots| && s.store.slots[SlotOf(j, s.order)] == Expected(s, j)
  }

  /** The counters are the lengths of the histories, and the extracted data is a prefix of
      the inserted data. */
  ghost predicate CountInv(s: Ring) {
    && Sized(s)
    && s.store.head == |s.store.inserted| % WORD && s.store.tail == |s.store.extracted| % WORD
    && s.store.extracted <= s.store.inserted && |s.store.inserted| <= |s.store.extracted| + Size(s) - 1
    && (Storing(s) ==> |s.store.inserted| < |s.store.extracted| + Size(s) - 1)
    && (Taking(s) ==> |s.store.extracted| < |s.store.inserted|)
    && (s.c.at == CClear || s.c.at == CBump ==> s.c.ptr == Some(s.store.inserted[|s.store.extracted|]))
  }

  ghost predicate DataInv(s: Ring) {
    CountInv(s) && SlotsInv(s)
  }

  lemma SmallSize(order: nat)
    requires order <= 31
    ensures 1 <= Pow2(order) <= WORD / 2
  {
    Pow2Product(order, 31 - order);
    MulGrows(Pow2(order), Pow2(31 - order));
    Pow2_32();
  }

  /** In every state of a run the counters give the exact number of stored and free elements. */
  lemma Counts(s: Ring)
    requires CountInv(s)
    ensures Count(s) == |s.store.inserted| - |s.store.extracted|
    ensures CountFree(s) == Size(s) - 1 - Count(s)
    ensures Masked(s.store.head, s.order) == SlotOf(|s.store.inserted|, s.order)
    ensures Masked(s.store.tail, s.order) == SlotOf(|s.store.extracted|, s.order)
  {
    SmallSize(s.order);
    CountExact(|s.store.inserted|, |s.store.extracted|);
    FreeExact(|s.store.inserted|, |s.store.extracted|, Size(s) - 1);
    MaskedIsSlot(|s.store.inserted|, s.order);
    MaskedIsSlot(|s.store.extracted|, s.order);
  }

  /** Writing one slot of the window leaves the others. */
  lemma OneSlot(s: Ring, t: Ring, at: nat)
    requires DataInv(s) && Sized(t) && t.order == s.order && t.store.extracted == s.store.extracted
    requires |s.store.extracted| <= at < |s.store.extracted| + Size(s)
    requires t.store.slots == s.store.slots[SlotOf(at, s.order) := Expected(t, at)]
    requires forall j: nat :: |s.store.extracted| <= j && j != at ==> Expected(t, j) == Expected(s, j)
    ensures SlotsInv(t)
  {
    forall j: nat | |t.store.extracted| <= j < |t.store.extracted| + Size(t)
      ensures SlotOf(j, t.order) < |t.store.slots| && t.store.slots[SlotOf(j, t.order)] == Expected(t, j)
    {
      if j < at {
        SlotsApart(j, at, s.order);
      } else if at < j {
        SlotsApart(at, j, s.order);
      }
    }
  }

  /** The producer's write, in terms of the unbounded counter. */
  lemma WriteIs(s: Ring)
    requires DataInv(s) && s.p.at == PWrite
    ensures SlotOf(|s.store.inserted|, s.order) < |s.store.slots|
    ensures ProducerStep(s)
         == s.(store := s.store.(slots := s.store.slots[SlotOf(|s.store.inserted|, s.order) := Some(s.p.item)]),
               p := s.p.(at := PBump))
  {
    Counts(s);
    SlotIsMod(|s.store.inserted|, s.order);
  }

  /** The consumer's read and clear, in terms of the unbounded counter. */
  lemma ReadIs(s: Ring)
    requires DataInv(s) && s.c.at == CRead && Enabled(s, Consume)
    ensures ConsumerStep(s) == s.(c := s.c.(ptr := Some(s.store.inserted[|s.store.extracted|]), at := CClear))
  {
    Counts(s);
    assert s.store.slots[SlotOf(|s.store.extracted|, s.order)] == Expected(s, |s.store.extracted|);
  }

  lemma ClearIs(s: Ring)
    requires DataInv(s) && s.c.at == CClear && Enabled(s, Consume)
    ensures SlotOf(|s.store.extracted|, s.order) < |s.store.slots|
    ensures ConsumerStep(s)
         == s.(store := s.store.(slots := s.store.slots[SlotOf(|s.store.extracted|, s.order) := None]),
               c := s.c.(at := CBump))
  {
    Counts(s);
  }

  lemma WriteKeepsData(s: Ring, t: Ring)
    requires DataInv(s) && s.p.at == PWrite && SlotOf(|s.store.inserted|, s.order) < |s.store.slots|
    requires t == s.(store := s.store.(slots := s.store.slots[SlotOf(|s.store.inserted|, s.order) := Some(s.p.item)]),
                                  p := s.p.(at := PBump))
    ensures DataInv(t)
  {
    OneSlot(s, t, |s.store.inserted|);
  }

  lemma ClearKeepsData(s: Ring, t: Ring)
    requires DataInv(s) && s.c.at == CClear && SlotOf(|s.store.extracted|, s.order) < |s.store.slots|
    requires t == s.(store := s.store.(slots := s.store.slots[SlotOf(|s.store.extracted|, s.order) := None]),
                                  c := s.c.(at := CBump))
    ensures DataInv(t)
  {
    OneSlot(s, t, |s.store.extracted|);
  }

  lemma HeadKeepsData(s: Ring, t: Ring)
    requires DataInv(s) && s.p.at == PBump && !Storing(t)
    requires t == s.(store := s.store.(head := (s.store.head + 1) % WORD, inserted := s.store.inserted + [s.p.item]),
                    p := s.p.(at := t.p.at))
    ensures DataInv(t)
  {
    ModNext(|s.store.inserted|);
    assert forall j: nat :: |s.store.extracted| <= j ==> Expected(t, j) == Expected(s, j);
  }

  /** Moving the tail past a cleared slot: the slot becomes the last of the window. */
  lemma TailKeepsData(s: Ring, t: Ring)
    requires DataInv(s) && s.c.at == CBump && s.c.ptr.Some?
    requires t == s.(store := s.store.(tail := (s.store.tail + 1) % WORD,
                                       extracted := s.store.extracted + [s.c.ptr.value]),
                    c := s.c.(at := CIdle))
    ensures DataInv(t)
  {
    ModNext(|s.store.extracted|);
    var e := |s.store.extracted|;
    assert Expected(s, e) == None;
    forall j: nat | |t.store.extracted| <= j < |t.store.extracted| + Size(t)
      ensures SlotOf(j, t.order) < |t.store.slots| && t.store.slots[SlotOf(j, t.order)] == Expected(t, j)
    {
      if j == e + Size(s) {
        assert SlotOf(j, s.order) == SlotOf(e, s.order);
      } else {
        assert Expected(t, j) == Expected(s, j);
      }
    }
  }

  /** Steps that touch neither slots nor counters. */
  ghost predicate SameData(s: Ring, t: Ring) {
    && t.order == s.order && t.store == s.store
    && (s.p.at == PBump <==> t.p.at == PBump) && (s.p.at == PBump ==> t.p.item == s.p.item)
    && (t.p.at == PWrite && s.p.at != PWrite ==> |s.store.inserted| < |s.store.extracted| + Size(s) - 1)
    && (s.c.at == CBump <==> t.c.at == CBump) && (s.c.at == CBump ==> t.c.ptr == s.c.ptr)
    && (t.c.at == CRead ==> |s.store.extracted| < |s.store.inserted|)
    && (t.c.at == CClear ==>
          |s.store.extracted| < |s.store.inserted| && t.c.ptr == Some(s.store.inserted[|s.store.extracted|]))
  }

  lemma QuietKeepsData(s: Ring, t: Ring)
    requires DataInv(s) && SameData(s, t)
    ensures DataInv(t)
  {
    assert forall j: nat :: |s.store.extracted| <= j ==> Expected(t, j) == Expected(s, j);
  }

  lemma NotifyIsQuiet(s: Ring)
    requires !Storing(s)
    ensures var t := NotifyStep(s);
            && t.order == s.order && t.store == s.store && !Storing(t)
            && t.c == s.c.(signalled := t.c.signalled)
  {
  }

  lemma WaitIsQuiet(s: Ring)
    requires Sized(s)
    ensures var t := WaitStep(s); t.order == s.order && t.store == s.store && t.p == s.p
  {
  }

  lemma WaitEndsWithData(s: Ring)
    requires Sized(s)
    ensures var at := WaitStep(s).c.at; at != CClear && at != CBump && (at == CRead ==> Count(s) > 0)
  {
    WaitingEnds(s, Count(s) == 0);
  }

  lemma WaitingEnds(s: Ring, none: bool)
    ensures var at := Waiting(s, none).c.at; at != CClear && at != CBump && (at == CRead ==> !none)
  {
    assert Waiting(s, none).c.at == After(s, none);
  }

  lemma BumpIs(s: Ring)
    requires Enabled(s, Produce) && s.p.at == PBump
    ensures var t := ProducerStep(s);
            t == s.(store := s.store.(head := (s.store.head + 1) % WORD, inserted := s.store.inserted + [s.p.item]),
                    p := s.p.(at := t.p.at)) && !Storing(t)
  {
  }

  lemma ProducerKeepsData(s: Ring)
    requires DataInv(s) && Enabled(s, Produce)
    ensures DataInv(ProducerStep(s))
  {
    if s.p.at == PWrite {
      WriteIs(s);
      WriteKeepsData(s, ProducerStep(s));
    } else if s.p.at == PBump {
      BumpIs(s);
      HeadKeepsData(s, ProducerStep(s));
    } else {
      NotifyIsQuiet(s);
      QuietKeepsData(s, ProducerStep(s));
    }
  }

  lemma ReadingKeepsData(s: Ring)
    requires DataInv(s) && Enabled(s, Consume) && Taking(s)
    ensures DataInv(ConsumerStep(s))
  {
    if s.c.at == CRead {
      ReadIs(s);
      QuietKeepsData(s, ConsumerStep(s));
    } else if s.c.at == CClear {
      ClearIs(s);
      ClearKeepsData(s, ConsumerStep(s));
    } else {
      TailKeepsData(s, ConsumerStep(s));
    }
  }

  lemma ConsumerKeepsData(s: Ring)
    requires DataInv(s) && Enabled(s, Consume)
    ensures DataInv(ConsumerStep(s))
  {
    if Taking(s) {
      ReadingKeepsData(s);
    } else {
      Counts(s);
      WaitIsQuiet(s);
      WaitEndsWithData(s);
      QuietKeepsData(s, ConsumerStep(s));
    }
  }

  lemma StepKeepsData(s: Ring, a: Action)
    requires DataInv(s) && Enabled(s, a)
    ensures DataInv(Next(s, a))
  {
    match a
    case Produce => ProducerKeepsData(s);
    case Consume => ConsumerKeepsData(s);
    case Insert(_) =>
      Counts(s);
      QuietKeepsData(s, Next(s, a));
    case _ => QuietKeepsData(s, Next(s, a));
  }

  /** The producer never overwrites an element that was not extracted yet, and the consumer
      never reads an empty slot and clears only the slot of the element it holds. */
  lemma NoOverwrite(s: Ring)
    requires DataInv(s)
    ensures s.p.at == PWrite ==>
              Masked(s.store.head, s.order) < |s.store.slots| && s.store.slots[Masked(s.store.head, s.order)] == None
    ensures s.c.at == CRead || s.c.at == CClear ==>
              && Masked(s.store.tail, s.order) < |s.store.slots|
              && s.store.slots[Masked(s.store.tail, s.order)] == Some(s.store.inserted[|s.store.extracted|])
    ensures s.c.at == CClear ==> s.c.ptr == Some(s.store.inserted[|s.store.extracted|])
  {
    Counts(s);
    assert s.store.slots[SlotOf(|s.store.inserted|, s.order)] == Expected(s, |s.store.inserted|);
    assert s.store.slots[SlotOf(|s.store.extracted|, s.order)] == Expected(s, |s.store.extracted|);
  }

  // ---------- sleeping and waking ----------

  predicate Notifying(s: Ring) { s.p.at == PLock || s.p.at == PNotify }

  predicate Empty(s: Ring) { |s.store.inserted| == |s.store.extracted| }

  /** The consumer is past its test for an empty ring. */
  predicate Awake(s: Ring) {
    s.blocking && (s.c.at == CRelock || s.c.at == CUnlock || s.c.at == CLook)
  }

  ghost predicate LockInv(s: Ring) {
    && (s.lock == Producer <==> s.p.at == PNotify || s.p.at == PUnlock)
    && (s.lock == Consumer <==> s.c.at == CRecheck || s.c.at == CUnlock)
    && (s.c.at == CRecheck || s.c.at == CSleep || s.c.at == CLock || s.c.at == CRelock || s.c.at == CUnlock ==>
          s.blocking)
    && (s.p.at == PLock || s.p.at == PNotify || s.p.at == PUnlock ==> s.blocking)
    && s.waiters >= 0 && (s.c.timedOut ==> s.c.timed)
  }

  /** A sleeper without a signal has announced itself, and if there is data the insert that
      brought it is still going to signal. */
  ghost predicate NoLostWakeup(s: Ring) {
    s.c.at == CSleep && !s.c.signalled ==> s.waiters > 0 && (!Empty(s) ==> Notifying(s))
  }

  /** When a wake finds data: always, unless it was spurious, timed out, or signalled by an
      insert whose element was extracted before the consumer fell asleep. */
  ghost predicate WakeInv(s: Ring) {
    && (s.c.at == CSleep && !s.c.signalled ==>
          (s.c.late ==> Notifying(s)) && (Notifying(s) ==> (s.c.late <==> Empty(s))))
    && (s.c.at == CSleep && s.c.signalled ==> s.c.late || !Empty(s))
    && (Awake(s) && !s.c.spurious && !s.c.late && !s.c.timedOut ==> !Empty(s))
  }

  ghost predicate SleepInv(s: Ring) {
    LockInv(s) && NoLostWakeup(s) && WakeInv(s)
  }

  lemma EmptyCount(s: Ring)
    requires CountInv(s)
    ensures Count(s) == 0 <==> Empty(s)
  {
    Counts(s);
  }

  lemma NotifyKeepsSleep(s: Ring)
    requires SleepInv(s) && !Storing(s) && s.p.at != PIdle && (s.p.at == PLock ==> s.lock == Nobody)
    ensures SleepInv(NotifyStep(s))
  {
  }

  lemma StoreKeepsSleep(s: Ring)
    requires CountInv(s) && SleepInv(s) && Storing(s)
    ensures SleepInv(StoreStep(s))
  {
  }

  lemma WaitKeepsLock(s: Ring)
    requires Sized(s) && LockInv(s) && !Taking(s) && s.c.at != CIdle
    requires s.c.at == CLock || s.c.at == CRelock ==> s.lock == Nobody
    ensures LockInv(WaitStep(s))
  {
  }

  lemma WaitKeepsWake(s: Ring)
    requires Sized(s) && SleepInv(s) && !Taking(s) && s.c.at != CIdle && (Count(s) == 0 <==> Empty(s))
    requires s.c.at == CSleep ==> s.c.signalled
    ensures NoLostWakeup(WaitStep(s)) && WakeInv(WaitStep(s))
  {
  }

  lemma TakeKeepsSleep(s: Ring)
    requires SleepInv(s) && Enabled(s, Consume) && Taking(s)
    ensures SleepInv(TakeStep(s))
  {
  }

  lemma StepKeepsSleep(s: Ring, a: Action)
    requires DataInv(s) && SleepInv(s) && Enabled(s, a)
    ensures SleepInv(Next(s, a))
  {
    match a
    case Produce =>
      if Storing(s) {
        StoreKeepsSleep(s);
      } else {
        NotifyKeepsSleep(s);
      }
    case Consume =>
      if Taking(s) {
        TakeKeepsSleep(s);
      } else {
        EmptyCount(s);
        WaitKeepsLock(s);
        WaitKeepsWake(s);
      }
    case _ =>
  }

  // ---------- whole runs ----------

  ghost predicate StepAt(run: seq<Ring>, acts: seq<Action>, i: nat)
    requires i < |acts| && |run| == |acts| + 1
  {
    Enabled(run[i], acts[i]) && run[i + 1] == Next(run[i], acts[i])
  }

  ghost predicate IsRun(run: seq<Ring>, acts: seq<Action>) {
    && |run| == |acts| + 1 && Init(run[0])
    && forall i: nat :: i < |acts| ==> StepAt(run, acts, i)
  }

  lemma InitKeeps(s: Ring)
    requires Init(s)
    ensures DataInv(s) && SleepInv(s)
  {
    SmallSize(s.order);
    forall j: nat | j < Size(s)
      ensures SlotOf(j, s.order) < |s.store.slots|
    {
      SlotIsMod(j, s.order);
    }
  }

  lemma {:induction false} RunKeepsInv(run: seq<Ring>, acts: seq<Action>, i: nat)
    requires IsRun(run, acts) && i < |run|
    ensures DataInv(run[i]) && SleepInv(run[i])
    decreases i
  {
    if i == 0 {
      InitKeeps(run[0]);
    } else {
      RunKeepsInv(run, acts, i - 1);
      assert StepAt(run, acts, i - 1);
      StepKeepsData(run[i - 1], acts[i - 1]);
      StepKeepsSleep(run[i - 1], acts[i - 1]);
    }
  }

  /** Whatever the interleaving and however often the counters wrap: the data comes out in the
      order it went in, nothing twice and nothing lost, and at most size - 1 elements wait. */
  lemma FirstInFirstOut(run: seq<Ring>, acts: seq<Action>, i: nat)
    requires IsRun(run, acts) && i < |run|
    ensures run[i].store.extracted <= run[i].store.inserted
    ensures Sized(run[i]) && Count(run[i]) == |run[i].store.inserted| - |run[i].store.extracted| <= Size(run[i]) - 1
    ensures CountFree(run[i]) == Size(run[i]) - 1 - Count(run[i])
  {
    RunKeepsInv(run, acts, i);
    Counts(run[i]);
  }

  /** No wakeup is lost: a consumer asleep beside data is signalled, at the latest by the next
      two steps of the insert that is still running, and those steps are not blocked. */
  lemma SleeperIsSignalled(run: seq<Ring>, acts: seq<Action>, i: nat)
    requires IsRun(run, acts) && i < |run|
    requires run[i].c.at == CSleep && |run[i].store.extracted| < |run[i].store.inserted| && !run[i].c.signalled
    ensures Enabled(run[i], Produce)
    ensures var t := ProducerStep(run[i]);
            t.c.signalled || (Enabled(t, Produce) && ProducerStep(t).c.signalled)
  {
    RunKeepsInv(run, acts, i);
  }

  /** The call has gone past its test for an empty ring and not looked again yet. */
  predicate Waited(at: ConsumerAt) {
    at == CSleep || at == CRelock || at == CUnlock || at == CLook
  }

  ghost predicate WaitedSince(run: seq<Ring>, i: nat, j: nat)
    requires j < |run|
  {
    forall k: nat :: i < k <= j ==> Waited(run[k].c.at)
  }

  /** The call that is about to look at moment j fell asleep in step i. */
  ghost predicate SleptAt(run: seq<Ring>, acts: seq<Action>, i: nat, j: nat)
    requires j < |run|
  {
    && i < j && i < |acts| && acts[i] == Consume
    && run[i].c.at == CRecheck && run[i + 1].c.at == CSleep && WaitedSince(run, i, j)
  }

  /** Nothing was inserted since the call fell asleep in step i. */
  ghost predicate SleptInVain(run: seq<Ring>, acts: seq<Action>, i: nat, j: nat)
    requires j < |run|
  {
    SleptAt(run, acts, i, j) && run[j].store.inserted == run[i].store.inserted
  }

  /** While the call waits nothing is extracted. */
  lemma WaitStepData(s: Ring, a: Action)
    requires Enabled(s, a) && (Waited(s.c.at) || s.c.at == CRecheck)
    ensures Next(s, a).store.extracted == s.store.extracted && s.store.inserted <= Next(s, a).store.inserted
    ensures Next(s, a).blocking == s.blocking
  {
  }

  lemma {:induction false} WaitKeepsData(run: seq<Ring>, acts: seq<Action>, i: nat, j: nat)
    requires IsRun(run, acts) && j < |run| && SleptAt(run, acts, i, j)
    ensures run[j].store.extracted == run[i].store.extracted && run[i].store.inserted <= run[j].store.inserted
    decreases j
  {
    if i + 1 < j {
      assert Waited(run[j - 1].c.at);
      WaitKeepsData(run, acts, i, j - 1);
    }
    assert StepAt(run, acts, j - 1);
    WaitStepData(run[j - 1], acts[j - 1]);
  }

  /** A sleeper finds the ring empty exactly when nothing was inserted since. */
  lemma SleeperFindsEmptyIff(run: seq<Ring>, acts: seq<Action>, i: nat, j: nat)
    requires IsRun(run, acts) && j < |run| && SleptAt(run, acts, i, j)
    ensures Empty(run[j]) <==> run[j].store.inserted == run[i].store.inserted
  {
    WaitKeepsData(run, acts, i, j);
    RunKeepsInv(run, acts, i);
    assert StepAt(run, acts, i);
    EmptyCount(run[i]);
  }

  /** Data that is there while the call waits stays there. */
  lemma DataStays(s: Ring, a: Action)
    requires CountInv(s) && Enabled(s, a) && Waited(s.c.at) && !Empty(s)
    ensures !Empty(Next(s, a))
  {
    WaitStepData(s, a);
  }

  lemma EntersWait(s: Ring, a: Action)
    requires CountInv(s) && Enabled(s, a) && Next(s, a).blocking && !Waited(s.c.at) && Waited(Next(s, a).c.at)
    ensures (a == Consume && s.c.at == CRecheck && Next(s, a).c.at == CSleep) || !Empty(Next(s, a))
  {
    EmptyCount(s);
  }

  /** A blocking call about to look has slept, or there is data. */
  lemma {:induction false} SleptOrData(run: seq<Ring>, acts: seq<Action>, j: nat)
    requires IsRun(run, acts) && j < |run| && run[j].blocking && Waited(run[j].c.at)
    ensures !Empty(run[j]) || exists i: nat :: SleptAt(run, acts, i, j)
    decreases j
  {
    if j > 0 {
      SleptOrDataStep(run, acts, j - 1);
      if Waited(run[j - 1].c.at) {
        SleptOrData(run, acts, j - 1);
        if Empty(run[j - 1]) {
          var i: nat :| SleptAt(run, acts, i, j - 1);
          assert SleptAt(run, acts, i, j);
        }
      } else if Empty(run[j]) {
        assert SleptAt(run, acts, j - 1, j);
      }
    }
  }

  lemma SleptOrDataStep(run: seq<Ring>, acts: seq<Action>, j: nat)
    requires IsRun(run, acts) && j < |acts| && run[j + 1].blocking && Waited(run[j + 1].c.at)
    ensures Waited(run[j].c.at) ==> run[j].blocking && (Empty(run[j + 1]) ==> Empty(run[j]))
    ensures !Waited(run[j].c.at) && Empty(run[j + 1]) ==>
              acts[j] == Consume && run[j].c.at == CRecheck && run[j + 1].c.at == CSleep
  {
    assert StepAt(run, acts, j);
    RunKeepsInv(run, acts, j);
    if !Waited(run[j].c.at) {
      EntersWait(run[j], acts[j]);
    } else {
      WaitStepData(run[j], acts[j]);
      if !Empty(run[j]) {
        DataStays(run[j], acts[j]);
      }
    }
  }

  /** A blocking extract that looks for an element returns NULL if and only if it had gone to
      sleep and nothing was inserted between that and the look. The only other NULL is that of
      a call whose timeout has passed. */
  lemma ReturnsNullIff(run: seq<Ring>, acts: seq<Action>, j: nat)
    requires IsRun(run, acts) && j < |acts| && acts[j] == Consume && run[j].blocking
    ensures run[j].c.at == CLook ==>
              (run[j + 1].c.at == CIdle <==> exists i: nat :: SleptInVain(run, acts, i, j))
    ensures run[j].c.at != CLook && run[j].c.at != CBump && run[j + 1].c.at == CIdle ==>
              run[j].c.timed && run[j].c.timedOut
  {
    assert StepAt(run, acts, j);
    RunKeepsInv(run, acts, j);
    EmptyCount(run[j]);
    if run[j].c.at == CLook {
      SleptOrData(run, acts, j);
      forall i: nat | SleptAt(run, acts, i, j) ensures Empty(run[j]) <==> SleptInVain(run, acts, i, j) {
        SleeperFindsEmptyIff(run, acts, i, j);
      }
    }
  }

  /** A blocking extract without timeout gives up only after a spurious wake, or when it fell
      asleep while an insert still owed a signal for an element already extracted. */
  lemma GivesUpOnly(run: seq<Ring>, acts: seq<Action>, i: nat)
    requires IsRun(run, acts) && i < |acts| && acts[i] == Consume
    requires run[i].blocking && !run[i].c.timed && run[i].c.at != CBump && run[i].c.at != CIdle
    requires run[i + 1].c.at == CIdle
    ensures run[i].c.spurious || run[i].c.late
  {
    RunKeepsInv(run, acts, i);
    assert StepAt(run, acts, i);
    EmptyCount(run[i]);
  }

  /** A signal reaches the sleeper, and finds the ring empty exactly when the consumer had
      fallen asleep between that insert's head update and its signal. */
  lemma SignalFindsDataIff(run: seq<Ring>, acts: seq<Action>, i: nat)
    requires IsRun(run, acts) && i < |acts| && acts[i] == Produce
    requires run[i].p.at == PNotify && run[i].c.at == CSleep && !run[i].c.signalled
    ensures run[i + 1].c.signalled
    ensures Empty(run[i + 1]) <==> run[i].c.late
  {
    RunKeepsInv(run, acts, i);
    assert StepAt(run, acts, i);
  }

  // ---------- a blocking extract that returns NULL although nobody misbehaved ----------

  ghost predicate Reachable(s: Ring) {
    exists run: seq<Ring>, acts: seq<Action> :: IsRun(run, acts) && run[|acts|] == s
  }

  lemma ReachableInv(s: Ring)
    requires Reachable(s)
    ensures DataInv(s) && SleepInv(s)
  {
    var run: seq<Ring>, acts: seq<Action> :| IsRun(run, acts) && run[|acts|] == s;
    RunKeepsInv(run, acts, |acts|);
  }

  lemma ReachableNext(s: Ring, a: Action) returns (t: Ring)
    requires Reachable(s) && Enabled(s, a)
    ensures t == Next(s, a) && Reachable(t) && DataInv(t)
  {
    var run: seq<Ring>, acts: seq<Action> :| IsRun(run, acts) && run[|acts|] == s;
    t := Next(s, a);
    var run', acts' := run + [t], acts + [a];
    forall i: nat | i < |acts'|
      ensures StepAt(run', acts', i)
    {
      assert i < |acts| ==> StepAt(run, acts, i);
    }
    assert IsRun(run', acts') && run'[|acts'|] == t;
    ReachableInv(t);
  }

  /** An element is stored and its insert stops before taking cond_lock. */
  lemma StoreOne(s: Ring, d: Data) returns (t: Ring)
    requires Init(s) && s.blocking
    ensures Reachable(t) && t.blocking && t.lock == Nobody && t.p.at == PLock && t.c.at == CIdle
    ensures |t.store.inserted| == 1 && t.store.extracted == []
  {
    var none: seq<Action> := [];
    assert IsRun([s], none) && [s][|none|] == s;
    InitKeeps(s);
    Counts(s);
    SmallSize(s.order);
    assert Size(s) > 1;
    t := ReachableNext(s, Insert(d));
    WriteIs(t);
    t := ReachableNext(t, Produce);
    t := ReachableNext(t, Produce);
  }

  /** A first call finds the element and takes it. */
  lemma FindOne(s: Ring) returns (t: Ring)
    requires Reachable(s) && s.c.at == CIdle && |s.store.inserted| == 1 && s.store.extracted == []
    ensures Reachable(t) && t.c.at == CRead
    ensures t == s.(c := t.c)
  {
    ReachableInv(s);
    t := ReachableNext(s, Extract(false));
    Counts(t);
    t := ReachableNext(t, Consume);
    t := ReachableNext(t, Consume);
  }

  lemma TakeOne(s: Ring) returns (t: Ring)
    requires Reachable(s) && s.c.at == CRead
    ensures Reachable(t) && t.c.at == CIdle && |t.store.extracted| == |s.store.extracted| + 1
    ensures t == s.(store := t.store, c := t.c) && t.store.inserted == s.store.inserted
  {
    ReachableInv(s);
    Counts(s);
    SlotIsMod(|s.store.extracted|, s.order);
    ReadIs(s);
    t := ReachableNext(s, Consume);
    ClearIs(t);
    t := ReachableNext(t, Consume);
    t := ReachableNext(t, Consume);
  }

  /** A second call finds the ring empty and goes to sleep. */
  lemma FallAsleep(s: Ring) returns (t: Ring)
    requires Reachable(s) && s.c.at == CIdle && Empty(s) && s.blocking && s.lock == Nobody
    ensures Reachable(t) && t.c.at == CSleep && Empty(t) && t.lock == Nobody && t.waiters > 0
    ensures t.blocking && t.p == s.p && !t.c.timed && !t.c.timedOut && !t.c.spurious
  {
    ReachableInv(s);
    t := ReachableNext(s, Extract(false));
    EmptyCount(t);
    t := ReachableNext(t, Consume);
    t := ReachableNext(t, Consume);
    EmptyCount(t);
    ReachableInv(t);
    t := ReachableNext(t, Consume);
  }

  /** The owed signal arrives, and the consumer wakes up beside an empty ring. */
  lemma WakeUp(s: Ring) returns (t: Ring)
    requires Reachable(s) && s.p.at == PLock && s.lock == Nobody && s.c.at == CSleep && s.waiters > 0 && Empty(s)
    requires !s.c.timedOut
    ensures Reachable(t) && t.c.at == CLook && Empty(t) && t.blocking == s.blocking
    ensures t.c == s.c.(at := CLook, signalled := true)
  {
    t := Signals(s);
    t := ReachableNext(t, Consume);
    t := ReachableNext(t, Consume);
    t := ReachableNext(t, Consume);
  }

  lemma Signals(s: Ring) returns (t: Ring)
    requires Reachable(s) && s.p.at == PLock && s.lock == Nobody && s.c.at == CSleep && s.waiters > 0
    ensures Reachable(t) && Sized(t) && t.lock == Nobody && t.store == s.store && t.blocking == s.blocking
    ensures t.c == s.c.(signalled := true)
  {
    ReachableInv(s);
    t := ReachableNext(s, Produce);
    t := ReachableNext(t, Produce);
    t := ReachableNext(t, Produce);
  }

  /** Without any spurious wake, a blocking extract with no timeout can find the ring empty
      and return NULL: the signal of an insert arrives after its element is gone. */
  lemma LateSignalGivesUp(s: Ring, d: Data) returns (t: Ring)
    requires Init(s) && s.blocking
    ensures Reachable(t) && t.blocking && !t.c.timed && !t.c.spurious
    ensures Enabled(t, Consume) && t.c.at == CLook && Next(t, Consume).c.at == CIdle
  {
    t := StoreOne(s, d);
    t := FindOne(t);
    t := TakeOne(t);
    t := FallAsleep(t);
    t := WakeUp(t);
    ReachableInv(t);
    EmptyCount(t);
  }
}
