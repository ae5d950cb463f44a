/** logring.c: the ring that stores log entries, as an array with masked indexes. */
module LogRing {
  import opened Types
  import opened Bits

  /** The slots hold indexes offset+1, offset+2, ... in order. */
  ghost predicate Numbered(s: seq<Slot>, offset: nat) {
    forall i :: 0 <= i < |s| ==> s[i].index == offset + 1 + i
  }

  function LookupSlot(s: seq<Slot>, offset: nat, i: nat): Option<Slot> {
    if offset < i <= offset + |s| then Some(s[i - offset - 1]) else None
  }

  /** Array position of element i of a ring that starts at `tail`. */
  function Pos(tail: nat, i: nat, size: nat): (p: nat)
    requires tail < size && i <= size
    ensures p < size
  {
    if tail + i < size then tail + i else tail + i - size
  }

  lemma MaskBound(x: nat, k: nat)
    ensures BitAnd(x, Pow2(k) - 1) < Pow2(k)
  {
    MaskIsMod(x, k);
    DivMod(x, Pow2(k));
  }

  /** Masking an index i steps up is wrapping it. */
  lemma MaskUp(tail: nat, i: nat, k: nat)
    requires tail < Pow2(k) && i <= Pow2(k)
    ensures BitAnd(tail + i, Pow2(k) - 1) == Pos(tail, i, Pow2(k))
  {
    MaskIsMod(tail + i, k);
    WrapOnce(tail + i, Pow2(k));
  }

  lemma WrapOnce(x: nat, s: nat)
    requires 0 < s && x < 2 * s
    ensures x % s == if x < s then x else x - s
  {
    if x < s {
      ModIs(x, s, 0, x);
    } else {
      ModIs(x, s, 1, x - s);
    }
  }

  /** Masking head - 1 is stepping one slot back, also when the 32-bit subtraction wraps. */
  lemma MaskDown(head: nat, k: nat)
    requires head < Pow2(k) <= WORD && k <= 32
    ensures BitAnd(Sub32(head, 1), Pow2(k) - 1) == if head == 0 then Pow2(k) - 1 else head - 1
  {
    MaskIsMod(Sub32(head, 1), k);
    if head == 0 {
      LastOfWord(k);
    } else {
      WrapOnce(head - 1, Pow2(k));
    }
  }

  lemma LastOfWord(k: nat)
    requires k <= 32
    ensures (WORD - 1) % Pow2(k) == Pow2(k) - 1
  {
    Pow2Product(k, 32 - k);
    Pow2_32();
    WrapDown(Pow2(k), Pow2(32 - k), Pow2(k) - 1);
  }

  class LogRing {
    var head: nat
    var tail: nat
    const size: nat
    const data: array<Option<Slot>>
    ghost const order: nat
    /** The stored entries, oldest first. */
    ghost var contents: seq<Slot>

    ghost predicate Shape()
      reads this
    {
      && order <= 32 && size == Pow2(order) == data.Length && 1 < size <= WORD
      && tail < size && |contents| < size && head == Pos(tail, |contents|, size)
    }

    /** The live slots hold the contents, and every slot outside them is NULL. */
    ghost predicate Valid()
      reads this, data
    {
      && Shape()
      && (forall i :: 0 <= i < |contents| ==> data[Pos(tail, i, size)] == Some(contents[i]))
      && (forall i :: |contents| <= i < size ==> data[Pos(tail, i, size)] == None)
    }

    constructor (size: nat, ghost order: nat)
      requires order <= 32 && size == Pow2(order) && 1 < size <= WORD
      ensures Valid() && contents == [] && this.size == size && fresh(data)
    {
      this.size, this.order, head, tail, contents := size, order, 0, 0, [];
      data := new Option<Slot>[size](_ => None);
    }

    /** log_ring_create: rejects exactly zero and the sizes from 16 up that are not powers of two. */
    static method Create(size: nat) returns (ring: LogRing?)
      requires size < WORD
      ensures ring != null <==> 0 < size && (size < 16 || IsPow2(size))
      ensures ring != null ==>
                && fresh(ring) && fresh(ring.data) && ring.Valid()
                && ring.contents == [] && ring.size == if size < 16 then 16 else size
    {
      ring := null;
      if size != 0 {
        var n := if size < 16 then 16 else size;
        PowerTest(n);
        if BitAnd(n, n - 1) == 0 {
          ghost var k := SmallPower(n);
          ring := new LogRing(n, k);
        } else {
          assert Pow2(4) == 16;
        }
      }
    }

    /** log_ring_count. */
    method Count() returns (n: nat)
      requires Valid()
      ensures n == |contents|
    {
      CountMask(head, tail, |contents|, order);
      n := BitAnd(Sub32(head, tail), size - 1);
    }

    /** log_ring_insert. */
    method Insert(e: Slot) returns (ok: bool)
      requires Valid()
      modifies this`head, this`contents, data
      ensures Valid()
      ensures ok == (|old(contents)| < size - 1)
      ensures contents == if ok then old(contents) + [e] else old(contents)
    {
      MaskUp(head, 1, order);
      var next := BitAnd(head + 1, size - 1);
      ok := next != tail;
      if ok {
        data[head] := Some(e);
        head := next;
        contents := contents + [e];
      }
    }

    /** log_ring_extract: the oldest entry. */
    method Extract() returns (r: Option<Slot>)
      requires Valid()
      modifies this`tail, this`contents, data
      ensures Valid()
      ensures old(contents) == [] ==> r == None && contents == []
      ensures old(contents) != [] ==> r == Some(old(contents)[0]) && contents == old(contents)[1..]
    {
      r := None;
      if tail != head {
        MaskUp(tail, 1, order);
        assert Pos(tail, 0, size) == tail;
        r := data[tail];
        data[tail] := None;
        ghost var t := tail;
        tail := BitAnd(tail + 1, size - 1);
        contents := contents[1..];
        assert forall i :: 0 <= i < size ==> Pos(tail, i, size) == Pos(t, i + 1, size);
      }
    }

    /** log_ring_extract_r: the newest entry. */
    method ExtractR() returns (r: Option<Slot>)
      requires Valid()
      modifies this`head, this`contents, data
      ensures Valid()
      ensures old(contents) == [] ==> r == None && contents == []
      ensures old(contents) != [] ==>
                && r == Some(old(contents)[|old(contents)| - 1])
                && contents == old(contents)[..|old(contents)| - 1]
    {
      r := None;
      if tail != head {
        MaskDown(head, order);
        head := BitAnd(Sub32(head, 1), size - 1);
        r := data[head];
        data[head] := None;
        contents := contents[..|contents| - 1];
      }
    }

    /** log_ring_get: on consecutively numbered entries, the entry with that log index. */
    method Get(i: nat) returns (r: Option<Slot>)
      requires Valid()
      ensures forall offset :: Numbered(contents, offset) ==> r == LookupSlot(contents, offset, i)
    {
      r := None;
      assert Pos(tail, 0, size) == tail;
      if data[tail].Some? {
        MaskDown(head, order);
        var last := BitAnd(Sub32(head, 1), size - 1);
        assert last == Pos(tail, |contents| - 1, size);
        var tidx, hidx := data[tail].value.index, data[last].value.index;
        if tidx <= i <= hidx {
          MaskBound(tail + (i - tidx), order);
          if i - tidx < |contents| {
            MaskUp(tail, i - tidx, order);
          }
          r := data[BitAnd(tail + (i - tidx), size - 1)];
        }
      }
    }
  }

  lemma CountMask(head: nat, tail: nat, n: nat, k: nat)
    requires k <= 32 && tail < Pow2(k) <= WORD && n < Pow2(k) && head == Pos(tail, n, Pow2(k))
    ensures head < WORD && tail < WORD && BitAnd(Sub32(head, tail), Pow2(k) - 1) == n
  {
    var s := Pow2(k);
    MaskIsMod(Sub32(head, tail), k);
    if head >= tail {
      WrapOnce(n, s);
    } else {
      Pow2Product(k, 32 - k);
      Pow2_32();
      WrapDown(s, Pow2(32 - k), n);
    }
  }

  lemma WrapDown(s: nat, c: nat, n: nat)
    requires s > 0 && c > 0 && n < s
    ensures s * c - s + n >= 0 && (s * c - s + n) % s == n
  {
    assert s * c == s * (c - 1) + s;
    MulGrows(s, c);
    ModIs(s * c - s + n, s, c - 1, n);
  }

  /** The exponent of a power of two below 2^32. */
  lemma SmallPower(n: nat) returns (k: nat)
    requires IsPow2(n) && 16 <= n < WORD
    ensures k <= 32 && n == Pow2(k)
  {
    k :| n == Pow2(k);
    if k > 32 {
      Pow2_32();
      Pow2Product(32, k - 32);
      MulGrows(WORD, Pow2(k - 32));
    }
  }
}
