/** hashtable.c: one bucket, a doubly linked list of elements. */
module LinkedChain {

  /** A string key as its (signed) characters, or a numeric key. */
  datatype Key = Str(chars: seq<int>) | Num(n: nat)

  // A stored pointer; zero is NULL.
  type Value = int

  datatype Pair = Pair(key: Key, value: Value)

  /** htelem_t. */
  class Elem {
    const key: Key
    var value: Value
    var prev: Elem?
    var next: Elem?

    constructor (key: Key, value: Value, prev: Elem?)
      ensures this.key == key && this.value == value && this.prev == prev && next == null
    {
      this.key, this.value, this.prev, next := key, value, prev, null;
    }
  }

  function At(c: seq<Elem>, i: int): Elem? {
    if 0 <= i < |c| then c[i] else null
  }

  predicate HasKey(b: seq<Pair>, k: Key) {
    exists i :: 0 <= i < |b| && b[i].key == k
  }

  class Chain {
    var head: Elem?
    ghost var list: seq<Elem>
    ghost var elems: set<Elem>
    /** Keys and values, in chain order. */
    ghost var pairs: seq<Pair>

    /** The elements are distinct and all there. */
    ghost predicate Shape()
      reads this
    {
      && |list| == |pairs| && head == At(list, 0)
      && (forall i :: 0 <= i < |list| ==> list[i] in elems && list[i].key == pairs[i].key)
      && (forall i, j :: 0 <= i < j < |list| ==> list[i] != list[j])
    }

    /** Both link directions say the same, and the values are those of the pairs. */
    ghost predicate Valid()
      reads this, elems
    {
      && Shape()
      && (list != [] ==> list[0].prev == null && list[|list| - 1].next == null)
      && (forall i, j :: 0 <= i < j < |list| && j == i + 1 ==> list[i].next == list[j] && list[j].prev == list[i])
      && (forall i :: 0 <= i < |list| ==> list[i].value == pairs[i].value)
    }

    constructor ()
      ensures Valid() && pairs == [] && elems == {}
    {
      head, list, elems, pairs := null, [], {}, [];
    }

    lemma LinkAt(i: nat)
      requires Valid() && i < |list|
      ensures list[i].next == At(list, i + 1) && list[i].prev == At(list, i - 1)
    {
      if i + 1 < |list| {
        assert list[i].next == list[i + 1];
      }
      if i > 0 {
        assert list[i - 1].next == list[i];
      }
    }

    /** The search all operations share: the element with this key, and the one before it. */
    method Locate(k: Key) returns (elem: Elem?, before: Elem?, ghost i: nat)
      requires Valid()
      ensures i <= |list| && elem == At(list, i) && before == At(list, i - 1)
      ensures if elem == null then i == |list| && !HasKey(pairs, k) else i < |list| && pairs[i].key == k
    {
      elem, before, i := head, null, 0;
      while elem != null
        invariant i <= |list| && elem == At(list, i) && before == At(list, i - 1)
        invariant forall j :: 0 <= j < i ==> pairs[j].key != k
        decreases |list| - i
      {
        LinkAt(i);
        if elem.key == k {
          return;
        }
        elem, before, i := elem.next, elem, i + 1;
      }
    }

    method SetValue(elem: Elem, ghost i: nat, v: Value)
      requires Valid() && i < |list| && elem == list[i]
      modifies this`pairs, elems
      ensures Valid() && pairs == old(pairs)[i := Pair(elem.key, v)]
    {
      elem.value := v;
      pairs := pairs[i := Pair(elem.key, v)];
    }

    /** The insertion at the end of the list. */
    method AddLast(k: Key, v: Value, last: Elem?)
      requires Valid() && last == At(list, |list| - 1)
      modifies this, elems
      ensures Valid() && pairs == old(pairs) + [Pair(k, v)] && fresh(elems - old(elems))
    {
      var elem := new Elem(k, v, last);
      if elem.prev == null {
        head := elem;
      } else {
        elem.prev.next := elem;
      }
      list, pairs, elems := list + [elem], pairs + [Pair(k, v)], elems + {elem};
    }

    /** The neighbours of element i are joined. */
    method Bypass(elem: Elem, ghost i: nat)
      requires Valid() && i < |list| && elem == list[i]
      modifies this`head, elems
      ensures head == if i == 0 then At(list, 1) else old(head)
      ensures forall j :: 0 <= j < |list| ==> list[j].value == old(list[j].value)
      ensures forall j :: 0 <= j < |list| ==>
                && list[j].next == (if j == i - 1 then At(list, i + 1) else old(list[j].next))
                && list[j].prev == (if j == i + 1 then At(list, i - 1) else old(list[j].prev))
    {
      LinkAt(i);
      if elem.prev != null {
        elem.prev.next := elem.next;
      } else {
        head := elem.next;
      }
      if elem.next != null {
        elem.next.prev := elem.prev;
      }
    }

    /** The removal of element i. */
    method Unlink(elem: Elem, ghost i: nat)
      requires Valid() && i < |list| && elem == list[i]
      modifies this`head, this`list, this`pairs, elems
      ensures Valid() && pairs == old(pairs)[..i] + old(pairs)[i + 1..]
      ensures list == old(list)[..i] + old(list)[i + 1..]
    {
      Bypass(elem, i);
      list, pairs := list[..i] + list[i + 1..], pairs[..i] + pairs[i + 1..];
    }
  }
}
