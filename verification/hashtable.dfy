/** hashtable.c: the table of buckets behaving as a map, and the walk over all keys. */
module HashTable {
  import opened Bits
  import opened LinkedChain

  const WORD64: nat := 0x1_0000_0000_0000_0000

  /** The loop of hash_code, on an unsigned long. */
  function Hash(chars: seq<int>): nat {
    if chars == [] then 7 else (Hash(chars[..|chars| - 1]) * 31 + chars[|chars| - 1]) % WORD64
  }

  /** a % b. */
  function Rem(a: nat, b: nat): (r: nat)
    requires b > 0
    ensures r < b
  {
    if a < b then a else Rem(a - b, b)
  }

  lemma {:induction false} RemIsMod(a: nat, b: nat)
    requires b > 0
    ensures Rem(a, b) == a % b
  {
    if a < b {
      ModIs(a, b, 0, a);
    } else {
      RemIsMod(a - b, b);
      DivMod(a - b, b);
      ModIs(a, b, (a - b) / b + 1, (a - b) % b);
    }
  }

  /** The bucket of a key. */
  function HashCode(k: Key, size: nat): (h: nat)
    requires size > 0
    ensures h < size
  {
    Rem(if k.Str? then Hash(k.chars) else k.n, size)
  }

  /** The string hash as one sum over unbounded integers: 7 * 31^n plus each character times the
      power of 31 that its place gives it. */
  function Polynomial(chars: seq<int>, p: nat): int {
    if chars == [] then 7 * p else Polynomial(chars[..|chars| - 1], 31 * p) + chars[|chars| - 1] * p
  }

  lemma WrapStep(a: int, b: int)
    ensures ((a % WORD64) * 31 + b) % WORD64 == (a * 31 + b) % WORD64
  {
    var q := a / WORD64;
    assert a * 31 + b == ((a % WORD64) * 31 + b) + WORD64 * (31 * q);
    ModShift((a % WORD64) * 31 + b, 31 * q);
  }

  lemma ModShift(x: int, k: int)
    ensures (x + WORD64 * k) % WORD64 == x % WORD64
  {
  }

  lemma {:induction false} PolynomialScales(chars: seq<int>, p: nat)
    ensures Polynomial(chars, 31 * p) == 31 * Polynomial(chars, p)
    decreases |chars|
  {
    if chars != [] {
      PolynomialScales(chars[..|chars| - 1], 31 * p);
    }
  }

  /** Wrapping at 2^64 in every step of the loop is wrapping once at the end. */
  lemma {:induction false} HashIsPolynomial(chars: seq<int>)
    ensures Hash(chars) == Polynomial(chars, 1) % WORD64
    decreases |chars|
  {
    if chars != [] {
      var init, c := chars[..|chars| - 1], chars[|chars| - 1];
      HashIsPolynomial(init);
      PolynomialScales(init, 1);
      WrapStep(Polynomial(init, 1), c);
    }
  }

  method ComputeHash(k: Key, size: nat) returns (h: nat)
    requires size > 0
    ensures h == HashCode(k, size)
    ensures h == (if k.Str? then Polynomial(k.chars, 1) % WORD64 else k.n) % size
  {
    match k
    case Num(n) =>
      RemIsMod(n, size);
      h := n % size;
    case Str(chars) =>
      var hash: nat := 7;
      for i := 0 to |chars|
        invariant hash == Hash(chars[..i])
      {
        assert chars[..i + 1][..i] == chars[..i];
        hash := (hash * 31 + chars[i]) % WORD64;
      }
      assert chars[..|chars|] == chars;
      HashIsPolynomial(chars);
      RemIsMod(hash, size);
      h := hash % size;
  }

  /** A chain holds the keys of the map that hash to h, each once, with their values. */
  ghost predicate Holds(b: seq<Pair>, h: nat, size: nat, m: map<Key, Value>)
    requires size > 0
  {
    && (forall i :: 0 <= i < |b| ==>
          HashCode(b[i].key, size) == h && b[i].key in m && m[b[i].key] == b[i].value)
    && (forall i, j :: 0 <= i < j < |b| ==> b[i].key != b[j].key)
    && (forall k :: k in m && HashCode(k, size) == h ==> HasKey(b, k))
  }

  lemma AppendHolds(b: seq<Pair>, h: nat, size: nat, m: map<Key, Value>, k: Key, v: Value)
    requires size > 0 && HashCode(k, size) == h && Holds(b, h, size, m) && !HasKey(b, k)
    ensures Holds(b + [Pair(k, v)], h, size, m[k := v])
  {
    var c := b + [Pair(k, v)];
    forall x | x in m[k := v] && HashCode(x, size) == h
      ensures HasKey(c, x)
    {
      if x == k {
        assert c[|b|].key == k;
      } else {
        var i :| 0 <= i < |b| && b[i].key == x;
        assert c[i].key == x;
      }
    }
  }

  lemma ReplaceHolds(b: seq<Pair>, i: nat, h: nat, size: nat, m: map<Key, Value>, v: Value)
    requires size > 0 && Holds(b, h, size, m) && i < |b|
    ensures Holds(b[i := b[i].(value := v)], h, size, m[b[i].key := v])
  {
    var c := b[i := b[i].(value := v)];
    forall x | x in m[b[i].key := v] && HashCode(x, size) == h
      ensures HasKey(c, x)
    {
      var j :| 0 <= j < |b| && b[j].key == x;
      assert c[j].key == x;
    }
  }

  lemma RemoveHolds(b: seq<Pair>, i: nat, h: nat, size: nat, m: map<Key, Value>)
    requires size > 0 && Holds(b, h, size, m) && i < |b|
    ensures Holds(b[..i] + b[i + 1..], h, size, m - {b[i].key})
  {
    var c := b[..i] + b[i + 1..];
    forall x | x in m - {b[i].key} && HashCode(x, size) == h
      ensures HasKey(c, x)
    {
      var j :| 0 <= j < |b| && b[j].key == x;
      assert c[if j < i then j else j - 1].key == x;
    }
  }

  ghost predicate SameBut(m: map<Key, Value>, n: map<Key, Value>, k: Key) {
    forall x :: x != k ==> (x in m <==> x in n) && (x in m ==> m[x] == n[x])
  }

  /** A change to one key leaves the other chains alone. */
  lemma OthersHold(b: seq<Pair>, h: nat, size: nat, m: map<Key, Value>, n: map<Key, Value>, k: Key)
    requires size > 0 && Holds(b, h, size, m) && HashCode(k, size) != h && SameBut(m, n, k)
    ensures Holds(b, h, size, n)
  {
  }

  class Table {
    const size: nat
    const buckets: seq<Chain>
    ghost var contents: map<Key, Value>
    ghost var repr: set<object>

    /** The buckets are separate lists. */
    ghost predicate Apart()
      reads this, buckets
    {
      && size > 0 && |buckets| == size
      && (forall h :: 0 <= h < size ==> buckets[h] in repr && buckets[h].elems <= repr && this !in repr)
      && (forall g, h :: 0 <= g < h < size ==> buckets[g] != buckets[h] && buckets[g].elems !! buckets[h].elems)
    }

    ghost predicate Valid()
      reads this, buckets, repr
    {
      && Apart()
      && forall h :: 0 <= h < size ==> buckets[h].Valid() && Holds(buckets[h].pairs, h, size, contents)
    }

    /** Every bucket but h is in order. */
    ghost predicate Rest(h: nat)
      reads this, buckets, repr
      requires Apart()
    {
      forall g :: 0 <= g < size && g != h ==> buckets[g].Valid() && Holds(buckets[g].pairs, g, size, contents)
    }

    /** The bucket of a key, and the search in it. */
    method Search(k: Key) returns (h: nat, elem: Elem?, before: Elem?, ghost i: nat)
      requires Valid()
      ensures h == HashCode(k, size) < size && (elem != null <==> k in contents)
      ensures elem == null ==> before == At(buckets[h].list, |buckets[h].list| - 1) && !HasKey(buckets[h].pairs, k)
      ensures elem != null ==>
                && i < |buckets[h].list| && elem == buckets[h].list[i] && elem.key == k
                && elem.value == contents[k]
    {
      h := ComputeHash(k, size);
      elem, before, i := buckets[h].Locate(k);
    }

    /** hashtable_get. */
    method Get(k: Key) returns (v: Value)
      requires Valid()
      ensures v == if k in contents then contents[k] else 0
    {
      var h, elem, _, i := Search(k);
      v := if elem != null then elem.value else 0;
    }

    /** Everything about the other buckets is as it was, so a bucket brought up to date for a
        change to key k makes the table whole again. */
    ghost method Settle(h: nat, k: Key, m: map<Key, Value>)
      requires Apart() && h == HashCode(k, size) && SameBut(contents, m, k)
      requires buckets[h].Valid() && Holds(buckets[h].pairs, h, size, m) && Rest(h)
      modifies this`contents
      ensures Valid() && contents == m
    {
      forall g | 0 <= g < size && g != h ensures Holds(buckets[g].pairs, g, size, m) {
        OthersHold(buckets[g].pairs, g, size, contents, m, k);
      }
      contents := m;
    }

    method SetIn(h: nat, elem: Elem, ghost i: nat, v: Value)
      requires Valid() && h < size && i < |buckets[h].list| && elem == buckets[h].list[i]
      modifies repr
      ensures Apart() && Rest(h) && buckets[h].Valid()
      ensures buckets[h].pairs == old(buckets[h].pairs)[i := Pair(elem.key, v)]
    {
      buckets[h].SetValue(elem, i, v);
    }

    method AddIn(h: nat, k: Key, v: Value, last: Elem?)
      requires Valid() && h < size && last == At(buckets[h].list, |buckets[h].list| - 1)
      modifies this`repr, repr
      ensures Apart() && Rest(h) && buckets[h].Valid() && fresh(repr - old(repr))
      ensures buckets[h].pairs == old(buckets[h].pairs) + [Pair(k, v)]
    {
      buckets[h].AddLast(k, v, last);
      repr := repr + buckets[h].elems;
    }

    method UnlinkIn(h: nat, elem: Elem, ghost i: nat)
      requires Valid() && h < size && i < |buckets[h].list| && elem == buckets[h].list[i]
      modifies repr
      ensures Apart() && Rest(h) && buckets[h].Valid()
      ensures buckets[h].list == old(buckets[h].list)[..i] + old(buckets[h].list)[i + 1..]
      ensures buckets[h].pairs == old(buckets[h].pairs)[..i] + old(buckets[h].pairs)[i + 1..]
      ensures forall g :: 0 <= g < size && g != h ==>
                buckets[g].list == old(buckets[g].list) && buckets[g].pairs == old(buckets[g].pairs)
    {
      buckets[h].Unlink(elem, i);
    }

    /** The value of a key that is there already. */
    method Replace(h: nat, elem: Elem, ghost i: nat, v: Value)
      requires Valid() && h < size && i < |buckets[h].list| && elem == buckets[h].list[i]
      modifies this`contents, repr
      ensures Valid() && contents == old(contents)[elem.key := v]
    {
      var chain := buckets[h];
      assert HashCode(chain.pairs[i].key, size) == h;
      ReplaceHolds(chain.pairs, i, h, size, contents, v);
      SetIn(h, elem, i, v);
      Settle(h, elem.key, contents[elem.key := v]);
    }

    /** A new key, at the end of its bucket. */
    method Append(h: nat, k: Key, v: Value, last: Elem?)
      requires Valid() && h == HashCode(k, size) && !HasKey(buckets[h].pairs, k)
      requires last == At(buckets[h].list, |buckets[h].list| - 1)
      modifies this`contents, this`repr, repr
      ensures Valid() && contents == old(contents)[k := v] && fresh(repr - old(repr))
    {
      var chain := buckets[h];
      AppendHolds(chain.pairs, h, size, contents, k, v);
      AddIn(h, k, v, last);
      Settle(h, k, contents[k := v]);
    }

    /** hashtable_insert. */
    method Insert(k: Key, v: Value)
      requires Valid()
      modifies this`contents, this`repr, repr
      ensures Valid() && contents == old(contents)[k := v] && fresh(repr - old(repr))
    {
      var h, elem, last, i := Search(k);
      if elem != null {
        Replace(h, elem, i, v);
      } else {
        Append(h, k, v, last);
      }
    }

    /** Takes a key out of its bucket. */
    method Remove(h: nat, elem: Elem, ghost i: nat)
      requires Valid() && h < size && i < |buckets[h].list| && elem == buckets[h].list[i]
      modifies this`contents, repr
      ensures Valid() && contents == old(contents) - {elem.key}
      ensures buckets[h].list == old(buckets[h].list)[..i] + old(buckets[h].list)[i + 1..]
      ensures buckets[h].pairs == old(buckets[h].pairs)[..i] + old(buckets[h].pairs)[i + 1..]
      ensures forall g :: 0 <= g < size && g != h ==>
                buckets[g].list == old(buckets[g].list) && buckets[g].pairs == old(buckets[g].pairs)
    {
      var chain := buckets[h];
      assert HashCode(chain.pairs[i].key, size) == h;
      RemoveHolds(chain.pairs, i, h, size, contents);
      UnlinkIn(h, elem, i);
      Settle(h, elem.key, contents - {elem.key});
    }

    /** hashtable_delete. */
    method Delete(k: Key) returns (v: Value)
      requires Valid()
      modifies this`contents, repr
      ensures Valid() && contents == old(contents) - {k}
      ensures v == if k in old(contents) then old(contents)[k] else 0
    {
      var h, elem, _, i := Search(k);
      v := 0;
      if elem != null {
        v := elem.value;
        Remove(h, elem, i);
      } else {
        WithoutAbsent(contents, k);
      }
    }

    /** hashtable_new. */
    constructor (size: nat)
      requires size > 0
      ensures Valid() && contents == map[] && fresh(repr)
    {
      var cs: seq<Chain> := [];
      for i := 0 to size
        invariant |cs| == i
        invariant forall g :: 0 <= g < i ==> fresh(cs[g]) && cs[g].Valid() && cs[g].pairs == [] && cs[g].elems == {}
        invariant forall g, h :: 0 <= g < h < i ==> cs[g] != cs[h]
      {
        var c := new Chain();
        cs := cs + [c];
      }
      this.size, buckets, contents := size, cs, map[];
      repr := set c | c in cs;
    }

    /** One step of hashtable_foreach_key: the next element is taken before the handler, which
        may delete the key it is given, is called. */
    method Visit(h: nat, elem: Elem, ghost i: nat, drop: Key -> bool, ghost m: map<Key, Value>, ghost visited: seq<Key>)
      returns (next: Elem?, ghost n: nat)
      requires Valid() && h < size && i < |buckets[h].list| && elem == buckets[h].list[i]
      requires contents == Remaining(m, visited, drop)
      modifies this`contents, repr
      ensures Valid() && contents == Remaining(m, visited + [elem.key], drop)
      ensures n <= |buckets[h].list| && next == At(buckets[h].list, n)
      ensures buckets[h].list[n..] == old(buckets[h].list)[i + 1..]
      ensures buckets[h].pairs[n..] == old(buckets[h].pairs)[i + 1..]
      ensures forall g :: 0 <= g < size && g != h ==> buckets[g].pairs == old(buckets[g].pairs)
    {
      buckets[h].LinkAt(i);
      next, n := elem.next, i + 1;
      RemainingStep(m, visited, elem.key, drop);
      if drop(elem.key) {
        Remove(h, elem, i);
        n := i;
      }
    }

    /** The inner loop of hashtable_foreach_key: one bucket. */
    method WalkChain(h: nat, drop: Key -> bool, ghost m: map<Key, Value>, before: seq<Key>) returns (visited: seq<Key>)
      requires Valid() && h < size && contents == Remaining(m, before, drop)
      modifies this`contents, repr
      ensures Valid() && visited == before + Keys(old(buckets[h].pairs))
      ensures contents == Remaining(m, visited, drop)
      ensures forall g :: 0 <= g < size && g != h ==> buckets[g].pairs == old(buckets[g].pairs)
    {
      visited := before;
      ghost var i, rest: seq<Pair> := 0, buckets[h].pairs;
      var elem := buckets[h].head;
      while elem != null
        invariant Valid() && 0 <= i <= |buckets[h].list| && elem == At(buckets[h].list, i)
        invariant buckets[h].pairs[i..] == rest && visited + Keys(rest) == before + Keys(old(buckets[h].pairs))
        invariant contents == Remaining(m, visited, drop) && repr == old(repr)
        invariant forall g :: 0 <= g < size && g != h ==> buckets[g].pairs == old(buckets[g].pairs)
        decreases |rest|
      {
        KeysFirst(rest, visited);
        assert rest[0] == buckets[h].pairs[i] && buckets[h].pairs[i + 1..] == rest[1..];
        var k := elem.key;
        elem, i := Visit(h, elem, i, drop, m, visited);
        visited, rest := visited + [k], rest[1..];
      }
    }

    ghost function Chains(): (bs: seq<seq<Pair>>)
      reads this, buckets
      ensures |bs| == |buckets| && forall h :: 0 <= h < |buckets| ==> bs[h] == buckets[h].pairs
    {
      seq(|buckets|, h requires 0 <= h < |buckets| reads this, buckets => buckets[h].pairs)
    }

    /** hashtable_foreach_key. */
    method ForEachKey(drop: Key -> bool) returns (visited: seq<Key>)
      requires Valid()
      modifies this`contents, repr
      ensures Valid() && visited == Walk(old(Chains()))
      ensures contents == Remaining(old(contents), visited, drop)
    {
      visited := [];
      ghost var bs := Chains();
      assert Remaining(contents, [], drop) == contents;
      for h := 0 to size
        invariant Valid() && visited == Walk(bs[..h]) && repr == old(repr)
        invariant contents == Remaining(old(contents), visited, drop)
        invariant forall g :: h <= g < size ==> buckets[g].pairs == bs[g]
      {
        WalkStep(bs, h);
        visited := WalkChain(h, drop, old(contents), visited);
      }
      assert bs[..size] == bs;
    }

    method IsPrimary(k: Key) returns (r: bool)
      requires Valid()
      ensures r <==> k in contents && contents[k] == RFT_PRIMARY
    {
      var v := Get(k);
      r := v == RFT_PRIMARY;
    }

    method CollectOne(h: nat, elem: Elem, ghost i: nat, before: seq<Key>) returns (next: Elem?, ctxs: seq<Key>)
      requires Valid() && h < size && i < |buckets[h].list| && elem == buckets[h].list[i]
      ensures next == At(buckets[h].list, i + 1)
      ensures var k := buckets[h].pairs[i].key;
              ctxs == before + (if k in contents && contents[k] == RFT_PRIMARY then [k] else [])
    {
      buckets[h].LinkAt(i);
      var primary := IsPrimary(elem.key);
      next, ctxs := elem.next, if primary then before + [elem.key] else before;
    }

    /** primary_ctx_handler, called for each element of one bucket. */
    method CollectChain(h: nat, before: seq<Key>) returns (ctxs: seq<Key>)
      requires Valid() && h < size
      ensures ctxs == before + Primaries(Keys(buckets[h].pairs), contents)
    {
      ctxs := before;
      var elem := buckets[h].head;
      ghost var b, i: nat := buckets[h].pairs, 0;
      while elem != null
        invariant i <= |b| && elem == At(buckets[h].list, i)
        invariant ctxs == before + Picked(b, i, contents)
        decreases |b| - i
      {
        elem, ctxs := CollectOne(h, elem, i, ctxs);
        i := i + 1;
      }
      assert b[..i] == b;
      PickedIs(b, i, contents);
    }

    /** The walk of take_xapp_snapshot: the contexts this server is primary for, each once. */
    method PrimaryContexts() returns (ctxs: seq<Key>)
      requires Valid()
      ensures forall k :: k in ctxs <==> k in contents && contents[k] == RFT_PRIMARY
      ensures forall i, j :: 0 <= i < j < |ctxs| ==> ctxs[i] != ctxs[j]
    {
      ctxs := [];
      ghost var bs := Chains();
      for h := 0 to size
        invariant ctxs == Primaries(Walk(bs[..h]), contents)
      {
        WalkStep(bs, h);
        PrimariesConcat(Walk(bs[..h]), Keys(bs[h]), contents);
        ctxs := CollectChain(h, ctxs);
      }
      assert bs[..size] == bs;
      WalkExact(bs, size, contents);
      PrimariesExact(Walk(bs), contents);
    }
  }

  lemma WithoutAbsent(m: map<Key, Value>, k: Key)
    requires k !in m
    ensures m - {k} == m
  {
  }

  // ---------- the walk ----------

  const RFT_PRIMARY: Value := 1

  ghost predicate NoRepeat(ks: seq<Key>) {
    forall i, j :: 0 <= i < j < |ks| ==> ks[i] != ks[j]
  }

  ghost function Keys(b: seq<Pair>): (r: seq<Key>)
    ensures |r| == |b| && forall i :: 0 <= i < |b| ==> r[i] == b[i].key
  {
    if b == [] then [] else Keys(b[..|b| - 1]) + [b[|b| - 1].key]
  }

  /** All keys in the order the walk meets them: bucket by bucket, each chain from its start. */
  ghost function Walk(bs: seq<seq<Pair>>): seq<Key> {
    if bs == [] then [] else Walk(bs[..|bs| - 1]) + Keys(bs[|bs| - 1])
  }

  ghost function Remaining(m: map<Key, Value>, visited: seq<Key>, drop: Key -> bool): map<Key, Value> {
    map x | x in m && !(x in visited && drop(x)) :: m[x]
  }

  /** What primary_ctx_handler picks out of a list of keys. */
  ghost function Primaries(ks: seq<Key>, m: map<Key, Value>): seq<Key> {
    if ks == [] then []
    else
      var k := ks[|ks| - 1];
      Primaries(ks[..|ks| - 1], m) + (if k in m && m[k] == RFT_PRIMARY then [k] else [])
  }

  lemma {:induction false} PrimariesConcat(a: seq<Key>, b: seq<Key>, m: map<Key, Value>)
    ensures Primaries(a + b, m) == Primaries(a, m) + Primaries(b, m)
    decreases |b|
  {
    if b == [] {
      assert a + b == a;
    } else {
      PrimariesConcat(a, b[..|b| - 1], m);
      assert (a + b)[..|a + b| - 1] == a + b[..|b| - 1];
    }
  }

  lemma {:induction false} PrimariesExact(ks: seq<Key>, m: map<Key, Value>)
    requires NoRepeat(ks)
    ensures NoRepeat(Primaries(ks, m))
    ensures forall k :: k in Primaries(ks, m) <==> k in ks && k in m && m[k] == RFT_PRIMARY
    decreases |ks|
  {
    if ks != [] {
      var init, k := ks[..|ks| - 1], ks[|ks| - 1];
      PrimariesExact(init, m);
      assert ks == init + [k];
      assert k !in init;
    }
  }

  lemma RemainingStep(m: map<Key, Value>, visited: seq<Key>, k: Key, drop: Key -> bool)
    ensures Remaining(m, visited + [k], drop)
         == if drop(k) then Remaining(m, visited, drop) - {k} else Remaining(m, visited, drop)
  {
  }

  lemma KeysStep(chain: seq<Pair>, i: nat)
    requires i < |chain|
    ensures Keys(chain[..i + 1]) == Keys(chain[..i]) + [chain[i].key]
  {
    assert chain[..i + 1][..i] == chain[..i];
  }

  /** What it picks out of the first i elements of a chain. */
  ghost function Picked(b: seq<Pair>, i: nat, m: map<Key, Value>): seq<Key>
    requires i <= |b|
  {
    if i == 0 then []
    else
      var k := b[i - 1].key;
      Picked(b, i - 1, m) + (if k in m && m[k] == RFT_PRIMARY then [k] else [])
  }

  lemma {:induction false} PickedIs(b: seq<Pair>, i: nat, m: map<Key, Value>)
    requires i <= |b|
    ensures Picked(b, i, m) == Primaries(Keys(b[..i]), m)
  {
    if i > 0 {
      PickedIs(b, i - 1, m);
      KeysStep(b, i - 1);
      assert (Keys(b[..i - 1]) + [b[i - 1].key])[..i - 1] == Keys(b[..i - 1]);
    }
  }

  lemma WalkStep(bs: seq<seq<Pair>>, h: nat)
    requires h < |bs|
    ensures Walk(bs[..h + 1]) == Walk(bs[..h]) + Keys(bs[h])
  {
    assert bs[..h + 1][..h] == bs[..h];
  }

  lemma KeysFirst(b: seq<Pair>, visited: seq<Key>)
    requires b != []
    ensures visited + Keys(b) == (visited + [b[0].key]) + Keys(b[1..])
  {
  }

  lemma KeysOfChain(b: seq<Pair>, h: nat, size: nat, m: map<Key, Value>)
    requires size > 0 && Holds(b, h, size, m)
    ensures NoRepeat(Keys(b)) && forall k :: k in Keys(b) <==> k in m && HashCode(k, size) == h
  {
    forall k | k in m && HashCode(k, size) == h
      ensures k in Keys(b)
    {
      var i :| 0 <= i < |b| && b[i].key == k;
      assert Keys(b)[i] == k;
    }
  }

  /** The walk meets every key of the table exactly once. */
  lemma {:induction false} WalkExact(bs: seq<seq<Pair>>, size: nat, m: map<Key, Value>)
    requires size > 0 && forall h :: 0 <= h < |bs| ==> Holds(bs[h], h, size, m)
    ensures NoRepeat(Walk(bs)) && forall k :: k in Walk(bs) <==> k in m && HashCode(k, size) < |bs|
    decreases |bs|
  {
    if bs != [] {
      var n := |bs| - 1;
      WalkExact(bs[..n], size, m);
      KeysOfChain(bs[n], n, size, m);
      var a, b := Walk(bs[..n]), Keys(bs[n]);
      forall i, j | 0 <= i < |a| && 0 <= j < |b|
        ensures a[i] != b[j]
      {
        assert a[i] in a && b[j] in b;
      }
    }
  }

  /** A handler may delete the key it is given: the walk still meets every key exactly once,
      and leaves exactly the keys the handler did not delete. */
  lemma WalkWithDeletion(bs: seq<seq<Pair>>, size: nat, m: map<Key, Value>, drop: Key -> bool)
    requires size > 0 && |bs| == size && forall h :: 0 <= h < |bs| ==> Holds(bs[h], h, size, m)
    ensures NoRepeat(Walk(bs)) && (forall k :: k in Walk(bs) <==> k in m)
    ensures Remaining(m, Walk(bs), drop) == map k | k in m && !drop(k) :: m[k]
  {
    WalkExact(bs, size, m);
  }
}
