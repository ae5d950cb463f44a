/** mtl.h: 64-bit network byte order out of two 32-bit swaps, on hosts of either endianness. */
module ByteOrder {
  import opened Bits

  type Byte = b: nat | b < 256

  datatype Host = BigEndian | LittleEndian

  function Pow256(n: nat): (r: nat)
    ensures r > 0
  {
    if n == 0 then 1 else 256 * Pow256(n - 1)
  }

  /** The n low bytes of v, most significant first. */
  function BE(n: nat, v: nat): (s: seq<Byte>)
    ensures |s| == n
  {
    if n == 0 then [] else BE(n - 1, v / 256) + [v % 256]
  }

  /** The n low bytes of v, least significant first. */
  function LE(n: nat, v: nat): (s: seq<Byte>)
    ensures |s| == n
  {
    if n == 0 then [] else [v % 256] + LE(n - 1, v / 256)
  }

  function FromBE(s: seq<Byte>): nat {
    if s == [] then 0 else 256 * FromBE(s[..|s| - 1]) + s[|s| - 1]
  }

  function FromLE(s: seq<Byte>): nat {
    if s == [] then 0 else s[0] + 256 * FromLE(s[1..])
  }

  /** An integer of n bytes in memory, and back. */
  function Store(host: Host, n: nat, v: nat): (s: seq<Byte>)
    ensures |s| == n
  {
    if host == BigEndian then BE(n, v) else LE(n, v)
  }

  function Load(host: Host, s: seq<Byte>): nat {
    if host == BigEndian then FromBE(s) else FromLE(s)
  }

  /** htonl and ntohl: a byte swap on a little-endian host, nothing on a big-endian one. */
  function Htonl(host: Host, v: nat): nat {
    if host == BigEndian then v else FromBE(LE(4, v))
  }

  /** The C operator | on unsigned values. */
  function BitOr(x: nat, y: nat): nat
    decreases x + y
  {
    if x == 0 then y else if y == 0 then x
    else 2 * BitOr(x / 2, y / 2) + (if x % 2 == 1 || y % 2 == 1 then 1 else 0)
  }

  /** The macros HTONLL and NTOHLL, which have the same text. */
  function Htonll(host: Host, x: nat): nat {
    if Htonl(host, 1) == 1 then x
    else BitOr(Htonl(host, BitAnd(x, WORD - 1)) * WORD, Htonl(host, x / WORD))
  }

  // ---------- digits ----------

  lemma {:induction false} FromBEOfBE(n: nat, v: nat)
    requires v < Pow256(n)
    ensures FromBE(BE(n, v)) == v
  {
    if n > 0 {
      FromBEOfBE(n - 1, v / 256);
      assert BE(n, v)[..n - 1] == BE(n - 1, v / 256);
    }
  }

  lemma {:induction false} FromLEOfLE(n: nat, v: nat)
    requires v < Pow256(n)
    ensures FromLE(LE(n, v)) == v
  {
    if n > 0 {
      FromLEOfLE(n - 1, v / 256);
      assert LE(n, v)[1..] == LE(n - 1, v / 256);
    }
  }

  /** Reading big-endian what was written little-endian, and writing it little-endian again,
      leaves the big-endian bytes. */
  lemma {:induction false} SwapIsBE(n: nat, v: nat)
    ensures FromBE(LE(n, v)) < Pow256(n)
    ensures LE(n, FromBE(LE(n, v))) == BE(n, v)
  {
    if n > 0 {
      SwapTail(n, v);
      SwapIsBE(n - 1, v / 256);
      var w := FromBE(LE(n - 1, v / 256));
      AddTop(n - 1, w, v % 256);
    }
  }

  /** The first byte of a big-endian number is its top digit. */
  lemma {:induction false} SwapTail(n: nat, v: nat)
    requires n > 0
    ensures FromBE(LE(n, v)) == FromBE(LE(n - 1, v / 256)) + (v % 256) * Pow256(n - 1)
    decreases n
  {
    FromBECons(v % 256, LE(n - 1, v / 256));
  }

  lemma {:induction false} FromBECons(d: Byte, s: seq<Byte>)
    ensures FromBE([d] + s) == FromBE(s) + d * Pow256(|s|)
    decreases |s|
  {
    if s == [] {
      assert ([d] + s)[..0] == [];
    } else {
      FromBECons(d, s[..|s| - 1]);
      assert ([d] + s)[..|s|] == [d] + s[..|s| - 1];
      assert 256 * (d * Pow256(|s| - 1)) == d * Pow256(|s|);
    }
  }

  /** Adding a top digit adds a last little-endian byte. */
  lemma {:induction false} AddTop(n: nat, w: nat, d: Byte)
    requires w < Pow256(n)
    ensures w + d * Pow256(n) < Pow256(n + 1)
    ensures LE(n + 1, w + d * Pow256(n)) == LE(n, w) + [d]
  {
    if n == 0 {
      assert Pow256(0) == 1 && w == 0;
      assert LE(1, d) == [d] + LE(0, d / 256);
    } else {
      var x := w + d * Pow256(n);
      assert d * Pow256(n) == 256 * (d * Pow256(n - 1));
      AddTop(n - 1, w / 256, d);
      assert x / 256 == w / 256 + d * Pow256(n - 1) && x % 256 == w % 256;
      assert [w % 256] + (LE(n - 1, w / 256) + [d]) == LE(n, w) + [d];
    }
  }

  lemma {:induction false} SplitLE(n: nat, m: nat, lo: nat, hi: nat)
    requires lo < Pow256(n)
    ensures LE(n + m, lo + hi * Pow256(n)) == LE(n, lo) + LE(m, hi)
    decreases n
  {
    var x := lo + hi * Pow256(n);
    if n == 0 {
      assert Pow256(0) == 1 && lo == 0;
      assert [] + LE(m, hi) == LE(m, hi);
    } else {
      assert hi * Pow256(n) == 256 * (hi * Pow256(n - 1));
      SplitLE(n - 1, m, lo / 256, hi);
      assert x / 256 == lo / 256 + hi * Pow256(n - 1) && x % 256 == lo % 256;
      assert [lo % 256] + (LE(n - 1, lo / 256) + LE(m, hi)) == LE(n, lo) + LE(m, hi);
    }
  }

  lemma {:induction false} SplitBE(n: nat, m: nat, lo: nat, hi: nat)
    requires lo < Pow256(n)
    ensures BE(n + m, lo + hi * Pow256(n)) == BE(m, hi) + BE(n, lo)
    decreases n
  {
    var x := lo + hi * Pow256(n);
    if n == 0 {
      assert Pow256(0) == 1 && lo == 0;
    } else {
      assert hi * Pow256(n) == 256 * (hi * Pow256(n - 1));
      SplitBE(n - 1, m, lo / 256, hi);
      assert x / 256 == lo / 256 + hi * Pow256(n - 1) && x % 256 == lo % 256;
    }
  }

  lemma {:induction false} OrDisjoint(a: nat, b: nat, k: nat)
    requires b < Pow2(k)
    ensures BitOr(a * Pow2(k), b) == a * Pow2(k) + b
    decreases k
  {
    if k > 0 && a > 0 && b > 0 {
      var h := a * Pow2(k - 1);
      assert a * Pow2(k) == 2 * h;
      assert h > 0;
      OrDisjoint(a, b / 2, k - 1);
    }
  }

  lemma WordPowers()
    ensures Pow256(4) == WORD == Pow2(32) && Pow256(8) == WORD * WORD
  {
    Pow2_32();
    assert Pow256(2) == 65536;
  }

  // ---------- the macros ----------

  /** htonl(v) in memory is the network order of v. */
  lemma HtonlIsNetworkOrder(host: Host, v: nat)
    requires v < WORD
    ensures Htonl(host, v) < WORD
    ensures Store(host, 4, Htonl(host, v)) == BE(4, v)
  {
    WordPowers();
    SwapIsBE(4, v);
  }

  lemma OneTellsHosts(host: Host)
    ensures Htonl(host, 1) == 1 <==> host == BigEndian
  {
    if host == LittleEndian {
      SwapTail(4, 1);
      assert Pow256(3) == 16777216;
    }
  }

  /** On a little-endian host the macro swaps the bytes of both halves and then the halves. */
  lemma HtonllSwapsHalves(x: nat)
    requires x < WORD * WORD
    ensures var lo, hi := Htonl(LittleEndian, x % WORD), Htonl(LittleEndian, x / WORD);
            Htonll(LittleEndian, x) == hi + lo * WORD && lo < WORD && hi < WORD
  {
    OneTellsHosts(LittleEndian);
    MaskIsMod(x, 32);
    Pow2_32();
    HtonlIsNetworkOrder(LittleEndian, x % WORD);
    HtonlIsNetworkOrder(LittleEndian, x / WORD);
    OrDisjoint(Htonl(LittleEndian, x % WORD), Htonl(LittleEndian, x / WORD), 32);
  }

  lemma SplitWords(lo: nat, hi: nat)
    requires lo < WORD
    ensures LE(8, lo + hi * WORD) == LE(4, lo) + LE(4, hi)
    ensures BE(8, lo + hi * WORD) == BE(4, hi) + BE(4, lo)
  {
    WordPowers();
    SplitLE(4, 4, lo, hi);
    SplitBE(4, 4, lo, hi);
  }

  /** HTONLL(x) in memory is the network order of x, on either kind of host. */
  lemma HtonllIsNetworkOrder(host: Host, x: nat)
    requires x < WORD * WORD
    ensures Htonll(host, x) < WORD * WORD
    ensures Store(host, 8, Htonll(host, x)) == BE(8, x)
  {
    if host == LittleEndian {
      HtonllSwapsHalves(x);
      SwappedHalves(x % WORD, x / WORD);
    } else {
      OneTellsHosts(host);
    }
  }

  lemma SwappedHalves(lo: nat, hi: nat)
    requires lo < WORD && hi < WORD
    ensures var a, b := Htonl(LittleEndian, lo), Htonl(LittleEndian, hi);
            b + a * WORD < WORD * WORD && LE(8, b + a * WORD) == BE(8, lo + hi * WORD)
  {
    HtonlIsNetworkOrder(LittleEndian, lo);
    HtonlIsNetworkOrder(LittleEndian, hi);
    SplitWords(Htonl(LittleEndian, hi), Htonl(LittleEndian, lo));
    SplitWords(lo, hi);
  }

  /** Any host reads back what any host wrote. */
  lemma NtohlReads(host: Host, v: nat)
    requires v < WORD
    ensures Htonl(host, Load(host, BE(4, v))) == v
  {
    HtonlIsNetworkOrder(host, v);
    WordPowers();
    FromBEOfBE(4, v);
    if host == LittleEndian {
      var w := Htonl(host, v);
      FromLEOfLE(4, w);
      SwapIsBE(4, w);
      FromBEOfBE(4, v);
    }
  }

  lemma NtohllReads(host: Host, x: nat)
    requires x < WORD * WORD
    ensures Htonll(host, Load(host, BE(8, x))) == x
  {
    OneTellsHosts(host);
    WordPowers();
    FromBEOfBE(8, x);
    if host == LittleEndian {
      var y := Htonll(host, x);
      HtonllIsNetworkOrder(host, x);
      FromLEOfLE(8, y);
      TwiceIsIdentity(x);
    }
  }

  /** Swapping the two halves and the bytes of each, twice, is the identity. */
  lemma TwiceIsIdentity(x: nat)
    requires x < WORD * WORD
    ensures Htonll(LittleEndian, Htonll(LittleEndian, x)) == x
  {
    var host := LittleEndian;
    var y := Htonll(host, x);
    HtonllIsNetworkOrder(host, x);
    HtonllIsNetworkOrder(host, y);
    WordPowers();
    FromLEOfLE(8, Htonll(host, y));
    MirrorBytes(8, x, y);
    FromLEOfLE(8, x);
  }

  /** If y written little-endian is x written big-endian, so is x by y. */
  lemma {:induction false} MirrorBytes(n: nat, x: nat, y: nat)
    requires LE(n, y) == BE(n, x)
    ensures LE(n, x) == BE(n, y)
  {
    forall i | 0 <= i < n
      ensures LE(n, x)[i] == BE(n, y)[i]
    {
      ReverseAt(n, x, i);
      ReverseAt(n, y, n - 1 - i);
    }
  }

  lemma {:induction false} ReverseAt(n: nat, v: nat, i: nat)
    requires i < n
    ensures LE(n, v)[i] == BE(n, v)[n - 1 - i]
  {
    if i > 0 {
      ReverseAt(n - 1, v / 256, i - 1);
    }
  }
}
