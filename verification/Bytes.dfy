/**
 Byte strings as the store compares them: lexicographic order, fixed-width
 integer encodings, prefix ranges and the ascending enumeration of a set of keys.
 */
module ByteStrings {

  type byte = x: int | 0 <= x < 0x100
  type Bytes = seq<byte>
  type u32 = x: int | 0 <= x < 0x1_0000_0000
  type u64 = x: int | 0 <= x < 0x1_0000_0000_0000_0000
  type Hash = s: Bytes | |s| == 32 witness seq(32, _ => 0)
  type QuoteId = s: Bytes | |s| == 16 witness seq(16, _ => 0)

  const U64_MAX: u64 := 0xFFFF_FFFF_FFFF_FFFF
  const ZERO_HASH: Hash := Fill(0, 32)

  // ---- Lexicographic order ------------------------------------------------

  predicate LexLt(a: Bytes, b: Bytes)
  {
    |b| > 0 && (|a| == 0 || a[0] < b[0] || (a[0] == b[0] && LexLt(a[1..], b[1..])))
  }

  predicate LexLe(a: Bytes, b: Bytes)
  {
    a == b || LexLt(a, b)
  }

  lemma {:induction false} LexIrreflexive(a: Bytes)
    ensures !LexLt(a, a)
  {
    if a != [] {
      LexIrreflexive(a[1..]);
    }
  }

  lemma {:induction false} LexTransitive(a: Bytes, b: Bytes, c: Bytes)
    requires LexLt(a, b) && LexLt(b, c)
    ensures LexLt(a, c)
  {
    if a != [] && a[0] == b[0] == c[0] {
      LexTransitive(a[1..], b[1..], c[1..]);
    }
  }

  lemma {:induction false} LexTotal(a: Bytes, b: Bytes)
    ensures LexLt(a, b) || a == b || LexLt(b, a)
  {
    if a != [] && b != [] && a[0] == b[0] {
      LexTotal(a[1..], b[1..]);
      assert a == [a[0]] + a[1..] && b == [b[0]] + b[1..];
    }
  }

  lemma LexAsymmetric(a: Bytes, b: Bytes)
    requires LexLt(a, b)
    ensures a != b && !LexLt(b, a)
  {
    LexIrreflexive(a);
    if LexLt(b, a) {
      LexTransitive(a, b, a);
    }
  }

  // The order on a concatenation of equally long heads is decided by the heads first.
  lemma {:induction false} LexConcat(a: Bytes, b: Bytes, a': Bytes, b': Bytes)
    requires |a| == |a'|
    ensures LexLt(a + b, a' + b') <==> LexLt(a, a') || (a == a' && LexLt(b, b'))
  {
    if a == [] {
      assert a + b == b && a' + b' == b';
    } else {
      assert (a + b)[1..] == a[1..] + b;
      assert (a' + b')[1..] == a'[1..] + b';
      assert a == [a[0]] + a[1..] && a' == [a'[0]] + a'[1..];
      LexConcat(a[1..], b, a'[1..], b');
    }
  }

  // ---- Fixed-width integers -----------------------------------------------

  function Pow256(w: nat): (p: nat)
    ensures p >= 1
  {
    if w == 0 then 1 else 256 * Pow256(w - 1)
  }

  // Big-endian, `w` bytes.
  function BE(n: nat, w: nat): (s: Bytes)
    ensures |s| == w
  {
    if w == 0 then [] else BE(n / 256, w - 1) + [n % 256]
  }

  function FromBE(s: Bytes): (n: nat)
    ensures n < Pow256(|s|)
  {
    if s == [] then 0 else FromBE(s[..|s| - 1]) * 256 + s[|s| - 1]
  }

  // Little-endian, `w` bytes.
  function LE(n: nat, w: nat): (s: Bytes)
    ensures |s| == w
  {
    if w == 0 then [] else [n % 256] + LE(n / 256, w - 1)
  }

  function FromLE(s: Bytes): (n: nat)
    ensures n < Pow256(|s|)
  {
    if s == [] then 0 else s[0] + 256 * FromLE(s[1..])
  }

  lemma Widths()
    ensures Pow256(4) == 0x1_0000_0000
    ensures Pow256(8) == 0x1_0000_0000_0000_0000
  {
    assert Pow256(2) == 0x1_0000;
    assert Pow256(4) == 0x1_0000_0000;
    assert Pow256(6) == 0x1_0000_0000_0000;
  }

  lemma {:induction false} BERoundTrip(n: nat, w: nat)
    requires n < Pow256(w)
    ensures FromBE(BE(n, w)) == n
  {
    if w > 0 {
      BERoundTrip(n / 256, w - 1);
      assert BE(n, w)[..w - 1] == BE(n / 256, w - 1);
    }
  }

  lemma {:induction false} FromBERoundTrip(s: Bytes)
    ensures BE(FromBE(s), |s|) == s
  {
    if s != [] {
      FromBERoundTrip(s[..|s| - 1]);
      assert FromBE(s) / 256 == FromBE(s[..|s| - 1]) && FromBE(s) % 256 == s[|s| - 1];
    }
  }

  lemma {:induction false} LERoundTrip(n: nat, w: nat)
    requires n < Pow256(w)
    ensures FromLE(LE(n, w)) == n
  {
    if w > 0 {
      LERoundTrip(n / 256, w - 1);
      assert LE(n, w)[1..] == LE(n / 256, w - 1);
    }
  }

  lemma {:induction false} FromLERoundTrip(s: Bytes)
    ensures LE(FromLE(s), |s|) == s
  {
    if s != [] {
      FromLERoundTrip(s[1..]);
      assert FromLE(s) / 256 == FromLE(s[1..]) && FromLE(s) % 256 == s[0];
    }
  }

  // The first byte is the most significant one, or the least.
  lemma ByteOrders(a: byte, b: byte, c: byte, d: byte)
    ensures FromBE([a, b, c, d]) == 0x100_0000 * a + 0x1_0000 * b + 0x100 * c + d
    ensures FromLE([a, b, c, d]) == a + 0x100 * b + 0x1_0000 * c + 0x100_0000 * d
  {
    assert [a, b, c, d][..3] == [a, b, c] && [a, b, c][..2] == [a, b] && [a, b][..1] == [a] && [a][..0] == [];
    assert FromBE([a]) == a && FromBE([a, b]) == 0x100 * a + b;
    assert [a, b, c, d][1..] == [b, c, d] && [b, c, d][1..] == [c, d] && [c, d][1..] == [d] && [d][1..] == [];
    assert FromLE([d]) == d && FromLE([c, d]) == c + 0x100 * d;
  }

  // Equal-width big-endian encodings compare as the numbers do.
  lemma {:induction false} BEOrder(a: nat, b: nat, w: nat)
    requires a < Pow256(w) && b < Pow256(w)
    ensures LexLt(BE(a, w), BE(b, w)) <==> a < b
    ensures BE(a, w) == BE(b, w) <==> a == b
  {
    BERoundTrip(a, w);
    BERoundTrip(b, w);
    if w > 0 {
      BEOrder(a / 256, b / 256, w - 1);
      LexConcat(BE(a / 256, w - 1), [a % 256], BE(b / 256, w - 1), [b % 256]);
      assert LexLt([a % 256], [b % 256]) <==> a % 256 < b % 256;
    }
  }

  // ---- Prefix ranges --------------------------------------------------------

  function Fill(b: byte, n: nat): (s: Bytes)
    ensures |s| == n && forall i :: 0 <= i < n ==> s[i] == b
  {
    seq(n, _ => b)
  }

  lemma {:induction false} FillBounds(k: Bytes)
    ensures LexLe(Fill(0, |k|), k) && LexLe(k, Fill(0xFF, |k|))
  {
    if k != [] {
      FillBounds(k[1..]);
      assert Fill(0, |k|)[1..] == Fill(0, |k| - 1) && Fill(0xFF, |k|)[1..] == Fill(0xFF, |k| - 1);
      assert k == [k[0]] + k[1..];
    }
  }

  predicate InRange(lo: Bytes, hi: Bytes, k: Bytes)
  {
    LexLe(lo, k) && LexLe(k, hi)
  }

  // A range from `p 00..` to `p FF..` selects exactly the keys of that length that start with `p`.
  lemma PrefixRange(p: Bytes, n: nat, k: Bytes)
    requires |k| == |p| + n
    ensures InRange(p + Fill(0, n), p + Fill(0xFF, n), k) <==> k[..|p|] == p
  {
    var head, tail := k[..|p|], k[|p|..];
    assert k == head + tail;
    LexConcat(p, Fill(0, n), head, tail);
    LexConcat(head, tail, p, Fill(0xFF, n));
    FillBounds(tail);
    if LexLt(p, head) {
      LexAsymmetric(p, head);
    } else if LexLt(head, p) {
      LexAsymmetric(head, p);
    }
  }

  // ---- Ascending enumeration ------------------------------------------------

  ghost predicate Sorted(s: seq<Bytes>)
  {
    forall i, j :: 0 <= i < j < |s| ==> LexLt(s[i], s[j])
  }

  function Insert(x: Bytes, s: seq<Bytes>): (r: seq<Bytes>)
    requires Sorted(s) && x !in s
    ensures Sorted(r) && forall k :: k in r <==> k == x || k in s
  {
    if s == [] then [x]
    else if LexLt(x, s[0]) then
      assert forall j :: 0 < j < |s| ==> LexLt(x, s[j]) by {
        forall j | 0 < j < |s| ensures LexLt(x, s[j]) {
          LexTransitive(x, s[0], s[j]);
        }
      }
      [x] + s
    else
      LexTotal(x, s[0]);
      var rest := Insert(x, s[1..]);
      assert forall k :: k in rest ==> LexLt(s[0], k);
      assert s == [s[0]] + s[1..];
      [s[0]] + rest
  }

  // The order in which the store iterates a set of keys.
  ghost function Ascending(keys: set<Bytes>): (r: seq<Bytes>)
    ensures Sorted(r) && forall k :: k in r <==> k in keys
  {
    if keys == {} then []
    else
      var x :| x in keys;
      Insert(x, Ascending(keys - {x}))
  }

  lemma {:induction false} AscendingUnique(a: seq<Bytes>, b: seq<Bytes>)
    requires Sorted(a) && Sorted(b)
    requires forall k :: k in a <==> k in b
    ensures a == b
  {
    assert forall i :: 0 <= i < |a| ==> a[i] in b;
    assert forall i :: 0 <= i < |b| ==> b[i] in a;
    if a != [] {
      var i :| 0 <= i < |b| && b[i] == a[0];
      var j :| 0 <= j < |a| && a[j] == b[0];
      if i > 0 && j > 0 {
        LexAsymmetric(a[0], a[j]);
        assert false;
      }
      assert a[0] == b[0];
      LexIrreflexive(a[0]);
      assert a == [a[0]] + a[1..] && b == [b[0]] + b[1..];
      forall k ensures k in a[1..] <==> k in b[1..] {
        if k == a[0] {
          assert k !in a[1..] && k !in b[1..];
        } else {
          assert k in a <==> k in a[1..];
          assert k in b <==> k in b[1..];
        }
      }
      AscendingUnique(a[1..], b[1..]);
    }
  }

  lemma SortedDistinct(s: seq<Bytes>, i: int, j: int)
    requires Sorted(s) && 0 <= i < |s| && 0 <= j < |s| && s[i] == s[j]
    ensures i == j
  {
    LexIrreflexive(s[i]);
  }

  function KeysBetween(keys: set<Bytes>, lo: Bytes, hi: Bytes): set<Bytes> {
    set k | k in keys && InRange(lo, hi, k)
  }

  function KeysWithPrefix(keys: set<Bytes>, p: Bytes): set<Bytes> {
    set k | k in keys && p <= k
  }

  // A prefix range reads the keys with that prefix.
  lemma PrefixKeys(keys: set<Bytes>, p: Bytes, n: nat)
    requires forall k :: k in keys ==> |k| == |p| + n
    ensures KeysBetween(keys, p + Fill(0, n), p + Fill(0xFF, n)) == KeysWithPrefix(keys, p)
  {
    forall k | k in keys ensures InRange(p + Fill(0, n), p + Fill(0xFF, n), k) <==> p <= k {
      PrefixRange(p, n, k);
    }
  }

  // A range read: the keys of a table between two bounds, in byte order.
  method Scan(keys: set<Bytes>, lo: Bytes, hi: Bytes) returns (ks: seq<Bytes>)
    ensures ks == Ascending(KeysBetween(keys, lo, hi))
  {
    ks := [];
    var left := keys;
    while left != {}
      invariant left <= keys && Sorted(ks)
      invariant forall k :: k in ks <==> k in keys - left && InRange(lo, hi, k)
      decreases left
    {
      var k :| k in left;
      left := left - {k};
      if InRange(lo, hi, k) {
        ks := Insert(k, ks);
      }
    }
    AscendingUnique(ks, Ascending(KeysBetween(keys, lo, hi)));
  }

  // A full read: every key of a table, in byte order.
  method Iterate(keys: set<Bytes>) returns (ks: seq<Bytes>)
    ensures ks == Ascending(keys)
  {
    ks := [];
    var left := keys;
    while left != {}
      invariant left <= keys && Sorted(ks)
      invariant forall k :: k in ks <==> k in keys - left
      decreases left
    {
      var k :| k in left;
      left := left - {k};
      ks := Insert(k, ks);
    }
    AscendingUnique(ks, Ascending(keys));
  }
}
