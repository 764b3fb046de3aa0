/** Byte strings, their concatenation and fixed-width big-endian integers. */
module ByteStrings {

  type byte = b: int | 0 <= b < 256

  type Bytes = seq<byte>

  datatype Option<+T> = None | Some(value: T)

  /** usize::MAX on the 64-bit targets the library supports. */
  const USIZE_MAX := 0xFFFF_FFFF_FFFF_FFFF

  function Min(a: nat, b: nat): (m: nat)
    ensures m <= a && m <= b && (m == a || m == b)
  {
    if a <= b then a else b
  }

  ghost predicate Distinct<T>(s: seq<T>) {
    forall i, j :: 0 <= i < j < |s| ==> s[i] != s[j]
  }

  lemma Assoc<T>(a: seq<T>, b: seq<T>, c: seq<T>)
    ensures a + (b + c) == a + b + c
  {
  }

  /** `f` of every element, concatenated. */
  function Concat<T, U>(f: T -> seq<U>, xs: seq<T>): seq<U> {
    if xs == [] then [] else f(xs[0]) + Concat(f, xs[1..])
  }

  lemma {:induction false} ConcatAppend<T, U>(f: T -> seq<U>, a: seq<T>, b: seq<T>)
    ensures Concat(f, a + b) == Concat(f, a) + Concat(f, b)
  {
    if a == [] {
      assert a + b == b;
    } else {
      ConcatAppend(f, a[1..], b);
      assert (a + b)[1..] == a[1..] + b;
      Assoc(f(a[0]), Concat(f, a[1..]), Concat(f, b));
    }
  }

  lemma ConcatOne<T, U>(f: T -> seq<U>, x: T)
    ensures Concat(f, [x]) == f(x)
  {
    assert Concat(f, [x]) == f(x) + Concat(f, []);
  }

  /** The concatenation of a list of byte strings. */
  function Flatten(parts: seq<Bytes>): Bytes {
    if parts == [] then [] else parts[0] + Flatten(parts[1..])
  }

  lemma {:induction false} FlattenAppend(a: seq<Bytes>, b: seq<Bytes>)
    ensures Flatten(a + b) == Flatten(a) + Flatten(b)
  {
    if a == [] {
      assert a + b == b;
    } else {
      FlattenAppend(a[1..], b);
      assert (a + b)[1..] == a[1..] + b;
      Assoc(a[0], Flatten(a[1..]), Flatten(b));
    }
  }

  lemma FlattenOne(s: Bytes)
    ensures Flatten([s]) == s
  {
    assert Flatten([s]) == s + Flatten([]);
  }

  lemma FlattenSplit(parts: seq<Bytes>, i: nat)
    requires i <= |parts|
    ensures Flatten(parts) == Flatten(parts[..i]) + Flatten(parts[i..])
  {
    assert parts == parts[..i] + parts[i..];
    FlattenAppend(parts[..i], parts[i..]);
  }

  lemma FlattenPrefix(parts: seq<Bytes>, i: nat)
    requires i < |parts|
    ensures Flatten(parts[..i + 1]) == Flatten(parts[..i]) + parts[i]
  {
    assert parts[..i + 1] == parts[..i] + [parts[i]];
    FlattenAppend(parts[..i], [parts[i]]);
    FlattenOne(parts[i]);
  }

  /** The low `width` bytes of `n`, most significant first. */
  function BigEndian(n: nat, width: nat): (s: Bytes)
    ensures |s| == width
  {
    if width == 0 then [] else BigEndian(n / 256, width - 1) + [n % 256]
  }

  /** The number a big-endian byte string denotes. */
  function FromBigEndian(s: Bytes): nat {
    if s == [] then 0 else 256 * FromBigEndian(s[..|s| - 1]) + s[|s| - 1]
  }

  function Pow256(width: nat): (p: nat)
    ensures p >= 1
  {
    if width == 0 then 1 else 256 * Pow256(width - 1)
  }

  lemma Pow256Values()
    ensures Pow256(2) == 0x1_0000 && Pow256(4) == 0x1_0000_0000 && Pow256(8) == 0x1_0000_0000_0000_0000
  {
    assert Pow256(1) == 256 && Pow256(2) == 0x1_0000 && Pow256(3) == 0x100_0000 && Pow256(4) == 0x1_0000_0000;
    assert Pow256(5) == 0x100_0000_0000 && Pow256(6) == 0x1_0000_0000_0000 && Pow256(7) == 0x100_0000_0000_0000;
  }

  lemma QuotientFits(n: nat, p: nat)
    requires n < 256 * p
    ensures n / 256 < p
  {
  }

  /** Reading back a big-endian integer gives the integer, as long as it fits the width. */
  lemma {:induction false} BigEndianRoundTrip(n: nat, width: nat)
    requires n < Pow256(width)
    ensures FromBigEndian(BigEndian(n, width)) == n
  {
    if width == 0 {
    } else {
      QuotientFits(n, Pow256(width - 1));
      BigEndianRoundTrip(n / 256, width - 1);
      var s := BigEndian(n, width);
      assert s[..|s| - 1] == BigEndian(n / 256, width - 1);
    }
  }

  /** Every byte string is the big-endian form of the number it denotes. */
  lemma {:induction false} FromBigEndianRoundTrip(s: Bytes)
    ensures FromBigEndian(s) < Pow256(|s|)
    ensures BigEndian(FromBigEndian(s), |s|) == s
  {
    if s == [] {
    } else {
      var init := s[..|s| - 1];
      FromBigEndianRoundTrip(init);
      var n := FromBigEndian(s);
      assert n / 256 == FromBigEndian(init) && n % 256 == s[|s| - 1];
      assert s == init + [s[|s| - 1]];
    }
  }

  /** The list with every occurrence of an element taken out. */
  function Without(list: seq<Bytes>, prefix: Bytes): (r: seq<Bytes>)
    ensures forall p :: p in r <==> p in list && p != prefix
  {
    if list == [] then []
    else (if list[0] == prefix then [] else [list[0]]) + Without(list[1..], prefix)
  }

  lemma {:induction false} WithoutLength(list: seq<Bytes>, prefix: Bytes)
    ensures |Without(list, prefix)| < |list| <==> prefix in list
    ensures prefix !in list ==> Without(list, prefix) == list
  {
    if list == [] {
    } else {
      WithoutLength(list[1..], prefix);
      assert list == [list[0]] + list[1..];
    }
  }

  /** `s.starts_with(prefix)`. */
  predicate StartsWith(s: Bytes, prefix: Bytes) {
    |prefix| <= |s| && s[..|prefix|] == prefix
  }

  lemma PrefixRule(s: Bytes, prefix: Bytes)
    ensures StartsWith(s, prefix) <==> exists rest :: s == prefix + rest
  {
    if StartsWith(s, prefix) {
      assert s == prefix + s[|prefix|..];
    }
  }

  /** Most significant byte first: the byte at `i` counts multiples of 256 to the power of the places behind it. */
  lemma {:induction false} BigEndianAt(n: nat, width: nat, i: nat)
    requires i < width
    ensures BigEndian(n, width)[i] == n / Pow256(width - 1 - i) % 256
  {
    if i == width - 1 {
      assert Pow256(0) == 1;
    } else {
      BigEndianAt(n / 256, width - 1, i);
      DivideTwice(n, 256, Pow256(width - 2 - i));
    }
  }

  lemma DivideTwice(n: nat, a: nat, b: nat)
    requires a > 0 && b > 0
    ensures a * b > 0 && n / a / b == n / (a * b)
  {
    var q, r := n / a, n % a;
    var p, t := q / b, q % b;
    assert n == a * (b * p + t) + r;
    assert a * (b * p + t) == (a * b) * p + a * t;
    assert a * t + r < a * b by {
      assert a * t + a <= a * b by { assert t + 1 <= b; Scaled(a, t + 1, b); }
    }
    assert n == p * (a * b) + (a * t + r);
    Quotient(n, a * b, p, a * t + r);
  }

  lemma Scaled(a: nat, x: nat, y: nat)
    requires x <= y
    ensures a * x <= a * y
  {
  }

  lemma Quotient(n: nat, d: nat, q: nat, r: nat)
    requires d > 0 && n == q * d + r && r < d
    ensures n / d == q
  {
    var k, m := n / d, n % d;
    assert n == k * d + m;
    assert (k - q) * d == r - m;
    if k > q {
      Scaled(d, 1, k - q);
    } else if k < q {
      Scaled(d, 1, q - k);
    }
  }
}
