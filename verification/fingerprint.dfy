/** The fingerprint of `compute_hash` (scrape_to_ics.py:103-107): the
    fixtures sorted by (date, time or "", home, away), serialised, hashed,
    and written out as lower-case hexadecimal. JSON serialisation and
    SHA-256 are one function parameter, `digest`, from the sorted list to
    its bytes; the sort and the hexadecimal text are modelled. */
module Fingerprint {
  import opened Wrappers
  import opened Text
  import opened Fixtures

  // ---------------------------------------------------------------------
  // Python's ordering of strings and of the sort key

  /** Python's `a <= b` on str: lexicographic by code point. */
  predicate StrLe(a: string, b: string) {
    if a == [] then true
    else if b == [] then false
    else if a[0] != b[0] then a[0] < b[0]
    else StrLe(a[1..], b[1..])
  }

  lemma {:induction false} StrLeReflexive(a: string)
    ensures StrLe(a, a)
  {
    if a != [] {
      StrLeReflexive(a[1..]);
    }
  }

  lemma {:induction false} StrLeTotal(a: string, b: string)
    ensures StrLe(a, b) || StrLe(b, a)
  {
    if a != [] && b != [] && a[0] == b[0] {
      StrLeTotal(a[1..], b[1..]);
    }
  }

  lemma {:induction false} StrLeAntisymmetric(a: string, b: string)
    requires StrLe(a, b) && StrLe(b, a)
    ensures a == b
  {
    if a != [] && b != [] {
      StrLeAntisymmetric(a[1..], b[1..]);
      assert a == [a[0]] + a[1..];
      assert b == [b[0]] + b[1..];
    }
  }

  lemma {:induction false} StrLeTransitive(a: string, b: string, c: string)
    requires StrLe(a, b) && StrLe(b, c)
    ensures StrLe(a, c)
  {
    if a != [] && b != [] && c != [] && a[0] == b[0] && b[0] == c[0] {
      StrLeTransitive(a[1..], b[1..], c[1..]);
    }
  }

  /** The sort key `(x["date"], x.get("time") or "", x["home"], x["away"])`. */
  type SortKey = (string, string, string, string)

  function SortKeyOf(f: Fixture): SortKey {
    (f.date, TimeOrEmpty(f.time), f.home, f.away)
  }

  /** Python's tuple `<=`: the first differing component decides. */
  predicate KeyLe(a: SortKey, b: SortKey) {
    if a.0 != b.0 then StrLe(a.0, b.0)
    else if a.1 != b.1 then StrLe(a.1, b.1)
    else if a.2 != b.2 then StrLe(a.2, b.2)
    else StrLe(a.3, b.3)
  }

  /** Python's tuple `<`. */
  predicate KeyLt(a: SortKey, b: SortKey) {
    KeyLe(a, b) && a != b
  }

  lemma KeyLeReflexive(a: SortKey)
    ensures KeyLe(a, a)
  {
    StrLeReflexive(a.3);
  }

  lemma KeyLeTotal(a: SortKey, b: SortKey)
    ensures KeyLe(a, b) || KeyLe(b, a)
  {
    StrLeTotal(a.0, b.0);
    StrLeTotal(a.1, b.1);
    StrLeTotal(a.2, b.2);
    StrLeTotal(a.3, b.3);
  }

  lemma KeyLeAntisymmetric(a: SortKey, b: SortKey)
    requires KeyLe(a, b) && KeyLe(b, a)
    ensures a == b
  {
    if a.0 != b.0 {
      StrLeAntisymmetric(a.0, b.0);
    } else if a.1 != b.1 {
      StrLeAntisymmetric(a.1, b.1);
    } else if a.2 != b.2 {
      StrLeAntisymmetric(a.2, b.2);
    } else {
      StrLeAntisymmetric(a.3, b.3);
    }
  }

  lemma KeyLeTransitive(a: SortKey, b: SortKey, c: SortKey)
    requires KeyLe(a, b) && KeyLe(b, c)
    ensures KeyLe(a, c)
  {
    if a == b || b == c {
    } else if a.0 != b.0 || b.0 != c.0 {
      if a.0 != b.0 && b.0 != c.0 && a.0 != c.0 {
        StrLeTransitive(a.0, b.0, c.0);
      } else if a.0 == c.0 {
        StrLeAntisymmetric(a.0, b.0);
      }
    } else if a.1 != b.1 || b.1 != c.1 {
      if a.1 != b.1 && b.1 != c.1 && a.1 != c.1 {
        StrLeTransitive(a.1, b.1, c.1);
      } else if a.1 == c.1 {
        StrLeAntisymmetric(a.1, b.1);
      }
    } else if a.2 != b.2 || b.2 != c.2 {
      if a.2 != b.2 && b.2 != c.2 && a.2 != c.2 {
        StrLeTransitive(a.2, b.2, c.2);
      } else if a.2 == c.2 {
        StrLeAntisymmetric(a.2, b.2);
      }
    } else {
      StrLeTransitive(a.3, b.3, c.3);
    }
  }

  // ---------------------------------------------------------------------
  // sorted(fixtures, key=...)

  predicate Sorted(fs: seq<Fixture>) {
    forall i, j :: 0 <= i < j < |fs| ==> KeyLe(SortKeyOf(fs[i]), SortKeyOf(fs[j]))
  }

  /** Places `f` after every fixture whose key is not greater, so that
      fixtures with equal keys keep their order. */
  function Insert(f: Fixture, fs: seq<Fixture>): seq<Fixture> {
    if fs == [] then [f]
    else if KeyLt(SortKeyOf(f), SortKeyOf(fs[0])) then [f] + fs
    else [fs[0]] + Insert(f, fs[1..])
  }

  /** `sorted(...)`: a stable sort by the sort key. */
  function Sort(fs: seq<Fixture>): seq<Fixture>
    decreases |fs|
  {
    if fs == [] then [] else Insert(fs[|fs| - 1], Sort(fs[..|fs| - 1]))
  }

  lemma {:induction false} InsertPermutes(f: Fixture, fs: seq<Fixture>)
    ensures multiset(Insert(f, fs)) == multiset(fs) + multiset{f}
  {
    if fs != [] && !KeyLt(SortKeyOf(f), SortKeyOf(fs[0])) {
      InsertPermutes(f, fs[1..]);
      assert fs == [fs[0]] + fs[1..];
    }
  }

  lemma SortedCons(x: Fixture, s: seq<Fixture>)
    requires Sorted(s) && forall y :: y in s ==> KeyLe(SortKeyOf(x), SortKeyOf(y))
    ensures Sorted([x] + s)
  {
    var r := [x] + s;
    forall i, j | 0 <= i < j < |r|
      ensures KeyLe(SortKeyOf(r[i]), SortKeyOf(r[j]))
    {
      if i == 0 {
        assert r[j] in s;
      } else {
        assert r[i] == s[i - 1] && r[j] == s[j - 1];
      }
    }
  }

  lemma {:induction false} InsertSorted(f: Fixture, fs: seq<Fixture>)
    requires Sorted(fs)
    ensures Sorted(Insert(f, fs))
  {
    if fs == [] {
    } else if KeyLt(SortKeyOf(f), SortKeyOf(fs[0])) {
      forall y | y in fs
        ensures KeyLe(SortKeyOf(f), SortKeyOf(y))
      {
        var j :| 0 <= j < |fs| && fs[j] == y;
        if j > 0 {
          KeyLeTransitive(SortKeyOf(f), SortKeyOf(fs[0]), SortKeyOf(y));
        }
      }
      SortedCons(f, fs);
    } else {
      var x, rest := fs[0], fs[1..];
      assert Sorted(rest);
      InsertSorted(f, rest);
      InsertPermutes(f, rest);
      KeyLeTotal(SortKeyOf(f), SortKeyOf(x));
      KeyLeReflexive(SortKeyOf(x));
      forall y | y in Insert(f, rest)
        ensures KeyLe(SortKeyOf(x), SortKeyOf(y))
      {
        assert y in multiset(rest) + multiset{f};
        if y != f {
          var j :| 0 <= j < |rest| && rest[j] == y;
          assert fs[j + 1] == y;
        }
      }
      SortedCons(x, Insert(f, rest));
    }
  }

  lemma MultisetSnoc(fs: seq<Fixture>)
    requires fs != []
    ensures multiset(fs) == multiset(fs[..|fs| - 1]) + multiset{fs[|fs| - 1]}
  {
    assert fs == fs[..|fs| - 1] + [fs[|fs| - 1]];
  }

  /** The sorted list holds the same fixtures. */
  lemma {:induction false} SortPermutes(fs: seq<Fixture>)
    ensures multiset(Sort(fs)) == multiset(fs)
    decreases |fs|
  {
    if fs != [] {
      var init := fs[..|fs| - 1];
      SortPermutes(init);
      InsertPermutes(fs[|fs| - 1], Sort(init));
      MultisetSnoc(fs);
    }
  }

  /** The sorted list is ordered by the key. */
  lemma {:induction false} SortSorts(fs: seq<Fixture>)
    ensures Sorted(Sort(fs))
    decreases |fs|
  {
    if fs != [] {
      var init := fs[..|fs| - 1];
      SortSorts(init);
      InsertSorted(fs[|fs| - 1], Sort(init));
    }
  }

  lemma SortKeyMatchesKey(f: Fixture, g: Fixture)
    ensures SortKeyOf(f) == SortKeyOf(g) <==> KeyOf(f) == KeyOf(g)
  {
  }

  /** Two sorted lists of the same fixtures start with the same fixture,
      when fixtures with equal keys are equal. */
  lemma SortedHeads(a: seq<Fixture>, b: seq<Fixture>)
    requires a != [] && Sorted(a) && Sorted(b) && multiset(a) == multiset(b)
    requires forall f, g :: f in a && g in a && KeyOf(f) == KeyOf(g) ==> f == g
    ensures b != [] && a[0] == b[0]
  {
    assert a[0] in multiset(b);
    assert b[0] in multiset(a);
    var i :| 0 <= i < |b| && b[i] == a[0];
    var j :| 0 <= j < |a| && a[j] == b[0];
    KeyLeReflexive(SortKeyOf(a[0]));
    KeyLeReflexive(SortKeyOf(b[0]));
    assert KeyLe(SortKeyOf(b[0]), SortKeyOf(a[0])) by {
      if i > 0 {
        assert KeyLe(SortKeyOf(b[0]), SortKeyOf(b[i]));
      }
    }
    assert KeyLe(SortKeyOf(a[0]), SortKeyOf(b[0])) by {
      if j > 0 {
        assert KeyLe(SortKeyOf(a[0]), SortKeyOf(a[j]));
      }
    }
    KeyLeAntisymmetric(SortKeyOf(a[0]), SortKeyOf(b[0]));
    SortKeyMatchesKey(a[0], b[0]);
  }

  lemma MultisetTail(a: seq<Fixture>)
    requires a != []
    ensures multiset(a[1..]) == multiset(a) - multiset{a[0]}
  {
    assert a == [a[0]] + a[1..];
  }

  /** Two sorted lists of the same fixtures are equal, when fixtures with
      equal keys are equal. */
  lemma {:induction false} SortedUnique(a: seq<Fixture>, b: seq<Fixture>)
    requires Sorted(a) && Sorted(b) && multiset(a) == multiset(b)
    requires forall f, g :: f in a && g in a && KeyOf(f) == KeyOf(g) ==> f == g
    ensures a == b
    decreases |a|
  {
    if a == [] {
      assert |b| == |multiset(b)| == 0;
    } else {
      SortedHeads(a, b);
      MultisetTail(a);
      MultisetTail(b);
      assert multiset(a[1..]) == multiset(b[1..]);
      SortedUnique(a[1..], b[1..]);
      assert a == [a[0]] + a[1..];
      assert b == [b[0]] + b[1..];
    }
  }

  // ---------------------------------------------------------------------
  // hexdigest()

  /** An octet of the digest. */
  newtype byte = b: int | 0 <= b < 256

  /** The lower-case hexadecimal digit of a nibble. */
  function HexDigit(n: int): char
    requires 0 <= n < 16
  {
    if n < 10 then ('0' as int + n) as char else ('a' as int + n - 10) as char
  }

  predicate IsHexDigit(c: char) {
    '0' <= c <= '9' || 'a' <= c <= 'f'
  }

  /** `hexdigest()`: two lower-case hexadecimal digits per byte, high
      nibble first. */
  function Hex(bytes: seq<byte>): (h: string)
    ensures |h| == 2 * |bytes|
  {
    if bytes == [] then []
    else [HexDigit(bytes[0] as int / 16), HexDigit(bytes[0] as int % 16)] + Hex(bytes[1..])
  }

  /** Every character of a digest's text is a hexadecimal digit. */
  lemma {:induction false} HexDigitsOnly(bytes: seq<byte>)
    ensures forall i :: 0 <= i < |Hex(bytes)| ==> IsHexDigit(Hex(bytes)[i])
  {
    if bytes != [] {
      HexDigitsOnly(bytes[1..]);
    }
  }

  lemma HexDigitInjective(m: int, n: int)
    requires 0 <= m < 16 && 0 <= n < 16 && HexDigit(m) == HexDigit(n)
    ensures m == n
  {
  }

  lemma NibblesDetermine(p: int, q: int)
    requires 0 <= p && 0 <= q && p / 16 == q / 16 && p % 16 == q % 16
    ensures p == q
  {
    assert p == 16 * (p / 16) + p % 16;
    assert q == 16 * (q / 16) + q % 16;
  }

  lemma ByteOfNibbles(x: byte, y: byte)
    requires HexDigit(x as int / 16) == HexDigit(y as int / 16)
    requires HexDigit(x as int % 16) == HexDigit(y as int % 16)
    ensures x == y
  {
    var p, q := x as int, y as int;
    HexDigitInjective(p / 16, q / 16);
    HexDigitInjective(p % 16, q % 16);
    NibblesDetermine(p, q);
  }

  /** Different digests have different texts. */
  lemma {:induction false} HexInjective(a: seq<byte>, b: seq<byte>)
    requires Hex(a) == Hex(b)
    ensures a == b
  {
    if a != [] {
      var ha, hb := Hex(a), Hex(b);
      assert ha[0] == hb[0] && ha[1] == hb[1];
      ByteOfNibbles(a[0], b[0]);
      assert Hex(a[1..]) == ha[2..] == hb[2..] == Hex(b[1..]);
      HexInjective(a[1..], b[1..]);
      assert a == [a[0]] + a[1..];
      assert b == [b[0]] + b[1..];
    }
  }

  /** A digest's text has no whitespace to strip, so `.strip()` on the
      stored fingerprint gives it back unchanged. */
  lemma StripHex(bytes: seq<byte>)
    ensures Strip(Hex(bytes)) == Hex(bytes)
  {
    var h := Hex(bytes);
    HexDigitsOnly(bytes);
    if h != [] {
      forall c | IsHexDigit(c)
        ensures !IsSpace(c)
      {
        if IsSpace(c) {
          IsSpaceBounds(c, 0);
        }
      }
      assert IsHexDigit(h[0]) && IsHexDigit(h[|h| - 1]);
    }
  }

  // ---------------------------------------------------------------------
  // compute_hash

  /** A SHA-256 digest is 32 bytes long. */
  const DigestSize := 32

  /** The bytes of `hashlib.sha256(...)`, of which `hexdigest()` is the text. */
  type Digest = d: seq<byte> | |d| == DigestSize witness seq(DigestSize, i => 0)

  /** `compute_hash(fixtures)`, with the JSON serialisation and SHA-256 of
      the sorted list as `digest`. */
  function ComputeHash(digest: seq<Fixture> -> Digest, fs: seq<Fixture>): string {
    Hex(digest(Sort(fs)))
  }

  /** The fingerprint has two hexadecimal digits per digest byte. */
  lemma HashLength(digest: seq<Fixture> -> Digest, fs: seq<Fixture>)
    ensures |ComputeHash(digest, fs)| == 2 * DigestSize
    ensures forall i :: 0 <= i < |ComputeHash(digest, fs)| ==> IsHexDigit(ComputeHash(digest, fs)[i])
  {
    HexDigitsOnly(digest(Sort(fs)));
  }

  /** The fingerprint does not depend on the order of the fixtures, as long
      as fixtures with equal keys are equal: the de-duplicated list of the
      scraper, or any list whose times are never empty strings. */
  lemma HashIgnoresOrder(digest: seq<Fixture> -> Digest, fs: seq<Fixture>, gs: seq<Fixture>)
    requires KeyDetermines(fs) && multiset(fs) == multiset(gs)
    ensures ComputeHash(digest, fs) == ComputeHash(digest, gs)
  {
    SortSorts(fs);
    SortSorts(gs);
    SortPermutes(fs);
    SortPermutes(gs);
    var a := Sort(fs);
    forall f, g | f in a && g in a && KeyOf(f) == KeyOf(g)
      ensures f == g
    {
      assert f in multiset(fs) && g in multiset(fs);
      var i :| 0 <= i < |fs| && fs[i] == f;
      var j :| 0 <= j < |fs| && fs[j] == g;
    }
    SortedUnique(a, Sort(gs));
  }

  /** Equal fingerprints mean equal digests of the sorted fixtures. */
  lemma HashDeterminesDigest(digest: seq<Fixture> -> Digest, fs: seq<Fixture>, gs: seq<Fixture>)
    requires ComputeHash(digest, fs) == ComputeHash(digest, gs)
    ensures digest(Sort(fs)) == digest(Sort(gs))
  {
    HexInjective(digest(Sort(fs)), digest(Sort(gs)));
  }
}
