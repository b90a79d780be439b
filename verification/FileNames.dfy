/**
 Snapshot files are read in the order of their names. The name starts with the
 timestamp, padded to 20 digits, so that order is the order of time and then hash.
 */
module FileNames {
  import opened Orders
  import opened Snapshots
  import opened Directory

  const WIDTH: nat := 20

  function Pow10(w: nat): (p: nat)
    ensures p > 0
  {
    if w == 0 then 1 else 10 * Pow10(w - 1)
  }

  function DecimalDigit(n: nat): (c: char)
    requires n < 10
  {
    ('0' as int + n) as char
  }

  /** The last `w` decimal digits of `n`, padded with zeros. */
  function Padded(n: nat, w: nat): (s: string)
    ensures |s| == w
  {
    if w == 0 then "" else Padded(n / 10, w - 1) + [DecimalDigit(n % 10)]
  }

  /** `<020-padded nanos>-<hash>.json`, for a timestamp of at most 20 digits. */
  function NameOf(f: File): (name: string)
    requires f.nanos < Pow10(WIDTH)
  {
    Padded(f.nanos, WIDTH) + ("-" + f.hash + ".json")
  }

  /** Texts that begin with equally long parts: the parts decide, and if they are equal the rests do. */
  lemma {:induction false} PartsDecide(x: string, y: string, s: string, t: string)
    requires |x| == |y|
    ensures StringLe(x + s, y + t) <==> if x == y then StringLe(s, t) else StringLe(x, y)
  {
    if x == "" {
      assert x + s == s && y + t == t;
    } else {
      assert (x + s)[1..] == x[1..] + s && (y + t)[1..] == y[1..] + t;
      assert x == [x[0]] + x[1..] && y == [y[0]] + y[1..];
      PartsDecide(x[1..], y[1..], s, t);
    }
  }

  /** Padded numbers compare as numbers. */
  lemma {:induction false} PaddedOrder(n: nat, m: nat, w: nat)
    requires n < Pow10(w) && m < Pow10(w)
    ensures StringLe(Padded(n, w), Padded(m, w)) <==> n <= m
    ensures Padded(n, w) == Padded(m, w) <==> n == m
  {
    if w > 0 {
      var x, y := Padded(n / 10, w - 1), Padded(m / 10, w - 1);
      PaddedOrder(n / 10, m / 10, w - 1);
      PartsDecide(x, y, [DecimalDigit(n % 10)], [DecimalDigit(m % 10)]);
      OneDigit(n % 10, m % 10);
      assert Padded(n, w)[..w - 1] == x && Padded(m, w)[..w - 1] == y;
      assert Padded(n, w)[w - 1] == DecimalDigit(n % 10) && Padded(m, w)[w - 1] == DecimalDigit(m % 10);
    }
  }

  lemma OneDigit(a: nat, b: nat)
    requires a < 10 && b < 10
    ensures StringLe([DecimalDigit(a)], [DecimalDigit(b)]) <==> a <= b
    ensures DecimalDigit(a) == DecimalDigit(b) <==> a == b
  {
  }

  /** Behind the timestamps, hashes of one length decide. */
  lemma RestOrder(h: Hash, k: Hash)
    requires |h| == |k|
    ensures StringLe("-" + h + ".json", "-" + k + ".json") <==> StringLe(h, k)
    ensures "-" + h + ".json" == "-" + k + ".json" <==> h == k
  {
    hide StringLe;
    assert "-" + h + ".json" == "-" + (h + ".json") && "-" + k + ".json" == "-" + (k + ".json");
    PartsDecide("-", "-", h + ".json", k + ".json");
    PartsDecide(h, k, ".json", ".json");
    StringLeReflexive(h);
    StringLeReflexive(".json");
    assert ("-" + h + ".json")[1..][..|h|] == h && ("-" + k + ".json")[1..][..|k|] == k;
  }

  lemma SameParts(x: string, y: string, s: string, t: string)
    requires |x| == |y|
    ensures x + s == y + t <==> x == y && s == t
  {
    assert (x + s)[..|x|] == x && (y + t)[..|y|] == y && (x + s)[|x|..] == s && (y + t)[|y|..] == t;
  }

  /** For timestamps of at most 20 digits and hashes of one length, the order of the names is time and then hash. */
  lemma NamesOrderByTime(a: File, b: File)
    requires a.nanos < Pow10(WIDTH) && b.nanos < Pow10(WIDTH) && |a.hash| == |b.hash|
    ensures StringLe(NameOf(a), NameOf(b)) <==> FileLe(a, b)
    ensures NameOf(a) == NameOf(b) <==> a == b
  {
    hide Padded, StringLe, Pow10;
    var x, y := Padded(a.nanos, WIDTH), Padded(b.nanos, WIDTH);
    PaddedOrder(a.nanos, b.nanos, WIDTH);
    RestOrder(a.hash, b.hash);
    PartsDecide(x, y, "-" + a.hash + ".json", "-" + b.hash + ".json");
    SameParts(x, y, "-" + a.hash + ".json", "-" + b.hash + ".json");
  }
}
