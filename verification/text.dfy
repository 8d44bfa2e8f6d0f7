/** Strings as the orchestrator uses them: byte-wise order, decimal rendering, sorted name lists. */
module Text {

  /** Strict byte-wise order, the order `sort.Strings` sorts by. */
  predicate LexLess(a: string, b: string)
    decreases |a|
  {
    && b != []
    && (a == [] || a[0] < b[0] || (a[0] == b[0] && LexLess(a[1..], b[1..])))
  }

  lemma {:induction false} LexIrreflexive(a: string)
    ensures !LexLess(a, a)
    decreases |a|
  {
    if a != [] { LexIrreflexive(a[1..]); }
  }

  lemma {:induction false} LexTransitive(a: string, b: string, c: string)
    requires LexLess(a, b) && LexLess(b, c)
    ensures LexLess(a, c)
    decreases |a|
  {
    if a != [] && a[0] == b[0] && b[0] == c[0] { LexTransitive(a[1..], b[1..], c[1..]); }
  }

  lemma {:induction false} LexTotal(a: string, b: string)
    ensures a == b || LexLess(a, b) || LexLess(b, a)
    decreases |a|
  {
    if a == [] {
    } else if b != [] && a[0] == b[0] {
      LexTotal(a[1..], b[1..]);
      assert a == [a[0]] + a[1..] && b == [b[0]] + b[1..];
    }
  }

  lemma LexAsymmetric(a: string, b: string)
    requires LexLess(a, b)
    ensures !LexLess(b, a)
  {
    if LexLess(b, a) {
      LexTransitive(a, b, a);
      LexIrreflexive(a);
    }
  }

  /** Strings made of fields of fixed width compare field by field. */
  lemma {:induction false} LexConcat(a: string, x: string, b: string, y: string)
    requires |a| == |b|
    ensures LexLess(a + x, b + y) <==> LexLess(a, b) || (a == b && LexLess(x, y))
    decreases |a|
  {
    if a == [] {
      assert a + x == x && b + y == y;
    } else {
      assert (a + x)[1..] == a[1..] + x && (b + y)[1..] == b[1..] + y;
      LexConcat(a[1..], x, b[1..], y);
      assert a == b <==> a[0] == b[0] && a[1..] == b[1..] by {
        assert a == [a[0]] + a[1..] && b == [b[0]] + b[1..];
      }
    }
  }

  // ---- decimal rendering ----

  function Pow10(w: nat): (r: nat)
    ensures r > 0
  {
    if w == 0 then 1 else 10 * Pow10(w - 1)
  }

  function Digit(d: nat): (c: char)
    requires d < 10
    ensures '0' <= c <= '9'
  {
    '0' + d as char
  }

  predicate AllDigits(s: string) {
    forall i :: 0 <= i < |s| ==> '0' <= s[i] <= '9'
  }

  /** `%0wd` of a number that fits in w digits. */
  function Padded(n: nat, w: nat): (s: string)
    requires n < Pow10(w)
    ensures |s| == w && AllDigits(s)
    decreases w
  {
    if w == 0 then "" else Padded(n / 10, w - 1) + [Digit(n % 10)]
  }

  lemma {:induction false} PaddedOrder(n: nat, m: nat, w: nat)
    requires n < Pow10(w) && m < Pow10(w)
    ensures LexLess(Padded(n, w), Padded(m, w)) <==> n < m
    ensures Padded(n, w) == Padded(m, w) <==> n == m
    decreases w
  {
    if w > 0 {
      var p, q := Padded(n / 10, w - 1), Padded(m / 10, w - 1);
      var x, y := [Digit(n % 10)], [Digit(m % 10)];
      PaddedOrder(n / 10, m / 10, w - 1);
      LexConcat(p, x, q, y);
      assert LexLess(x, y) <==> n % 10 < m % 10;
      assert p + x == q + y <==> p == q && x == y by {
        assert p == (p + x)[..w - 1] && q == (q + y)[..w - 1];
        assert x == (p + x)[w - 1..] && y == (q + y)[w - 1..];
      }
    }
  }

  /** `%d` of a natural number. */
  function Decimal(n: nat): (s: string)
    ensures |s| > 0 && AllDigits(s)
  {
    if n < 10 then [Digit(n)] else Decimal(n / 10) + [Digit(n % 10)]
  }

  /** `%d` of an integer. */
  function Itoa(n: int): (s: string)
    ensures |s| > 0 && ':' !in s && (s[0] == '-' <==> n < 0)
  {
    if n < 0 then ['-'] + Decimal(-n) else Decimal(n)
  }

  lemma {:induction false} DecimalInjective(n: nat, m: nat)
    requires Decimal(n) == Decimal(m)
    ensures n == m
    decreases n
  {
    var s, t := Decimal(n), Decimal(m);
    assert s[|s| - 1] == Digit(n % 10) && t[|t| - 1] == Digit(m % 10);
    if n >= 10 && m >= 10 {
      assert s[..|s| - 1] == Decimal(n / 10) && t[..|t| - 1] == Decimal(m / 10);
      DecimalInjective(n / 10, m / 10);
    }
  }

  /** The "address:port" key under which an endpoint is remembered. */
  function EndpointKey(ip: string, port: int): string {
    ip + ":" + Itoa(port)
  }

  /** An address may itself contain colons; the key still names one endpoint. */
  lemma EndpointKeyInjective(ip1: string, port1: int, ip2: string, port2: int)
    requires EndpointKey(ip1, port1) == EndpointKey(ip2, port2)
    ensures ip1 == ip2 && port1 == port2
  {
    var x, y := Itoa(port1), Itoa(port2);
    var k := EndpointKey(ip1, port1);
    assert k == EndpointKey(ip2, port2);
    assert k[|ip1|] == ':' && k[|ip2|] == ':';
    assert forall i :: |ip1| < i < |k| ==> k[i] == x[i - |ip1| - 1];
    assert forall i :: |ip2| < i < |k| ==> k[i] == y[i - |ip2| - 1];
    assert |ip1| == |ip2|;
    assert ip1 == k[..|ip1|] && ip2 == k[..|ip2|];
    assert x == k[|ip1| + 1..] && y == k[|ip2| + 1..];
    ItoaInjective(port1, port2);
  }

  lemma ItoaInjective(a: int, b: int)
    requires Itoa(a) == Itoa(b)
    ensures a == b
  {
    if a < 0 && b < 0 {
      assert Decimal(-a) == Itoa(a)[1..] && Decimal(-b) == Itoa(b)[1..];
      DecimalInjective(-a, -b);
    } else if a >= 0 && b >= 0 {
      DecimalInjective(a, b);
    }
  }

  // ---- sorted lists of names ----

  ghost predicate Ascending(s: seq<string>) {
    forall i, j :: 0 <= i < j < |s| ==> LexLess(s[i], s[j])
  }

  function Elements<T>(s: seq<T>): set<T> {
    set x | x in s
  }

  function Insert(x: string, s: seq<string>): (r: seq<string>)
    ensures Elements(r) == Elements(s) + {x}
  {
    if s == [] then [x]
    else if LexLess(x, s[0]) then
      var r := [x] + s;
      assert forall y :: y in r <==> y == x || y in s;
      r
    else
      var t := Insert(x, s[1..]);
      var r := [s[0]] + t;
      assert s == [s[0]] + s[1..];
      assert forall y :: y in t <==> y in Elements(t);
      assert forall y :: y in s[1..] <==> y in Elements(s[1..]);
      assert forall y :: y in r <==> y == x || y in s;
      r
  }

  lemma {:induction false} InsertAscending(x: string, s: seq<string>)
    requires Ascending(s) && x !in s
    ensures Ascending(Insert(x, s))
  {
    if s == [] {
    } else if LexLess(x, s[0]) {
      var r := [x] + s;
      forall i, j | 0 <= i < j < |r| ensures LexLess(r[i], r[j]) {
        if i == 0 && j > 1 { LexTransitive(x, s[0], s[j - 1]); }
      }
    } else {
      LexTotal(x, s[0]);
      InsertAscending(x, s[1..]);
      var t := Insert(x, s[1..]);
      forall j | 0 <= j < |t| ensures LexLess(s[0], t[j]) {
        assert t[j] in Elements(t);
        if t[j] != x {
          assert t[j] in s[1..];
        }
      }
    }
  }

  /** What `sort.Strings` makes of a list without repetitions. */
  ghost function SortedOf(names: set<string>): (r: seq<string>)
    ensures Ascending(r) && Elements(r) == names
  {
    if names == {} then []
    else
      var x :| x in names;
      var rest := SortedOf(names - {x});
      assert x !in rest by { assert x !in Elements(rest); }
      InsertAscending(x, rest);
      Insert(x, rest)
  }

  lemma {:induction false} AscendingUnique(a: seq<string>, b: seq<string>)
    requires Ascending(a) && Ascending(b) && Elements(a) == Elements(b)
    ensures a == b
  {
    if a == [] {
      assert forall i :: 0 <= i < |b| ==> b[i] in Elements(b);
    } else {
      assert a[0] in Elements(b) && b != [];
      assert b[0] in Elements(a);
      HeadIsLeast(a, b[0]);
      HeadIsLeast(b, a[0]);
      if a[0] != b[0] { LexAsymmetric(a[0], b[0]); }
      TailElements(a);
      TailElements(b);
      AscendingUnique(a[1..], b[1..]);
      assert a == [a[0]] + a[1..] && b == [b[0]] + b[1..];
    }
  }

  lemma HeadIsLeast(a: seq<string>, x: string)
    requires Ascending(a) && x in a
    ensures a[0] == x || LexLess(a[0], x)
  {
  }

  lemma TailElements(a: seq<string>)
    requires Ascending(a) && a != []
    ensures Elements(a[1..]) == Elements(a) - {a[0]}
  {
    LexIrreflexive(a[0]);
    assert a == [a[0]] + a[1..];
    assert forall x :: x in a <==> x == a[0] || x in a[1..];
  }

  lemma {:induction false} AscendingLength(a: seq<string>)
    requires Ascending(a)
    ensures |Elements(a)| == |a|
  {
    if a != [] {
      TailElements(a);
      AscendingLength(a[1..]);
      assert a[0] in Elements(a);
    }
  }

  /** Sorting names that come in no particular order. */
  method Sort(names: set<string>) returns (r: seq<string>)
    ensures r == SortedOf(names)
  {
    r := [];
    var left := names;
    while left != {}
      invariant left <= names && Ascending(r) && Elements(r) == names - left
      decreases left
    {
      var x :| x in left;
      assert x !in r by { assert x !in Elements(r); }
      InsertAscending(x, r);
      r := Insert(x, r);
      left := left - {x};
    }
    AscendingUnique(r, SortedOf(names));
  }
}
