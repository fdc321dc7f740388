/** Decimal printing and the "a:b" style key formats that several maps are indexed by. */
module Text {

  function Digit(d: nat): (c: char)
    requires d < 10
    ensures '0' <= c <= '9'
  {
    '0' + d as char
  }

  /** strconv.Itoa on naturals: no sign, no leading zero. */
  function Itoa(n: nat): (s: string)
    ensures s != [] && (|s| == 1 <==> n < 10)
    ensures forall c | c in s :: '0' <= c <= '9'
  {
    if n < 10 then [Digit(n)] else Itoa(n / 10) + [Digit(n % 10)]
  }

  lemma {:induction false} ItoaInjective(a: nat, b: nat)
    requires Itoa(a) == Itoa(b)
    ensures a == b
  {
    var s := Itoa(a);
    if a < 10 {
      assert s[0] == Digit(a) == Digit(b);
    } else {
      assert Itoa(a / 10) == s[..|s| - 1] == Itoa(b / 10);
      ItoaInjective(a / 10, b / 10);
      assert s[|s| - 1] == Digit(a % 10) == Digit(b % 10);
    }
  }

  /** The number that a string of digits denotes. */
  function Value(s: string): int {
    if s == [] then 0 else 10 * Value(s[..|s| - 1]) + (s[|s| - 1] as int - '0' as int)
  }

  /** Printing is decimal, without leading zeros. */
  lemma {:induction false} ItoaIsDecimal(n: nat)
    ensures Value(Itoa(n)) == n && (Itoa(n)[0] == '0' <==> n == 0)
  {
    if n >= 10 {
      ItoaIsDecimal(n / 10);
    }
  }

  /** The position of the last separator is fixed by the whole string. */
  lemma LastSeparator(a: string, b: string, sep: char)
    requires sep !in b
    ensures var s := a + [sep] + b; s[|a|] == sep && forall i | |a| < i < |s| :: s[i] != sep
  {
  }

  /** Splitting at the last separator is unambiguous. */
  lemma SplitAtLast(a1: string, b1: string, a2: string, b2: string, sep: char)
    requires sep !in b1 && sep !in b2
    requires a1 + [sep] + b1 == a2 + [sep] + b2
    ensures a1 == a2 && b1 == b2
  {
    var s1, s2 := a1 + [sep] + b1, a2 + [sep] + b2;
    LastSeparator(a1, b1, sep);
    LastSeparator(a2, b2, sep);
    assert |a1| == |a2|;
    assert a1 == s1[..|a1|] && a2 == s2[..|a2|];
    assert b1 == s1[|a1| + 1..] && b2 == s2[|a2| + 1..];
  }

  function HostPort(host: string, port: nat): string {
    host + ":" + Itoa(port)
  }

  /** "host:port/protocol", the format of ServiceKey.String, SNATRule.Key and ForwardRule.Key. */
  function HostPortProto(host: string, port: nat, protocol: string): string {
    HostPort(host, port) + "/" + protocol
  }

  lemma HostPortInjective(h1: string, p1: nat, h2: string, p2: nat)
    requires HostPort(h1, p1) == HostPort(h2, p2)
    ensures h1 == h2 && p1 == p2
  {
    SplitAtLast(h1, Itoa(p1), h2, Itoa(p2), ':');
    ItoaInjective(p1, p2);
  }

  /** No host, not even one full of colons or slashes, makes two different triples share a key. */
  lemma HostPortProtoInjective(h1: string, p1: nat, t1: string, h2: string, p2: nat, t2: string)
    requires '/' !in t1 && '/' !in t2
    requires HostPortProto(h1, p1, t1) == HostPortProto(h2, p2, t2)
    ensures h1 == h2 && p1 == p2 && t1 == t2
  {
    SplitAtLast(HostPort(h1, p1), t1, HostPort(h2, p2), t2, '/');
    HostPortInjective(h1, p1, h2, p2);
  }
}
