/** The text of an IPv4 address, as inet_ntop writes it. */
module DnsAddress {
  import opened Bytes
  import Domains

  type Address = d: seq<Byte> | |d| == 4 witness [0, 0, 0, 0]

  const TEXT_ROOM: nat := 16   // of the buffer for the text and its final 0

  function Digit(n: nat): char
    requires n < 10
  {
    ('0' as int + n) as char
  }

  /** Without leading zeros. */
  function Decimal(n: nat): string {
    if n < 10 then [Digit(n)] else Decimal(n / 10) + [Digit(n % 10)]
  }

  function Value(s: string): int {
    if s == "" then 0 else 10 * Value(s[..|s| - 1]) + (s[|s| - 1] as int - '0' as int)
  }

  /** Four numbers with dots between. */
  function AddressText(d: Address): string {
    Domains.Join([Decimal(d[0]), Decimal(d[1]), Decimal(d[2]), Decimal(d[3])])
  }

  /** The numbers between the dots. */
  function Numbers(s: string): (r: seq<int>)
    ensures |r| == |Domains.Split(s)|
  {
    var parts := Domains.Split(s);
    seq(|parts|, i requires 0 <= i < |parts| => Value(parts[i]))
  }

  lemma {:induction false} DecimalIs(n: nat)
    ensures Value(Decimal(n)) == n && Domains.DOT !in Decimal(n) && Decimal(n) != ""
    ensures n < 256 ==> |Decimal(n)| <= 3
    decreases n
  {
    if n >= 10 {
      DecimalIs(n / 10);
      assert Decimal(n)[..|Decimal(n)| - 1] == Decimal(n / 10);
      if n < 256 { DecimalShort(n / 10); }
    }
  }

  lemma DecimalShort(n: nat)
    requires n < 26
    ensures |Decimal(n)| <= 2
  {
  }

  /** The address can be read back from its text, and the text fits the buffer. */
  lemma AddressRoundTrip(d: Address)
    ensures Numbers(AddressText(d)) == d && |AddressText(d)| < TEXT_ROOM
  {
    var parts := [Decimal(d[0]), Decimal(d[1]), Decimal(d[2]), Decimal(d[3])];
    DecimalIs(d[0]);
    DecimalIs(d[1]);
    DecimalIs(d[2]);
    DecimalIs(d[3]);
    Domains.SplitOfJoin(parts);
    JoinOfFour(parts);
  }

  lemma JoinOfFour(p: seq<string>)
    requires |p| == 4
    ensures |Domains.Join(p)| == |p[0]| + |p[1]| + |p[2]| + |p[3]| + 3
  {
    var q, r, t := p[1..], p[2..], p[3..];
    assert q[1..] == r && r[1..] == t && q[0] == p[1] && r[0] == p[2] && t[0] == p[3];
    assert |Domains.Join(p)| == |p[0]| + 1 + |Domains.Join(q)|;
    assert |Domains.Join(q)| == |p[1]| + 1 + |Domains.Join(r)|;
  }
}
