/** IPv4 addresses in dotted decimal. */
module Addresses {
  import opened Bytes
  import opened Names
  import opened Wrappers

  function Digit(d: nat): char
    requires d < 10
  {
    '0' + d as char
  }

  function Decimal(n: nat): string {
    if n < 10 then [Digit(n)] else Decimal(n / 10) + [Digit(n % 10)]
  }

  /** `int`, on plain decimal digits; `None` is its `ValueError`. */
  function Number(s: string): Option<nat> {
    if s == "" || !('0' <= s[|s| - 1] <= '9') then None
    else
      var d := s[|s| - 1] as nat - '0' as nat;
      if |s| == 1 then Some(d)
      else match Number(s[..|s| - 1])
           case None => None
           case Some(n) => Some(10 * n + d)
  }

  lemma {:induction false} NumberOfDecimal(n: nat)
    ensures Number(Decimal(n)) == Some(n) && '.' !in Decimal(n)
  {
    if n >= 10 {
      NumberOfDecimal(n / 10);
      var s := Decimal(n);
      assert s[..|s| - 1] == Decimal(n / 10);
    }
  }

  function Labels(b: bytes): seq<string> {
    if b == [] then [] else [Decimal(b[0])] + Labels(b[1..])
  }

  /** The text of an address: its bytes in decimal, joined by dots. */
  function Dotted(b: bytes): string {
    Join(Labels(b))
  }

  /** Four bytes in order, each in decimal. */
  lemma DottedFour(a: byte, b: byte, c: byte, d: byte)
    ensures Dotted([a, b, c, d]) == Decimal(a) + "." + Decimal(b) + "." + Decimal(c) + "." + Decimal(d)
  {
    hide Decimal, Labels, Join;
    LabelsCons(a, [b, c, d]);
    LabelsCons(b, [c, d]);
    LabelsCons(c, [d]);
    LabelsCons(d, []);
    JoinFour(Decimal(a), Decimal(b), Decimal(c), Decimal(d));
    assert [a] + [b, c, d] == [a, b, c, d] && [b] + [c, d] == [b, c, d] && [c] + [d] == [c, d] && [d] + [] == [d];
    assert Labels([a, b, c, d]) == [Decimal(a)] + ([Decimal(b)] + ([Decimal(c)] + ([Decimal(d)] + [])))
        == [Decimal(a), Decimal(b), Decimal(c), Decimal(d)];
  }

  lemma LabelsCons(a: byte, rest: bytes)
    ensures Labels([a] + rest) == [Decimal(a)] + Labels(rest) && Labels([]) == []
  {
    assert ([a] + rest)[1..] == rest;
  }

  lemma JoinFour(a: string, b: string, c: string, d: string)
    ensures Join([a, b, c, d]) == a + "." + b + "." + c + "." + d
  {
    hide Join;
    JoinAppend([a], [b, c, d]);
    JoinAppend([b], [c, d]);
    JoinAppend([c], [d]);
    JoinOne(a);
    JoinOne(b);
    JoinOne(c);
    JoinOne(d);
    assert [a, b, c, d] == [a] + [b, c, d] && [b, c, d] == [b] + [c, d] && [c, d] == [c] + [d];
    assert a + "." + (b + "." + (c + "." + d)) == a + "." + b + "." + c + "." + d;
  }

  lemma JoinOne(a: string)
    ensures Join([a]) == a
  {
  }

  /** `bytes` of a list of labels; a label that is no number, or not below 256, is a `ValueError`. */
  function OctetsOf(labels: seq<string>): Option<bytes> {
    if labels == [] then Some([])
    else match Number(labels[0])
         case None => None
         case Some(n) =>
           if n >= 256 then None
           else match OctetsOf(labels[1..])
                case None => None
                case Some(rest) => Some([n] + rest)
  }

  function Octets(s: string): Option<bytes> {
    OctetsOf(Split(s))
  }

  lemma {:induction false} SplitJoin(labels: seq<string>)
    requires labels != [] && forall l | l in labels :: '.' !in l
    ensures Split(Join(labels)) == labels
  {
    hide Split;
    SplitDotless(labels[0]);
    if |labels| > 1 {
      SplitJoin(labels[1..]);
      SplitAppend(labels[0], Join(labels[1..]));
      assert [labels[0]] + labels[1..] == labels;
    } else {
      assert labels == [labels[0]];
    }
  }

  lemma {:induction false} LabelsRoundTrip(b: bytes)
    ensures OctetsOf(Labels(b)) == Some(b)
    ensures |Labels(b)| == |b| && forall l | l in Labels(b) :: '.' !in l
  {
    if b == [] {
    } else {
      NumberOfDecimal(b[0]);
      LabelsRoundTrip(b[1..]);
      assert Labels(b)[1..] == Labels(b[1..]);
      assert [b[0]] + b[1..] == b;
    }
  }

  /** Text and bytes of an address determine each other. */
  lemma DottedRoundTrip(b: bytes)
    requires b != []
    ensures Octets(Dotted(b)) == Some(b)
  {
    LabelsRoundTrip(b);
    SplitJoin(Labels(b));
  }

  /** The text of a 32-bit address, as the address pool hands it out. */
  function AddressText(a: nat): string
    requires a < Pow256(4)
  {
    Dotted(Big(a, 4))
  }

  /** Different addresses have different texts, so a table by text is a table by address. */
  lemma AddressTextInjective(a: nat, b: nat)
    requires a < Pow256(4) && b < Pow256(4) && AddressText(a) == AddressText(b)
    ensures a == b
  {
    DottedRoundTrip(Big(a, 4));
    DottedRoundTrip(Big(b, 4));
    BigRoundTrip(a, 4);
    BigRoundTrip(b, 4);
  }
}
