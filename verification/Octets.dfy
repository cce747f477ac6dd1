/** Bytes as bit vectors. */
module Octets {
  /** The low byte of a number. */
  function Octet(v: nat): bv8 { (v % 256) as bv8 }

  function Value(b: bv8): nat { b as nat }

  lemma NextValue(b: bv8)
    requires b != 0xff
    ensures Value(b + 1) == Value(b) + 1
  {
  }

  lemma ValueBack(b: bv8)
    ensures Octet(Value(b)) == b
  {
    ValueFits(b);
    SmallMod(Value(b));
  }

  lemma ValueFits(b: bv8)
    ensures Value(b) < 256 && Value(0) == 0 && Value(0xff) == 255
  {
  }

  lemma SmallMod(v: nat)
    requires v < 256
    ensures v % 256 == v
  {
  }

  lemma {:induction false} SmallOctet(v: nat)
    requires v < 256
    ensures Value(Octet(v)) == v
  {
    hide *;
    ValueFits(0);
    ValueBack(0);
    if v > 0 {
      SmallOctet(v - 1);
      var b := Octet(v - 1);
      NextValue(b);
      ValueBack(b + 1);
    }
  }

  lemma OctetIs(v: nat)
    ensures Octet(v) as int == v % 256
  {
    hide Octet;
    SmallOctet(v % 256);
    SameOctet(v);
  }

  lemma SameOctet(v: nat)
    ensures Octet(v % 256) == Octet(v)
  {
    assert v % 256 % 256 == v % 256 by {
      hide *;
      SmallMod(v % 256);
    }
  }
}
