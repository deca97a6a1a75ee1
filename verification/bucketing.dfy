/** A/B bucketing: `hashString` adds up the UTF-16 code units of the
    identifier, and `getTestGroup` puts an even sum in group A and an odd one
    in group B. */
module Bucketing {

  /** The two experiment groups. */
  datatype Group = A | B

  /** The UTF-16 code units of one character: the character itself below
      0x10000, a surrogate pair above. */
  function CodeUnits(c: char): (units: seq<nat>)
    ensures 1 <= |units| <= 2
    ensures forall k :: 0 <= k < |units| ==> units[k] < 0x10000
    ensures c as int < 0x10000 ==> units == [c as int]
    ensures c as int >= 0x10000 ==>
      && |units| == 2
      && 0xD800 <= units[0] < 0xDC00
      && 0xDC00 <= units[1] < 0xE000
      && 0x10000 + (units[0] - 0xD800) * 0x400 + (units[1] - 0xDC00) == c as int
  {
    var cp := c as int;
    if cp < 0x10000 then [cp]
    else [0xD800 + (cp - 0x10000) / 0x400, 0xDC00 + (cp - 0x10000) % 0x400]
  }

  /** The string as JavaScript sees it: its sequence of UTF-16 code units. */
  function Utf16(s: string): (units: seq<nat>)
    ensures |s| <= |units| <= 2 * |s|
    ensures forall k :: 0 <= k < |units| ==> units[k] < 0x10000
  {
    if s == [] then [] else Utf16(s[..|s| - 1]) + CodeUnits(s[|s| - 1])
  }

  /** A one-character string is that character's code units. */
  lemma Utf16Char(c: char)
    ensures Utf16([c]) == CodeUnits(c)
  {
    assert [c][..0] == [];
  }

  /** `units.reduce((acc, u) => acc + u, acc)`: a left fold. */
  function SumFrom(acc: nat, units: seq<nat>): nat
    decreases |units|
  {
    if units == [] then acc else SumFrom(acc + units[0], units[1..])
  }

  /** `hashString(str)`: `str.split('')` yields code units, and each one's
      `charCodeAt(0)` is added to a running total that starts at 0. */
  function Hash(s: string): (h: nat)
    ensures h <= 0xFFFF * |Utf16(s)| <= 0x1FFFE * |s|
  {
    SumFromBound(0, Utf16(s));
    SumFrom(0, Utf16(s))
  }

  /** A fold over code units adds at most 0xFFFF per unit. */
  lemma {:induction false} SumFromBound(acc: nat, units: seq<nat>)
    requires forall k :: 0 <= k < |units| ==> units[k] < 0x10000
    ensures SumFrom(acc, units) <= acc + 0xFFFF * |units|
    decreases |units|
  {
    if units != [] {
      SumFromBound(acc + units[0], units[1..]);
    }
  }

  /** What one character adds to the hash. */
  function Weight(c: char): nat
  {
    Hash([c])
  }

  /** `getTestGroup(userId)`: the group depends only on how many of the
      id's characters have an odd weight. */
  function GetTestGroup(id: string): (g: Group)
    ensures g == A <==> Hash(id) % 2 == 0
    ensures g == A <==> OddCount(id) % 2 == 0
  {
    HashIsWeightSum(id);
    WeightSumParity(id);
    if Hash(id) % 2 == 0 then A else B
  }

  lemma {:induction false} SumFromAcc(acc: nat, units: seq<nat>)
    ensures SumFrom(acc, units) == acc + SumFrom(0, units)
    decreases |units|
  {
    if units != [] {
      SumFromAcc(acc + units[0], units[1..]);
      SumFromAcc(units[0], units[1..]);
    }
  }

  lemma {:induction false} SumFromAppend(u: seq<nat>, v: seq<nat>)
    ensures SumFrom(0, u + v) == SumFrom(0, u) + SumFrom(0, v)
    decreases |u|
  {
    if u == [] {
      assert u + v == v;
    } else {
      assert (u + v)[1..] == u[1..] + v;
      SumFromAcc(u[0], u[1..] + v);
      SumFromAcc(u[0], u[1..]);
      SumFromAppend(u[1..], v);
    }
  }

  lemma {:induction false} Utf16Append(s: string, t: string)
    ensures Utf16(s + t) == Utf16(s) + Utf16(t)
    decreases |t|
  {
    if t == [] {
      assert s + t == s;
    } else {
      var t' := t[..|t| - 1];
      assert (s + t)[..|s + t| - 1] == s + t';
      Utf16Append(s, t');
    }
  }

  /** The empty identifier hashes to 0, and the hash of a concatenation is
      the sum of the hashes of its pieces. */
  lemma {:induction false} HashAppend(s: string, t: string)
    ensures Hash([]) == 0
    ensures Hash(s + t) == Hash(s) + Hash(t)
  {
    Utf16Append(s, t);
    SumFromAppend(Utf16(s), Utf16(t));
  }

  /** A reference definition of the hash that ignores order: the sum of the
      characters' weights, taken from the front. */
  function WeightSum(s: string): nat
  {
    if s == [] then 0 else Weight(s[0]) + WeightSum(s[1..])
  }

  lemma {:induction false} HashIsWeightSum(s: string)
    ensures Hash(s) == WeightSum(s)
    decreases |s|
  {
    if s == [] {
      HashAppend(s, s);
    } else {
      assert s == [s[0]] + s[1..];
      HashAppend([s[0]], s[1..]);
      HashIsWeightSum(s[1..]);
    }
  }

  /** Reordering the characters of an identifier does not change its hash. */
  lemma {:induction false} HashPermutation(s: string, t: string)
    requires multiset(s) == multiset(t)
    ensures Hash(s) == Hash(t)
    decreases |s|
  {
    if s == [] {
      assert t == [];
    } else {
      var c := s[0];
      assert c in multiset(t);
      var j :| 0 <= j < |t| && t[j] == c;
      var rest := t[..j] + t[j + 1..];
      assert t == t[..j] + [c] + t[j + 1..];
      assert s == [c] + s[1..];
      assert multiset(t) == multiset(t[..j]) + multiset([c]) + multiset(t[j + 1..]);
      assert multiset(s) == multiset([c]) + multiset(s[1..]);
      assert multiset(rest) == multiset(t[..j]) + multiset(t[j + 1..]);
      assert multiset(s[1..]) == multiset(s) - multiset{c};
      assert multiset(rest) == multiset(t) - multiset{c};
      HashPermutation(s[1..], rest);
      HashAppend([c], s[1..]);
      HashAppend(t[..j] + [c], t[j + 1..]);
      HashAppend(t[..j], [c]);
      HashAppend(t[..j], t[j + 1..]);
    }
  }

  /** Hence the group is invariant under any permutation of the identifier. */
  lemma GroupPermutation(s: string, t: string)
    requires multiset(s) == multiset(t)
    ensures GetTestGroup(s) == GetTestGroup(t)
  {
    HashPermutation(s, t);
  }

  /** The number of characters of `s` whose weight is odd. */
  function OddCount(s: string): nat
  {
    if s == [] then 0 else (if Weight(s[0]) % 2 == 1 then 1 else 0) + OddCount(s[1..])
  }

  lemma {:induction false} WeightSumParity(s: string)
    ensures WeightSum(s) % 2 == OddCount(s) % 2
    decreases |s|
  {
    if s != [] {
      WeightSumParity(s[1..]);
    }
  }

  /** The number of characters of `s` whose code is odd. */
  function OddCodes(s: string): nat
  {
    if s == [] then 0 else (if (s[0] as int) % 2 == 1 then 1 else 0) + OddCodes(s[1..])
  }

  /** An identifier made of characters below 0x10000 is in group A exactly
      when an even number of its characters have an odd code. */
  lemma GroupByOddCount(s: string)
    requires forall k :: 0 <= k < |s| ==> s[k] as int < 0x10000
    ensures GetTestGroup(s) == A <==> OddCodes(s) % 2 == 0
  {
    OddCountIsOddCodes(s);
  }

  lemma {:induction false} OddCountIsOddCodes(s: string)
    requires forall k :: 0 <= k < |s| ==> s[k] as int < 0x10000
    ensures OddCount(s) == OddCodes(s)
    decreases |s|
  {
    if s != [] {
      WeightBmp(s[0]);
      OddCountIsOddCodes(s[1..]);
    }
  }

  /** A character below 0x10000 weighs its own code, so for such characters
      "odd weight" means "odd code". */
  lemma WeightBmp(c: char)
    requires c as int < 0x10000
    ensures Weight(c) == c as int
  {
    assert [c][..0] == [];
    assert Utf16([c]) == [c as int];
    assert SumFrom(0, [c as int]) == SumFrom(c as int, []);
  }

  /** A character above U+FFFF adds both of its surrogates. */
  lemma WeightAstral(c: char)
    requires c as int >= 0x10000
    ensures Weight(c) == CodeUnits(c)[0] + CodeUnits(c)[1]
  {
    Utf16Char(c);
    var u := CodeUnits(c);
    assert Weight(c) == SumFrom(0, u);
    assert u[1..][1..] == [];
    assert SumFrom(u[0], u[1..]) == SumFrom(u[0] + u[1], []);
  }

  /** A sum is even exactly when its two terms have the same parity. */
  lemma SumParity(g: nat, h: nat)
    ensures (g + h) % 2 == 0 <==> g % 2 == h % 2
  {
    assert g == 2 * (g / 2) + g % 2;
    assert h == 2 * (h / 2) + h % 2;
    assert g + h == 2 * (g / 2 + h / 2) + (g % 2 + h % 2);
  }

  /** The group of a concatenation: equal groups give A, different give B. */
  lemma GroupAppend(s: string, t: string)
    ensures GetTestGroup(s + t) == A <==> GetTestGroup(s) == GetTestGroup(t)
  {
    HashAppend(s, t);
    SumParity(Hash(s), Hash(t));
  }
}
