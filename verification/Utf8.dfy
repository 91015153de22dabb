/**
 Decoding bytes as UTF-8 with replacement of errors, and encoding the text again. Text is stood for
 by its encoding, so decoding is a function on bytes (RFC 3629, section 4, for well-formed bytes;
 one U+FFFD for each maximal part of an ill-formed sequence).
 */
module Utf8 {
  import opened Bytes

  /** The encoding of U+FFFD. */
  const REPLACEMENT: seq<byte> := [0xEF, 0xBF, 0xBD]

  predicate IsCont(b: byte) { 0x80 <= b <= 0xBF }

  /** A byte that starts a sequence of two to four bytes. */
  predicate IsLead(b: byte) { 0xC2 <= b <= 0xF4 }

  predicate SecondOk(lead: byte, b: byte)
  {
    IsCont(b) && (lead == 0xE0 ==> b >= 0xA0) && (lead == 0xED ==> b < 0xA0) && (lead == 0xF0 ==> b >= 0x90) && (lead == 0xF4 ==> b < 0x90)
  }

  /** The length of the character at the front, or of the part of one that is there. */
  function UnitLen(s: seq<byte>): (n: nat)
    requires s != []
    ensures 1 <= n <= |s|
  {
    if !IsLead(s[0]) || |s| < 2 || !SecondOk(s[0], s[1]) then 1
    else if s[0] < 0xE0 || |s| < 3 || !IsCont(s[2]) then 2
    else if s[0] < 0xF0 || |s| < 4 || !IsCont(s[3]) then 3
    else 4
  }

  /** A whole character stands at the front. */
  predicate Complete(s: seq<byte>)
    requires s != []
  {
    if s[0] < 0x80 then true
    else IsLead(s[0]) && UnitLen(s) == if s[0] < 0xE0 then 2 else if s[0] < 0xF0 then 3 else 4
  }

  predicate Valid(s: seq<byte>)
  {
    s == [] || (Complete(s) && Valid(s[UnitLen(s)..]))
  }

  /** Decoded with replacement, and encoded again. */
  function Repair(s: seq<byte>): seq<byte>
  {
    if s == [] then []
    else (if Complete(s) then s[..UnitLen(s)] else REPLACEMENT) + Repair(s[UnitLen(s)..])
  }

  /** Bytes survive decoding and encoding exactly when they are well-formed. */
  lemma {:induction false} RepairKeepsIff(s: seq<byte>)
    ensures Repair(s) == s <==> Valid(s)
  {
    if s != [] {
      var n, rest := UnitLen(s), Repair(s[UnitLen(s)..]);
      RepairKeepsIff(s[n..]);
      assert s == s[..n] + s[n..];
      if Complete(s) {
        assert Repair(s)[n..] == rest;
      } else {
        assert Repair(s)[..3] == REPLACEMENT;
        ReplacementComplete(s);
      }
    }
  }

  lemma ReplacementComplete(s: seq<byte>)
    ensures |s| >= 3 && s[..3] == REPLACEMENT ==> Complete(s)
  {
    if |s| >= 3 && s[..3] == REPLACEMENT {
      assert s[0] == REPLACEMENT[0] && s[1] == REPLACEMENT[1] && s[2] == REPLACEMENT[2];
    }
  }

  lemma {:induction false} CompletePrefix(s: seq<byte>, t: seq<byte>)
    requires s != [] && Complete(s)
    ensures var n := UnitLen(s); Complete(s[..n] + t) && UnitLen(s[..n] + t) == n
  {
    var n := UnitLen(s);
    var u := s[..n] + t;
    assert forall i | 0 <= i < n :: u[i] == s[i];
  }

  /** Decoding with replacement always yields well-formed text; doing it again changes nothing. */
  lemma {:induction false} RepairIsValid(s: seq<byte>)
    ensures Valid(Repair(s)) && Repair(Repair(s)) == Repair(s)
  {
    if s != [] {
      var n, rest := UnitLen(s), Repair(s[UnitLen(s)..]);
      RepairIsValid(s[n..]);
      var unit := if Complete(s) then s[..n] else REPLACEMENT;
      assert Complete(unit + rest) && UnitLen(unit + rest) == |unit| by {
        if Complete(s) { CompletePrefix(s, rest); }
      }
      assert (unit + rest)[|unit|..] == rest;
    }
    RepairKeepsIff(Repair(s));
  }

  // ---- Against the encoding of characters -----------------------------------

  /** Unicode scalar values: code points without the surrogates. */
  type Scalar = c: int | 0 <= c < 0x11_0000 && !(0xD800 <= c < 0xE000)

  /** RFC 3629, section 3. */
  function Encode(c: Scalar): (s: seq<byte>)
    ensures 1 <= |s| <= 4
  {
    if c < 0x80 then [c]
    else if c < 0x800 then [0xC0 + c / 0x40, 0x80 + c % 0x40]
    else if c < 0x1_0000 then [0xE0 + c / 0x1000, 0x80 + c / 0x40 % 0x40, 0x80 + c % 0x40]
    else [0xF0 + c / 0x4_0000, 0x80 + c / 0x1000 % 0x40, 0x80 + c / 0x40 % 0x40, 0x80 + c % 0x40]
  }

  function EncodeAll(cs: seq<Scalar>): seq<byte>
  {
    if cs == [] then [] else Encode(cs[0]) + EncodeAll(cs[1..])
  }

  lemma EncodedIsUnit(c: Scalar)
    ensures Complete(Encode(c)) && UnitLen(Encode(c)) == |Encode(c)|
  {
  }

  function Low(b: byte): nat { if b < 0x80 then b else b - 0x80 }

  /** The character at the front. */
  lemma Decode(s: seq<byte>) returns (c: Scalar)
    requires s != [] && Complete(s)
    ensures Encode(c) == s[..UnitLen(s)]
  {
    var n := UnitLen(s);
    if n == 1 {
      c := s[0];
    } else if n == 2 {
      c := 0x40 * (s[0] as int - 0xC0) + Low(s[1]);
    } else if n == 3 {
      ThreeParts(s[0] as int - 0xE0, Low(s[1]), Low(s[2]));
      c := 0x1000 * (s[0] as int - 0xE0) + 0x40 * Low(s[1]) + Low(s[2]);
    } else {
      FourParts(s[0] as int - 0xF0, Low(s[1]), Low(s[2]), Low(s[3]));
      c := 0x4_0000 * (s[0] as int - 0xF0) + 0x1000 * Low(s[1]) + 0x40 * Low(s[2]) + Low(s[3]);
    }
  }

  lemma ThreeParts(a: nat, b: nat, d: nat)
    requires b < 0x40 && d < 0x40
    ensures var c := 0x1000 * a + 0x40 * b + d;
            c / 0x1000 == a && c / 0x40 % 0x40 == b && c % 0x40 == d
  {
    var c := 0x1000 * a + 0x40 * b + d;
    assert c / 0x40 == 0x40 * a + b;
  }

  lemma FourParts(a: nat, b: nat, d: nat, e: nat)
    requires b < 0x40 && d < 0x40 && e < 0x40
    ensures var c := 0x4_0000 * a + 0x1000 * b + 0x40 * d + e;
            c / 0x4_0000 == a && c / 0x1000 % 0x40 == b && c / 0x40 % 0x40 == d && c % 0x40 == e
  {
    var c := 0x4_0000 * a + 0x1000 * b + 0x40 * d + e;
    assert c == 0x1000 * (0x40 * a + b) + 0x40 * d + e;
    ThreeParts(0x40 * a + b, d, e);
    assert c / 0x1000 == 0x40 * a + b;
  }

  lemma {:induction false} EncodedIsValid(cs: seq<Scalar>)
    ensures Valid(EncodeAll(cs))
  {
    if cs != [] {
      hide Encode, Complete, UnitLen;
      var u, rest := Encode(cs[0]), EncodeAll(cs[1..]);
      EncodedIsValid(cs[1..]);
      EncodedIsUnit(cs[0]);
      CompletePrefix(u, rest);
      assert u[..|u|] == u;
      assert (u + rest)[|u|..] == rest;
    }
  }

  lemma {:induction false} ValidIsEncoded(s: seq<byte>) returns (cs: seq<Scalar>)
    requires Valid(s)
    ensures EncodeAll(cs) == s
  {
    cs := [];
    if s != [] {
      hide Encode, Complete, UnitLen;
      var c := Decode(s);
      var rest := ValidIsEncoded(s[UnitLen(s)..]);
      cs := [c] + rest;
      assert cs[1..] == rest && s == s[..UnitLen(s)] + s[UnitLen(s)..];
    }
  }

  /** The bytes that decoding keeps are exactly the encodings of texts. */
  lemma WellFormedIff(s: seq<byte>)
    ensures Repair(s) == s <==> exists cs: seq<Scalar> :: EncodeAll(cs) == s
  {
    hide Valid, EncodeAll, Repair;
    RepairKeepsIff(s);
    if Valid(s) {
      var cs := ValidIsEncoded(s);
    }
    forall cs: seq<Scalar> | EncodeAll(cs) == s ensures Valid(s) { EncodedIsValid(cs); }
  }

  /** The bytes begin the encoding of some character. */
  ghost predicate Begins(p: seq<byte>)
  {
    exists c: Scalar :: p <= Encode(c)
  }

  /** The first k bytes decide whether the unit at the front has k bytes. */
  lemma SamePrefix(s: seq<byte>, t: seq<byte>, k: nat)
    requires 1 <= k <= |s| && k <= |t| && s[..k] == t[..k] && k <= UnitLen(t)
    ensures k <= UnitLen(s)
  {
    assert forall i | 0 <= i < k :: s[i] == s[..k][i] && t[i] == t[..k][i];
  }

  /** Bytes that complete the part of a character at the front. */
  function Completion(s: seq<byte>): (t: seq<byte>)
    requires s != [] && !Complete(s) && UnitLen(s) > 1
    ensures s[..UnitLen(s)] <= t
  {
    s[..UnitLen(s)] + if s[0] < 0xF0 || UnitLen(s) == 3 then [0x80] else [0x80, 0x80]
  }

  lemma CompletionIsUnit(s: seq<byte>)
    requires s != [] && !Complete(s) && UnitLen(s) > 1
    ensures Complete(Completion(s)) && UnitLen(Completion(s)) == |Completion(s)|
  {
    var n, t := UnitLen(s), Completion(s);
    assert t[0] == s[0] && t[1] == s[1] && (n > 2 ==> t[2] == s[2]);
  }

  /** An ill-formed unit, replaced as a whole, is one byte or begins a character, and one byte more of it no longer does. */
  lemma MaximalPart(s: seq<byte>)
    requires s != [] && !Complete(s)
    ensures var n := UnitLen(s);
            && (n > 1 ==> Begins(s[..n]))
            && (n < |s| ==> !Begins(s[..n + 1]))
            && (!IsLead(s[0]) ==> !Begins(s[..1]))
  {
    hide Complete, Encode;
    var n := UnitLen(s);
    if n > 1 {
      CompletionIsUnit(s);
      var c := Decode(Completion(s));
      assert Encode(c) == Completion(s);
    }
    if n < |s| {
      forall c: Scalar ensures !(s[..n + 1] <= Encode(c)) {
        EncodedIsUnit(c);
        if s[..n + 1] <= Encode(c) {
          assert Encode(c)[..n + 1] == s[..n + 1];
          SamePrefix(s, Encode(c), n + 1);
        }
      }
    }
    if !IsLead(s[0]) {
      forall c: Scalar ensures !(s[..1] <= Encode(c)) { NoLead(s, c); }
    }
  }

  lemma ReplacementIs()
    ensures REPLACEMENT == Encode(0xFFFD)
  {
  }

  lemma NoLead(s: seq<byte>, c: Scalar)
    requires s != [] && !Complete(s) && !IsLead(s[0])
    ensures !(s[..1] <= Encode(c))
  {
    assert s[..1][0] == s[0];
  }
}
