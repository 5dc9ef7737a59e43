/** String helpers used by the key resolver, the error classifiers, the etag minting and the
    ordering of document keys. */
module Text {

  /** `sub` occurs in `s` at position `i`. */
  ghost predicate OccursAt(s: string, sub: string, i: int)
  {
    0 <= i && i + |sub| <= |s| && s[i..i + |sub|] == sub
  }

  /** Substring test, as Go's strings.Contains. */
  function Contains(s: string, sub: string): (r: bool)
    ensures r <==> exists i :: OccursAt(s, sub, i)
    decreases |s|
  {
    if |sub| > |s| then
      false
    else if s[..|sub|] == sub then
      assert OccursAt(s, sub, 0);
      true
    else
      var r := Contains(s[1..], sub);
      if r then
        assert exists i :: OccursAt(s, sub, i) by {
          var i :| OccursAt(s[1..], sub, i);
          assert s[1..][i..i + |sub|] == s[i + 1..i + 1 + |sub|];
          assert OccursAt(s, sub, i + 1);
        }
        true
      else
        assert forall i :: OccursAt(s, sub, i) ==> i == 0 || OccursAt(s[1..], sub, i - 1) by {
          forall i | OccursAt(s, sub, i) && i != 0
            ensures OccursAt(s[1..], sub, i - 1)
          {
            assert s[1..][i - 1..i - 1 + |sub|] == s[i..i + |sub|];
          }
        }
        false
  }

  lemma ContainsItself(s: string)
    ensures Contains(s, s)
  {
    assert s[..|s|] == s;
  }

  /** A string contains whatever it starts with. */
  lemma ContainsPrefix(p: string, s: string)
    ensures Contains(p + s, p)
  {
    assert (p + s)[0..|p|] == p;
    assert OccursAt(p + s, p, 0);
  }

  /** An occurrence inside `s` is still an occurrence once anything is put in front of `s`. */
  lemma ContainsAfterPrefix(prefix: string, s: string, sub: string)
    requires Contains(s, sub)
    ensures Contains(prefix + s, sub)
  {
    var i :| OccursAt(s, sub, i);
    assert (prefix + s)[|prefix| + i..|prefix| + i + |sub|] == s[i..i + |sub|];
    assert OccursAt(prefix + s, sub, |prefix| + i);
  }

  /** A string contains whatever stands in its middle. */
  lemma ContainsMiddle(a: string, sub: string, b: string)
    ensures Contains(a + sub + b, sub)
  {
    ContainsPrefix(sub, b);
    ContainsAfterPrefix(a, sub + b, sub);
    assert a + sub + b == a + (sub + b);
  }

  /** An occurrence of an occurrence is an occurrence. */
  lemma ContainsTransitive(s: string, a: string, b: string)
    requires Contains(s, a) && Contains(a, b)
    ensures Contains(s, b)
  {
    var i :| OccursAt(s, a, i);
    var j :| OccursAt(a, b, j);
    forall k | 0 <= k < |b|
      ensures s[i + j + k] == b[k]
    {
      assert s[i..i + |a|][j + k] == a[j + k];
      assert a[j..j + |b|][k] == b[k];
    }
    assert s[i + j..i + j + |b|] == b;
    assert OccursAt(s, b, i + j);
  }

  /** Go's strings.HasPrefix. */
  predicate HasPrefix(s: string, prefix: string)
  {
    |prefix| <= |s| && s[..|prefix|] == prefix
  }

  lemma HasPrefixConcat(p: string, s: string)
    ensures HasPrefix(p + s, p)
  {
    assert (p + s)[..|p|] == p;
  }

  /** Go's strings.HasSuffix. */
  function HasSuffix(s: string, suffix: string): (r: bool)
    ensures r <==> exists p :: s == p + suffix
  {
    if |suffix| <= |s| && s[|s| - |suffix|..] == suffix then
      assert s == s[..|s| - |suffix|] + suffix;
      true
    else
      false
  }

  /** The decimal digit for 0 <= d < 10. */
  function DigitChar(d: nat): (c: char)
    requires d < 10
    ensures '0' <= c <= '9'
  {
    "0123456789"[d]
  }

  /** Decimal rendering of a natural number, as fmt's %d. */
  function NatToString(n: nat): (r: string)
    ensures |r| >= 1
    ensures forall i :: 0 <= i < |r| ==> '0' <= r[i] <= '9'
  {
    if n < 10 then [DigitChar(n)] else NatToString(n / 10) + [DigitChar(n % 10)]
  }

  /** Value of a string of decimal digits. */
  function DigitsValue(s: string): (v: int)
    ensures (forall i :: 0 <= i < |s| ==> '0' <= s[i] <= '9') ==> v >= 0
  {
    if s == [] then 0 else DigitsValue(s[..|s| - 1]) * 10 + (s[|s| - 1] as int - '0' as int)
  }

  /** Reading back the decimal rendering gives the number. */
  lemma {:induction false} NatToStringValue(n: nat)
    ensures DigitsValue(NatToString(n)) == n
  {
    if n >= 10 {
      var r := NatToString(n);
      assert r[..|r| - 1] == NatToString(n / 10);
      NatToStringValue(n / 10);
    }
  }

  /** Decimal rendering of an integer, with a leading '-' when negative. */
  function IntToString(n: int): (r: string)
    ensures |r| >= 1
  {
    if n < 0 then "-" + NatToString(-n) else NatToString(n)
  }

  // ---------------------------------------------------------------------------
  // Ordering of strings, as Go's strings.Compare. Go compares the UTF-8 bytes; for valid
  // UTF-8 that is the order of the code points compared here.

  /** `a` sorts no later than `b`. */
  predicate LessEq(a: string, b: string)
  {
    a == [] || (b != [] && (a[0] < b[0] || (a[0] == b[0] && LessEq(a[1..], b[1..]))))
  }

  lemma LessEqReflexive(a: string)
    ensures LessEq(a, a)
  {
  }

  lemma LessEqTotal(a: string, b: string)
    ensures LessEq(a, b) || LessEq(b, a)
  {
  }

  lemma {:induction false} LessEqAntisymmetric(a: string, b: string)
    requires LessEq(a, b) && LessEq(b, a)
    ensures a == b
  {
    if a != [] && b != [] {
      LessEqAntisymmetric(a[1..], b[1..]);
      assert a == [a[0]] + a[1..] && b == [b[0]] + b[1..];
    }
  }

  lemma {:induction false} LessEqTransitive(a: string, b: string, c: string)
    requires LessEq(a, b) && LessEq(b, c)
    ensures LessEq(a, c)
  {
    if a != [] && b != [] && c != [] && a[0] == b[0] && b[0] == c[0] {
      LessEqTransitive(a[1..], b[1..], c[1..]);
    }
  }

  /** Some element of a non-empty set sorts no later than all the others. */
  lemma {:induction false} MinimumExists(s: set<string>)
    requires s != {}
    ensures exists k :: k in s && forall x :: x in s ==> LessEq(k, x)
  {
    var y :| y in s;
    if s == {y} {
      LessEqReflexive(y);
      assert forall x :: x in s ==> LessEq(y, x);
    } else {
      MinimumExists(s - {y});
      var m :| m in s - {y} && forall x :: x in s - {y} ==> LessEq(m, x);
      LessEqTotal(y, m);
      if LessEq(y, m) {
        forall x | x in s
          ensures LessEq(y, x)
        {
          if x == y { LessEqReflexive(y); } else { LessEqTransitive(y, m, x); }
        }
      } else {
        assert forall x :: x in s ==> LessEq(m, x);
      }
    }
  }

  /** The first string of a non-empty set in sort order. */
  function Minimum(s: set<string>): (k: string)
    requires s != {}
    ensures k in s && forall x :: x in s ==> LessEq(k, x)
  {
    MinimumExists(s);
    assert forall a, b :: a in s && b in s && LessEq(a, b) && LessEq(b, a) ==> a == b by {
      forall a, b | a in s && b in s && LessEq(a, b) && LessEq(b, a)
        ensures a == b
      {
        LessEqAntisymmetric(a, b);
      }
    }
    var k :| k in s && forall x :: x in s ==> LessEq(k, x);
    k
  }

  /** The strings of a set in increasing order, each once. */
  function Sorted(s: set<string>): (r: seq<string>)
    ensures forall k :: k in s <==> k in r
    ensures forall i, j :: 0 <= i < j < |r| ==> r[i] != r[j] && LessEq(r[i], r[j])
    decreases |s|
  {
    if s == {} then []
    else
      var k := Minimum(s);
      [k] + Sorted(s - {k})
  }
}
