/**
  The string operations on which the operator and the client build their keys and values:
  Python's `split`, `rsplit(sep, 1)`, `in`, `str(int)` and `int(str)`.
 */
module Text {
  import opened Wrappers

  /** `s.split(c)` */
  function Split(s: string, c: char): (parts: seq<string>)
    ensures |parts| >= 1
    ensures |parts| == 1 <==> c !in s
  {
    if s == [] then [""]
    else if s[0] == c then [""] + Split(s[1..], c)
    else
      var rest := Split(s[1..], c);
      [[s[0]] + rest[0]] + rest[1..]
  }

  lemma {:induction false} SplitWhole(s: string, c: char)
    requires c !in s
    ensures Split(s, c) == [s]
  {
    if s != [] {
      SplitWhole(s[1..], c);
      assert [s[0]] + s[1..] == s;
    }
  }

  lemma {:induction false} SplitAt(a: string, c: char, b: string)
    requires c !in a
    ensures Split(a + [c] + b, c) == [a] + Split(b, c)
  {
    var s := a + [c] + b;
    if a == [] {
      assert s[1..] == b;
    } else {
      assert s[1..] == a[1..] + [c] + b;
      SplitAt(a[1..], c, b);
      assert [a[0]] + a[1..] == a;
    }
  }

  lemma {:induction false} TwoParts(s: string, c: char)
    requires |Split(s, c)| == 2
    ensures s == Split(s, c)[0] + [c] + Split(s, c)[1] && c !in Split(s, c)[0] && c !in Split(s, c)[1]
  {
    if s[0] == c {
      SplitWhole(s[1..], c);
      assert s == [c] + s[1..];
    } else {
      TwoParts(s[1..], c);
      assert s == [s[0]] + s[1..];
    }
  }

  /** The two halves around the first `c`: `s.split(c, 1)`. */
  function CutFirst(s: string, c: char): Option<(string, string)>
  {
    if s == [] then None
    else if s[0] == c then Some(("", s[1..]))
    else
      match CutFirst(s[1..], c)
      case None => None
      case Some(p) => Some(([s[0]] + p.0, p.1))
  }

  lemma {:induction false} CutFirstAt(a: string, c: char, b: string)
    requires c !in a
    ensures CutFirst(a + [c] + b, c) == Some((a, b))
  {
    var s := a + [c] + b;
    if a == [] {
      assert s[1..] == b;
    } else {
      assert s[1..] == a[1..] + [c] + b;
      CutFirstAt(a[1..], c, b);
      assert [a[0]] + a[1..] == a;
    }
  }

  lemma {:induction false} CutFirstAbsent(s: string, c: char)
    ensures CutFirst(s, c).None? <==> c !in s
  {
    if s != [] {
      CutFirstAbsent(s[1..], c);
    }
  }

  lemma {:induction false} CutFirstJoins(s: string, c: char)
    requires CutFirst(s, c).Some?
    ensures var (a, b) := CutFirst(s, c).value; s == a + [c] + b && c !in a
  {
    if s[0] != c {
      CutFirstJoins(s[1..], c);
    }
  }

  /** The two halves around the last `c`: `s.rsplit(c, 1)`. */
  function CutLast(s: string, c: char): Option<(string, string)>
  {
    if s == [] then None
    else
      var n := |s| - 1;
      if s[n] == c then Some((s[..n], ""))
      else
        match CutLast(s[..n], c)
        case None => None
        case Some(p) => Some((p.0, p.1 + [s[n]]))
  }

  lemma {:induction false} CutLastAt(a: string, c: char, b: string)
    requires c !in b
    ensures CutLast(a + [c] + b, c) == Some((a, b))
  {
    var s := a + [c] + b;
    if b == [] {
      assert s[..|s| - 1] == a;
    } else {
      var m := |b| - 1;
      assert s[..|s| - 1] == a + [c] + b[..m];
      CutLastAt(a, c, b[..m]);
      assert b[..m] + [b[m]] == b;
    }
  }

  lemma {:induction false} CutLastAbsent(s: string, c: char)
    ensures CutLast(s, c).None? <==> c !in s
  {
    if s != [] {
      CutLastAbsent(s[..|s| - 1], c);
      assert s == s[..|s| - 1] + [s[|s| - 1]];
    }
  }

  /** `p in s` for strings. */
  predicate Contains(s: string, p: string)
  {
    exists i | 0 <= i <= |s| :: Occurs(s, p, i)
  }

  predicate Occurs(s: string, p: string, i: nat)
  {
    i + |p| <= |s| && s[i..i + |p|] == p
  }

  lemma ContainsIff(s: string, p: string)
    ensures Contains(s, p) <==> exists a, b :: s == a + p + b
  {
    if i: nat :| i <= |s| && Occurs(s, p, i) {
      assert s == s[..i] + p + s[i + |p|..];
    }
    if a, b :| s == a + p + b {
      assert Occurs(s, p, |a|);
    }
  }

  lemma StartsWithIff(s: string, p: string)
    ensures StartsWith(s, p) <==> exists rest :: s == p + rest
  {
    if StartsWith(s, p) {
      assert s == p + s[|p|..];
    }
  }

  predicate StartsWith(s: string, p: string)
  {
    p <= s
  }

  predicate IsDigit(c: char)
  {
    '0' <= c <= '9'
  }

  function DigitChar(d: nat): (c: char)
    requires d < 10
    ensures IsDigit(c)
  {
    ('0' as int + d) as char
  }

  function DigitValue(c: char): (d: nat)
    requires IsDigit(c)
    ensures d < 10
  {
    c as int - '0' as int
  }

  /** `str(n)` */
  function Str(n: nat): (s: string)
    ensures |s| > 0
    ensures forall i | 0 <= i < |s| :: IsDigit(s[i])
  {
    if n < 10 then [DigitChar(n)] else Str(n / 10) + [DigitChar(n % 10)]
  }

  /** `int(s)` on decimal digits; anything else raises. */
  function ParseNat(s: string): Option<nat>
  {
    if s == [] then None
    else
      var n := |s| - 1;
      if !IsDigit(s[n]) then None
      else if n == 0 then Some(DigitValue(s[n]))
      else
        match ParseNat(s[..n])
        case None => None
        case Some(v) => Some(10 * v + DigitValue(s[n]))
  }

  lemma {:induction false} ParseStr(n: nat)
    ensures ParseNat(Str(n)) == Some(n)
  {
    if n >= 10 {
      ParseStr(n / 10);
      var s := Str(n);
      assert s[..|s| - 1] == Str(n / 10);
    }
  }

  /** The texts that `int` takes for a number: decimal digits, at least one. */
  lemma {:induction false} ParseNatIff(s: string)
    ensures ParseNat(s).Some? <==> s != "" && forall i :: 0 <= i < |s| ==> '0' <= s[i] <= '9'
  {
    if s != "" {
      var n := |s| - 1;
      ParseNatIff(s[..n]);
      assert forall i :: 0 <= i < n ==> s[..n][i] == s[i];
    }
  }

  /** `str` writes decimal digits. */
  lemma StrIsDecimal(n: nat, d: nat)
    requires d < 10
    ensures Str(d) == ["0123456789"[d]]
    ensures n > 0 ==> Str(10 * n + d) == Str(n) + ["0123456789"[d]]
  {
    assert DigitChar(d) == "0123456789"[d];
  }

  lemma StrInjective(m: nat, n: nat)
    requires Str(m) == Str(n)
    ensures m == n
  {
    ParseStr(m);
    ParseStr(n);
  }

  /** A numeral without superfluous leading zeros. */
  predicate Canonical(s: string)
  {
    ParseNat(s).Some? && (|s| > 1 ==> s[0] != '0')
  }

  lemma {:induction false} StrOfParse(s: string)
    requires ParseNat(s).Some?
    ensures Str(ParseNat(s).value) == s <==> Canonical(s)
    ensures |s| > 1 && s[0] != '0' ==> ParseNat(s).value >= 10
  {
    var n := |s| - 1;
    if n > 0 {
      StrOfParse(s[..n]);
      var v := ParseNat(s[..n]).value;
      var w := ParseNat(s).value;
      assert w / 10 == v && w % 10 == DigitValue(s[n]);
      assert s == s[..n] + [s[n]];
      if n == 1 {
        assert ParseNat(s[..1]) == Some(DigitValue(s[0]));
      }
      if w >= 10 {
        assert Str(w) == Str(v) + [s[n]];
        if Str(w) == s {
          assert Str(v) == Str(w)[..|Str(w)| - 1] == s[..n];
        }
      } else {
        assert |Str(w)| == 1;
      }
    } else {
      assert s == [s[0]];
    }
  }
}
