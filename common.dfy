/** Value types and Java library behaviours that several parts of the app rely on:
    nullable values, Integer.toString, the maximum of a collection of ints and
    Map.getOrDefault. */
module Common {

  /** A Java reference that may be null. */
  datatype Option<T> = None | Some(value: T)

  /** Map.getOrDefault. */
  function GetOrDefault<K, V>(m: map<K, V>, k: K, default: V): V
  {
    if k in m then m[k] else default
  }

  predicate IsDigit(c: char)
  {
    '0' <= c <= '9'
  }

  function DigitChar(d: nat): (c: char)
    requires d < 10
    ensures IsDigit(c)
  {
    ('0' as int + d) as char
  }

  function DigitValue(c: char): nat
    requires IsDigit(c)
  {
    c as int - '0' as int
  }

  /** Decimal rendering of a natural number, as Integer.toString prints it:
      no sign, no leading zeros. */
  function Decimal(n: nat): (s: string)
    ensures |s| >= 1
    ensures forall i :: 0 <= i < |s| ==> IsDigit(s[i])
    ensures n >= 10 <==> |s| >= 2
  {
    if n < 10 then [DigitChar(n)] else Decimal(n / 10) + [DigitChar(n % 10)]
  }

  /** Reads a string of decimal digits back as a number; the inverse of Decimal. */
  function ParseDecimal(s: string): nat
    requires forall i :: 0 <= i < |s| ==> IsDigit(s[i])
  {
    if s == [] then 0 else ParseDecimal(s[..|s| - 1]) * 10 + DigitValue(s[|s| - 1])
  }

  lemma {:induction false} ParseDecimalInvertsDecimal(n: nat)
    ensures ParseDecimal(Decimal(n)) == n
  {
    if n >= 10 {
      var s := Decimal(n);
      assert s[..|s| - 1] == Decimal(n / 10);
      ParseDecimalInvertsDecimal(n / 10);
    }
  }

  /** Distinct numbers have distinct decimal renderings, so "Pot" + n keys never clash. */
  lemma DecimalInjective(a: nat, b: nat)
    ensures Decimal(a) == Decimal(b) ==> a == b
  {
    ParseDecimalInvertsDecimal(a);
    ParseDecimalInvertsDecimal(b);
  }

  /** Integer.toString, also what string concatenation prints for an int. */
  function IntToString(i: int): (s: string)
    ensures |s| >= 1
    ensures forall k :: 0 <= k < |s| ==> IsDigit(s[k]) || s[k] == '-'
    ensures s[0] == '-' <==> i < 0
  {
    if i < 0 then "-" + Decimal(-i) else Decimal(i)
  }

  lemma IntToStringInjective(a: int, b: int)
    ensures IntToString(a) == IntToString(b) ==> a == b
  {
    if IntToString(a) == IntToString(b) {
      assert IntToString(a)[0] == '-' <==> a < 0;
      assert IntToString(b)[0] == '-' <==> b < 0;
      if a < 0 {
        assert Decimal(-a) == IntToString(a)[1..];
        DecimalInjective(-a, -b);
      } else {
        DecimalInjective(a, b);
      }
    }
  }

  /** A set without elements is the empty set; lets `:|` pick from a non-empty set. */
  lemma EmptyIfNoElement<T>(s: set<T>)
    ensures (forall y :: y !in s) ==> s == {}
  {
    if forall y :: y !in s {
      assert s == {};
    }
  }

  /** The same for sets of ints, whose elements the generic version does not reach. */
  lemma EmptyIntSetIfNoElement(s: set<int>)
    ensures (forall y :: y !in s) ==> s == {}
  {
    if forall y :: y !in s {
      assert s == {};
    }
  }

  /** m is the largest element of s. */
  predicate IsMaxOf(m: int, s: set<int>)
  {
    m in s && forall x :: x in s ==> x <= m
  }

  lemma {:induction false} MaxExists(s: set<int>)
    requires s != {}
    ensures exists m :: IsMaxOf(m, s)
  {
    EmptyIntSetIfNoElement(s);
    var x :| x in s;
    var rest := s - {x};
    if rest == {} {
      assert s == {x};
      assert IsMaxOf(x, s);
    } else {
      MaxExists(rest);
      var m :| IsMaxOf(m, rest);
      forall y | y in s
        ensures y <= if x > m then x else m
      {
        if y != x { assert y in rest; }
      }
      assert IsMaxOf(if x > m then x else m, s);
    }
  }

  /** stream().max(Integer::compareTo).orElse(0) over a set of ints. */
  function MaxOrZero(s: set<int>): (m: int)
    ensures s == {} ==> m == 0
    ensures s != {} ==> IsMaxOf(m, s)
  {
    if s == {} then 0
    else
      MaxExists(s);
      var m :| IsMaxOf(m, s);
      m
  }
  /** String.trim: drops every leading and trailing character at or below ' '. */
  function Trim(s: string): (t: string)
    ensures |t| <= |s|
    ensures t == [] || (t[0] > ' ' && t[|t| - 1] > ' ')
    ensures TrimStart(s) + |t| <= |s| && t == s[TrimStart(s)..TrimStart(s) + |t|]
    ensures forall k :: 0 <= k < TrimStart(s) ==> s[k] <= ' '
    ensures forall k :: TrimStart(s) + |t| <= k < |s| ==> s[k] <= ' '
  {
    var start := TrimStart(s);
    var rest := s[start..];
    var t := TrimEnd(rest);
    TrimmedSlice(s, start, t);
    t
  }

  /** A prefix t of s[start..] is the slice of s from start, and what follows it in
      the suffix follows it in s. */
  lemma TrimmedSlice(s: string, start: nat, t: string)
    requires start <= |s| && |t| <= |s| - start && t == s[start..][..|t|]
    ensures t == s[start..start + |t|]
    ensures t != [] ==> t[0] == s[start]
    ensures forall k :: start + |t| <= k < |s| ==> s[k] == s[start..][k - start]
  {
  }

  /** The index of the first character above ' ', or |s| when there is none. */
  function TrimStart(s: string): (i: nat)
    ensures i <= |s|
    ensures forall k :: 0 <= k < i ==> s[k] <= ' '
    ensures i < |s| ==> s[i] > ' '
  {
    if s == [] || s[0] > ' ' then 0 else 1 + TrimStart(s[1..])
  }

  /** s without its trailing characters at or below ' '. */
  function TrimEnd(s: string): (t: string)
    ensures |t| <= |s| && t == s[..|t|]
    ensures forall k :: |t| <= k < |s| ==> s[k] <= ' '
    ensures t != [] ==> t[|t| - 1] > ' '
  {
    if s == [] || s[|s| - 1] > ' ' then s else TrimEnd(s[..|s| - 1])
  }

  /** A string trims to nothing exactly when all of it is at or below ' '. */
  lemma TrimEmptyIffBlank(s: string)
    ensures Trim(s) == [] <==> forall k :: 0 <= k < |s| ==> s[k] <= ' '
  {
    if forall k :: 0 <= k < |s| ==> s[k] <= ' ' {
      assert TrimStart(s) == |s|;
    }
  }

  /** Trimming twice is trimming once. */
  lemma TrimIdempotent(s: string)
    ensures Trim(Trim(s)) == Trim(s)
  {
    var t := Trim(s);
    if t != [] {
      assert TrimStart(t) == 0;
      assert t[0..] == t;
    }
  }

  /** isValidEmail: not empty and matched by the e-mail address pattern, which is
      a parameter of the model. */
  function IsValidEmail(email: string, emailPattern: string -> bool): (valid: bool)
    ensures email == [] ==> !valid
    ensures valid ==> emailPattern(email)
  {
    email != [] && emailPattern(email)
  }
  /** The position of the first of the checks, in order, that fails; |checks| when
      all of them pass. */
  function FirstFailingIndex<E>(checks: seq<E>, fails: E -> bool): (k: nat)
    ensures k <= |checks|
    ensures forall j :: 0 <= j < k ==> !fails(checks[j])
    ensures k < |checks| ==> fails(checks[k])
  {
    if checks == [] || fails(checks[0]) then 0 else 1 + FirstFailingIndex(checks[1..], fails)
  }

  /** The first of the checks that fails, or None when all pass. */
  function FirstFailing<E>(checks: seq<E>, fails: E -> bool): (first: Option<E>)
    ensures first.None? <==> forall j :: 0 <= j < |checks| ==> !fails(checks[j])
    ensures first.Some? ==> first.value == checks[FirstFailingIndex(checks, fails)] && fails(first.value)
  {
    var k := FirstFailingIndex(checks, fails);
    if k < |checks| then Some(checks[k]) else None
  }
}
