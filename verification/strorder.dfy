/** Python's ordering of `str` values, the descending order that `sorted(..., reverse=True)`
    gives a set of dates, and why that order is the calendar order for `YYYY-MM-DD` dates. */
module StrOrder {

  /** The length of the longest common prefix of `a` and `b`: where they first differ. */
  function CommonPrefix(a: string, b: string): (k: nat)
    ensures k <= |a| && k <= |b| && a[..k] == b[..k]
    ensures k < |a| && k < |b| ==> a[k] != b[k]
  {
    if |a| == 0 || |b| == 0 || a[0] != b[0] then 0
    else
      var k := 1 + CommonPrefix(a[1..], b[1..]);
      assert a[..k] == [a[0]] + a[1..][..k - 1] && b[..k] == [b[0]] + b[1..][..k - 1];
      k
  }

  /** `a < b` on Python strings: `a` is a proper prefix of `b`, or at the first position
      where the two differ `a` has the smaller code point. */
  predicate Less(a: string, b: string)
    ensures Less(a, b) <==>
      var k := CommonPrefix(a, b);
      (k == |a| && k < |b|) || (k < |a| && k < |b| && a[k] < b[k])
    decreases |a|
  {
    |b| > 0 && (|a| == 0 || if a[0] == b[0] then Less(a[1..], b[1..]) else a[0] < b[0])
  }

  lemma {:induction false} LessIrreflexive(a: string)
    ensures !Less(a, a)
  {
    if |a| > 0 {
      LessIrreflexive(a[1..]);
    }
  }

  lemma {:induction false} LessAsymmetric(a: string, b: string)
    ensures Less(a, b) ==> !Less(b, a)
  {
    if |a| > 0 && |b| > 0 && a[0] == b[0] {
      LessAsymmetric(a[1..], b[1..]);
    }
  }

  lemma {:induction false} LessTransitive(a: string, b: string, c: string)
    requires Less(a, b) && Less(b, c)
    ensures Less(a, c)
  {
    if |a| > 0 && a[0] == b[0] && b[0] == c[0] {
      LessTransitive(a[1..], b[1..], c[1..]);
    }
  }

  /** Any two different strings are ordered one way or the other. */
  lemma {:induction false} LessTotal(a: string, b: string)
    requires a != b
    ensures Less(a, b) || Less(b, a)
  {
    if |a| > 0 && |b| > 0 && a[0] == b[0] {
      assert a == [a[0]] + a[1..] && b == [b[0]] + b[1..];
      LessTotal(a[1..], b[1..]);
    }
  }

  /** Comparing two concatenations whose first parts have the same length compares the
      first parts, and the second parts only when the first parts are equal. */
  lemma {:induction false} LessConcat(a1: string, a2: string, b1: string, b2: string)
    requires |a1| == |b1|
    ensures Less(a1 + a2, b1 + b2) <==> Less(a1, b1) || (a1 == b1 && Less(a2, b2))
  {
    if |a1| == 0 {
      assert a1 + a2 == a2 && b1 + b2 == b2;
    } else {
      assert (a1 + a2)[1..] == a1[1..] + a2;
      assert (b1 + b2)[1..] == b1[1..] + b2;
      assert a1 == [a1[0]] + a1[1..] && b1 == [b1[0]] + b1[1..];
      LessConcat(a1[1..], a2, b1[1..], b2);
    }
  }

  /** Strictly descending: every later element is smaller than every earlier one. */
  predicate Descending(s: seq<string>)
  {
    forall i, j :: 0 <= i < j < |s| ==> Less(s[j], s[i])
  }

  predicate Distinct<T(==)>(s: seq<T>)
  {
    forall i, j :: 0 <= i < j < |s| ==> s[i] != s[j]
  }

  lemma DescendingDistinct(s: seq<string>)
    requires Descending(s)
    ensures Distinct(s)
  {
    forall i, j | 0 <= i < j < |s|
      ensures s[i] != s[j]
    {
      LessIrreflexive(s[j]);
    }
  }

  /** Puts `d` into a strictly descending list, once. */
  function Insert(d: string, s: seq<string>): (r: seq<string>)
    requires Descending(s)
    ensures Descending(r)
    ensures forall x :: x in r <==> x == d || x in s
  {
    if s == [] then [d]
    else if d == s[0] then s
    else if Less(s[0], d) then
      LessBelowHead(s, d);
      [d] + s
    else
      LessTotal(d, s[0]);
      var rest := Insert(d, s[1..]);
      assert forall k :: 0 <= k < |rest| ==> Less(rest[k], s[0]) by {
        forall k | 0 <= k < |rest|
          ensures Less(rest[k], s[0])
        {
          assert rest[k] == d || rest[k] in s[1..];
        }
      }
      [s[0]] + rest
  }

  /** Every element of a descending list lies below anything above its head. */
  lemma LessBelowHead(s: seq<string>, d: string)
    requires Descending(s) && s != [] && Less(s[0], d)
    ensures forall k :: 0 <= k < |s| ==> Less(s[k], d)
  {
    forall k | 0 < k < |s|
      ensures Less(s[k], d)
    {
      LessTransitive(s[k], s[0], d);
    }
  }

  /** There is only one strictly descending arrangement of a set of strings, so any
      procedure that yields one computes exactly `sorted(set, reverse=True)`. */
  lemma {:induction false} DescendingUnique(a: seq<string>, b: seq<string>)
    requires Descending(a) && Descending(b)
    requires forall x :: x in a <==> x in b
    ensures a == b
    decreases |a|
  {
    if a != [] {
      assert a[0] in b;
      assert b[0] in a;
      var i :| 0 <= i < |a| && a[i] == b[0];
      var j :| 0 <= j < |b| && b[j] == a[0];
      assert a[0] == b[0] || Less(b[0], a[0]);
      assert b[0] == a[0] || Less(a[0], b[0]);
      LessAsymmetric(a[0], b[0]);
      assert a[0] == b[0];
      DescendingDistinct(a);
      DescendingDistinct(b);
      forall x
        ensures x in a[1..] <==> x in b[1..]
      {
        if x in a[1..] {
          var k :| 1 <= k < |a| && a[k] == x;
          assert a[k] in a;
          var m :| 0 <= m < |b| && b[m] == x;
          assert m != 0;
          assert b[m] in b[1..];
        }
        if x in b[1..] {
          var k :| 1 <= k < |b| && b[k] == x;
          assert b[k] in b;
          var m :| 0 <= m < |a| && a[m] == x;
          assert m != 0;
          assert a[m] in a[1..];
        }
      }
      DescendingUnique(a[1..], b[1..]);
      assert a == [a[0]] + a[1..] && b == [b[0]] + b[1..];
    } else {
      HeadIsMember(b);
    }
  }

  /** Supplies the membership fact that lets `DescendingUnique` close its `a == []` case
      without reasoning inside an impossible branch. */
  lemma HeadIsMember(s: seq<string>)
    ensures s != [] ==> s[0] in s
  {
  }

  // Dates written as `YYYY-MM-DD`, the format `strftime("%Y-%m-%d")` produces.

  predicate IsDigit(c: char)
  {
    '0' <= c <= '9'
  }

  predicate AllDigits(s: string)
  {
    forall i :: 0 <= i < |s| ==> IsDigit(s[i])
  }

  /** The decimal number a string of digits spells. */
  function Value(s: string): nat
    requires AllDigits(s)
  {
    if s == [] then 0 else 10 * Value(s[..|s| - 1]) + (s[|s| - 1] as int - '0' as int)
  }

  /** For digit strings of one length the string order is the numeric order. */
  lemma {:induction false} DigitsOrder(a: string, b: string)
    requires |a| == |b| && AllDigits(a) && AllDigits(b)
    ensures Less(a, b) <==> Value(a) < Value(b)
    ensures a == b <==> Value(a) == Value(b)
  {
    if |a| > 0 {
      var n := |a| - 1;
      DigitsOrder(a[..n], b[..n]);
      assert a == a[..n] + [a[n]] && b == b[..n] + [b[n]];
      LessConcat(a[..n], [a[n]], b[..n], [b[n]]);
      assert Less([a[n]], [b[n]]) <==> a[n] < b[n];
    }
  }

  predicate IsIsoDate(s: string)
  {
    |s| == 10 && s[4] == '-' && s[7] == '-'
    && AllDigits(s[..4]) && AllDigits(s[5..7]) && AllDigits(s[8..])
  }

  function Year(s: string): nat requires IsIsoDate(s) { Value(s[..4]) }
  function Month(s: string): nat requires IsIsoDate(s) { Value(s[5..7]) }
  function Day(s: string): nat requires IsIsoDate(s) { Value(s[8..]) }

  /** `a` is a calendar day before `b`: by year, then month, then day. */
  predicate Earlier(a: string, b: string)
    requires IsIsoDate(a) && IsIsoDate(b)
  {
    Year(a) < Year(b)
    || (Year(a) == Year(b) && (Month(a) < Month(b) || (Month(a) == Month(b) && Day(a) < Day(b))))
  }

  /** On `YYYY-MM-DD` strings Python's string order is the calendar order, so sorting the
      date strings in reverse puts the newest day first. */
  lemma IsoDateOrder(a: string, b: string)
    requires IsIsoDate(a) && IsIsoDate(b)
    ensures Less(a, b) <==> Earlier(a, b)
  {
    var a1, a2, a3, a4, a5 := a[..4], a[4..5], a[5..7], a[7..8], a[8..];
    var b1, b2, b3, b4, b5 := b[..4], b[4..5], b[5..7], b[7..8], b[8..];
    assert a == a1 + (a2 + (a3 + (a4 + a5)));
    assert b == b1 + (b2 + (b3 + (b4 + b5)));
    assert a2 == b2 == ['-'] && a4 == b4 == ['-'];
    LessIrreflexive(['-']);
    LessConcat(a4, a5, b4, b5);
    LessConcat(a3, a4 + a5, b3, b4 + b5);
    LessConcat(a2, a3 + (a4 + a5), b2, b3 + (b4 + b5));
    LessConcat(a1, a2 + (a3 + (a4 + a5)), b1, b2 + (b3 + (b4 + b5)));
    DigitsOrder(a1, b1);
    DigitsOrder(a3, b3);
    DigitsOrder(a5, b5);
  }
}
