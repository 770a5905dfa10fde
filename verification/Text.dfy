/**
  Strings as the program uses them: sequences of ASCII characters with Go's TrimSpace,
  ToLower, ToUpper, EqualFold and byte order.
 */
module Text {

  // Space, tab, line feed, vertical tab, form feed and carriage return.
  predicate IsSpace(c: char) {
    c == ' ' || '\t' <= c <= '\r'
  }

  /** No white space at either end. */
  predicate Trimmed(s: string) {
    s == "" || (!IsSpace(s[0]) && !IsSpace(s[|s| - 1]))
  }

  predicate SpaceFree(s: string) {
    forall i :: 0 <= i < |s| ==> !IsSpace(s[i])
  }

  function TrimLeft(s: string): (r: string)
    ensures |r| <= |s|
    ensures r == "" || !IsSpace(r[0])
  {
    if s == "" || !IsSpace(s[0]) then s else TrimLeft(s[1..])
  }

  function TrimRight(s: string): (r: string)
    ensures |r| <= |s|
    ensures r == "" || !IsSpace(r[|r| - 1])
    ensures r != "" ==> r[0] == s[0]
  {
    if s == "" || !IsSpace(s[|s| - 1]) then s else TrimRight(s[..|s| - 1])
  }

  /** strings.TrimSpace: the result is trimmed, and a trimmed string is left alone. */
  function Trim(s: string): (r: string)
    ensures Trimmed(r)
    ensures Trimmed(s) ==> r == s
  {
    TrimRight(TrimLeft(s))
  }

  lemma {:induction false} TrimLeftIsSuffix(s: string)
    ensures TrimLeft(s) == s[|s| - |TrimLeft(s)|..]
    ensures forall i :: 0 <= i < |s| - |TrimLeft(s)| ==> IsSpace(s[i])
  {
    if s != "" && IsSpace(s[0]) {
      TrimLeftIsSuffix(s[1..]);
    }
  }

  lemma {:induction false} TrimRightIsPrefix(s: string)
    ensures TrimRight(s) == s[..|TrimRight(s)|]
    ensures forall i :: |TrimRight(s)| <= i < |s| ==> IsSpace(s[i])
  {
    if s != "" && IsSpace(s[|s| - 1]) {
      TrimRightIsPrefix(s[..|s| - 1]);
    }
  }

  /** Trimming cuts a window out of the string. */
  lemma TrimIsWindow(s: string) returns (lo: nat, hi: nat)
    ensures lo <= hi <= |s| && Trim(s) == s[lo..hi]
  {
    TrimLeftIsSuffix(s);
    TrimRightIsPrefix(TrimLeft(s));
    lo := |s| - |TrimLeft(s)|;
    hi := lo + |Trim(s)|;
  }

  function LowerChar(c: char): char {
    if 'A' <= c <= 'Z' then (c as int + 32) as char else c
  }

  function UpperChar(c: char): char {
    if 'a' <= c <= 'z' then (c as int - 32) as char else c
  }

  function Lower(s: string): (r: string)
    ensures |r| == |s|
  {
    seq(|s|, i requires 0 <= i < |s| => LowerChar(s[i]))
  }

  function Upper(s: string): (r: string)
    ensures |r| == |s|
  {
    seq(|s|, i requires 0 <= i < |s| => UpperChar(s[i]))
  }

  /** strings.EqualFold on ASCII text. */
  predicate EqualFold(a: string, b: string) {
    Lower(a) == Lower(b)
  }

  // Cutting the ends off a lower-case string leaves a lower-case string, so
  // trimming after lowering is a normal form.
  lemma TrimLowerIsNormal(s: string)
    ensures Lower(Trim(Lower(s))) == Trim(Lower(s))
  {
    var lo, hi := TrimIsWindow(Lower(s));
    assert forall i :: 0 <= i < |s| ==> LowerChar(LowerChar(s[i])) == LowerChar(s[i]);
    assert Lower(Lower(s)[lo..hi]) == Lower(s)[lo..hi];
  }

  lemma TrimUpperIsNormal(s: string)
    ensures Upper(Trim(Upper(s))) == Trim(Upper(s))
  {
    var lo, hi := TrimIsWindow(Upper(s));
    assert forall i :: 0 <= i < |s| ==> UpperChar(UpperChar(s[i])) == UpperChar(s[i]);
    assert Upper(Upper(s)[lo..hi]) == Upper(s)[lo..hi];
  }

  lemma {:induction false} TrimLeftLower(s: string)
    ensures Lower(TrimLeft(s)) == TrimLeft(Lower(s)) && Upper(TrimLeft(s)) == TrimLeft(Upper(s))
  {
    if s != "" {
      CaseKeepsSpace(s[0]);
      TrimLeftLower(s[1..]);
      assert Lower(s)[1..] == Lower(s[1..]) && Upper(s)[1..] == Upper(s[1..]);
    }
  }

  lemma {:induction false} TrimRightLower(s: string)
    ensures Lower(TrimRight(s)) == TrimRight(Lower(s)) && Upper(TrimRight(s)) == TrimRight(Upper(s))
  {
    if s != "" {
      var n := |s| - 1;
      CaseKeepsSpace(s[n]);
      TrimRightLower(s[..n]);
      assert Lower(s)[..n] == Lower(s[..n]) && Upper(s)[..n] == Upper(s[..n]);
    }
  }

  lemma CaseKeepsSpace(c: char)
    ensures IsSpace(LowerChar(c)) == IsSpace(c) && IsSpace(UpperChar(c)) == IsSpace(c)
  {
  }

  /** Trimming and changing case can be done in either order. */
  lemma TrimCommutesWithCase(s: string)
    ensures Trim(Lower(s)) == Lower(Trim(s)) && Trim(Upper(s)) == Upper(Trim(s))
  {
    TrimLeftLower(s);
    TrimRightLower(TrimLeft(s));
  }

  /** Go's byte order on strings: lexicographic, a proper prefix first. */
  predicate Less(a: string, b: string)
    decreases |b|
  {
    b != "" && (a == "" || a[0] < b[0] || (a[0] == b[0] && Less(a[1..], b[1..])))
  }

  /** One string comes before another when it is a proper beginning of it or has the smaller character where they first differ. */
  lemma {:induction false} LessMeaning(a: string, b: string)
    ensures Less(a, b) <==>
              exists k :: 0 <= k < |b| && k <= |a| && a[..k] == b[..k] && (k == |a| || a[k] < b[k])
  {
    if a == "" {
      if b != "" {
        assert a[..0] == b[..0];
      }
    } else if b != "" {
      LessMeaning(a[1..], b[1..]);
      if k :| 0 <= k < |b| - 1 && k <= |a| - 1 && a[1..][..k] == b[1..][..k] && (k == |a| - 1 || a[1..][k] < b[1..][k]) && a[0] == b[0] {
        assert a[..k + 1] == [a[0]] + a[1..][..k] && b[..k + 1] == [b[0]] + b[1..][..k];
        assert a[..k + 1] == b[..k + 1];
      }
      if k :| 0 <= k < |b| && k <= |a| && a[..k] == b[..k] && (k == |a| || a[k] < b[k]) {
        if k == 0 {
          assert a[0] < b[0];
        } else {
          assert a[0] == a[..k][0] == b[..k][0] == b[0];
          assert a[1..][..k - 1] == a[..k][1..] && b[1..][..k - 1] == b[..k][1..];
        }
      }
      if a[0] < b[0] {
        assert a[..0] == b[..0];
      }
    }
  }

  lemma {:induction false} LessIrreflexive(a: string)
    ensures !Less(a, a)
  {
    if a != "" {
      LessIrreflexive(a[1..]);
    }
  }

  lemma {:induction false} LessTrichotomy(a: string, b: string)
    ensures a == b || Less(a, b) || Less(b, a)
    ensures !(Less(a, b) && Less(b, a))
    decreases |a|
  {
    if a != "" && b != "" && a[0] == b[0] {
      LessTrichotomy(a[1..], b[1..]);
      assert a == [a[0]] + a[1..] && b == [b[0]] + b[1..];
    }
  }

  lemma {:induction false} LessTransitive(a: string, b: string, c: string)
    requires Less(a, b) && Less(b, c)
    ensures Less(a, c)
    decreases |c|
  {
    if a != "" && a[0] == b[0] && b[0] == c[0] {
      LessTransitive(a[1..], b[1..], c[1..]);
    }
  }

  /** strings.HasPrefix */
  predicate HasPrefix(s: string, prefix: string) {
    |prefix| <= |s| && s[..|prefix|] == prefix
  }

  predicate HasSuffix(s: string, suffix: string) {
    |suffix| <= |s| && s[|s| - |suffix|..] == suffix
  }

  /** strings.TrimPrefix */
  function TrimPrefix(s: string, prefix: string): (r: string)
    ensures HasPrefix(s, prefix) ==> s == prefix + r
    ensures !HasPrefix(s, prefix) ==> r == s
  {
    if HasPrefix(s, prefix) then s[|prefix|..] else s
  }

  lemma PrefixOfConcat(prefix: string, rest: string)
    ensures HasPrefix(prefix + rest, prefix)
    ensures (prefix + rest)[|prefix|..] == rest
    ensures TrimPrefix(prefix + rest, prefix) == rest
  {
    assert (prefix + rest)[..|prefix|] == prefix;
    assert (prefix + rest)[|prefix|..] == rest;
  }
}
