/**
 The small part of `java.lang.String` the modelled code relies on:
 `equalsIgnoreCase`, `compareTo` (the order a `TreeSet<String>` keeps) and
 the second field of `split("_")`. Characters are folded with the ASCII
 case mapping only.
 */
module JavaStrings {

  datatype Option<+T> = None | Some(value: T) {
    function GetOr(default: T): T {
      match this
      case Some(v) => v
      case None => default
    }
  }

  function Upper(c: char): char {
    if 'a' <= c <= 'z' then (c as int - 32) as char else c
  }

  function Lower(c: char): char {
    if 'A' <= c <= 'Z' then (c as int + 32) as char else c
  }

  /** Character test used by `String.equalsIgnoreCase`. */
  predicate CharEqualsIgnoreCase(a: char, b: char) {
    a == b || Upper(a) == Upper(b) || Lower(Upper(a)) == Lower(Upper(b))
  }

  /** `a.equalsIgnoreCase(b)` for a non-null `b`. */
  predicate EqualsIgnoreCase(a: string, b: string) {
    |a| == |b| && forall i :: 0 <= i < |a| ==> CharEqualsIgnoreCase(a[i], b[i])
  }

  lemma EqualsIgnoreCaseIsEquivalence(a: string, b: string, c: string)
    ensures EqualsIgnoreCase(a, a)
    ensures EqualsIgnoreCase(a, b) ==> EqualsIgnoreCase(b, a)
    ensures EqualsIgnoreCase(a, b) && EqualsIgnoreCase(b, c) ==> EqualsIgnoreCase(a, c)
  {
  }

  /** `a.compareTo(b) < 0`: the first differing character decides, else the shorter string is smaller. */
  predicate Less(a: string, b: string)
    decreases |a|
  {
    if |a| == 0 then |b| > 0
    else if |b| == 0 then false
    else if a[0] != b[0] then a[0] < b[0]
    else Less(a[1..], b[1..])
  }

  lemma {:induction false} LessIrreflexive(a: string)
    ensures !Less(a, a)
    decreases |a|
  {
    if |a| > 0 {
      LessIrreflexive(a[1..]);
    }
  }

  lemma {:induction false} LessTransitive(a: string, b: string, c: string)
    requires Less(a, b) && Less(b, c)
    ensures Less(a, c)
    decreases |a|
  {
    if |a| > 0 && |b| > 0 && |c| > 0 && a[0] == b[0] && b[0] == c[0] {
      LessTransitive(a[1..], b[1..], c[1..]);
    }
  }

  lemma {:induction false} LessTotal(a: string, b: string)
    requires a != b
    ensures Less(a, b) || Less(b, a)
    decreases |a|
  {
    if |a| > 0 && |b| > 0 && a[0] == b[0] {
      LessTotal(a[1..], b[1..]);
    }
  }

  lemma LessAsymmetric(a: string, b: string)
    requires Less(a, b)
    ensures !Less(b, a)
  {
    if Less(b, a) {
      LessTransitive(a, b, a);
      LessIrreflexive(a);
    }
  }

  /** Strictly increasing: what iterating a `TreeSet<String>` yields. */
  predicate StrictlySorted(s: seq<string>) {
    forall i, j :: 0 <= i < j < |s| ==> Less(s[i], s[j])
  }

  /** Inserts `x` into a strictly sorted sequence, keeping it a set. */
  function Insert(s: seq<string>, x: string): (r: seq<string>)
    requires StrictlySorted(s)
    ensures StrictlySorted(r)
    ensures forall y :: y in r <==> y in s || y == x
    decreases |s|
  {
    if |s| == 0 then [x]
    else if x == s[0] then s
    else if Less(x, s[0]) then
      assert forall j :: 0 < j < |s| ==> Less(x, s[j]) by {
        forall j | 0 < j < |s| {
          LessTransitive(x, s[0], s[j]);
        }
      }
      [x] + s
    else
      LessTotal(x, s[0]);
      var rest := Insert(s[1..], x);
      assert forall y :: y in s <==> y == s[0] || y in s[1..] by {
        assert s == [s[0]] + s[1..];
      }
      forall j | 0 <= j < |rest|
        ensures Less(s[0], rest[j])
      {
        assert rest[j] in rest;
        if rest[j] != x {
          var k :| 0 <= k < |s[1..]| && s[1..][k] == rest[j];
          assert s[k + 1] == rest[j];
        }
      }
      [s[0]] + rest
  }

  /** The part of `s` before its first `'_'` (all of `s` when there is none). */
  function UpToUnderscore(s: string): (r: string)
    ensures |r| <= |s| && r == s[..|r|]
    ensures '_' !in r
    ensures |r| < |s| ==> s[|r|] == '_'
  {
    if |s| == 0 || s[0] == '_' then "" else [s[0]] + UpToUnderscore(s[1..])
  }

  /**
   `s.split("_")[1]`: Java drops trailing empty fields, so the element at
   index 1 exists exactly when some character after the first `'_'` is not
   an underscore; otherwise the access throws and the result is `None`.
   */
  function SecondField(s: string): (r: Option<string>)
    ensures r.Some? ==> '_' !in r.value
  {
    var head := UpToUnderscore(s);
    if |head| == |s| then None
    else
      var rest := s[|head| + 1..];
      if forall i :: 0 <= i < |rest| ==> rest[i] == '_' then None
      else Some(UpToUnderscore(rest))
  }

  lemma {:induction false} UpToUnderscoreAt(s: string, k: nat)
    requires k <= |s| && (k == |s| || s[k] == '_')
    requires forall j :: 0 <= j < k ==> s[j] != '_'
    ensures UpToUnderscore(s) == s[..k]
    decreases k
  {
    if k > 0 {
      UpToUnderscoreAt(s[1..], k - 1);
      assert s[..k] == [s[0]] + s[1..][..k - 1];
    }
  }

  /** A string with exactly one `'_'`, not at the end, splits into the text after it. */
  lemma SecondFieldAt(s: string, k: nat)
    requires k + 1 < |s| && s[k] == '_'
    requires forall j :: 0 <= j < |s| && j != k ==> s[j] != '_'
    ensures SecondField(s) == Some(s[k + 1..])
  {
    UpToUnderscoreAt(s, k);
    var rest := s[k + 1..];
    UpToUnderscoreAt(rest, |rest|);
    assert rest[..|rest|] == rest;
    assert |UpToUnderscore(s)| == k;
    assert rest[0] != '_';
    assert !(forall i :: 0 <= i < |rest| ==> rest[i] == '_');
  }
}
