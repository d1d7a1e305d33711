/** Searching and ordering strings, as startsWith, split and sorted need it. */
module Text {

  predicate StartsWith(s: string, prefix: string) {
    |prefix| <= |s| && s[..|prefix|] == prefix
  }

  // The index of the first c in s, or the length.
  function Find(s: string, c: char): (i: nat)
    ensures i <= |s|
    ensures i < |s| ==> s[i] == c
    ensures forall j :: 0 <= j < i ==> s[j] != c
  {
    if s == "" || s[0] == c then 0 else 1 + Find(s[1..], c)
  }

  lemma {:induction false} FindsFirst(s: string, c: char, i: nat)
    requires i <= |s| && (i < |s| ==> s[i] == c) && forall j :: 0 <= j < i ==> s[j] != c
    ensures Find(s, c) == i
  {}

  // a < b, character by character.
  predicate Less(a: string, b: string) {
    b != "" && (a == "" || a[0] < b[0] || (a[0] == b[0] && Less(a[1..], b[1..])))
  }

  // a and b differ first at i, where a has the smaller character.
  ghost predicate DifferAt(a: string, b: string, i: nat) {
    i < |a| && i < |b| && a[..i] == b[..i] && a[i] < b[i]
  }

  // a comes before b exactly when it is a proper prefix, or has the smaller character
  // at the first place where they differ.
  lemma {:induction false} LessExactly(a: string, b: string)
    ensures Less(a, b) <==> a < b || exists i :: DifferAt(a, b, i)
  {
    if a == "" || b == "" {
    } else if a[0] == b[0] {
      LessExactly(a[1..], b[1..]);
      LessOfTails(a, b);
    } else {
      assert a[0] < b[0] ==> DifferAt(a, b, 0);
      forall i: nat
        ensures a[0] > b[0] ==> !DifferAt(a, b, i)
      {
        SameFirst(a, b, i);
      }
    }
  }

  lemma {:induction false} SameFirst(a: string, b: string, i: nat)
    requires a != "" && b != ""
    ensures DifferAt(a, b, i) ==> a[0] <= b[0]
  {
    if 0 < i <= |a| && i <= |b| {
      assert a[..i][0] == a[0] && b[..i][0] == b[0];
    }
  }

  lemma {:induction false} LessOfTails(a: string, b: string)
    requires a != "" && b != "" && a[0] == b[0]
    ensures (a[1..] < b[1..]) == (a < b)
    ensures (exists i :: DifferAt(a[1..], b[1..], i)) <==> exists i :: DifferAt(a, b, i)
  {
    assert a == [a[0]] + a[1..] && b == [b[0]] + b[1..];
    forall i: nat | DifferAt(a[1..], b[1..], i)
      ensures DifferAt(a, b, i + 1)
    {
      assert a[..i + 1] == [a[0]] + a[1..][..i] && b[..i + 1] == [b[0]] + b[1..][..i];
    }
    forall i: nat | DifferAt(a, b, i)
      ensures i > 0 && DifferAt(a[1..], b[1..], i - 1)
    {
      assert a[1..][..i - 1] == a[..i][1..] && b[1..][..i - 1] == b[..i][1..];
    }
  }

  lemma {:induction false} LessIsTotal(a: string, b: string)
    ensures a == b || Less(a, b) || Less(b, a)
  {
    if a != "" && b != "" && a[0] == b[0] {
      LessIsTotal(a[1..], b[1..]);
      assert a == [a[0]] + a[1..] && b == [b[0]] + b[1..];
    }
  }

  lemma {:induction false} LessIsIrreflexive(a: string)
    ensures !Less(a, a)
  {
    if a != "" {
      LessIsIrreflexive(a[1..]);
    }
  }

  lemma {:induction false} LessIsTransitive(a: string, b: string, c: string)
    requires Less(a, b) && Less(b, c)
    ensures Less(a, c)
  {
    if a != "" && a[0] == b[0] == c[0] {
      LessIsTransitive(a[1..], b[1..], c[1..]);
    }
  }
}
