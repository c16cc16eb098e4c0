/** Splitting a text at a separator and joining the parts again. */
module Strings {
  import opened Prelude

  function Split(s: string, c: char): (parts: seq<string>)
    ensures |parts| >= 1
    decreases |s|
  {
    var k := IndexOf(s, c);
    if k == |s| then [s] else [s[..k]] + Split(s[k + 1..], c)
  }

  function Join(parts: seq<string>, c: char): string {
    if parts == [] then "" else if |parts| == 1 then parts[0] else parts[0] + [c] + Join(parts[1..], c)
  }

  lemma IndexOfConcat(a: string, c: char, b: string)
    requires c !in a
    ensures IndexOf(a + [c] + b, c) == |a|
  {
    var s := a + [c] + b;
    assert s[|a|] == c;
    assert forall i :: 0 <= i < |a| ==> s[i] == a[i];
  }

  /** Every text is the join of its parts, so different texts have different parts. */
  lemma {:induction false} SplitJoins(s: string, c: char)
    ensures Join(Split(s, c), c) == s
    ensures forall p :: p in Split(s, c) ==> c !in p
    decreases |s|
  {
    var k := IndexOf(s, c);
    if k < |s| {
      SplitJoins(s[k + 1..], c);
      assert s == s[..k] + [c] + s[k + 1..];
      assert Split(s, c)[1..] == Split(s[k + 1..], c);
    }
  }

  /** Parts without the separator come back from their join. */
  lemma {:induction false} JoinSplits(parts: seq<string>, c: char)
    requires parts != [] && forall p :: p in parts ==> c !in p
    ensures Split(Join(parts, c), c) == parts
  {
    var s := Join(parts, c);
    if |parts| == 1 {
      assert c !in parts[0];
    } else {
      JoinSplits(parts[1..], c);
      IndexOfConcat(parts[0], c, Join(parts[1..], c));
      assert s[..|parts[0]|] == parts[0] && s[|parts[0]| + 1..] == Join(parts[1..], c);
    }
  }
}
