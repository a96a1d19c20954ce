/** Splitting strings at a separator. */
module Text {
  import opened Wrappers

  /** What comes before and after the first separator. */
  function SplitOnce(s: string, c: char): (r: Option<(string, string)>)
    ensures r.Some? ==> s == r.value.0 + [c] + r.value.1 && c !in r.value.0
    ensures r.None? <==> c !in s
  {
    if s == [] then None
    else if s[0] == c then Some(([], s[1..]))
    else
      match SplitOnce(s[1..], c)
      case None => None
      case Some((before, after)) => Some(([s[0]] + before, after))
  }

  /** What comes before and after the last separator. */
  function SplitLast(s: string, c: char): (r: Option<(string, string)>)
    ensures r.Some? ==> s == r.value.0 + [c] + r.value.1 && c !in r.value.1
    ensures r.None? <==> c !in s
  {
    if s == [] then None
    else
      var n := |s| - 1;
      if s[n] == c then Some((s[..n], []))
      else
        match SplitLast(s[..n], c)
        case None => None
        case Some((before, after)) => Some((before, after + [s[n]]))
  }

  /** All the parts between separators. */
  function Split(s: string, c: char): (r: seq<string>)
    ensures |r| >= 1
    ensures forall i :: 0 <= i < |r| ==> c !in r[i]
    decreases |s|
  {
    match SplitOnce(s, c)
    case None => [s]
    case Some((before, after)) => [before] + Split(after, c)
  }

  lemma {:induction false} SplitOnceFinds(before: string, c: char, after: string)
    requires c !in before
    ensures SplitOnce(before + [c] + after, c) == Some((before, after))
  {
    var s := before + [c] + after;
    if before != [] {
      assert s[1..] == before[1..] + [c] + after;
      SplitOnceFinds(before[1..], c, after);
      assert before == [before[0]] + before[1..];
    }
  }

  lemma {:induction false} SplitLastFinds(before: string, c: char, after: string)
    requires c !in after
    ensures SplitLast(before + [c] + after, c) == Some((before, after))
    decreases |after|
  {
    var s := before + [c] + after;
    if after == [] {
      assert s[..|s| - 1] == before;
    } else {
      var n := |after| - 1;
      assert s[..|s| - 1] == before + [c] + after[..n];
      SplitLastFinds(before, c, after[..n]);
      assert after == after[..n] + [after[n]];
    }
  }

  lemma SplitFirst(a: string, c: char, rest: string)
    requires c !in a
    ensures Split(a + [c] + rest, c) == [a] + Split(rest, c)
  {
    SplitOnceFinds(a, c, rest);
  }

  lemma SplitTwo(a: string, c: char, b: string)
    requires c !in a && c !in b
    ensures Split(a + [c] + b, c) == [a, b]
  {
    SplitOnceFinds(a, c, b);
    assert SplitOnce(b, c) == None;
    assert Split(b, c) == [b];
  }

  lemma NoSeparator(s: string, c: char)
    requires c !in s
    ensures Split(s, c) == [s]
  {
    assert SplitOnce(s, c) == None;
  }
}
