/** Splitting a string at a separator, and joining strings with one. */
module Text {

  predicate StartsWith(s: string, sep: string) { |sep| <= |s| && s[..|sep|] == sep }

  /** The first place from `i` on where `sep` stands, or the length. */
  function Find(s: string, sep: string, i: nat): (r: nat)
    requires i <= |s|
    ensures i <= r <= |s|
    ensures r < |s| ==> StartsWith(s[r..], sep)
    ensures forall j :: i <= j < r ==> !StartsWith(s[j..], sep)
    decreases |s| - i
  {
    if i == |s| || StartsWith(s[i..], sep) then i else Find(s, sep, i + 1)
  }

  predicate Contains(s: string, sep: string) { Find(s, sep, 0) < |s| }

  function Split(s: string, sep: string): seq<string>
    requires |sep| > 0
    decreases |s|
  {
    var i := Find(s, sep, 0);
    if i == |s| then [s] else [s[..i]] + Split(s[i + |sep|..], sep)
  }

  function Join(parts: seq<string>, sep: string): string {
    if parts == [] then "" else if |parts| == 1 then parts[0] else parts[0] + sep + Join(parts[1..], sep)
  }

  /** A separator that a pair of marks, which nothing else has, gives away. */
  predicate Marked(sep: string, m: char, k: nat) {
    k + 1 < |sep| && forall i :: 0 <= i < |sep| ==> (sep[i] == m <==> i == k || i == k + 1)
  }

  predicate Free(s: string, m: char) { m !in s }

  lemma NotAt(s: string, sep: string, i: nat, k: nat)
    requires i <= |s| && k < |sep| && (i + k < |s| ==> s[i + k] != sep[k])
    ensures !StartsWith(s[i..], sep)
  {
    assert i + k < |s| ==> s[i..][k] == s[i + k];
  }

  lemma NotIn(s: string, sep: string, m: char, k: nat)
    requires Marked(sep, m, k) && Free(s, m)
    ensures !Contains(s, sep)
  {
    forall i | 0 <= i < |s| ensures !StartsWith(s[i..], sep) { NotAt(s, sep, i, k); }
  }

  lemma FoundAt(a: string, sep: string, rest: string, m: char, k: nat)
    requires Marked(sep, m, k) && Free(a, m)
    ensures Find(a + sep + rest, sep, 0) == |a|
    ensures (a + sep + rest)[..|a|] == a && (a + sep + rest)[|a| + |sep|..] == rest
  {
    var s := a + sep + rest;
    assert s[|a|..][..|sep|] == sep;
    forall i | 0 <= i < |a| ensures !StartsWith(s[i..], sep) {
      assert i + k < |a| ==> s[i + k] in a;
      NotAt(s, sep, i, k);
    }
  }

  lemma JoinStep(parts: seq<string>, sep: string)
    requires |parts| > 1
    ensures Join(parts, sep) == parts[0] + sep + Join(parts[1..], sep)
  {}

  lemma JoinOne(part: string, sep: string)
    ensures Join([part], sep) == part
  {}

  lemma SplitStep(s: string, sep: string, i: nat)
    requires |sep| > 0 && i < |s| && i == Find(s, sep, 0)
    ensures Contains(s, sep) && i + |sep| <= |s| && Split(s, sep) == [s[..i]] + Split(s[i + |sep|..], sep)
  {}

  lemma SplitOne(s: string, sep: string)
    requires |sep| > 0 && !Contains(s, sep)
    ensures Split(s, sep) == [s]
  {}

  lemma {:induction false} SplitJoin(parts: seq<string>, sep: string, m: char, k: nat)
    requires Marked(sep, m, k) && parts != [] && forall p <- parts :: Free(p, m)
    ensures Split(Join(parts, sep), sep) == parts
    ensures Contains(Join(parts, sep), sep) <==> |parts| > 1
  {
    assert |sep| > 0;
    hide Split, Join, Find, Marked, Free, Contains;
    if |parts| == 1 {
      assert parts[0] in parts && parts == [parts[0]];
      NotIn(parts[0], sep, m, k);
      JoinOne(parts[0], sep);
      SplitOne(parts[0], sep);
    } else {
      assert parts[0] in parts && parts == [parts[0]] + parts[1..];
      SplitJoin(parts[1..], sep, m, k);
      JoinStep(parts, sep);
      FoundAt(parts[0], sep, Join(parts[1..], sep), m, k);
      SplitStep(Join(parts, sep), sep, |parts[0]|);
    }
  }
}
