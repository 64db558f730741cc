/** Template literals with `${…}` holes, and reading one back.

    A template literal `s0${v0}s1${v1}…sn` evaluates to its fixed strings
    `s0, …, sn` with the text of the substitutions `v0, …, v(n-1)` placed
    between them. `Interpolate` is that evaluation; `Match` recovers the
    substitutions from the result, taking each hole to extend up to the next
    `<`. Recovery succeeds whenever every fixed string after the first starts
    with `<` and no substitution contains one. */
module Templates {
  import opened Options

  /** The text of `strings[0]${subs[0]}strings[1]…strings[n]`. */
  function Interpolate(strings: seq<string>, subs: seq<string>): string
    requires |strings| == |subs| + 1
    decreases |subs|
  {
    if subs == [] then strings[0]
    else strings[0] + (subs[0] + Interpolate(strings[1..], subs[1..]))
  }

  /** Total length of a list of strings. */
  function TotalLength(ss: seq<string>): nat {
    if ss == [] then 0 else |ss[0]| + TotalLength(ss[1..])
  }

  /** Where the hole `k` of a filled-in template starts. */
  function HoleStart(strings: seq<string>, subs: seq<string>, k: nat): nat
    requires k < |subs| && |strings| == |subs| + 1
  {
    TotalLength(strings[..k + 1]) + TotalLength(subs[..k])
  }

  /** Text that starts with a tag. */
  predicate StartsTag(s: string) {
    |s| > 0 && s[0] == '<'
  }

  lemma Assoc(a: string, b: string, c: string)
    ensures (a + b) + c == a + (b + c)
  {
  }

  /** A slice inside the front part of `a + b` is a slice of `a`. */
  lemma SliceFront(a: string, b: string, i: nat, j: nat)
    requires i <= j <= |a|
    ensures (a + b)[i..j] == a[i..j]
  {
  }

  lemma PrefixAppend(p: string, a: string, b: string)
    requires p <= a
    ensures p <= a + b
  {
    assert (a + b)[..|p|] == a[..|p|];
  }

  lemma {:induction false} InterpolatePrefix(strings: seq<string>, subs: seq<string>)
    requires |strings| == |subs| + 1
    ensures strings[0] <= Interpolate(strings, subs)
  {
    if subs != [] {
      var tail := subs[0] + Interpolate(strings[1..], subs[1..]);
      assert Interpolate(strings, subs)[..|strings[0]|] == (strings[0] + tail)[..|strings[0]|];
    }
  }

  /** The length of a filled-in template is the length of its fixed strings
      plus the length of its substitutions. */
  lemma {:induction false} InterpolateLength(strings: seq<string>, subs: seq<string>)
    requires |strings| == |subs| + 1
    ensures |Interpolate(strings, subs)| == TotalLength(strings) + TotalLength(subs)
    decreases |subs|
  {
    assert TotalLength(strings) == |strings[0]| + TotalLength(strings[1..]);
    if subs == [] {
      assert TotalLength(strings[1..]) == 0;
    } else {
      InterpolateLength(strings[1..], subs[1..]);
    }
  }

  /** Every substitution appears verbatim at the offset `HoleStart` gives its
      hole (`HoleOrder` orders the holes). */
  lemma {:induction false} HoleAt(strings: seq<string>, subs: seq<string>, k: nat)
    requires |strings| == |subs| + 1 && k < |subs|
    ensures var at := HoleStart(strings, subs, k);
      && at + |subs[k]| <= |Interpolate(strings, subs)|
      && Interpolate(strings, subs)[at..at + |subs[k]|] == subs[k]
    decreases k
  {
    var s := Interpolate(strings, subs);
    var rest := Interpolate(strings[1..], subs[1..]);
    assert s == strings[0] + (subs[0] + rest);
    InterpolateLength(strings[1..], subs[1..]);
    if k == 0 {
      assert TotalLength(strings[..1]) == |strings[0]| by {
        assert strings[..1][1..] == [];
      }
      assert HoleStart(strings, subs, 0) == |strings[0]|;
    } else {
      HoleAt(strings[1..], subs[1..], k - 1);
      assert strings[..k + 1][1..] == strings[1..][..k];
      assert subs[..k][1..] == subs[1..][..k - 1];
      assert HoleStart(strings, subs, k)
        == |strings[0]| + |subs[0]| + HoleStart(strings[1..], subs[1..], k - 1);
    }
  }

  /** Appending a string to a list adds its length to the total. */
  lemma {:induction false} TotalLengthSnoc(ss: seq<string>, s: string)
    ensures TotalLength(ss + [s]) == TotalLength(ss) + |s|
    decreases |ss|
  {
    if ss == [] {
      assert ([] + [s])[1..] == [];
    } else {
      assert (ss + [s])[1..] == ss[1..] + [s];
      TotalLengthSnoc(ss[1..], s);
    }
  }

  /** The holes come in the order of the substitutions: hole `k + 1` starts
      right after the text of hole `k` and the fixed string between them. */
  lemma HoleOrder(strings: seq<string>, subs: seq<string>, k: nat)
    requires |strings| == |subs| + 1 && k + 1 < |subs|
    ensures HoleStart(strings, subs, k + 1) == HoleStart(strings, subs, k) + |subs[k]| + |strings[k + 1]|
  {
    assert strings[..k + 2] == strings[..k + 1] + [strings[k + 1]];
    assert subs[..k + 1] == subs[..k] + [subs[k]];
    TotalLengthSnoc(strings[..k + 1], strings[k + 1]);
    TotalLengthSnoc(subs[..k], subs[k]);
  }

  /** Splits text at its first `<`: the part before it, and the rest. */
  function SplitAtTag(s: string): (r: (string, string))
    ensures r.0 + r.1 == s
    ensures '<' !in r.0
    ensures r.1 == [] || r.1[0] == '<'
  {
    if s == [] || s[0] == '<' then ([], s)
    else
      var (a, b) := SplitAtTag(s[1..]);
      ([s[0]] + a, b)
  }

  /** A text free of `<` followed by a tag splits back into the two. */
  lemma {:induction false} SplitAtTagUnique(x: string, y: string)
    requires '<' !in x
    requires y == [] || y[0] == '<'
    ensures SplitAtTag(x + y) == (x, y)
    decreases |x|
  {
    if x == [] {
      assert x + y == y;
    } else {
      assert (x + y)[0] == x[0];
      assert (x + y)[1..] == x[1..] + y;
      SplitAtTagUnique(x[1..], y);
      assert [x[0]] + x[1..] == x;
    }
  }

  /** Reads `s` as `strings` filled in, followed by more text: each fixed
      string must appear where the template puts it, and each hole runs up to
      the next `<`. Yields the hole contents and the text after the template. */
  function Match(strings: seq<string>, s: string): (r: Option<(seq<string>, string)>)
    requires |strings| > 0
    ensures r.Some? ==> |r.value.0| == |strings| - 1
    ensures r.Some? ==> |r.value.1| + TotalLength(strings) <= |s|
    decreases |strings|
  {
    if !(strings[0] <= s) then None
    else
      var s1 := s[|strings[0]|..];
      if |strings| == 1 then Some(([], s1))
      else
        var (hole, s2) := SplitAtTag(s1);
        var more :- Match(strings[1..], s2);
        Some(([hole] + more.0, more.1))
  }

  /** Reading back a filled-in template recovers its substitutions and leaves
      the text that followed it. */
  lemma {:induction false} MatchInterpolate(strings: seq<string>, subs: seq<string>, rest: string)
    requires |strings| == |subs| + 1
    requires forall i :: 1 <= i < |strings| ==> StartsTag(strings[i])
    requires forall i :: 0 <= i < |subs| ==> '<' !in subs[i]
    ensures Match(strings, Interpolate(strings, subs) + rest) == Some((subs, rest))
    decreases |subs|
  {
    var s := Interpolate(strings, subs) + rest;
    if subs == [] {
      assert s[|strings[0]|..] == rest;
    } else {
      var inner := Interpolate(strings[1..], subs[1..]);
      Assoc(strings[0], subs[0] + inner, rest);
      Assoc(subs[0], inner, rest);
      assert s == strings[0] + (subs[0] + (inner + rest));
      assert s[|strings[0]|..] == subs[0] + (inner + rest);
      InterpolatePrefix(strings[1..], subs[1..]);
      assert StartsTag(strings[1]);
      assert (inner + rest)[0] == inner[0] == strings[1][0];
      SplitAtTagUnique(subs[0], inner + rest);
      MatchInterpolate(strings[1..], subs[1..], rest);
      assert [subs[0]] + subs[1..] == subs;
    }
  }
}
