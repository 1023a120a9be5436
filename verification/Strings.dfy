/**
 Python's `str.split` and `str.join`, and the cases in which one undoes the
 other.
*/
module Strings {

  /** `str.split`: leftmost, non-overlapping. */
  function Split(s: string, sep: string): (r: seq<string>)
    requires sep != []
    ensures r != []
    decreases s
  {
    if s == [] then [[]]
    else if sep <= s then [[]] + Split(s[|sep|..], sep)
    else
      var rest := Split(s[1..], sep);
      [[s[0]] + rest[0]] + rest[1..]
  }

  function Join(ps: seq<string>, sep: string): string {
    if ps == [] then [] else if |ps| == 1 then ps[0] else ps[0] + sep + Join(ps[1..], sep)
  }

  /** No occurrence of `sep` starts inside `a` when `a` is followed by `b`. */
  predicate Free(a: string, b: string, sep: string) {
    forall i :: 0 <= i < |a| ==> !(sep <= (a + b)[i..])
  }

  lemma {:induction false} SplitStep(a: string, b: string, sep: string)
    requires sep != [] && Free(a, sep + b, sep)
    ensures Split(a + sep + b, sep) == [a] + Split(b, sep)
    decreases a
  {
    var s := a + sep + b;
    assert s == a + (sep + b);
    if a == [] {
      assert s[|sep|..] == b && sep <= s;
    } else {
      assert s[0..] == s;
      assert !(sep <= s) by { assert (a + (sep + b))[0..] == s; }
      assert s[1..] == a[1..] + sep + b;
      forall i | 0 <= i < |a[1..]| ensures !(sep <= (a[1..] + (sep + b))[i..]) {
        assert (a[1..] + (sep + b))[i..] == (a + (sep + b))[i + 1..];
      }
      SplitStep(a[1..], b, sep);
      assert [s[0]] + a[1..] == a;
    }
  }

  lemma {:induction false} SplitFree(a: string, sep: string)
    requires sep != [] && Free(a, [], sep)
    ensures Split(a, sep) == [a]
    decreases a
  {
    if a != [] {
      assert (a + [])[0..] == a;
      forall i | 0 <= i < |a[1..]| ensures !(sep <= (a[1..] + [])[i..]) {
        assert (a[1..] + [])[i..] == (a + [])[i + 1..];
      }
      SplitFree(a[1..], sep);
      assert [a[0]] + a[1..] == a;
    }
  }

  predicate Lacks(s: string, c: char) { c !in s }

  /** How splitting at a single character goes on after the first one. */
  lemma SplitAtChar(s: string, c: char)
    requires s != []
    ensures var rest := Split(s[1..], [c]);
            Split(s, [c]) == if s[0] == c then [[]] + rest else [[s[0]] + rest[0]] + rest[1..]
  {
    if s[0] == c { assert [c] <= s && s[|[c]|..] == s[1..]; }
  }

  lemma JoinStep(x: char, ps: seq<string>, sep: string)
    requires ps != []
    ensures Join([[]] + ps, sep) == sep + Join(ps, sep)
    ensures Join([[x] + ps[0]] + ps[1..], sep) == [x] + Join(ps, sep)
  {
    assert ([[]] + ps)[1..] == ps && [] + sep == sep;
    assert ([[x] + ps[0]] + ps[1..])[1..] == ps[1..];
    if |ps| > 1 {
      assert [x] + ps[0] + sep + Join(ps[1..], sep) == [x] + (ps[0] + sep + Join(ps[1..], sep));
    }
  }

  lemma {:induction false} JoinSplit(s: string, c: char)
    ensures var r := Split(s, [c]); Join(r, [c]) == s && forall i :: 0 <= i < |r| ==> Lacks(r[i], c)
    decreases s
  {
    if s != [] {
      hide Split, Join;
      JoinSplit(s[1..], c);
      SplitAtChar(s, c);
      JoinStep(s[0], Split(s[1..], [c]), [c]);
      assert s == [s[0]] + s[1..];
    }
  }

  lemma FreeOf(a: string, b: string, c: char)
    requires Lacks(a, c)
    ensures Free(a, b, [c])
  {
    forall i | 0 <= i < |a| ensures !([c] <= (a + b)[i..]) {
      assert (a + b)[i..][0] == a[i];
    }
  }

  lemma {:induction false} SplitJoined(lines: seq<string>, c: char)
    requires lines != [] && forall i :: 0 <= i < |lines| ==> Lacks(lines[i], c)
    ensures Split(Join(lines, [c]), [c]) == lines
    decreases lines
  {
    if |lines| == 1 {
      FreeOf(lines[0], [], c);
      SplitFree(lines[0], [c]);
    } else {
      var rest := Join(lines[1..], [c]);
      FreeOf(lines[0], [c] + rest, c);
      SplitStep(lines[0], rest, [c]);
      SplitJoined(lines[1..], c);
    }
  }

  /** Splitting at a single character splits both sides of any occurrence. */
  lemma {:induction false} SplitAround(a: string, b: string, c: char)
    ensures Split(a + [c] + b, [c]) == Split(a, [c]) + Split(b, [c])
    decreases a
  {
    var s := a + [c] + b;
    if a == [] {
      assert s[1..] == b && [c] <= s;
    } else {
      assert s[1..] == a[1..] + [c] + b && s[0] == a[0];
      SplitAround(a[1..], b, c);
      if a[0] == c {
        assert [c] <= s && [c] <= a && s[|[c]|..] == s[1..] && a[|[c]|..] == a[1..];
      } else {
        assert !([c] <= s) && !([c] <= a);
      }
    }
  }

  /** A length no name of a finite set exceeds. */
  lemma {:induction false} LengthBound(names: set<string>) returns (n: nat)
    ensures forall f :: f in names ==> |f| <= n
    decreases names
  {
    n := 0;
    if f: string :| f in names {
      var k := LengthBound(names - {f});
      n := if k < |f| then |f| else k;
      forall g | g in names ensures |g| <= n { assert g == f || g in names - {f}; }
    }
  }

  predicate EndsWith(s: string, suffix: string) { |suffix| <= |s| && s[|s| - |suffix|..] == suffix }
}
