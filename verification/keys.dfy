/**
 * Dotted tag keys such as `title` or `twitter.title`. The part before the
 * first dot names an extension; the part after it is the key a lookup falls
 * back to.
 */
module DottedKeys {
  import opened Optional

  type Key = string

  /** `Str::contains($key, '.')`. */
  predicate HasDot(s: string) {
    '.' in s
  }

  /** Number of dots in `s`. */
  function DotCount(s: string): nat {
    if |s| == 0 then 0 else (if s[0] == '.' then 1 else 0) + DotCount(s[1..])
  }

  /** `a` is a (not necessarily proper) suffix of `b`. */
  predicate IsSuffix(a: string, b: string) {
    |a| <= |b| && b[|b| - |a|..] == a
  }

  /** Index of the first `c` in `s`, if there is one. */
  function FirstIndex(s: string, c: char): (r: Option<nat>)
    ensures r.None? <==> c !in s
    ensures r.Some? ==> r.value < |s| && s[r.value] == c && c !in s[..r.value]
  {
    if |s| == 0 then None
    else if s[0] == c then Some(0)
    else
      assert s == [s[0]] + s[1..];
      match FirstIndex(s[1..], c)
      case None => None
      case Some(i) =>
        assert s[..i + 1] == [s[0]] + s[1..][..i];
        Some(i + 1)
  }

  /** In `p + [c] + q` with no `c` in `p`, the first `c` is the one right after `p`. */
  lemma FirstIndexOfJoin(p: string, c: char, q: string)
    requires c !in p
    ensures FirstIndex(p + [c] + q, c) == Some(|p|)
  {
    var s := p + [c] + q;
    assert s[|p|] == c;
    var i := FirstIndex(s, c).value;
    assert i == |p| by {
      if i < |p| {
        assert false;
      } else if i > |p| {
        assert false;
      }
    }
  }

  /** A separator `c` that `p1` and `p2` lack splits a joined string back uniquely. */
  lemma JoinCancel(p1: string, x1: string, p2: string, x2: string, c: char)
    requires c !in p1 && c !in p2
    requires p1 + [c] + x1 == p2 + [c] + x2
    ensures p1 == p2 && x1 == x2
  {
    FirstIndexOfJoin(p1, c, x1);
    FirstIndexOfJoin(p2, c, x2);
    var s := p1 + [c] + x1;
    assert p1 == s[..|p1|];
    assert p2 == s[..|p2|];
    assert x1 == s[|p1| + 1..];
    assert x2 == s[|p2| + 1..];
  }

  /** `Str::before($s, '.')`: what precedes the first dot, or all of `s` when it has none. */
  function Before(s: string): (r: string)
    ensures !HasDot(r)
    ensures IsPrefix(r, s)
  {
    match FirstIndex(s, '.')
    case None => s
    case Some(i) => s[..i]
  }

  /** `a` is a prefix of `b`. */
  predicate IsPrefix(a: string, b: string) {
    |a| <= |b| && b[..|a|] == a
  }

  /** `Str::after($s, '.')`: what follows the first dot, or all of `s` when it has none. */
  function After(s: string): (r: string)
    ensures HasDot(s) ==> s == Before(s) + "." + r
    ensures HasDot(s) ==> |r| < |s| && IsSuffix(r, s)
    ensures !HasDot(s) ==> r == s
  {
    match FirstIndex(s, '.')
    case None => s
    case Some(i) =>
      assert s == s[..i] + "." + s[i + 1..];
      s[i + 1..]
  }

  /**
   * Splitting is the inverse of joining at a dot-free head: for any `p`
   * without a dot, `p + "." + q` splits back into exactly `p` and `q`.
   */
  lemma SplitJoin(p: string, q: string)
    requires !HasDot(p)
    ensures HasDot(p + "." + q)
    ensures Before(p + "." + q) == p
    ensures After(p + "." + q) == q
  {
    var s := p + "." + q;
    FirstIndexOfJoin(p, '.', q);
    assert s[..|p|] == p;
    assert s[|p| + 1..] == q;
  }

  lemma {:induction false} DotCountAppend(a: string, b: string)
    ensures DotCount(a + b) == DotCount(a) + DotCount(b)
    decreases |a|
  {
    if |a| == 0 {
      assert a + b == b;
    } else {
      assert (a + b)[1..] == a[1..] + b;
      DotCountAppend(a[1..], b);
    }
  }

  lemma {:induction false} DotCountZero(s: string)
    ensures DotCount(s) == 0 <==> !HasDot(s)
    decreases |s|
  {
    if |s| > 0 {
      assert s == [s[0]] + s[1..];
      DotCountZero(s[1..]);
    }
  }

  /** Stripping the head and its dot removes exactly one dot. */
  lemma AfterDropsOneDot(s: string)
    requires HasDot(s)
    ensures DotCount(After(s)) + 1 == DotCount(s)
  {
    var b := Before(s);
    DotCountAppend(b + ".", After(s));
    DotCountAppend(b, ".");
    DotCountZero(b);
    assert DotCount(".") == 1 by {
      assert "."[1..] == [];
    }
  }

  lemma SuffixTransitive(a: string, b: string, c: string)
    requires IsSuffix(a, b) && IsSuffix(b, c)
    ensures IsSuffix(a, c)
  {
    assert c[|c| - |a|..] == c[|c| - |b|..][|b| - |a|..];
  }

  /**
   * The keys a lookup of `k` consults, in order: `k` itself, then the part
   * after its first dot, and so on; all but the first are shorter than `k`.
   */
  function Chain(k: Key): (c: seq<Key>)
    decreases |k|
    ensures |c| >= 1 && c[0] == k
    ensures forall i :: 0 < i < |c| ==> |c[i]| < |k|
  {
    if HasDot(k) then [k] + Chain(After(k)) else [k]
  }

  /** The fallback chain has one more key than `k` has dots. */
  lemma {:induction false} ChainLength(k: Key)
    decreases |k|
    ensures |Chain(k)| == DotCount(k) + 1
  {
    if HasDot(k) {
      ChainLength(After(k));
      AfterDropsOneDot(k);
    } else {
      DotCountZero(k);
    }
  }

  /** Every key of the fallback chain is a suffix of `k`. */
  lemma {:induction false} ChainSuffixes(k: Key)
    decreases |k|
    ensures forall i :: 0 <= i < |Chain(k)| ==> IsSuffix(Chain(k)[i], k)
  {
    if HasDot(k) {
      var c := Chain(k);
      var rest := Chain(After(k));
      ChainSuffixes(After(k));
      assert c == [k] + rest;
      forall i | 0 < i < |c|
        ensures IsSuffix(c[i], k)
      {
        assert c[i] == rest[i - 1];
        SuffixTransitive(rest[i - 1], After(k), k);
      }
    }
  }

  /** Only the last key of the fallback chain is dot-free: that is where `get` gives up. */
  lemma {:induction false} ChainLastDotFree(k: Key)
    decreases |k|
    ensures forall i :: 0 <= i < |Chain(k)| ==> (!HasDot(Chain(k)[i]) <==> i == |Chain(k)| - 1)
  {
    if HasDot(k) {
      ChainLastDotFree(After(k));
      assert Chain(k) == [k] + Chain(After(k));
    }
  }
}
