/** The parts of Python's `posixpath` the writer uses to name its file:
    `join`, `dirname` and `basename`. */
module Paths {

  const Sep := '/'

  /** The index of the last separator in `p`, or -1 (`p.rfind('/')`). */
  function LastSep(p: string): (i: int)
    ensures -1 <= i < |p|
    ensures i >= 0 ==> p[i] == Sep
    ensures forall k :: i < k < |p| ==> p[k] != Sep
  {
    if p == [] then -1
    else if p[|p| - 1] == Sep then |p| - 1
    else LastSep(p[..|p| - 1])
  }

  function StripTrailingSeps(p: string): (r: string)
    ensures |r| <= |p| && r == p[..|r|]
    ensures r != [] ==> r[|r| - 1] != Sep
    ensures forall k :: |r| <= k < |p| ==> p[k] == Sep
  {
    if p != [] && p[|p| - 1] == Sep then StripTrailingSeps(p[..|p| - 1]) else p
  }

  predicate AllSeps(p: string)
  {
    forall k :: 0 <= k < |p| ==> p[k] == Sep
  }

  /** `posixpath.basename`: everything after the last separator. */
  function Basename(p: string): (r: string)
    ensures Sep !in r
    ensures |r| <= |p| && r == p[|p| - |r|..]
    ensures |r| == |p| || p[|p| - |r| - 1] == Sep
  {
    p[LastSep(p) + 1..]
  }

  /** `posixpath.dirname`: everything up to the last separator, without
      trailing separators unless it consists of separators only. */
  function Dirname(p: string): (r: string)
    ensures |r| <= |p| && r == p[..|r|]
    ensures LastSep(p) < 0 ==> r == []
    ensures LastSep(p) >= 0 && AllSeps(p[..LastSep(p) + 1]) ==> r == p[..LastSep(p) + 1]
    ensures LastSep(p) >= 0 && !AllSeps(p[..LastSep(p) + 1]) ==>
      && 0 < |r| <= LastSep(p)
      && r[|r| - 1] != Sep
      && forall k :: |r| <= k <= LastSep(p) ==> p[k] == Sep
  {
    var head := p[..LastSep(p) + 1];
    if head != [] && !AllSeps(head) then StripTrailingSeps(head) else head
  }

  /** `posixpath.join(a, b)` for two components. */
  function Join(a: string, b: string): (r: string)
    ensures b != [] && b[0] == Sep ==> r == b
    ensures (b == [] || b[0] != Sep) && a != [] && a[|a| - 1] != Sep ==> r == a + [Sep] + b
    ensures (b == [] || b[0] != Sep) && (a == [] || a[|a| - 1] == Sep) ==> r == a + b
  {
    if b != [] && b[0] == Sep then b
    else if a == [] || a[|a| - 1] == Sep then a + b
    else a + [Sep] + b
  }

  /** Splitting a joined path whose last component has no separator gives the
      two components back. */
  lemma {:induction false} SplitJoin(a: string, b: string)
    requires a != [] && a[|a| - 1] != Sep && Sep !in b
    ensures Dirname(Join(a, b)) == a
    ensures Basename(Join(a, b)) == b
  {
    var p := Join(a, b);
    assert p == a + [Sep] + b;
    LastSepOfAppend(a, b);
    assert p[..|a| + 1] == a + [Sep];
    assert p[..|a| + 1][|a|] != p[..|a| + 1][|a| - 1];
    assert StripTrailingSeps(a + [Sep]) == a by {
      assert (a + [Sep])[..|a|] == a;
    }
    assert p[|a| + 1..] == b;
  }

  lemma {:induction false} LastSepOfAppend(a: string, b: string)
    requires Sep !in b
    ensures LastSep(a + [Sep] + b) == |a|
  {
    if b != [] {
      var p := a + [Sep] + b;
      assert p[..|p| - 1] == a + [Sep] + b[..|b| - 1];
      assert b[|b| - 1] in b;
      LastSepOfAppend(a, b[..|b| - 1]);
    } else {
      assert a + [Sep] + b == a + [Sep];
    }
  }
}
