/** The LINQ operators the repositories use (`Where`, `FirstOrDefault`,
    `Any`), plus the in-place replacement and removal the store performs on
    update and delete, as functions over sequences. */
module Collections {
  import opened Core

  /** `Where(p)`: the elements satisfying `p`, in their original order. */
  function Filter<T(!new)>(s: seq<T>, p: T -> bool): (r: seq<T>)
    ensures |r| <= |s|
    ensures forall x :: x in r <==> x in s && p(x)
    ensures (forall x :: x in s ==> p(x)) ==> r == s
    decreases |s|
  {
    if |s| == 0 then []
    else
      var rest := Filter(s[1..], p);
      assert s == [s[0]] + s[1..];
      if p(s[0]) then [s[0]] + rest else rest
  }

  /** A sequence is non-empty exactly when something is in it. */
  lemma NonEmptyIffMember<T>(s: seq<T>)
    ensures |s| > 0 <==> exists x :: x in s
  {
    if |s| > 0 {
      assert s[0] in s;
    }
  }

  /** `Where(p)` is empty exactly when no element satisfies `p`. */
  lemma {:induction false} FilterEmpty<T(!new)>(s: seq<T>, p: T -> bool)
    ensures |Filter(s, p)| == 0 <==> forall x :: x in s ==> !p(x)
    decreases |s|
  {
    if |s| > 0 {
      FilterEmpty(s[1..], p);
      assert forall x :: x in s <==> x == s[0] || x in s[1..];
    }
  }

  /** `FirstOrDefault(p)`: the first element satisfying `p`, or null. */
  function FirstWhere<T(!new)>(s: seq<T>, p: T -> bool): (r: Option<T>)
    ensures r.None? <==> forall x :: x in s ==> !p(x)
    ensures r.Some? ==> exists i :: 0 <= i < |s| && s[i] == r.value && p(s[i])
                                    && forall j :: 0 <= j < i ==> !p(s[j])
    decreases |s|
  {
    if |s| == 0 then None
    else if p(s[0]) then Some(s[0])
    else
      var rest := FirstWhere(s[1..], p);
      assert forall x :: x in s ==> x == s[0] || x in s[1..];
      if rest.Some? then
        ghost var i :| 0 <= i < |s[1..]| && s[1..][i] == rest.value && p(s[1..][i])
                       && forall j :: 0 <= j < i ==> !p(s[1..][j]);
        assert s[i + 1] == rest.value && forall j :: 0 <= j < i + 1 ==> !p(s[j]);
        rest
      else rest
  }

  /** `Any(p)`. */
  function Any<T(!new)>(s: seq<T>, p: T -> bool): (r: bool)
    ensures r <==> exists x :: x in s && p(x)
    decreases |s|
  {
    if |s| == 0 then false
    else
      assert forall x :: x in s ==> x == s[0] || x in s[1..];
      p(s[0]) || Any(s[1..], p)
  }

  /** Two sequences that agree on every position where `p` may hold have the
      same first `p`-element. */
  lemma {:induction false} FirstWhereAgrees<T(!new)>(s: seq<T>, t: seq<T>, p: T -> bool)
    requires |s| == |t|
    requires forall i :: 0 <= i < |s| ==> (p(t[i]) <==> p(s[i])) && (p(s[i]) ==> t[i] == s[i])
    ensures FirstWhere(s, p) == FirstWhere(t, p)
    decreases |s|
  {
    if |s| > 0 && !p(s[0]) {
      FirstWhereAgrees(s[1..], t[1..], p);
    }
  }

  /** Every element satisfying `p` replaced by `x`; order and length kept. */
  function ReplaceWhere<T>(s: seq<T>, p: T -> bool, x: T): (r: seq<T>)
    ensures |r| == |s|
    ensures forall i :: 0 <= i < |s| ==> r[i] == (if p(s[i]) then x else s[i])
  {
    seq(|s|, i requires 0 <= i < |s| => if p(s[i]) then x else s[i])
  }
}
