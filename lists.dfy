/** The list idioms the bots build with ArrayList loops: keeping, in order,
    the elements a test accepts. */
module Lists {

  /** The elements of s that f accepts, in their order in s. */
  function Filter<T>(s: seq<T>, f: T -> bool): (r: seq<T>)
    ensures |r| <= |s|
  {
    if |s| == 0 then [] else (if f(s[0]) then [s[0]] else []) + Filter(s[1..], f)
  }

  /** Exactly the accepted elements of s appear in the filtered list. */
  lemma {:induction false} FilterMembers<T>(s: seq<T>, f: T -> bool, x: T)
    ensures x in Filter(s, f) <==> x in s && f(x)
  {
    if |s| > 0 {
      FilterMembers(s[1..], f, x);
      assert x in s <==> x == s[0] || x in s[1..];
    }
  }

  /** The loop step: appending one element to the input appends it to the
      output exactly when it is accepted. */
  lemma FilterAppend<T>(s: seq<T>, f: T -> bool, x: T)
    ensures Filter(s + [x], f) == Filter(s, f) + (if f(x) then [x] else [])
  {
    FilterConcat(s, [x], f);
    assert [x][1..] == [];
  }

  /** The loop step on prefixes: one more element of s read. */
  lemma FilterPrefix<T>(s: seq<T>, f: T -> bool, i: nat)
    requires i < |s|
    ensures Filter(s[..i + 1], f) == Filter(s[..i], f) + (if f(s[i]) then [s[i]] else [])
  {
    assert s[..i + 1] == s[..i] + [s[i]];
    FilterAppend(s[..i], f, s[i]);
  }

  /** The filtered list is empty exactly when no element is accepted. */
  lemma {:induction false} FilterEmpty<T>(s: seq<T>, f: T -> bool)
    ensures |Filter(s, f)| == 0 <==> forall j :: 0 <= j < |s| ==> !f(s[j])
  {
    if |s| > 0 {
      FilterEmpty(s[1..], f);
      assert forall j :: 1 <= j < |s| ==> s[j] == s[1..][j - 1];
    }
  }

  /** Nothing is dropped when every element is accepted. */
  lemma {:induction false} FilterAll<T>(s: seq<T>, f: T -> bool)
    requires forall j :: 0 <= j < |s| ==> f(s[j])
    ensures Filter(s, f) == s
  {
    if |s| > 0 {
      assert forall j :: 0 <= j < |s| - 1 ==> s[1..][j] == s[j + 1];
      FilterAll(s[1..], f);
      assert s == [s[0]] + s[1..];
    }
  }

  /** The head of the filtered list is the first accepted element of s. */
  lemma {:induction false} FilterFirst<T>(s: seq<T>, f: T -> bool, k: nat)
    requires k < |s| && f(s[k]) && forall j :: 0 <= j < k ==> !f(s[j])
    ensures |Filter(s, f)| > 0 && Filter(s, f)[0] == s[k]
  {
    if k > 0 {
      assert forall j :: 0 <= j < k - 1 ==> s[1..][j] == s[j + 1];
      FilterFirst(s[1..], f, k - 1);
    }
  }

  /** Conversely, the head of a non-empty filtered list is an accepted
      element of s before which s has no accepted element. */
  lemma {:induction false} FilterHead<T>(s: seq<T>, f: T -> bool)
    requires |Filter(s, f)| > 0
    ensures exists k :: 0 <= k < |s| && s[k] == Filter(s, f)[0] && f(s[k]) && forall j :: 0 <= j < k ==> !f(s[j])
  {
    if f(s[0]) {
      assert s[0] == Filter(s, f)[0];
    } else {
      FilterHead(s[1..], f);
      var k :| 0 <= k < |s[1..]| && s[1..][k] == Filter(s[1..], f)[0] && f(s[1..][k])
        && forall j :: 0 <= j < k ==> !f(s[1..][j]);
      assert forall j :: 1 <= j < k + 1 ==> s[j] == s[1..][j - 1];
      assert s[k + 1] == Filter(s, f)[0] && f(s[k + 1]);
    }
  }

  /** Filtering keeps relative order: the filter of a concatenation is the
      filter of the first part followed by the filter of the second, so
      whatever of a comes before whatever of b. */
  lemma {:induction false} FilterConcat<T>(a: seq<T>, b: seq<T>, f: T -> bool)
    ensures Filter(a + b, f) == Filter(a, f) + Filter(b, f)
  {
    if |a| == 0 {
      assert a + b == b;
    } else {
      var t := a + b;
      assert t[0] == a[0] && t[1..] == a[1..] + b;
      FilterConcat(a[1..], b, f);
      var head := if f(a[0]) then [a[0]] else [];
      calc {
        Filter(t, f);
        head + Filter(a[1..] + b, f);
        head + (Filter(a[1..], f) + Filter(b, f));
        (head + Filter(a[1..], f)) + Filter(b, f);
        Filter(a, f) + Filter(b, f);
      }
    }
  }

  /** Collections.shuffle: the Fisher-Yates swaps, each position i from the
      end swapped with some position below or at it. The random source is
      not modelled; the result is some reordering of the input. */
  method Shuffle<T>(s: seq<T>) returns (r: seq<T>)
    ensures |r| == |s| && multiset(r) == multiset(s)
  {
    r := s;
    var i := |r|;
    while i > 1
      invariant 0 <= i <= |r| == |s| && multiset(r) == multiset(s)
    {
      var j :| 0 <= j < i;
      i := i - 1;
      r := r[i := r[j]][j := r[i]];
    }
  }
}
