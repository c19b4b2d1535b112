/**
 * `Array.prototype.hasObjWithPropVal` of the `arrays` module: whether some
 * element of an array of objects has property `prop` equal to `val`.
 *
 * An object is a map from property names to values; a property the object
 * does not have reads as `None` (undefined), so looking for `val = None`
 * finds the objects that lack `prop`.
 */
module Arrays {
  import opened Wrappers

  /** Whether element `obj` matches: `obj[prop]` equals `val`. */
  predicate Matches<V(==)>(obj: map<string, V>, prop: string, val: Option<V>) {
    Get(obj, prop) == val
  }

  /** The index of the first matching element of `s`, if any: the search from the front, stopping at a match. */
  function FirstMatch<V(==)>(s: seq<map<string, V>>, prop: string, val: Option<V>): (r: Option<nat>)
    ensures r.Some? ==> r.value < |s| && Matches(s[r.value], prop, val)
    ensures r.Some? ==> forall j :: 0 <= j < r.value ==> !Matches(s[j], prop, val)
  {
    if s == [] then None
    else if Matches(s[0], prop, val) then Some(0)
    else match FirstMatch(s[1..], prop, val)
      case None => None
      case Some(k) => Some(k + 1)
  }

  /** The search finds a match exactly when one exists. */
  lemma {:induction false} FirstMatchFindsAny<V>(s: seq<map<string, V>>, prop: string, val: Option<V>)
    ensures FirstMatch(s, prop, val).Some? <==> exists i :: 0 <= i < |s| && Matches(s[i], prop, val)
  {
    if s != [] && !Matches(s[0], prop, val) {
      FirstMatchFindsAny(s[1..], prop, val);
      if exists i :: 0 <= i < |s| && Matches(s[i], prop, val) {
        var i :| 0 <= i < |s| && Matches(s[i], prop, val);
        assert s[1..][i - 1] == s[i];
      }
    }
  }

  /** Appending elements never turns a found match into none, nor moves the first one. */
  lemma {:induction false} FirstMatchAppend<V>(s: seq<map<string, V>>, t: seq<map<string, V>>, prop: string, val: Option<V>)
    requires FirstMatch(s, prop, val).Some?
    ensures FirstMatch(s + t, prop, val) == FirstMatch(s, prop, val)
  {
    assert (s + t)[0] == s[0];
    if !Matches(s[0], prop, val) {
      assert (s + t)[1..] == s[1..] + t;
      FirstMatchAppend(s[1..], t, prop, val);
    }
  }

  /**
   * The loop of `hasObjWithPropVal`: it returns true at the first matching
   * index and false after the last element. `inspected` is how many
   * elements the loop looked at. The array is only read.
   */
  method HasObjWithPropVal<V(==)>(a: array<map<string, V>>, prop: string, val: Option<V>)
    returns (found: bool, ghost inspected: nat)
    ensures found <==> FirstMatch(a[..], prop, val).Some?
    ensures found ==> inspected == FirstMatch(a[..], prop, val).value + 1
    ensures !found ==> inspected == a.Length
  {
    var i := 0;
    while i < a.Length
      invariant 0 <= i <= a.Length
      invariant forall j :: 0 <= j < i ==> !Matches(a[j], prop, val)
    {
      if Get(a[i], prop) == val {
        FirstIsLeftmost(a[..], prop, val, i);
        return true, i + 1;
      }
      i := i + 1;
    }
    NoneBeforeEnd(a[..], prop, val);
    return false, a.Length;
  }

  /** A match at `i` with none before it is what `FirstMatch` returns. */
  lemma {:induction false} FirstIsLeftmost<V>(s: seq<map<string, V>>, prop: string, val: Option<V>, i: nat)
    requires i < |s| && Matches(s[i], prop, val)
    requires forall j :: 0 <= j < i ==> !Matches(s[j], prop, val)
    ensures FirstMatch(s, prop, val) == Some(i)
  {
    if i > 0 {
      forall j | 0 <= j < i - 1
        ensures !Matches(s[1..][j], prop, val)
      {
        assert s[1..][j] == s[j + 1];
      }
      FirstIsLeftmost(s[1..], prop, val, i - 1);
    }
  }

  /** With no match anywhere, `FirstMatch` is `None`. */
  lemma NoneBeforeEnd<V>(s: seq<map<string, V>>, prop: string, val: Option<V>)
    requires forall j :: 0 <= j < |s| ==> !Matches(s[j], prop, val)
    ensures FirstMatch(s, prop, val) == None
  {
    FirstMatchFindsAny(s, prop, val);
  }

  /** An empty array has no match. */
  lemma EmptyHasNone<V>(prop: string, val: Option<V>)
    ensures FirstMatch([], prop, val) == None
  {
  }
}
