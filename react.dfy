/**
 * The `react` module: the `reactComponents` registry and the prop-name
 * bookkeeping of the `react` directive.
 *
 * A prop `key` is passed to the directive as the normalised attribute
 * `prefix(key)` ("prop" + key with its first letter upper-cased), and
 * `unprefix` maps an attribute name back to its key. Case mapping is
 * restricted to ASCII.
 */
module React {
  import opened Wrappers
  import opened Ascii

  /** `"prop" + key[0].toUpperCase() + key.slice(1)`; `key[0]` is undefined on the empty key, so it is excluded. */
  function Prefix(key: string): (a: string)
    requires |key| > 0
    ensures |a| == |key| + 4
    ensures a[..4] == "prop" && a[4] == ToUpper(key[0]) && a[5..] == key[1..]
  {
    "prop" + [ToUpper(key[0])] + key[1..]
  }

  /** Whether `a` starts with "prop" (`startsWith`). */
  predicate StartsWithProp(a: string) {
    |a| >= 4 && a[..4] == "prop"
  }

  /** Whether the pattern `^prop(.)` matches `a`: "prop" followed by any character but a line terminator. */
  predicate HasPropHead(a: string) {
    StartsWithProp(a) && |a| >= 5 && !IsLineTerminator(a[4])
  }

  /** `key.replace(/^prop(.)/, (str, c) => c.toLowerCase())`. */
  function Unprefix(a: string): (key: string)
    ensures HasPropHead(a) ==> |key| == |a| - 4 && key[0] == ToLower(a[4]) && key[1..] == a[5..]
    ensures !HasPropHead(a) ==> key == a
  {
    if HasPropHead(a) then [ToLower(a[4])] + a[5..] else a
  }

  /** Every key `unprefix` makes from an attribute starting with "prop" is non-empty, so `prefix` applies to it. */
  lemma UnprefixNonEmpty(a: string)
    requires StartsWithProp(a)
    ensures |Unprefix(a)| > 0
  {
  }

  /**
   * `unprefix` undoes `prefix` on every key that does not start with an
   * upper-case letter or a line terminator.
   */
  lemma UnprefixPrefix(key: string)
    requires |key| > 0 && !IsUpper(key[0]) && !IsLineTerminator(key[0])
    ensures Unprefix(Prefix(key)) == key
  {
    var a := Prefix(key);
    assert HasPropHead(a);
    LowerOfUpper(key[0]);
    assert Unprefix(a) == [key[0]] + key[1..];
  }

  /** A key with an upper-case initial does not come back: "Ab" returns as "ab". */
  lemma UpperInitialIsLost()
    ensures Unprefix(Prefix("Ab")) == "ab"
  {
    assert HasPropHead(Prefix("Ab"));
  }

  /**
   * For an attribute that `unprefix` rewrites, `prefix` gives the same
   * attribute back exactly when the character after "prop" is not a
   * lower-case letter: "propFoo" and "prop1" return, "propfoo" becomes
   * "propFoo".
   */
  lemma PrefixUnprefix(a: string)
    requires HasPropHead(a)
    ensures Prefix(Unprefix(a)) == a <==> !IsLower(a[4])
  {
    var key := Unprefix(a);
    assert a == a[..4] + [a[4]] + a[5..];
    if !IsLower(a[4]) {
      UpperOfLower(a[4]);
      assert Prefix(key) == "prop" + [a[4]] + a[5..];
    } else {
      assert Prefix(key)[4] != a[4];
    }
  }

  /** What the registry returns: one component slot, or the whole map. */
  datatype Reply<C> = Component(component: Option<C>) | All(components: map<string, C>)

  /**
   * The `reactComponents` function over the closed-over `components`
   * dictionary. A name that is not a string is `None`; an undefined
   * component is `None`.
   */
  class Registry<C> {
    var components: map<string, C>

    constructor ()
      ensures components == map[]
    {
      components := map[];
    }

    method Call(name: Option<string>, newComponent: Option<C>) returns (reply: Reply<C>)
      modifies this
      ensures name.Some? && newComponent.Some? ==>
        components == old(components)[name.value := newComponent.value] && reply == Component(newComponent)
      ensures name.Some? && newComponent.None? ==>
        components == old(components) && reply == Component(Get(components, name.value))
      ensures name.None? ==> components == old(components) && reply == All(components)
    {
      if name.Some? && newComponent.Some? {
        components := components[name.value := newComponent.value];
        reply := Component(newComponent);
      } else if name.Some? {
        reply := Component(Get(components, name.value));
      } else {
        reply := All(components);
      }
    }
  }

  /**
   * A registration is seen by every later lookup of its name until the next
   * registration under that name, and by no lookup of another name.
   */
  lemma RegisterThenLookup<C>(m: map<string, C>, name: string, c: C, other: string)
    ensures Get(m[name := c], name) == Some(c)
    ensures other != name ==> Get(m[name := c], other) == Get(m, other)
  {
  }

  /** The props keys after `compile` has seen the attribute names `attrs`, in `Object.keys` order. */
  function Registered<V>(props: map<string, Option<V>>, attrs: seq<string>): map<string, Option<V>>
    decreases |attrs|
  {
    if attrs == [] then props
    else
      var a := attrs[|attrs| - 1];
      var before := Registered(props, attrs[..|attrs| - 1]);
      if StartsWithProp(a) then before[Unprefix(a) := None] else before
  }

  /**
   * After `compile`, the props keys are the old keys plus exactly one key per
   * attribute starting with "prop", namely its `unprefix`, holding null; the
   * other keys keep their values.
   */
  lemma {:induction false} RegisteredKeys<V>(props: map<string, Option<V>>, attrs: seq<string>, key: string)
    ensures key in Registered(props, attrs) <==>
      key in props || exists i :: 0 <= i < |attrs| && StartsWithProp(attrs[i]) && Unprefix(attrs[i]) == key
    ensures (exists i :: 0 <= i < |attrs| && StartsWithProp(attrs[i]) && Unprefix(attrs[i]) == key) ==>
      Registered(props, attrs)[key] == None
    ensures !(exists i :: 0 <= i < |attrs| && StartsWithProp(attrs[i]) && Unprefix(attrs[i]) == key) && key in props ==>
      Registered(props, attrs)[key] == props[key]
    decreases |attrs|
  {
    if attrs != [] {
      var n := |attrs| - 1;
      RegisteredKeys(props, attrs[..n], key);
      if exists i :: 0 <= i < n && StartsWithProp(attrs[..n][i]) && Unprefix(attrs[..n][i]) == key {
        var i :| 0 <= i < n && StartsWithProp(attrs[..n][i]) && Unprefix(attrs[..n][i]) == key;
        assert attrs[i] == attrs[..n][i];
      }
      if exists i :: 0 <= i < |attrs| && StartsWithProp(attrs[i]) && Unprefix(attrs[i]) == key {
        var i :| 0 <= i < |attrs| && StartsWithProp(attrs[i]) && Unprefix(attrs[i]) == key;
        if i < n {
          assert attrs[..n][i] == attrs[i];
        }
      }
    }
  }

  /**
   * The directive's shared `props` object: one per directive, so every
   * `compile` adds its keys to the same map. Null is `None`.
   */
  class Props<V> {
    var props: map<string, Option<V>>

    /** Every key is non-empty, so `prefix` can be applied to it. */
    ghost predicate Valid()
      reads this
    {
      forall key :: key in props ==> |key| > 0
    }

    constructor ()
      ensures Valid() && props == map[]
    {
      props := map[];
    }

    /** The `Object.keys(attrs).filter(...).forEach(...)` of `compile`. */
    method Compile(attrs: seq<string>)
      requires Valid()
      modifies this
      ensures Valid()
      ensures props == Registered(old(props), attrs)
    {
      var i := 0;
      while i < |attrs|
        invariant 0 <= i <= |attrs|
        invariant Valid()
        invariant props == Registered(old(props), attrs[..i])
      {
        assert attrs[..i + 1][..i] == attrs[..i];
        if StartsWithProp(attrs[i]) {
          UnprefixNonEmpty(attrs[i]);
          props := props[Unprefix(attrs[i]) := None];
        }
        i := i + 1;
      }
      assert attrs[..|attrs|] == attrs;
    }

    /**
     * The first `forEach` of the link function: every key takes the scope's
     * value of the attribute `prefix(key)` (`None` when that attribute is
     * absent is passed to `eval` as such).
     */
    method Link(attrs: map<string, string>, eval: Option<string> -> Option<V>)
      requires Valid()
      modifies this
      ensures Valid() && props.Keys == old(props).Keys
      ensures forall key :: key in props ==> props[key] == eval(Get(attrs, Prefix(key)))
    {
      var todo := props.Keys;
      while todo != {}
        invariant todo <= props.Keys
        invariant Valid() && props.Keys == old(props).Keys
        invariant forall key :: key in props && key !in todo ==> props[key] == eval(Get(attrs, Prefix(key)))
        decreases todo
      {
        var key :| key in todo;
        props := props[key := eval(Get(attrs, Prefix(key)))];
        todo := todo - {key};
      }
    }
  }
}
