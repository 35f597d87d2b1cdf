/** `deepMerge` of src/compiler/template-resolver.ts: the override wins, except that two
    plain objects are merged key by key and an undefined override is skipped. */
module DeepMerge {
  import opened Json

  /** What one key of the result holds, given the two sides. */
  function Combine(base: Value, over: Value): Value
    decreases over, 1
  {
    if over.Undefined? then base
    else if base.Obj? && over.Obj? then Merge(base, over)
    else over
  }

  function Merge(base: Object, over: Object): Object
    decreases over, 0
  {
    Obj(map k | k in base.fields.Keys + over.fields.Keys && (k in base.fields || !over.fields[k].Undefined?) ::
          if k in over.fields then Combine(Field(base, k), over.fields[k]) else base.fields[k])
  }

  lemma MergeFields(base: Object, over: Object)
    ensures forall k :: Field(Merge(base, over), k) == Combine(Field(base, k), Field(over, k))
    ensures forall k :: k in Merge(base, over).fields <==> k in base.fields || !Field(over, k).Undefined?
  {
  }

  lemma SameObject(a: Object, b: Object)
    requires a.fields.Keys == b.fields.Keys && forall k | k in a.fields :: Field(a, k) == Field(b, k)
    ensures a == b
  {
    assert forall k | k in a.fields :: a.fields[k] == Field(a, k) && b.fields[k] == Field(b, k);
    assert a.fields == b.fields;
  }

  /** The loop of the source, key by key over the override, into a copy of the base. */
  method DeepMerge(base: Object, over: Object) returns (r: Object)
    ensures r == Merge(base, over)
    decreases over
  {
    var result := base.fields;
    var todo := over.fields.Keys;
    while todo != {}
      invariant todo <= over.fields.Keys
      invariant forall k :: k in result <==> k in base.fields || (k !in todo && !Field(over, k).Undefined?)
      invariant forall k | k in result ::
                  result[k] == if k in todo then Field(base, k) else Combine(Field(base, k), Field(over, k))
    {
      var key :| key in todo;
      todo := todo - {key};
      var baseVal, overVal := Field(base, key), over.fields[key];
      if overVal.Undefined? {
        continue;
      }
      if baseVal.Obj? && overVal.Obj? {
        var merged := DeepMerge(baseVal, overVal);
        result := result[key := merged];
      } else {
        result := result[key := overVal];
      }
    }
    r := Obj(result);
    MergeFields(base, over);
    SameObject(r, Merge(base, over));
  }

  // ---- By path ----

  /** The value at a path of object keys. */
  function Find(v: Value, path: seq<string>): Value
    decreases path
  {
    if path == [] then v
    else if v.Obj? then Find(Field(v, path[0]), path[1..])
    else Undefined
  }

  /** Some key on the way to `path`, short of its end, holds a value that is no object. */
  ghost predicate Blocked(v: Value, path: seq<string>) {
    exists i :: 0 < i < |path| && !Find(v, path[..i]).Undefined? && !Find(v, path[..i]).Obj?
  }

  lemma BlockedCons(v: Object, path: seq<string>)
    requires |path| >= 2
    ensures Blocked(v, path) <==>
              (!Field(v, path[0]).Undefined? && !Field(v, path[0]).Obj?)
              || (Field(v, path[0]).Obj? && Blocked(Field(v, path[0]), path[1..]))
  {
    var f := Field(v, path[0]);
    forall i | 0 < i < |path| ensures Find(v, path[..i]) == Find(f, path[1..][..i - 1]) {
      assert path[..i][1..] == path[1..][..i - 1];
    }
    if Blocked(v, path) {
      var i :| 0 < i < |path| && !Find(v, path[..i]).Undefined? && !Find(v, path[..i]).Obj?;
      if i == 1 { assert Find(f, path[1..][..0]) == f; }
      else { assert Find(f, path[1..][..i - 1]) == Find(v, path[..i]); }
    }
    if f.Obj? && Blocked(f, path[1..]) {
      var i :| 0 < i < |path[1..]| && !Find(f, path[1..][..i]).Undefined? && !Find(f, path[1..][..i]).Obj?;
      assert path[..i + 1][1..] == path[1..][..i];
      assert Find(v, path[..i + 1]) == Find(f, path[1..][..i]);
    }
    if !f.Undefined? && !f.Obj? {
      assert Find(v, path[..1]) == f by { assert path[..1][1..] == []; }
    }
  }

  lemma {:induction false} BlockedFindsNothing(v: Object, path: seq<string>)
    requires Blocked(v, path)
    ensures Find(v, path) == Undefined
    decreases |path|
  {
    BlockedCons(v, path);
    if Field(v, path[0]).Obj? {
      BlockedFindsNothing(Field(v, path[0]), path[1..]);
    }
  }

  /** The path-lookup specification: at every path the result holds what the two sides
      combine to there, except below a key where the override put a non-object. */
  lemma {:induction false} MergeByPath(base: Object, over: Object, path: seq<string>)
    requires path != []
    ensures Find(Merge(base, over), path) ==
            if Blocked(over, path) then Undefined else Combine(Find(base, path), Find(over, path))
    decreases |path|
  {
    var k, rest := path[0], path[1..];
    MergeFields(base, over);
    var b, o := Field(base, k), Field(over, k);
    if rest == [] {
      assert !Blocked(over, path);
    } else {
      BlockedCons(over, path);
      if b.Obj? && o.Obj? {
        MergeByPath(b, o, rest);
      } else if o.Obj? && Blocked(o, rest) {
        BlockedFindsNothing(o, rest);
      }
    }
  }

  // ---- Laws ----

  lemma {:induction false} MergeEmpty(base: Object)
    ensures Merge(base, Obj(map[])) == base
  {
    MergeFields(base, Obj(map[]));
    SameObject(Merge(base, Obj(map[])), base);
  }

  lemma {:induction false} MergeSelf(v: Object)
    ensures Merge(v, v) == v
  {
    MergeFields(v, v);
    forall k | k in v.fields ensures Combine(Field(v, k), Field(v, k)) == Field(v, k) {
      if Field(v, k).Obj? { MergeSelf(v.fields[k]); }
    }
    SameObject(Merge(v, v), v);
  }

  /** Applying the same override twice changes nothing. */
  lemma {:induction false} MergeTwice(base: Object, over: Object)
    ensures Merge(Merge(base, over), over) == Merge(base, over)
    decreases over
  {
    var once := Merge(base, over);
    MergeFields(base, over);
    MergeFields(once, over);
    forall k | k in once.fields ensures Field(Merge(once, over), k) == Field(once, k) {
      var b, o := Field(base, k), Field(over, k);
      if o.Obj? {
        if b.Obj? { MergeTwice(b, over.fields[k]); } else { MergeSelf(over.fields[k]); }
      }
    }
    SameObject(Merge(once, over), once);
  }

  /** `over` already says everything that `base` does. */
  ghost predicate Absorbs(base: Object, over: Object)
    decreases over
  {
    && (forall k | k in base.fields ::
          && k in over.fields
          && (over.fields[k].Undefined? ==> base.fields[k].Undefined?)
          && (base.fields[k].Obj? && over.fields[k].Obj? ==> Absorbs(base.fields[k], over.fields[k])))
    && (forall k | k in over.fields :: over.fields[k].Undefined? ==> k in base.fields)
  }

  /** What one key of a merge that changes nothing says. */
  lemma {:induction false} MergedAt(base: Object, over: Object, k: string)
    requires Merge(base, over) == over
    ensures k in base.fields ==> k in over.fields && (over.fields[k].Undefined? ==> base.fields[k].Undefined?)
    ensures k in base.fields && base.fields[k].Obj? && over.fields[k].Obj? ==>
      Merge(base.fields[k], over.fields[k]) == over.fields[k]
    ensures k in over.fields && over.fields[k].Undefined? ==> k in base.fields
  {
    MergeFields(base, over);
    assert Field(Merge(base, over), k) == Field(over, k);
  }

  lemma {:induction false} AbsorbsIff(base: Object, over: Object)
    ensures Absorbs(base, over) <==> Merge(base, over) == over
    decreases over
  {
    MergeFields(base, over);
    forall k | k in base.fields && k in over.fields && base.fields[k].Obj? && over.fields[k].Obj?
      ensures Absorbs(base.fields[k], over.fields[k]) <==> Merge(base.fields[k], over.fields[k]) == over.fields[k]
    {
      AbsorbsIff(base.fields[k], over.fields[k]);
    }
    if Absorbs(base, over) { SameObject(Merge(base, over), over); }
    if Merge(base, over) == over {
      forall k { MergedAt(base, over, k); }
    }
  }

  /** No key path meets object, non-object, object, unless the last absorbs the first. */
  ghost predicate Associates(a: Object, b: Object, c: Object)
    decreases c
  {
    forall k | k in a.fields && k in b.fields && k in c.fields && a.fields[k].Obj? && c.fields[k].Obj? ::
      (b.fields[k].Obj? ==> Associates(a.fields[k], b.fields[k], c.fields[k])) &&
      (!b.fields[k].Obj? && !b.fields[k].Undefined? ==> Absorbs(a.fields[k], c.fields[k]))
  }

  ghost predicate AssociatesAt(a: Object, b: Object, c: Object, k: string) {
    k in a.fields && k in b.fields && k in c.fields && a.fields[k].Obj? && c.fields[k].Obj? ==>
      (b.fields[k].Obj? ==> Associates(a.fields[k], b.fields[k], c.fields[k])) &&
      (!b.fields[k].Obj? && !b.fields[k].Undefined? ==> Absorbs(a.fields[k], c.fields[k]))
  }

  lemma CombineAssociates(a: Value, b: Value, c: Value)
    requires !(a.Obj? && c.Obj? && !b.Undefined?)
    ensures Combine(Combine(a, b), c) == Combine(a, Combine(b, c))
  {
  }

  lemma {:induction false} GroupedFields(a: Object, b: Object, c: Object)
    ensures var l, r := Merge(Merge(a, b), c), Merge(a, Merge(b, c));
      && l.fields.Keys == r.fields.Keys
      && (forall k :: Field(l, k) == Combine(Combine(Field(a, k), Field(b, k)), Field(c, k)))
      && (forall k :: Field(r, k) == Combine(Field(a, k), Combine(Field(b, k), Field(c, k))))
  {
    MergeFields(a, b);
    MergeFields(b, c);
    MergeFields(Merge(a, b), c);
    MergeFields(a, Merge(b, c));
  }

  /** Three layers merge the same in both groupings exactly when no key path meets an object,
      then a non-object, then an object that does not absorb the first. */
  lemma {:induction false} AssociativeIff(a: Object, b: Object, c: Object)
    ensures Merge(Merge(a, b), c) == Merge(a, Merge(b, c)) <==> Associates(a, b, c)
    decreases c
  {
    var l, r := Merge(Merge(a, b), c), Merge(a, Merge(b, c));
    GroupedFields(a, b, c);
    forall k
      ensures Field(l, k) == Field(r, k) <==> AssociatesAt(a, b, c, k)
    {
      var x, y, z := Field(a, k), Field(b, k), Field(c, k);
      if x.Obj? && z.Obj? && y.Obj? {
        AssociativeIff(x, y, c.fields[k]);
      } else if x.Obj? && z.Obj? && !y.Undefined? {
        AbsorbsIff(x, c.fields[k]);
      } else {
        CombineAssociates(x, y, z);
      }
    }
    if forall k :: Field(l, k) == Field(r, k) {
      SameObject(l, r);
    }
  }
}
