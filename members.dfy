/**
 The member table of one host class: the instance-method map, the
 static-method map and the constructor descriptor, as the builder fills
 them from what reflection enumerates.
 */
module MemberTable {
  import opened Descriptors

  /**
   A host class handle. Reflection is modelled as data the handle carries:
   its public methods and its public constructors, each in the order the
   reflection library yields them. `id` stands for the class's identity.
   */
  datatype HostClass = HostClass(id: nat, methods: seq<Executable>, constructors: seq<Executable>)

  /** The three views the builder fills; none of them changes afterwards. */
  datatype Members = Members(
    methods: map<string, MethodDesc>,
    staticMethods: map<string, MethodDesc>,
    ctor: Option<MethodDesc>)

  /**
   `HashMap.merge(key, value, MERGE)`: installs `value` under a fresh key,
   otherwise replaces the entry by the merge of the entry and `value`.
   */
  function MapMerge(m: map<string, MethodDesc>, key: string, value: MethodDesc): (r: map<string, MethodDesc>)
    requires value.Single?
    ensures r.Keys == m.Keys + {key}
    ensures forall k :: k in m && k != key ==> r[k] == m[k]
    ensures key !in m ==> r[key] == value
    ensures key in m ==> r[key] == Merge(m[key], value)
    ensures Overloads(r[key]) == (if key in m then Overloads(m[key]) else []) + [value.target]
  {
    if key in m then
      MergeGrows(m[key], value.target);
      m[key := Merge(m[key], value)]
    else
      m[key := value]
  }

  /** `HashMap.get`: the entry under `key`, or `None` (Java's `null`). */
  function Get(m: map<string, MethodDesc>, key: string): (r: Option<MethodDesc>)
    ensures r.Some? <==> key in m
    ensures r.Some? ==> r.value == m[key]
  {
    if key in m then Some(m[key]) else None
  }

  /**
   Whether a method enters a map: it is not declared on `Object`, and, for
   the static map, it is static.
   */
  predicate Admits(x: Executable, staticOnly: bool) {
    !x.declaredOnObject && (!staticOnly || x.isStatic)
  }

  /**
   The bucket of `n`: the admitted methods named `n`, in enumeration order,
   duplicates included.
   */
  ghost function Bucket(s: seq<Executable>, n: string, staticOnly: bool): seq<Executable>
  {
    if s == [] then []
    else
      var x := s[|s| - 1];
      Bucket(s[..|s| - 1], n, staticOnly) + (if Admits(x, staticOnly) && x.name == n then [x] else [])
  }

  /** The names of the enumerated methods. */
  ghost function Names(s: seq<Executable>): set<string> {
    set x | x in s :: x.name
  }

  /**
   What a method map holds after the builder has seen `s`: one entry per
   name with a non-empty bucket, the descriptor of that bucket.
   */
  ghost function Table(s: seq<Executable>, staticOnly: bool): map<string, MethodDesc> {
    map n | n in Names(s) && Bucket(s, n, staticOnly) != [] :: Group(Bucket(s, n, staticOnly))
  }

  /** The constructors that are not declared on `Object`, in enumeration order. */
  ghost function Visible(s: seq<Executable>): seq<Executable>
  {
    if s == [] then []
    else
      var x := s[|s| - 1];
      Visible(s[..|s| - 1]) + (if !x.declaredOnObject then [x] else [])
  }

  /** What the builder makes of a class. */
  ghost function MembersOf(c: HostClass): Members {
    Members(Table(c.methods, false), Table(c.methods, true), Aggregate(Visible(c.constructors)))
  }

  /** The static methods among a bucket, in order. */
  ghost function Statics(b: seq<Executable>): seq<Executable>
  {
    if b == [] then []
    else
      var x := b[|b| - 1];
      Statics(b[..|b| - 1]) + (if x.isStatic then [x] else [])
  }

  /** Every executable of a bucket is an admitted method of that name from `s`. */
  lemma {:induction false} BucketMembers(s: seq<Executable>, n: string, staticOnly: bool)
    ensures forall x :: x in Bucket(s, n, staticOnly) ==> x in s && x.name == n && Admits(x, staticOnly)
  {
    if s != [] {
      var p := s[..|s| - 1];
      BucketMembers(p, n, staticOnly);
      assert s == p + [s[|s| - 1]];
    }
  }

  /**
   The bucket keeps every admitted method named `n` as often as the
   enumeration yields it (duplicates are not removed), and nothing else.
   */
  lemma {:induction false} BucketCounts(s: seq<Executable>, n: string, staticOnly: bool, x: Executable)
    ensures multiset(Bucket(s, n, staticOnly))[x]
            == if Admits(x, staticOnly) && x.name == n then multiset(s)[x] else 0
  {
    if s != [] {
      var p := s[..|s| - 1];
      BucketCounts(p, n, staticOnly, x);
      assert s == p + [s[|s| - 1]];
    }
  }

  /** Lookup through a built map gives the descriptor of the bucket, or `None` when it is empty. */
  lemma TableLookup(s: seq<Executable>, staticOnly: bool, n: string)
    ensures Get(Table(s, staticOnly), n) == Aggregate(Bucket(s, n, staticOnly))
  {
    var b := Bucket(s, n, staticOnly);
    if b != [] {
      BucketMembers(s, n, staticOnly);
      assert b[0] in s;
      assert n in Names(s);
    }
  }

  /** Adding a method to the enumeration changes only its own bucket. */
  lemma BucketStep(s: seq<Executable>, x: Executable, staticOnly: bool, n: string)
    ensures Bucket(s + [x], n, staticOnly)
            == Bucket(s, n, staticOnly) + (if Admits(x, staticOnly) && x.name == n then [x] else [])
  {
    assert (s + [x])[..|s + [x]| - 1] == s;
  }

  /** Two maps that agree on every lookup are equal. */
  lemma SameLookups(a: map<string, MethodDesc>, b: map<string, MethodDesc>)
    requires forall n :: Get(a, n) == Get(b, n)
    ensures a == b
  {
    forall n ensures n in a <==> n in b {
      assert Get(a, n) == Get(b, n);
    }
    forall n | n in a ensures a[n] == b[n] {
      assert Get(a, n) == Get(b, n);
    }
  }

  /** One pass of the builder's loop, seen through the lookup of one name. */
  lemma TableStepAt(s: seq<Executable>, x: Executable, staticOnly: bool, n: string)
    ensures Get(Table(s + [x], staticOnly), n)
            == Get(if Admits(x, staticOnly) then MapMerge(Table(s, staticOnly), x.name, Single(x))
                   else Table(s, staticOnly), n)
  {
    TableLookup(s, staticOnly, n);
    TableLookup(s + [x], staticOnly, n);
    BucketStep(s, x, staticOnly, n);
    var b := Bucket(s, n, staticOnly);
    if Admits(x, staticOnly) && x.name == n {
      if b == [] {
        assert b + [x] == [x];
      } else {
        GroupAppend(b, x);
      }
    } else {
      assert b + [] == b;
    }
  }

  /**
   One pass of the builder's loop: an admitted method is merged into the map
   under its name; any other leaves the map as it was.
   */
  lemma TableStep(s: seq<Executable>, x: Executable, staticOnly: bool)
    ensures Table(s + [x], staticOnly)
            == if Admits(x, staticOnly) then MapMerge(Table(s, staticOnly), x.name, Single(x))
               else Table(s, staticOnly)
  {
    var expected := if Admits(x, staticOnly) then MapMerge(Table(s, staticOnly), x.name, Single(x))
                    else Table(s, staticOnly);
    forall n ensures Get(Table(s + [x], staticOnly), n) == Get(expected, n) {
      TableStepAt(s, x, staticOnly, n);
    }
    SameLookups(Table(s + [x], staticOnly), expected);
  }

  /** One pass of the constructor loop. */
  lemma VisibleStep(s: seq<Executable>, x: Executable)
    ensures Visible(s + [x]) == Visible(s) + (if !x.declaredOnObject then [x] else [])
  {
    assert (s + [x])[..|s + [x]| - 1] == s;
  }

  /** The static bucket of a name is its instance bucket with the non-static methods taken out. */
  lemma {:induction false} StaticBucketFilters(s: seq<Executable>, n: string)
    ensures Bucket(s, n, true) == Statics(Bucket(s, n, false))
  {
    if s != [] {
      var p, x := s[..|s| - 1], s[|s| - 1];
      StaticBucketFilters(p, n);
      var b := Bucket(p, n, false);
      if Admits(x, false) && x.name == n {
        assert (b + [x])[..|b + [x]| - 1] == b;
      } else {
        assert b + [] == b;
      }
    }
  }

  /** A non-empty filtered list comes from a non-empty list. */
  lemma StaticsOfEmpty(b: seq<Executable>)
    requires Statics(b) != []
    ensures b != []
  {
  }

  /**
   What the builder makes of a class: no entry of either map stands for a
   method declared on `Object`, every entry stands for methods of its own
   name, every static entry only for static methods, and every name of the
   static map is a name of the instance map.
   */
  lemma MembersWellFormed(c: HostClass)
    ensures forall n :: n in MembersOf(c).methods ==>
              forall x :: x in Overloads(MembersOf(c).methods[n]) ==> x in c.methods && x.name == n && !x.declaredOnObject
    ensures forall n :: n in MembersOf(c).staticMethods ==>
              forall x :: x in Overloads(MembersOf(c).staticMethods[n]) ==>
                x in c.methods && x.name == n && !x.declaredOnObject && x.isStatic
    ensures MembersOf(c).staticMethods.Keys <= MembersOf(c).methods.Keys
  {
    var mem := MembersOf(c);
    forall n | n in mem.methods
      ensures forall x :: x in Overloads(mem.methods[n]) ==> x in c.methods && x.name == n && !x.declaredOnObject
    {
      BucketMembers(c.methods, n, false);
    }
    forall n | n in mem.staticMethods
      ensures forall x :: x in Overloads(mem.staticMethods[n]) ==>
                x in c.methods && x.name == n && !x.declaredOnObject && x.isStatic
      ensures n in mem.methods
    {
      BucketMembers(c.methods, n, true);
      StaticBucketFilters(c.methods, n);
      StaticsOfEmpty(Bucket(c.methods, n, false));
      TableLookup(c.methods, false, n);
    }
  }

  /**
   The constructor descriptor is absent exactly when every constructor is
   declared on `Object`; otherwise it lists the others in enumeration order,
   as a single when there is one of them.
   */
  lemma {:induction false} VisibleMembers(s: seq<Executable>)
    ensures forall x :: x in Visible(s) ==> x in s && !x.declaredOnObject
    ensures Visible(s) == [] <==> forall x :: x in s ==> x.declaredOnObject
  {
    if s != [] {
      var p := s[..|s| - 1];
      VisibleMembers(p);
      assert s == p + [s[|s| - 1]];
    }
  }

  /**
   The constructor fold keeps every constructor not declared on `Object` as
   often as the enumeration yields it, and nothing else.
   */
  lemma {:induction false} VisibleCounts(s: seq<Executable>, x: Executable)
    ensures multiset(Visible(s))[x] == if !x.declaredOnObject then multiset(s)[x] else 0
  {
    if s != [] {
      var p := s[..|s| - 1];
      VisibleCounts(p, x);
      assert s == p + [s[|s| - 1]];
    }
  }

  /**
   The builder of the member table. The first loop fills the instance map
   with every method not declared on `Object` and the static map with the
   static ones among them; the second folds the constructors into one
   optional descriptor.
   */
  method NewMembers(c: HostClass) returns (mem: Members)
    ensures mem == MembersOf(c)
  {
    var methodMap: map<string, MethodDesc> := map[];
    var staticMethodMap: map<string, MethodDesc> := map[];
    var ms := c.methods;
    for i := 0 to |ms|
      invariant methodMap == Table(ms[..i], false)
      invariant staticMethodMap == Table(ms[..i], true)
    {
      var m := ms[i];
      assert ms[..i + 1] == ms[..i] + [m];
      TableStep(ms[..i], m, false);
      TableStep(ms[..i], m, true);
      if !m.declaredOnObject {
        var desc := Single(m);
        methodMap := MapMerge(methodMap, m.name, desc);
        if m.isStatic {
          staticMethodMap := MapMerge(staticMethodMap, m.name, desc);
        }
      }
    }
    assert ms[..|ms|] == ms;

    var ctor: Option<MethodDesc> := None;
    var cs := c.constructors;
    for i := 0 to |cs|
      invariant ctor == Aggregate(Visible(cs[..i]))
    {
      var k := cs[i];
      assert cs[..i + 1] == cs[..i] + [k];
      VisibleStep(cs[..i], k);
      AggregateAppend(Visible(cs[..i]), k);
      assert Visible(cs[..i]) + [] == Visible(cs[..i]);
      if !k.declaredOnObject {
        var overload := Single(k);
        ctor := if ctor.None? then Some(overload) else Some(Merge(ctor.value, overload));
      }
    }
    assert cs[..|cs|] == cs;

    mem := Members(methodMap, staticMethodMap, ctor);
  }
}
