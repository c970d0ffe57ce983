/**
 The per-class descriptor: the class handle and a member table that is
 built on the first lookup and kept from then on; and the cache that hands
 out one descriptor per class.
 */
module ClassDescs {
  import opened Descriptors
  import opened MemberTable

  class ClassDesc {
    /** The class this descriptor stands for; `getType` reads it. */
    const hostClass: HostClass
    /** The write-once slot: `None` until the first lookup, then the table. */
    var members: Option<Members>
    /** How many times the member table has been built (instrumentation only). */
    ghost var builds: nat

    /**
     The slot is empty and nothing was built, or it holds the table of
     `hostClass` and it was built exactly once.
     */
    ghost predicate Valid()
      reads this
    {
      || (members.None? && builds == 0)
      || (members == Some(MembersOf(hostClass)) && builds == 1)
    }

    constructor (t: HostClass)
      ensures Valid()
      ensures hostClass == t && members.None? && builds == 0
    {
      hostClass := t;
      members := None;
      builds := 0;
    }

    /**
     Returns the member table, building it only when the slot is still
     empty; once filled, the slot keeps the same table.
     */
    method GetMembers() returns (m: Members)
      requires Valid()
      modifies this
      ensures Valid()
      ensures m == MembersOf(hostClass) && members == Some(m)
      ensures old(members).Some? ==> members == old(members) && builds == old(builds)
      ensures builds == 1
    {
      var cur := members;
      if cur.None? {
        var built := NewMembers(hostClass);
        members := Some(built);
        builds := builds + 1;
        cur := members;
      }
      m := cur.value;
    }

    /** The descriptor of the public methods named `name`, or `None`. */
    method LookupMethod(name: string) returns (r: Option<MethodDesc>)
      requires Valid()
      modifies this
      ensures Valid() && members.Some? && builds == 1
      ensures old(members).Some? ==> members == old(members)
      ensures r == Get(MembersOf(hostClass).methods, name)
    {
      var m := GetMembers();
      r := Get(m.methods, name);
    }

    /** The descriptor of the public static methods named `name`, or `None`. */
    method LookupStaticMethod(name: string) returns (r: Option<MethodDesc>)
      requires Valid()
      modifies this
      ensures Valid() && members.Some? && builds == 1
      ensures old(members).Some? ==> members == old(members)
      ensures r == Get(MembersOf(hostClass).staticMethods, name)
    {
      var m := GetMembers();
      r := Get(m.staticMethods, name);
    }

    /** The descriptor of the public constructors, or `None` when there is none. */
    method LookupConstructor() returns (r: Option<MethodDesc>)
      requires Valid()
      modifies this
      ensures Valid() && members.Some? && builds == 1
      ensures old(members).Some? ==> members == old(members)
      ensures r == MembersOf(hostClass).ctor
    {
      var m := GetMembers();
      r := m.ctor;
    }
  }

  /**
   What a method lookup returns: the descriptor of the methods of that name
   not declared on `Object`, in enumeration order, or `None` when there are
   none.
   */
  lemma LookupMethodMeaning(c: HostClass, name: string)
    ensures Get(MembersOf(c).methods, name) == Aggregate(Bucket(c.methods, name, false))
  {
    TableLookup(c.methods, false, name);
  }

  /** A static lookup: the same, restricted to the static methods. */
  lemma LookupStaticMethodMeaning(c: HostClass, name: string)
    ensures Get(MembersOf(c).staticMethods, name) == Aggregate(Bucket(c.methods, name, true))
  {
    TableLookup(c.methods, true, name);
  }

  /** A name a static lookup finds is found by a method lookup too. */
  lemma StaticLookupImpliesMethodLookup(c: HostClass, name: string)
    ensures Get(MembersOf(c).staticMethods, name).Some? ==> Get(MembersOf(c).methods, name).Some?
  {
    MembersWellFormed(c);
  }

  /**
   The constructor lookup: `None` exactly when every constructor is declared
   on `Object`; otherwise the descriptor of the others in enumeration order,
   each as often as enumerated, a single exactly when there is one of them.
   */
  lemma LookupConstructorMeaning(c: HostClass)
    ensures MembersOf(c).ctor.None? <==> forall k :: k in c.constructors ==> k.declaredOnObject
    ensures MembersOf(c).ctor.Some? ==>
              && Overloads(MembersOf(c).ctor.value) == Visible(c.constructors)
              && (MembersOf(c).ctor.value.Single? <==> |Visible(c.constructors)| == 1)
    ensures forall k :: k in c.constructors && !k.declaredOnObject ==>
              MembersOf(c).ctor.Some? && k in Overloads(MembersOf(c).ctor.value)
    ensures MembersOf(c).ctor.Some? ==>
              forall k :: multiset(Overloads(MembersOf(c).ctor.value))[k]
                          == if k.declaredOnObject then 0 else multiset(c.constructors)[k]
  {
    VisibleMembers(c.constructors);
    forall k ensures multiset(Visible(c.constructors))[k]
                     == if k.declaredOnObject then 0 else multiset(c.constructors)[k]
    {
      VisibleCounts(c.constructors, k);
    }
  }

  /**
   A class with a static method `f()` and an instance method `f(int)`: the
   method lookup of `f` finds both, in enumeration order, and the static
   lookup finds the static one alone.
   */
  lemma StaticAndInstanceSameName(c: HostClass, fStatic: Executable, fInstance: Executable)
    requires fStatic == Executable("f", "()", false, true)
    requires fInstance == Executable("f", "(int)", false, false)
    requires c.methods == [fStatic, fInstance]
    ensures Get(MembersOf(c).methods, "f") == Some(Overloaded([fStatic, fInstance]))
    ensures Get(MembersOf(c).staticMethods, "f") == Some(Single(fStatic))
  {
    LookupMethodMeaning(c, "f");
    LookupStaticMethodMeaning(c, "f");
    BucketStep([], fStatic, false, "f");
    BucketStep([], fStatic, true, "f");
    BucketStep([fStatic], fInstance, false, "f");
    BucketStep([fStatic], fInstance, true, "f");
    assert [fStatic] + [fInstance] == c.methods;
    assert Bucket([], "f", false) + [fStatic] == [fStatic];
    assert Bucket(c.methods, "f", false) == [fStatic, fInstance];
  }

  /**
   Two lookups on one descriptor: the second finds the table the first
   built, and the table is built once.
   */
  method LookupTwice(d: ClassDesc, name: string) returns (first: Option<MethodDesc>, second: Option<MethodDesc>)
    requires d.Valid()
    modifies d
    ensures d.Valid() && d.builds == 1
    ensures first == second
  {
    first := d.LookupMethod(name);
    var m := d.members;
    second := d.LookupMethod(name);
    assert d.members == m;
  }

  /**
   The per-class cache (`ClassValue` in the source): the descriptor of a
   class is created on its first request and handed out from then on.
   */
  class DescCache {
    var descs: map<HostClass, ClassDesc>

    /** Every cached descriptor stands for its key and keeps its own invariant. */
    ghost predicate Valid()
      reads this, descs.Values
    {
      forall c :: c in descs ==> descs[c].hostClass == c && descs[c].Valid()
    }

    constructor ()
      ensures Valid() && descs == map[]
    {
      descs := map[];
    }

    /** The unique descriptor of `c`, created with an empty slot if `c` has none yet. */
    method ForClass(c: HostClass) returns (d: ClassDesc)
      requires Valid()
      modifies this
      ensures Valid() && d.hostClass == c && d.Valid() && d in descs.Values
      ensures c in old(descs) ==> d == old(descs)[c] && descs == old(descs)
      ensures c !in old(descs) ==> fresh(d) && d.Valid() && d.members.None? && descs == old(descs)[c := d]
    {
      if c in descs {
        d := descs[c];
      } else {
        d := new ClassDesc(c);
        descs := descs[c := d];
      }
      assert descs[c] == d;
    }
  }

  /**
   A guest member access by name: the cache's descriptor of `c` is looked up
   like any other, and the cache stays consistent.
   */
  method CachedLookup(cache: DescCache, c: HostClass, name: string) returns (r: Option<MethodDesc>)
    requires cache.Valid()
    modifies cache, cache.descs.Values
    ensures cache.Valid() && c in cache.descs
    ensures r == Aggregate(Bucket(c.methods, name, false))
  {
    var d := cache.ForClass(c);
    r := d.LookupMethod(name);
    LookupMethodMeaning(c, name);
  }
}
