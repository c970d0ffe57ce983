# Java class descriptors of the Truffle interop layer

This project models `JavaClassDesc`, the per-class metadata that the Truffle
Java interop layer keeps for a host class. A descriptor holds the class and a
member table. The table is built on the first lookup and kept from then on.
It has three views:

- `methods`: every public method not declared on `java.lang.Object`, grouped by simple name.
- `staticMethods`: the static ones among them.
- `constructor`: the public constructors folded into one optional descriptor.

Methods of one name are combined by the overload merge rule. The first gives
a `Single`. The second turns it into an `Overloaded` of both. Each further
one is appended to the `Overloaded`.

Modules:

- `Descriptors` (`descriptors.dfy`): the reflected method record `Executable`, the
  `Single`/`Overloaded` descriptor `MethodDesc`, the merge rule `Merge`, and `Group`/`Aggregate`.
  These last two give the descriptor that a list of executables ends up as.
- `MemberTable` (`members.dfy`): the `Members` value and its builder `NewMembers`.
  The builder keeps the source's two loops over the reflected methods and constructors.
  It is proved against a declarative specification. `Bucket(s, n, staticOnly)` lists the
  admitted methods named `n` in enumeration order. `Table` maps each name with a non-empty
  bucket to the descriptor of its bucket. `Visible` lists the constructors not declared on `Object`.
- `ClassDescs` (`class_desc.dfy`): the class `ClassDesc` with its write-once `members` slot,
  `GetMembers` and the three lookups; and `DescCache`, the per-class memo that `forClass` reads.

Reflection is modelled as data. A `HostClass` carries its public methods and
public constructors as sequences, in the order the reflection library yields
them. `JavaMethodDesc.unreflect` is `Single(x)`. Java's `null` is `None`.
The ghost counter `ClassDesc.builds` counts how many times the member table
was built. It stands for instrumenting the descriptor factory.

## Model

| member | source | states |
|---|---|---|
| `Descriptors.Merge` | truffle/src/com.oracle.truffle.api.interop.java/src/com/oracle/truffle/api/interop/java/JavaClassDesc.java:98-108 | Requires the new descriptor to be a single. The result is always overloaded. Merging two singles gives exactly `[existing, other]`. Merging into an overloaded list of length k gives length k+1: the old entries unchanged, then the new one. |
| `Descriptors.MergeGrows` | truffle/src/com.oracle.truffle.api.interop.java/src/com/oracle/truffle/api/interop/java/JavaClassDesc.java:100-106 | For any existing descriptor, the overloads after a merge are the old overloads with the new executable appended. |
| `Descriptors.Group` | truffle/src/com.oracle.truffle.api.interop.java/src/com/oracle/truffle/api/interop/java/JavaClassDesc.java:98-108 | The descriptor of a non-empty list stands for exactly that list, and it is a single iff the list has one entry. An overloaded result lists at least two executables. |
| `Descriptors.Aggregate` | truffle/src/com.oracle.truffle.api.interop.java/src/com/oracle/truffle/api/interop/java/JavaClassDesc.java:84-91 | Absent iff the list is empty. Otherwise it stands for exactly the list, and it is a single iff the list has one entry. |
| `Descriptors.GroupAppend` | truffle/src/com.oracle.truffle.api.interop.java/src/com/oracle/truffle/api/interop/java/JavaClassDesc.java:98-108 | Merging a new single into the descriptor of a list gives the descriptor of the list with that executable appended. |
| `Descriptors.AggregateAppend` | truffle/src/com.oracle.truffle.api.interop.java/src/com/oracle/truffle/api/interop/java/JavaClassDesc.java:90 | The constructor fold step (`ctor == null ? overload : merge(ctor, overload)`) turns the descriptor of a list into the descriptor of the list extended by one. |
| `MemberTable.MapMerge` | truffle/src/com.oracle.truffle.api.interop.java/src/com/oracle/truffle/api/interop/java/JavaClassDesc.java:63-67 | `HashMap.merge` with the merge rule adds the key. It leaves every other entry unchanged. A new key gets the single itself. An existing entry is replaced by its merge with the single, so its overloads become the old ones followed by the new executable. |
| `MemberTable.Get` | truffle/src/com.oracle.truffle.api.interop.java/src/com/oracle/truffle/api/interop/java/JavaClassDesc.java:131 | `HashMap.get` is present iff the key is in the map, and then it is the entry. |
| `MemberTable.BucketMembers` | truffle/src/com.oracle.truffle.api.interop.java/src/com/oracle/truffle/api/interop/java/JavaClassDesc.java:72-81 | Every executable in a bucket is an enumerated method of that name. It is not declared on `Object`, and it is static when the bucket is a static one. |
| `MemberTable.BucketCounts` | truffle/src/com.oracle.truffle.api.interop.java/src/com/oracle/truffle/api/interop/java/JavaClassDesc.java:72-82 | A bucket holds each admitted method of its name exactly as many times as the enumeration yields it, and nothing else. Duplicates are kept. |
| `MemberTable.BucketStep` | truffle/src/com.oracle.truffle.api.interop.java/src/com/oracle/truffle/api/interop/java/JavaClassDesc.java:72-81 | Enumerating one more method extends only the bucket of its name, and only when it is admitted. |
| `MemberTable.TableLookup` | truffle/src/com.oracle.truffle.api.interop.java/src/com/oracle/truffle/api/interop/java/JavaClassDesc.java:72-82 | Looking up a name in a built map gives the descriptor of that name's bucket. It is absent iff the bucket is empty, a single iff the bucket has one method, and otherwise the bucket in enumeration order. |
| `MemberTable.TableStep` | truffle/src/com.oracle.truffle.api.interop.java/src/com/oracle/truffle/api/interop/java/JavaClassDesc.java:73-81 | One pass of the method loop. An admitted method is merged into the map under its name. Any other method leaves the map as it was. |
| `MemberTable.VisibleStep` | truffle/src/com.oracle.truffle.api.interop.java/src/com/oracle/truffle/api/interop/java/JavaClassDesc.java:85-91 | One pass of the constructor loop. A constructor not declared on `Object` is appended to the visible list. Any other constructor is skipped. |
| `MemberTable.StaticBucketFilters` | truffle/src/com.oracle.truffle.api.interop.java/src/com/oracle/truffle/api/interop/java/JavaClassDesc.java:78-81 | The static bucket of a name is its instance bucket with the non-static methods removed, order kept. |
| `MemberTable.MembersWellFormed` | truffle/src/com.oracle.truffle.api.interop.java/src/com/oracle/truffle/api/interop/java/JavaClassDesc.java:72-82 | No entry of either map stands for a method declared on `Object`. Every entry stands only for enumerated methods of its own key's name. Static entries stand only for static methods. Every key of `staticMethods` is a key of `methods`. |
| `MemberTable.VisibleMembers` | truffle/src/com.oracle.truffle.api.interop.java/src/com/oracle/truffle/api/interop/java/JavaClassDesc.java:84-91 | The visible constructors are enumerated constructors not declared on `Object`. The list is empty iff every constructor is declared on `Object`. |
| `MemberTable.VisibleCounts` | truffle/src/com.oracle.truffle.api.interop.java/src/com/oracle/truffle/api/interop/java/JavaClassDesc.java:84-91 | The visible constructors hold each constructor not declared on `Object` exactly as often as the enumeration yields it, and nothing else. |
| `MemberTable.NewMembers` | truffle/src/com.oracle.truffle.api.interop.java/src/com/oracle/truffle/api/interop/java/JavaClassDesc.java:69-96 | The builder's two loops yield exactly the specified table. `methods` maps every name to the descriptor of its bucket. `staticMethods` does the same for static buckets. The constructor descriptor is that of the visible constructors. |
| `ClassDescs.ClassDesc.constructor` | truffle/src/com.oracle.truffle.api.interop.java/src/com/oracle/truffle/api/interop/java/JavaClassDesc.java:47-52 | A new descriptor holds its class, its slot is empty, and nothing has been built. |
| `ClassDescs.ClassDesc.GetMembers` | truffle/src/com.oracle.truffle.api.interop.java/src/com/oracle/truffle/api/interop/java/JavaClassDesc.java:111-122 | Returns the class's table and leaves it in the slot. A slot that was already filled keeps the same table and nothing is rebuilt. Across all calls the table is built exactly once. |
| `ClassDescs.ClassDesc.LookupMethod` | truffle/src/com.oracle.truffle.api.interop.java/src/com/oracle/truffle/api/interop/java/JavaClassDesc.java:130-132 | Returns the `methods` entry for the name, or `None`. The slot is filled afterwards. |
| `ClassDescs.ClassDesc.LookupStaticMethod` | truffle/src/com.oracle.truffle.api.interop.java/src/com/oracle/truffle/api/interop/java/JavaClassDesc.java:140-142 | Returns the `staticMethods` entry for the name, or `None`. The slot is filled afterwards. |
| `ClassDescs.ClassDesc.LookupConstructor` | truffle/src/com.oracle.truffle.api.interop.java/src/com/oracle/truffle/api/interop/java/JavaClassDesc.java:149-151 | Returns the table's constructor descriptor. The slot is filled afterwards. |
| `ClassDescs.LookupMethodMeaning` | truffle/src/com.oracle.truffle.api.interop.java/src/com/oracle/truffle/api/interop/java/JavaClassDesc.java:124-132 | A method lookup gives the descriptor of the non-`Object` methods of that name in enumeration order, or `None` when there are none. |
| `ClassDescs.LookupStaticMethodMeaning` | truffle/src/com.oracle.truffle.api.interop.java/src/com/oracle/truffle/api/interop/java/JavaClassDesc.java:134-142 | A static lookup gives the descriptor of the static non-`Object` methods of that name in enumeration order, or `None`. |
| `ClassDescs.StaticLookupImpliesMethodLookup` | truffle/src/com.oracle.truffle.api.interop.java/src/com/oracle/truffle/api/interop/java/JavaClassDesc.java:78-81 | Whenever a static lookup finds a name, a method lookup finds it too. |
| `ClassDescs.LookupConstructorMeaning` | truffle/src/com.oracle.truffle.api.interop.java/src/com/oracle/truffle/api/interop/java/JavaClassDesc.java:84-91 | The constructor descriptor is absent iff every public constructor is declared on `Object`. Otherwise it lists exactly the other constructors in enumeration order, each as often as enumerated. It is a single iff there is exactly one of them. Every constructor not declared on `Object` appears in it. |
| `ClassDescs.StaticAndInstanceSameName` | truffle/src/com.oracle.truffle.api.interop.java/src/com/oracle/truffle/api/interop/java/JavaClassDesc.java:72-82 | A class has a static `f()` and an instance `f(int)`. Looking up `f` gives an overloaded descriptor of both, in order. The static lookup gives a single of the static one. |
| `ClassDescs.LookupTwice` | truffle/src/com.oracle.truffle.api.interop.java/src/com/oracle/truffle/api/interop/java/JavaClassDesc.java:111-132 | Two lookups of one name on one descriptor return the same result, and the table is built once. |
| `ClassDescs.CachedLookup` | truffle/src/com.oracle.truffle.api.interop.java/src/com/oracle/truffle/api/interop/java/JavaClassDesc.java:43-45 | A descriptor taken from the cache can be looked up. The result is the descriptor of the non-`Object` methods of that name, and the cache stays valid. |
| `ClassDescs.DescCache.constructor` | truffle/src/com.oracle.truffle.api.interop.java/src/com/oracle/truffle/api/interop/java/JavaClassDesc.java:36-41 | The cache starts empty. |
| `ClassDescs.DescCache.ForClass` | truffle/src/com.oracle.truffle.api.interop.java/src/com/oracle/truffle/api/interop/java/JavaClassDesc.java:36-45 | Returns a valid descriptor of the requested class, ready for lookups. A class already seen gets the same descriptor again and the cache is unchanged. A new class gets a fresh descriptor with an empty slot, which the cache records. Every cached descriptor stays valid. |

## Left out

- Java reflection (`getMethods`, `getConstructors`, `getDeclaringClass`, `Modifier.isStatic`) is host-library code. The class handle carries its results as input sequences in the library's order.
- `JavaMethodDesc.unreflect`, `SingleMethodDesc` and `OverloadedMethodDesc` are not part of this model. A single is an opaque wrapper around one reflected record.
- `volatile` and `synchronized` in `getMembers` give safe publication across threads. The slot is modelled sequentially as write-once, so concurrent first lookups are not modelled.
- A reflection failure during the first build leaves the slot empty in the source. The model's builder cannot fail, so this path is not modelled.
- `ClassValue` ties each descriptor's lifetime to its class and holds it weakly. `DescCache` is a plain map that never drops entries. Class identity is value equality of `HostClass`, whose `id` stands for identity across loaders.
- `getType` is the `hostClass` field itself, declared `const` so that it cannot change after construction. No separate accessor is modelled.
- `toString` and `getCanonicalName` are string formatting over reflection and are not modelled.
- The Java `assert other instanceof SingleMethodDesc` in `merge` is a precondition of `Merge`.
