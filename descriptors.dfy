/**
 Method descriptors of the interop layer: a `Single` stands for one
 reflected method or constructor, an `Overloaded` for an ordered list of
 them that share a name (or are all constructors of one class).
 */
module Descriptors {

  /** Stands for Java's `null`: an absent descriptor or an absent map entry. */
  datatype Option<+T> = None | Some(value: T)

  /**
   What reflection tells about one public method or constructor, as far as
   the member table needs it: its simple name, a signature that tells
   overloads apart, whether its declaring class is `java.lang.Object`, and
   whether its modifiers include `static`.
   */
  datatype Executable = Executable(name: string, signature: string, declaredOnObject: bool, isStatic: bool)

  /**
   `Single` wraps exactly one executable (what `JavaMethodDesc.unreflect`
   yields); `Overloaded` carries the singles in insertion order. The type
   admits overloaded lists of any length, but every descriptor the builder
   produces lists at least two (see `Group`).
   */
  datatype MethodDesc = Single(target: Executable) | Overloaded(overloads: seq<Executable>)

  /** The executables a descriptor stands for, in order. */
  function Overloads(d: MethodDesc): (s: seq<Executable>)
    ensures d.Single? ==> s == [d.target]
    ensures d.Overloaded? ==> s == d.overloads
  {
    match d
    case Single(x) => [x]
    case Overloaded(xs) => xs
  }

  /**
   The overload merge rule: the second argument must be a single; the
   result is always an overloaded descriptor that lists what `existing`
   stands for, followed by `other`'s executable. Neither input is changed.
   */
  function Merge(existing: MethodDesc, other: MethodDesc): (r: MethodDesc)
    requires other.Single?
    ensures r.Overloaded?
    ensures existing.Single? ==> r.overloads == [existing.target, other.target]
    ensures existing.Overloaded? ==>
              && |r.overloads| == |existing.overloads| + 1
              && r.overloads[..|existing.overloads|] == existing.overloads
              && r.overloads[|existing.overloads|] == other.target
  {
    match existing
    case Single(x) => Overloaded([x, other.target])
    case Overloaded(prev) => Overloaded(prev + [other.target])
  }

  /**
   The descriptor that stands for a non-empty list of executables: a single
   for one of them, an overloaded descriptor for two or more.
   */
  function Group(b: seq<Executable>): (d: MethodDesc)
    requires b != []
    ensures Overloads(d) == b
    ensures d.Single? <==> |b| == 1
    ensures d.Overloaded? ==> |d.overloads| >= 2
  {
    if |b| == 1 then Single(b[0]) else Overloaded(b)
  }

  /** `Group`, with `None` for the empty list. */
  function Aggregate(b: seq<Executable>): (r: Option<MethodDesc>)
    ensures r.None? <==> b == []
    ensures r.Some? ==> Overloads(r.value) == b && (r.value.Single? <==> |b| == 1)
  {
    if b == [] then None else Some(Group(b))
  }

  /**
   Merging a new single into the descriptor of a list gives the descriptor
   of the list with the new executable appended.
   */
  lemma GroupAppend(b: seq<Executable>, x: Executable)
    requires b != []
    ensures Group(b + [x]) == Merge(Group(b), Single(x))
  {
    if |b| == 1 {
      assert b + [x] == [b[0], x];
    }
  }

  /**
   One step of the constructor fold: starting from `None`, the first
   executable gives a single and each further one is merged in.
   */
  lemma AggregateAppend(b: seq<Executable>, x: Executable)
    ensures Aggregate(b + [x])
            == Some(if Aggregate(b).None? then Single(x) else Merge(Aggregate(b).value, Single(x)))
  {
    if b == [] {
      assert b + [x] == [x];
    } else {
      GroupAppend(b, x);
    }
  }

  /** Merging never shrinks a descriptor: its overloads grow by exactly one. */
  lemma MergeGrows(existing: MethodDesc, x: Executable)
    ensures Overloads(Merge(existing, Single(x))) == Overloads(existing) + [x]
  {
    var r := Merge(existing, Single(x));
    if existing.Overloaded? {
      assert r.overloads == r.overloads[..|existing.overloads|] + [r.overloads[|existing.overloads|]];
    }
  }
}
