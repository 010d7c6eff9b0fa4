/** ClassDescriptionContainer: the naming record of a flow class, whose
    identity is its fully-qualified name. */
module ClassDescriptions {
  import opened Options

  /** A nullable containing-class name and return type become Options. */
  datatype ClassDescriptionContainer = ClassDescriptionContainer(
    simpleName: string,
    containingClassName: Option<string>,
    packageName: string,
    fullyQualifiedName: string,
    comments: string,
    annotations: set<string>,
    returnType: Option<string>)

  /** The argument of equals: Java null, a container, or an object of any other class. */
  datatype ObjectRef = NullRef | Container(desc: ClassDescriptionContainer) | OtherObject(tag: nat)

  predicate HasContainingClass(c: ClassDescriptionContainer) {
    c.containingClassName.Some?
  }

  function GetContainingClassNameOrItself(c: ClassDescriptionContainer): (r: string)
    ensures HasContainingClass(c) ==> r == c.containingClassName.value
    ensures !HasContainingClass(c) ==> r == c.simpleName
  {
    c.containingClassName.GetOr(c.simpleName)
  }

  /** "Outer$Inner" for a nested class, the simple name otherwise. */
  function GetNameWithParent(c: ClassDescriptionContainer): (r: string)
    ensures HasContainingClass(c) ==> |r| == |c.containingClassName.value| + 1 + |c.simpleName|
    ensures HasContainingClass(c) ==> c.containingClassName.value <= r && r[|c.containingClassName.value|] == '$'
    ensures HasContainingClass(c) ==> r[|c.containingClassName.value| + 1..] == c.simpleName
    ensures !HasContainingClass(c) ==> r == c.simpleName
  {
    if HasContainingClass(c) then c.containingClassName.value + "$" + c.simpleName else c.simpleName
  }

  /** hasContainingClass holds exactly when the name with parent is longer
      than the simple name, i.e. when a parent part is actually prepended. */
  lemma HasContainingClassIffParentPrepended(c: ClassDescriptionContainer)
    ensures HasContainingClass(c) <==> |GetNameWithParent(c)| > |c.simpleName|
  {
  }

  /** Splits a binary name at its first '$', the inverse of getNameWithParent. */
  function SplitAtFirstDollar(s: string): (r: Option<(string, string)>)
    ensures r.None? <==> '$' !in s
    ensures r.Some? ==> '$' !in r.value.0 && s == r.value.0 + "$" + r.value.1
  {
    if |s| == 0 then None
    else if s[0] == '$' then
      assert s == [] + "$" + s[1..];
      Some(([], s[1..]))
    else
      match SplitAtFirstDollar(s[1..])
      case None => None
      case Some((outer, inner)) =>
        assert s == [s[0]] + outer + "$" + inner;
        Some(([s[0]] + outer, inner))
  }

  /** A container whose outer name has no '$' gets both names back from its
      name with parent; a top-level class with no '$' is not split at all. */
  lemma {:induction false} NameWithParentRoundTrip(c: ClassDescriptionContainer)
    requires HasContainingClass(c) ==> '$' !in c.containingClassName.value
    ensures HasContainingClass(c) ==>
      SplitAtFirstDollar(GetNameWithParent(c)) == Some((c.containingClassName.value, c.simpleName))
    ensures !HasContainingClass(c) ==>
      (SplitAtFirstDollar(GetNameWithParent(c)).None? <==> '$' !in c.simpleName)
  {
    if HasContainingClass(c) {
      SplitPrefix(c.containingClassName.value, c.simpleName);
    }
  }

  lemma {:induction false} SplitPrefix(outer: string, inner: string)
    requires '$' !in outer
    ensures SplitAtFirstDollar(outer + "$" + inner) == Some((outer, inner))
    decreases |outer|
  {
    var s := outer + "$" + inner;
    if |outer| == 0 {
      assert s == "$" + inner;
      assert s[1..] == inner;
    } else {
      assert s[0] == outer[0];
      assert s[1..] == outer[1..] + "$" + inner;
      SplitPrefix(outer[1..], inner);
      assert [outer[0]] + outer[1..] == outer;
    }
  }

  /** equals: true exactly for a container with the same fully-qualified name. */
  predicate Equals(self: ClassDescriptionContainer, other: ObjectRef) {
    other.Container? && other.desc.fullyQualifiedName == self.fullyQualifiedName
  }

  /** equals is an equivalence on containers and is false for null and for
      objects of other classes. */
  lemma EqualsIsEquivalence(a: ClassDescriptionContainer, b: ClassDescriptionContainer, c: ClassDescriptionContainer)
    ensures Equals(a, Container(a))
    ensures Equals(a, Container(b)) <==> Equals(b, Container(a))
    ensures Equals(a, Container(b)) && Equals(b, Container(c)) ==> Equals(a, Container(c))
    ensures !Equals(a, NullRef) && forall t: nat :: !Equals(a, OtherObject(t))
  {
  }

  /** equals compares the fully-qualified name only: two containers that agree
      on it are equal whatever their other fields, and two that differ in it
      are not. */
  lemma EqualsIffSameQualifiedName(a: ClassDescriptionContainer, b: ClassDescriptionContainer)
    ensures Equals(a, Container(b)) <==> b.fullyQualifiedName == a.fullyQualifiedName
    ensures Equals(a, Container(b)) <==> Equals(a, Container(b.(simpleName := a.simpleName, containingClassName := a.containingClassName,
                                                                packageName := a.packageName, comments := a.comments,
                                                                annotations := a.annotations, returnType := a.returnType)))
  {
  }

  // ---- hashCode ------------------------------------------------------------------------

  const TwoTo32: int := 0x1_0000_0000
  const TwoTo31: int := 0x8000_0000

  /** The value of the string read as a base-31 number, without wrap-around:
      the exact sum of s[i] * 31^(n-1-i). */
  function Polynomial(s: string): int
  {
    if |s| == 0 then 0 else 31 * Polynomial(s[..|s| - 1]) + (s[|s| - 1] as int)
  }

  /** Reinterprets 32 unsigned bits as a two's-complement int. */
  function ToInt32(u: int): (r: int)
    requires 0 <= u < TwoTo32
    ensures -TwoTo31 <= r < TwoTo31
    ensures (r - u) % TwoTo32 == 0
  {
    if u < TwoTo31 then u else u - TwoTo32
  }

  /** String.hashCode as Java defines it: the base-31 polynomial in 32-bit
      two's-complement arithmetic. */
  function JavaStringHash(s: string): (r: int)
    ensures -TwoTo31 <= r < TwoTo31
    ensures (r - Polynomial(s)) % TwoTo32 == 0
  {
    ToInt32(Polynomial(s) % TwoTo32)
  }

  lemma MulAddMod(h: int, p: int, c: int)
    requires h == p % TwoTo32
    ensures (31 * h + c) % TwoTo32 == (31 * p + c) % TwoTo32
  {
    var q := p / TwoTo32;
    assert p == q * TwoTo32 + h;
    assert 31 * p + c == (31 * h + c) + (31 * q) * TwoTo32;
  }

  /** The loop of String.hashCode, h = 31 * h + c with int overflow, kept as
      an unsigned 32-bit accumulator. */
  method StringHash(s: string) returns (h: int)
    ensures h == JavaStringHash(s)
  {
    var u := 0;
    var i := 0;
    while i < |s|
      invariant 0 <= i <= |s|
      invariant u == Polynomial(s[..i]) % TwoTo32
    {
      assert s[..i + 1][..i] == s[..i];
      MulAddMod(u, Polynomial(s[..i]), s[i] as int);
      u := (31 * u + (s[i] as int)) % TwoTo32;
      i := i + 1;
    }
    assert s[..i] == s;
    h := ToInt32(u);
  }

  /** hashCode: the hash of the fully-qualified name. */
  function HashCode(c: ClassDescriptionContainer): (r: int)
    ensures -TwoTo31 <= r < TwoTo31
  {
    JavaStringHash(c.fullyQualifiedName)
  }

  /** Containers that are equal hash equally, whatever else they differ in. */
  lemma EqualsImpliesSameHash(a: ClassDescriptionContainer, b: ClassDescriptionContainer)
    requires Equals(a, Container(b))
    ensures HashCode(a) == HashCode(b)
  {
  }

  // ---- annotations ---------------------------------------------------------------------

  function AddImportantAnnotation(c: ClassDescriptionContainer, annotationWithAt: string): (r: ClassDescriptionContainer)
    ensures annotationWithAt in r.annotations
    ensures r.annotations - {annotationWithAt} == c.annotations - {annotationWithAt}
    ensures r.(annotations := c.annotations) == c
    ensures annotationWithAt in c.annotations ==> r == c
  {
    c.(annotations := c.annotations + {annotationWithAt})
  }

  /** Adding an annotation changes neither equality nor the hash. */
  lemma AddImportantAnnotationKeepsIdentity(c: ClassDescriptionContainer, a: string)
    ensures Equals(c, Container(AddImportantAnnotation(c, a)))
    ensures HashCode(AddImportantAnnotation(c, a)) == HashCode(c)
  {
  }
}
