/** The first scenario's snapshot records of a mesh application and its service, with
    the value equality the controller relies on to tell a changed snapshot from a
    repeated one. Every reference may be null, so strings, arrays and array elements
    are all optional here. */
module ScenarioModel {
  import opened Wrappers

  /** A string that may be null; two are equal when both are null or both hold the
      same characters. */
  type Text = Option<string>

  datatype ServiceCodePackage = ServiceCodePackage(name: Text)
  datatype ApplicationServiceData = ApplicationServiceData(healthState: Text)
  datatype ServiceData = ServiceData(codePackages: Option<seq<Option<ServiceCodePackage>>>,
                                     provisioningState: Text, healthState: Text, status: Text)
  datatype ApplicationData = ApplicationData(services: Option<seq<Option<ApplicationServiceData>>>,
                                             provisioningState: Text, healthState: Text, status: Text)

  /** An object as `Equals(object)` receives it: null, one of the records, or a value
      of some other type. */
  datatype Object =
    | Null
    | OfServiceCodePackage(codePackage: ServiceCodePackage)
    | OfApplicationServiceData(service: ApplicationServiceData)
    | OfServiceData(serviceData: ServiceData)
    | OfApplicationData(applicationData: ApplicationData)
    | OfOtherType

  // Comparing arrays whose elements may be null

  /** The default comparer: two nulls are equal, a null and a non-null are not, and two
      non-null elements compare with the element type's own equality. */
  function ElementEquals<E>(x: Option<E>, y: Option<E>, same: (E, E) -> bool): bool {
    match (x, y)
    case (None, None) => true
    case (Some(a), Some(b)) => same(a, b)
    case _ => false
  }

  /** Element-wise comparison of two arrays, in order; arrays of different lengths differ. */
  function SequenceEqual<E>(xs: seq<Option<E>>, ys: seq<Option<E>>, same: (E, E) -> bool): (r: bool)
    ensures r ==> |xs| == |ys|
    decreases |xs|
  {
    if xs == [] || ys == [] then xs == [] && ys == []
    else ElementEquals(xs[0], ys[0], same) && SequenceEqual(xs[1..], ys[1..], same)
  }

  /** When the element comparison is exactly equality, so is the array comparison. */
  lemma {:induction false} SequenceEqualIsEquality<E>(xs: seq<Option<E>>, ys: seq<Option<E>>, same: (E, E) -> bool)
    requires forall a, b :: same(a, b) <==> a == b
    ensures SequenceEqual(xs, ys, same) <==> xs == ys
    decreases |xs|
  {
    if xs != [] && ys != [] {
      SequenceEqualIsEquality(xs[1..], ys[1..], same);
      if xs[0] == ys[0] && xs[1..] == ys[1..] {
        assert xs == [xs[0]] + xs[1..] && ys == [ys[0]] + ys[1..];
      }
    }
  }

  /** Two arrays that may be null: both null, or both present and element-wise equal. */
  function ArraysEqual<E>(xs: Option<seq<Option<E>>>, ys: Option<seq<Option<E>>>, same: (E, E) -> bool): bool {
    (xs.None? && ys.None?) || (xs.Some? && ys.Some? && SequenceEqual(xs.value, ys.value, same))
  }

  lemma ArraysEqualIsEquality<E>(xs: Option<seq<Option<E>>>, ys: Option<seq<Option<E>>>, same: (E, E) -> bool)
    requires forall a, b :: same(a, b) <==> a == b
    ensures ArraysEqual(xs, ys, same) <==> xs == ys
  {
    if xs.Some? && ys.Some? {
      SequenceEqualIsEquality(xs.value, ys.value, same);
    }
  }

  // The records' typed equality: `Equals(T other)`. Each is value equality: true
  // exactly for a non-null value with the same contents, so it is reflexive and
  // symmetric, and the reference-equality shortcut the records take first never
  // changes the answer.

  function CodePackageEquals(p: ServiceCodePackage, other: Option<ServiceCodePackage>): (r: bool)
    ensures r <==> other == Some(p)
  {
    other.Some? && p.name == other.value.name
  }

  function ApplicationServiceEquals(s: ApplicationServiceData, other: Option<ApplicationServiceData>): (r: bool)
    ensures r <==> other == Some(s)
  {
    other.Some? && s.healthState == other.value.healthState
  }

  function CodePackageSame(p: ServiceCodePackage, q: ServiceCodePackage): bool {
    CodePackageEquals(p, Some(q))
  }

  function ApplicationServiceSame(s: ApplicationServiceData, t: ApplicationServiceData): bool {
    ApplicationServiceEquals(s, Some(t))
  }

  function ServiceDataEquals(d: ServiceData, other: Option<ServiceData>): (r: bool)
    ensures r <==> other == Some(d)
  {
    if other.None? then false
    else
      ArraysEqualIsEquality(d.codePackages, other.value.codePackages, CodePackageSame);
      && ArraysEqual(d.codePackages, other.value.codePackages, CodePackageSame)
      && d.provisioningState == other.value.provisioningState
      && d.healthState == other.value.healthState
      && d.status == other.value.status
  }

  function ApplicationDataEquals(d: ApplicationData, other: Option<ApplicationData>): (r: bool)
    ensures r <==> other == Some(d)
  {
    if other.None? then false
    else
      ArraysEqualIsEquality(d.services, other.value.services, ApplicationServiceSame);
      && ArraysEqual(d.services, other.value.services, ApplicationServiceSame)
      && d.provisioningState == other.value.provisioningState
      && d.healthState == other.value.healthState
      && d.status == other.value.status
  }

  /** Equality of snapshots is symmetric, since every comparison it makes is. */
  lemma SnapshotEqualsSymmetric(a: ServiceData, b: ServiceData, x: ApplicationData, y: ApplicationData)
    ensures ServiceDataEquals(a, Some(b)) <==> ServiceDataEquals(b, Some(a))
    ensures ApplicationDataEquals(x, Some(y)) <==> ApplicationDataEquals(y, Some(x))
  {
  }

  /** Null and non-null code-package arrays are unequal, two null arrays are equal, and
      arrays of different lengths are unequal. */
  lemma CodePackagesCompared(d: ServiceData, e: ServiceData)
    requires d.provisioningState == e.provisioningState && d.healthState == e.healthState && d.status == e.status
    ensures d.codePackages.None? && e.codePackages.None? ==> ServiceDataEquals(d, Some(e))
    ensures d.codePackages.None? != e.codePackages.None? ==> !ServiceDataEquals(d, Some(e))
    ensures (d.codePackages.Some? && e.codePackages.Some? && |d.codePackages.value| != |e.codePackages.value|)
              ==> !ServiceDataEquals(d, Some(e))
  {
  }

  // `Equals(object)`: null and other types are unequal, a record of the same type delegates

  function ServiceDataEqualsObject(d: ServiceData, obj: Object): (r: bool)
    ensures r <==> obj == OfServiceData(d)
  {
    match obj
    case OfServiceData(e) => ServiceDataEquals(d, Some(e))
    case _ => false
  }

  function ApplicationDataEqualsObject(d: ApplicationData, obj: Object): (r: bool)
    ensures r <==> obj == OfApplicationData(d)
  {
    match obj
    case OfApplicationData(e) => ApplicationDataEquals(d, Some(e))
    case _ => false
  }

  function CodePackageEqualsObject(p: ServiceCodePackage, obj: Object): (r: bool)
    ensures r <==> obj == OfServiceCodePackage(p)
  {
    match obj
    case OfServiceCodePackage(q) => CodePackageEquals(p, Some(q))
    case _ => false
  }

  function ApplicationServiceEqualsObject(s: ApplicationServiceData, obj: Object): (r: bool)
    ensures r <==> obj == OfApplicationServiceData(s)
  {
    match obj
    case OfApplicationServiceData(t) => ApplicationServiceEquals(s, Some(t))
    case _ => false
  }

  // Hashing. A C# hash code is a 32-bit integer and the generated `unchecked` arithmetic
  // wraps, so hash codes are bv32; a string's hash is a parameter.

  function TextHash(t: Text, stringHash: string -> bv32): bv32 {
    if t.Some? then stringHash(t.value) else 0
  }

  function CodePackageHash(p: ServiceCodePackage, stringHash: string -> bv32): bv32 {
    TextHash(p.name, stringHash)
  }

  function ApplicationServiceHash(s: ApplicationServiceData, stringHash: string -> bv32): bv32 {
    TextHash(s.healthState, stringHash)
  }

  /** Equal records hash equally, whatever the string hash. */
  lemma HashAgreesWithEquals(p: ServiceCodePackage, q: ServiceCodePackage,
                             s: ApplicationServiceData, t: ApplicationServiceData, stringHash: string -> bv32)
    ensures CodePackageEquals(p, Some(q)) ==> CodePackageHash(p, stringHash) == CodePackageHash(q, stringHash)
    ensures ApplicationServiceEquals(s, Some(t)) ==>
              ApplicationServiceHash(s, stringHash) == ApplicationServiceHash(t, stringHash)
  {
  }

  /** One step of the generated hash: multiply by 397, wrapping, and xor in the next field. */
  function Mix(h: bv32, x: bv32): bv32 {
    (h * 397) ^ x
  }

  /** The three text fields mixed into a starting hash. */
  function MixFields(h: bv32, provisioningState: Text, healthState: Text, status: Text,
                     stringHash: string -> bv32): bv32 {
    Mix(Mix(Mix(h, TextHash(provisioningState, stringHash)), TextHash(healthState, stringHash)),
        TextHash(status, stringHash))
  }

  // The snapshot hashes as written: the array contributes the hash of the array
  // object, which depends on the instance and not on its elements.

  function ServiceDataHashAsWritten(d: ServiceData, arrayIdentity: bv32, stringHash: string -> bv32): (r: bv32)
    ensures d.codePackages.None? ==> r == ServiceDataHash(d, stringHash)
    ensures d.codePackages.Some? && arrayIdentity == CodePackagesHash(d.codePackages.value, stringHash)
      ==> r == ServiceDataHash(d, stringHash)
  {
    MixFields(if d.codePackages.Some? then arrayIdentity else 0,
              d.provisioningState, d.healthState, d.status, stringHash)
  }

  function ApplicationDataHashAsWritten(d: ApplicationData, arrayIdentity: bv32, stringHash: string -> bv32): (r: bv32)
    ensures d.services.None? ==> r == ApplicationDataHash(d, stringHash)
    ensures d.services.Some? && arrayIdentity == ServicesHash(d.services.value, stringHash)
      ==> r == ApplicationDataHash(d, stringHash)
  {
    MixFields(if d.services.Some? then arrayIdentity else 0,
              d.provisioningState, d.healthState, d.status, stringHash)
  }

  /** Two snapshots with the same contents, each holding its own (empty) array, compare
      equal; if the two arrays' own hash codes are 1 and 2, the snapshots hash differently. */
  lemma SnapshotHashAsWrittenBreaksEquality(stringHash: string -> bv32)
    ensures var d := ServiceData(Some([]), None, None, None);
      ServiceDataEquals(d, Some(d))
      && ServiceDataHashAsWritten(d, 1, stringHash) != ServiceDataHashAsWritten(d, 2, stringHash)
    ensures var a := ApplicationData(Some([]), None, None, None);
      ApplicationDataEquals(a, Some(a))
      && ApplicationDataHashAsWritten(a, 1, stringHash) != ApplicationDataHashAsWritten(a, 2, stringHash)
  {
  }

  // The snapshot hashes corrected: the array contributes the hashes of its elements,
  // a null element counting as 0, as the element comparison in `Equals` does.

  function SequenceHash<E>(xs: seq<Option<E>>, hash: E -> bv32): bv32 {
    if xs == [] then 0
    else Mix(SequenceHash(xs[..|xs| - 1], hash), if xs[|xs| - 1].Some? then hash(xs[|xs| - 1].value) else 0)
  }

  function CodePackagesHash(xs: seq<Option<ServiceCodePackage>>, stringHash: string -> bv32): bv32 {
    SequenceHash(xs, p => CodePackageHash(p, stringHash))
  }

  function ServicesHash(xs: seq<Option<ApplicationServiceData>>, stringHash: string -> bv32): bv32 {
    SequenceHash(xs, s => ApplicationServiceHash(s, stringHash))
  }

  function ServiceDataHash(d: ServiceData, stringHash: string -> bv32): bv32 {
    MixFields(if d.codePackages.Some? then CodePackagesHash(d.codePackages.value, stringHash) else 0,
              d.provisioningState, d.healthState, d.status, stringHash)
  }

  function ApplicationDataHash(d: ApplicationData, stringHash: string -> bv32): bv32 {
    MixFields(if d.services.Some? then ServicesHash(d.services.value, stringHash) else 0,
              d.provisioningState, d.healthState, d.status, stringHash)
  }

  /** With the element hashes, snapshots that compare equal hash equally, and the hash of
      one snapshot no longer depends on which array instance holds its elements. */
  lemma SnapshotHashAgreesWithEquals(d: ServiceData, e: ServiceData, a: ApplicationData, b: ApplicationData,
                                     stringHash: string -> bv32)
    ensures ServiceDataEquals(d, Some(e)) ==> ServiceDataHash(d, stringHash) == ServiceDataHash(e, stringHash)
    ensures ApplicationDataEquals(a, Some(b)) ==>
              ApplicationDataHash(a, stringHash) == ApplicationDataHash(b, stringHash)
  {
  }
}
