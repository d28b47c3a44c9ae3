/**
 * The small helpers of the component library (shadcn/lib/utils.ts): the
 * dotted name of a sub-component, the value for a breakpoint with a default,
 * and the check that a value is neither `null` nor `undefined`.
 */
module ShadcnUtils {
  import opened Wrappers

  /** composeComponentName: the base name, a dot, and the sub-component name. */
  function ComposeComponentName(baseComponent: string, subComponent: string): (r: string)
    ensures |r| == |baseComponent| + 1 + |subComponent|
    ensures r[..|baseComponent|] == baseComponent && r[|baseComponent|] == '.'
    ensures r[|baseComponent| + 1..] == subComponent
  {
    baseComponent + "." + subComponent
  }

  /** The position of the first dot in `s`, if any. */
  function FirstDot(s: string): (r: Option<nat>)
    ensures r.Some? ==> r.value < |s| && s[r.value] == '.' && forall i :: 0 <= i < r.value ==> s[i] != '.'
    ensures r.None? ==> forall i :: 0 <= i < |s| ==> s[i] != '.'
  {
    if s == [] then None
    else if s[0] == '.' then Some(0)
    else match FirstDot(s[1..])
      case None => None
      case Some(k) => Some(k + 1)
  }

  /** Splits a composed name at its first dot into base and sub-component. */
  function SplitComponentName(name: string): (r: Option<(string, string)>)
    ensures r.Some? ==> ComposeComponentName(r.value.0, r.value.1) == name && '.' !in r.value.0
  {
    match FirstDot(name)
    case None => None
    case Some(k) =>
      assert name == name[..k] + "." + name[k + 1..];
      Some((name[..k], name[k + 1..]))
  }

  /**
   * A composed name splits back into its parts whenever the base name has no
   * dot (the sub-component name may have dots of its own).
   */
  lemma {:induction false} ComposeSplitRoundTrip(baseComponent: string, subComponent: string)
    requires '.' !in baseComponent
    ensures SplitComponentName(ComposeComponentName(baseComponent, subComponent)) == Some((baseComponent, subComponent))
  {
    var name := ComposeComponentName(baseComponent, subComponent);
    FirstDotAt(name, |baseComponent|);
  }

  /** The first dot is at `k` when `s[k]` is a dot and nothing before is. */
  lemma {:induction false} FirstDotAt(s: string, k: nat)
    requires k < |s| && s[k] == '.' && forall i :: 0 <= i < k ==> s[i] != '.'
    ensures FirstDot(s) == Some(k)
    decreases k
  {
    if k > 0 {
      FirstDotAt(s[1..], k - 1);
    }
  }

  datatype Breakpoint = Mobile | Tablet | Desktop

  /** A value per breakpoint, each optional, and a default. */
  datatype ResponsiveValue<T> = ResponsiveValue(mobile: Option<T>, tablet: Option<T>, desktop: Option<T>, default: T)

  /** `value[breakpoint]`. */
  function ValueAt<T>(value: ResponsiveValue<T>, breakpoint: Breakpoint): Option<T> {
    match breakpoint
    case Mobile => value.mobile
    case Tablet => value.tablet
    case Desktop => value.desktop
  }

  /**
   * getResponsiveValue: the breakpoint's own value when it has one, and the
   * default otherwise.
   */
  function GetResponsiveValue<T>(value: ResponsiveValue<T>, breakpoint: Breakpoint): (r: T)
    ensures ValueAt(value, breakpoint).Some? ==> r == ValueAt(value, breakpoint).value
    ensures ValueAt(value, breakpoint).None? ==> r == value.default
  {
    ValueAt(value, breakpoint).GetOr(value.default)
  }

  /** Gives `breakpoint` its own value. */
  function WithValue<T>(value: ResponsiveValue<T>, breakpoint: Breakpoint, v: T): (r: ResponsiveValue<T>)
    ensures ValueAt(r, breakpoint) == Some(v) && r.default == value.default
    ensures forall b :: b != breakpoint ==> ValueAt(r, b) == ValueAt(value, b)
  {
    match breakpoint
    case Mobile => value.(mobile := Some(v))
    case Tablet => value.(tablet := Some(v))
    case Desktop => value.(desktop := Some(v))
  }

  /**
   * A value with only a default gives the default everywhere; giving one
   * breakpoint its own value changes the result there and nowhere else.
   */
  lemma ResponsiveValueSpec<T>(value: ResponsiveValue<T>, breakpoint: Breakpoint, v: T)
    ensures forall b :: GetResponsiveValue(ResponsiveValue(None, None, None, value.default), b) == value.default
    ensures GetResponsiveValue(WithValue(value, breakpoint, v), breakpoint) == v
    ensures forall b :: b != breakpoint ==>
              GetResponsiveValue(WithValue(value, breakpoint, v), b) == GetResponsiveValue(value, b)
  {
  }

  /** A value that may be `null` or `undefined`. */
  datatype Nullable<T> = Null | Undefined | Value(value: T)

  /** isNonNullable: `value != null`, which loose equality makes false for both `null` and `undefined`. */
  predicate IsNonNullable<T>(v: Nullable<T>) {
    !v.Null? && !v.Undefined?
  }

  /** The value as an option: both kinds of nothing become None. */
  function AsOption<T>(v: Nullable<T>): (r: Option<T>)
    ensures v.Value? ==> r == Some(v.value)
    ensures !v.Value? ==> r == None
  {
    if v.Value? then Some(v.value) else None
  }

  /** isNonNullable holds exactly for a present value, and the value then survives the conversion. */
  lemma IsNonNullableIff<T>(v: Nullable<T>)
    ensures IsNonNullable(v) <==> AsOption(v).Some?
    ensures IsNonNullable(v) ==> v == Value(AsOption(v).value)
  {
  }
}
