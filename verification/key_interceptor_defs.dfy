/** Declarations of keyinterceptor.hpp: the `AccessibilityShortcuts` bit
    mask with its `|` and `&` operators, the engine's lifecycle states, the
    shape of the key-state table and of a custom interceptor entry. */
module KeyInterceptorDefs {

  datatype Option<+T> = None | Some(value: T)

  /** `enum class AccessibilityShortcuts : int`. The enum is used as a bit
      mask, so any 32-bit pattern is a possible value; `bv32` keeps the bit
      pattern of the underlying `int`. */
  type AccessibilityShortcuts = bv32

  const StickyKeys: AccessibilityShortcuts := 0x01
  const ToggleKeys: AccessibilityShortcuts := 0x02
  const FilterKeys: AccessibilityShortcuts := 0x04
  const AllKeys: AccessibilityShortcuts := StickyKeys | ToggleKeys | FilterKeys

  /** The three accessibility features a mask can select. */
  datatype Feature = Sticky | Toggle | Filter

  /** The enumerator that names feature `f`. */
  function Bit(f: Feature): AccessibilityShortcuts
  {
    match f
    case Sticky => StickyKeys
    case Toggle => ToggleKeys
    case Filter => FilterKeys
  }

  /** `operator|`: the bitwise OR of the underlying ints. */
  function Or(a: AccessibilityShortcuts, b: AccessibilityShortcuts): (r: AccessibilityShortcuts)
    ensures forall f :: r & Bit(f) != 0 <==> a & Bit(f) != 0 || b & Bit(f) != 0
  {
    a | b
  }

  /** `operator&`: the intersection of the underlying ints, as an int. */
  function And(a: AccessibilityShortcuts, b: AccessibilityShortcuts): (r: bv32)
    ensures forall f :: r & Bit(f) != 0 <==> a & Bit(f) != 0 && b & Bit(f) != 0
  {
    a & b
  }

  /** The test `if (keys & AccessibilityShortcuts::X)` of the engine. */
  predicate Selects(keys: AccessibilityShortcuts, f: Feature)
  {
    And(keys, Bit(f)) != 0
  }

  /** The features a mask selects. */
  function Features(keys: AccessibilityShortcuts): set<Feature>
  {
    (if Selects(keys, Sticky) then {Sticky} else {})
    + (if Selects(keys, Toggle) then {Toggle} else {})
    + (if Selects(keys, Filter) then {Filter} else {})
  }

  /** A mask made only of enumerators (no bit outside `AllKeys`). */
  predicate WithinAllKeys(keys: AccessibilityShortcuts)
  {
    keys & !AllKeys == 0
  }

  /** The three enumerators are distinct single bits and `AllKeys` is their
      union, 0x7, selecting every feature. */
  lemma FeatureBits(f: Feature, g: Feature)
    ensures Bit(f) != 0 && Bit(f) & (Bit(f) - 1) == 0
    ensures f != g ==> Bit(f) & Bit(g) == 0
    ensures AllKeys == 0x7
    ensures Features(AllKeys) == {Sticky, Toggle, Filter}
    ensures Features(Bit(f)) == {f}
  {
  }

  /** `operator|` keeps every bit of both operands, and a union of masks
      made of enumerators is again made of enumerators. */
  lemma OrKeepsOperands(a: AccessibilityShortcuts, b: AccessibilityShortcuts)
    ensures a & !Or(a, b) == 0 && b & !Or(a, b) == 0
    ensures WithinAllKeys(a) && WithinAllKeys(b) ==> WithinAllKeys(Or(a, b))
  {
  }

  /** `operator&` holds no bit outside either operand. */
  lemma AndWithinOperands(a: AccessibilityShortcuts, b: AccessibilityShortcuts)
    ensures And(a, b) & !a == 0 && And(a, b) & !b == 0
  {
  }

  /** `operator|` is commutative and associative. */
  lemma OrCommutativeAssociative(a: AccessibilityShortcuts, b: AccessibilityShortcuts, c: AccessibilityShortcuts)
    ensures Or(a, b) == Or(b, a)
    ensures Or(Or(a, b), c) == Or(a, Or(b, c))
  {
  }

  /** OR-ing any combination of enumerators with `AllKeys` gives `AllKeys`. */
  lemma OrAllKeys(a: AccessibilityShortcuts)
    requires WithinAllKeys(a)
    ensures Or(a, AllKeys) == AllKeys && Or(AllKeys, a) == AllKeys
  {
  }

  /** A union of masks selects exactly the features either mask selects. */
  lemma FeaturesOfOr(a: AccessibilityShortcuts, b: AccessibilityShortcuts)
    ensures Features(Or(a, b)) == Features(a) + Features(b)
  {
  }

  /** `a & b` is non-zero exactly when the two masks share a feature, for
      any `a` and any `b` made of enumerators: this is what makes the test
      `keys & X` select feature X. */
  lemma AndNonZeroIffSharedFeature(a: AccessibilityShortcuts, b: AccessibilityShortcuts)
    requires WithinAllKeys(b)
    ensures And(a, b) != 0 <==> Features(a) * Features(b) != {}
  {
  }

  /** The lifecycle states of the engine (`KeyboardInterceptorState`). */
  datatype KeyboardInterceptorState = Unhook | Hooked | Started | Stoped

  /** Number of entries of `keystates_`: valid indices are 0 .. 254. */
  const KeyTableSize: nat := 255

  /** The `void *userData` pointer value; the engine only stores and
      forwards it. */
  type UserData = nat

  /** What invoking a custom callback produces: it returns a decision, or
      it throws (the engine catches and logs that). */
  datatype CallbackOutcome = Returned(intercept: bool) | Threw

  /** `KeyInterceptor`: a callback given the event kind, the event's virtual
      key code, a read-only view of the key-state table and the user data. */
  type KeyInterceptor = (nat, nat, seq<bool>, UserData) -> CallbackOutcome

  /** `KeyInterceptorData`: a possibly null callback and its user data. */
  datatype KeyInterceptorData = KeyInterceptorData(interceptor: Option<KeyInterceptor>, userData: UserData)
}
