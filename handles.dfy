/** Value semantics of window handles (User32.HWND).
    An HWND instance wraps a raw handle value; a C# reference of type HWND may
    also be null. Identity, equality and hashing are defined over the raw value.
    For `==`, `!=` and `Equals(HWND)` a null reference behaves exactly like a
    handle whose value is zero; `Equals(object)` is the exception, because its
    null test goes through the overloaded `!=`. */
module WindowHandles {

  /** An HWND instance, identified by the raw value it wraps. The default
      (marshaller) constructor leaves the value at zero. */
  datatype Hwnd = Hwnd(raw: int)

  /** A C# reference of static type HWND: null, or some HWND instance. */
  datatype HwndRef = Null | Ref(hwnd: Hwnd)

  /** The handle value a reference stands for: a null reference stands for zero. */
  function ValueOf(r: HwndRef): int
  {
    if r.Null? then 0 else r.hwnd.raw
  }

  /** `operator ==`: two null references are equal, null equals a zero
      handle, otherwise the raw values are compared. */
  function OpEq(l: HwndRef, r: HwndRef): (b: bool)
    ensures b <==> ValueOf(l) == ValueOf(r)
  {
    if l.Null? then r.Null? || r.hwnd.raw == 0
    else if r.Null? then l.hwnd.raw == 0
    else l.hwnd.raw == r.hwnd.raw
  }

  /** `operator !=`, the negation of `operator ==`. */
  function OpNe(l: HwndRef, r: HwndRef): (b: bool)
    ensures b <==> ValueOf(l) != ValueOf(r)
  {
    !OpEq(l, r)
  }

  /** `Equals(HWND other)` called on a (non-null) instance. */
  function Equals(self: Hwnd, other: HwndRef): (b: bool)
    ensures b <==> self.raw == ValueOf(other)
  {
    if other.Null? then self.raw == 0 else other.hwnd.raw == self.raw
  }

  /** What `Equals(object)` may be handed: null, an HWND (or a subclass such
      as StrongHWND), or an object of some unrelated type. */
  datatype Object = NullObject | HwndObject(hwnd: Hwnd) | OtherObject(id: int)

  /** `Equals(object)` as written: a null reference is equal iff the handle is
      zero; otherwise `obj as HWND` yields null for an unrelated type, and the
      test `other != null` is the overloaded HWND operator, so an HWND whose
      value is zero is never equal to anything, not even to a zero handle. */
  function EqualsObject(self: Hwnd, obj: Object): (b: bool)
    ensures obj.OtherObject? ==> !b
    ensures obj.NullObject? ==> (b <==> self.raw == 0)
    ensures obj.HwndObject? ==> (b <==> obj.hwnd.raw != 0 && self.raw == obj.hwnd.raw)
  {
    match obj
    case NullObject => self.raw == 0
    case HwndObject(other) => OpNe(Ref(other), Null) && Equals(self, Ref(other))
    case OtherObject(_) => false
  }

  /** `Equals(object)` as evidently intended: the null test on the cast result
      is a reference test, as in `Equals(HWND)`, so any HWND argument is
      handed on to `Equals(HWND)`. */
  function EqualsObjectIntended(self: Hwnd, obj: Object): (b: bool)
    ensures obj.OtherObject? ==> !b
    ensures obj.NullObject? ==> (b <==> self.raw == 0)
    ensures obj.HwndObject? ==> (b <==> self.raw == obj.hwnd.raw)
  {
    match obj
    case NullObject => self.raw == 0
    case HwndObject(other) => Equals(self, Ref(other))
    case OtherObject(_) => false
  }

  /** The object a reference denotes when it is passed as `object`. */
  function AsObject(r: HwndRef): Object
  {
    if r.Null? then NullObject else HwndObject(r.hwnd)
  }

  /** `GetHashCode` delegates to IntPtr.GetHashCode, which keeps the low
      32 bits of the value as a signed 32-bit integer. */
  function HashCode(self: Hwnd): (c: int)
    ensures -0x8000_0000 <= c < 0x8000_0000
    ensures (c - self.raw) % 0x1_0000_0000 == 0
  {
    var low := self.raw % 0x1_0000_0000;
    if low < 0x8000_0000 then low else low - 0x1_0000_0000
  }

  /** `operator ==` is an equivalence: every handle equals itself, the order of
      the operands does not matter, and equality chains. */
  lemma OpEqIsEquivalence(a: HwndRef, b: HwndRef, c: HwndRef)
    ensures OpEq(a, a)
    ensures OpEq(a, b) == OpEq(b, a)
    ensures OpEq(a, b) && OpEq(b, c) ==> OpEq(a, c)
  {
  }

  /** Null-valued handles are interchangeable: a null reference, the
      default-constructed handle and any zero handle are all `==`. */
  lemma NullValuedHandlesAreEqual(r: HwndRef)
    requires ValueOf(r) == 0
    ensures OpEq(r, Null) && OpEq(Null, r)
    ensures OpEq(r, Ref(Hwnd(0)))
  {
  }

  /** `Equals(HWND)` agrees with `operator ==` on every argument, null
      included; `Equals(object)` as written agrees with it except when the
      argument is a non-null HWND whose value is zero. */
  lemma EqualsAgreesWithOperator(self: Hwnd, other: HwndRef)
    ensures Equals(self, other) == OpEq(Ref(self), other)
    ensures other.Null? || other.hwnd.raw != 0 ==>
              EqualsObject(self, AsObject(other)) == OpEq(Ref(self), other)
  {
  }

  /** The discrepancy in `Equals(object)`: a zero handle is `==` to another
      zero handle and `Equals(object)` a null reference, yet it is not
      `Equals(object)` itself, so `Equals(object)` is not reflexive. */
  lemma ZeroHandleIsNotEqualToItself()
    ensures OpEq(Ref(Hwnd(0)), Ref(Hwnd(0)))
    ensures Equals(Hwnd(0), Ref(Hwnd(0)))
    ensures EqualsObject(Hwnd(0), NullObject)
    ensures !EqualsObject(Hwnd(0), HwndObject(Hwnd(0)))
  {
  }

  /** The intended `Equals(object)` agrees with `operator ==` on every
      argument, so it is reflexive, symmetric and transitive. */
  lemma IntendedEqualsAgreesWithOperator(self: Hwnd, other: HwndRef)
    ensures EqualsObjectIntended(self, AsObject(other)) == OpEq(Ref(self), other)
    ensures EqualsObjectIntended(self, HwndObject(self))
  {
  }

  /** Handles that compare equal have equal hash codes, under `Equals(object)`
      as written and as intended. */
  lemma EqualHandlesHashEqually(a: Hwnd, b: Hwnd)
    requires EqualsObjectIntended(a, HwndObject(b)) || EqualsObject(a, HwndObject(b))
    ensures HashCode(a) == HashCode(b)
  {
  }
}
