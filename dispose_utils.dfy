/** DisposeUtils: dispose-and-clear helpers for variables and array slots.
    A variable or slot holds a reference to a disposable object or null
    (`default(T)`), modelled as `Option<T>`. A `Trace` records, in program
    order, each object's `Dispose()`, each call of a replacement factory and
    each write to a variable or slot, so that the order of clearing and
    disposing is part of every contract. */
module DisposeUtils {
  import opened Outcomes

  /** Where a write went: the `ref` variable, or an array element. */
  datatype Slot = Variable | Element(index: int)

  datatype Event<T> =
    | Disposed(obj: T)                     // obj.Dispose() ran
    | FactoryCalled                        // newObject() ran
    | Written(slot: Slot, value: Option<T>)

  class Trace<T> {
    var events: seq<Event<T>>

    constructor ()
      ensures events == []
    {
      events := [];
    }
  }

  /** A `ref T` argument: the caller's variable. */
  class Cell<T> {
    var value: Option<T>

    constructor (value: Option<T>)
      ensures this.value == value
    {
      this.value := value;
    }
  }

  /** The events of disposing what a slot held: nothing for default. */
  function DisposeEvents<T>(x: Option<T>): seq<Event<T>>
  {
    if x.Some? then [Disposed(x.value)] else []
  }

  /** `Dispose(ref x)`: nothing for default; otherwise the variable is set to
      default first and then the old object is disposed. */
  function RefDisposeEvents<T>(x: Option<T>): seq<Event<T>>
  {
    if x.Some? then [Written(Variable, None), Disposed(x.value)] else []
  }

  /** `Dispose(arr)` from slot `from` on: slot by slot, the old entry is
      disposed (if any) and then the slot is cleared. */
  function ArrayDisposeEvents<T>(s: seq<Option<T>>, from: int): seq<Event<T>>
    decreases |s|
  {
    if s == [] then []
    else DisposeEvents(s[0]) + [Written(Element(from), None)] + ArrayDisposeEvents(s[1..], from + 1)
  }

  /** How many times `o` is disposed in `events`. */
  ghost function DisposeCount<T>(events: seq<Event<T>>, o: T): nat
  {
    if events == [] then 0
    else (if events[0] == Disposed(o) then 1 else 0) + DisposeCount(events[1..], o)
  }

  /** How many slots of `s` hold `o`. */
  ghost function Occurrences<T>(s: seq<Option<T>>, o: T): nat
  {
    if s == [] then 0
    else (if s[0] == Some(o) then 1 else 0) + Occurrences(s[1..], o)
  }

  lemma {:induction false} DisposeCountAppend<T>(a: seq<Event<T>>, b: seq<Event<T>>, o: T)
    ensures DisposeCount(a + b, o) == DisposeCount(a, o) + DisposeCount(b, o)
  {
    if a == [] {
      assert a + b == b;
    } else {
      assert (a + b)[0] == a[0];
      assert (a + b)[1..] == a[1..] + b;
      DisposeCountAppend(a[1..], b, o);
    }
  }

  /** `Dispose(arr)` disposes every object exactly as many times as slots held
      it: each originally non-default entry once, when entries are distinct. */
  lemma {:induction false} ArrayDisposeCount<T>(s: seq<Option<T>>, from: int, o: T)
    ensures DisposeCount(ArrayDisposeEvents(s, from), o) == Occurrences(s, o)
  {
    if s != [] {
      var head := DisposeEvents(s[0]) + [Written(Element(from), None)];
      DisposeCountAppend(head, ArrayDisposeEvents(s[1..], from + 1), o);
      DisposeCountAppend(DisposeEvents(s[0]), [Written(Element(from), None)], o);
      ArrayDisposeCount(s[1..], from + 1, o);
    }
  }

  /** `Dispose(ref x)` run twice disposes the object once: the second call
      finds default. */
  lemma DisposeRefTwiceDisposesOnce<T>(x: Option<T>, o: T)
    ensures DisposeCount(RefDisposeEvents(x) + RefDisposeEvents(None), o) ==
            (if x == Some(o) then 1 else 0)
  {
    assert RefDisposeEvents<T>(None) == [];
    assert RefDisposeEvents(x) + [] == RefDisposeEvents(x);
    if x.Some? {
      var e := RefDisposeEvents(x);
      assert e[1..] == [Disposed(x.value)];
      assert e[1..][1..] == [];
      assert DisposeCount(e[1..], o) == (if x.value == o then 1 else 0);
      assert DisposeCount(e, o) == DisposeCount(e[1..], o);
    }
  }

  /** `obj.Dispose()` itself. */
  method DisposeObject<T>(obj: T, trace: Trace<T>)
    modifies trace
    ensures trace.events == old(trace.events) + [Disposed(obj)]
  {
    trace.events := trace.events + [Disposed(obj)];
  }

  /** A write to the `ref` variable. */
  method Store<T>(cell: Cell<T>, v: Option<T>, trace: Trace<T>)
    modifies cell, trace
    ensures cell.value == v
    ensures trace.events == old(trace.events) + [Written(Variable, v)]
  {
    cell.value := v;
    trace.events := trace.events + [Written(Variable, v)];
  }

  /** `DisposeReplace(ref obj, newObject)`: the old object (if any) is
      disposed before the factory runs; the variable then holds the
      factory's result `made`. */
  method DisposeReplace<T>(cell: Cell<T>, made: Option<T>, trace: Trace<T>)
    requires cell as object != trace
    modifies cell, trace
    ensures cell.value == made
    ensures trace.events == old(trace.events) + DisposeEvents(old(cell.value)) +
                            [FactoryCalled, Written(Variable, made)]
  {
    var d := cell.value;
    if d.Some? {
      DisposeObject(d.value, trace);
    }
    trace.events := trace.events + [FactoryCalled];
    Store(cell, made, trace);
  }

  /** `Dispose(ref disposeObject)`: nothing for default; otherwise the
      variable becomes default and then the old object is disposed once. */
  method DisposeRef<T>(cell: Cell<T>, trace: Trace<T>)
    requires cell as object != trace
    modifies cell, trace
    ensures cell.value.None?
    ensures trace.events == old(trace.events) + RefDisposeEvents(old(cell.value))
  {
    if cell.value.None? {
      return;
    }
    var d := cell.value;
    Store(cell, None, trace);
    DisposeObject(d.value, trace);
  }

  /** `Dispose(disposeObject)` by value: disposes a non-default object once;
      the caller's variable is not touched. */
  method DisposeValue<T>(x: Option<T>, trace: Trace<T>)
    modifies trace
    ensures trace.events == old(trace.events) + DisposeEvents(x)
  {
    if x.None? {
      return;
    }
    DisposeObject(x.value, trace);
  }

  /** `Dispose(i, disposeArray)`: the old entry is disposed (if any), then
      slot i becomes default; no other slot changes. */
  method DisposeAt<T>(i: int, a: array<Option<T>>, trace: Trace<T>)
    requires 0 <= i < a.Length
    modifies a, trace
    ensures a[..] == old(a[..])[i := None]
    ensures trace.events == old(trace.events) + DisposeEvents(old(a[i])) + [Written(Element(i), None)]
  {
    var d := a[i];
    if a[i].Some? {
      DisposeValue(d, trace);
    }
    a[i] := None;
    trace.events := trace.events + [Written(Element(i), None)];
  }

  /** `Dispose(disposeArray)`: every slot, in order, as `Dispose(i, arr)`. */
  method DisposeArray<T>(a: array<Option<T>>, trace: Trace<T>)
    modifies a, trace
    ensures forall k :: 0 <= k < a.Length ==> a[k].None?
    ensures trace.events == old(trace.events) + ArrayDisposeEvents(old(a[..]), 0)
  {
    ghost var s := a[..];
    for i := 0 to a.Length
      invariant forall k :: 0 <= k < i ==> a[k].None?
      invariant a[i..] == s[i..]
      invariant trace.events == old(trace.events) + ArrayDisposeEvents(s[..i], 0)
    {
      DisposeAt(i, a, trace);
      ArrayDisposeEventsSnoc(s[..i], s[i], 0);
      assert s[..i + 1] == s[..i] + [s[i]];
    }
    assert s[..a.Length] == s;
  }

  lemma {:induction false} ArrayDisposeEventsSnoc<T>(s: seq<Option<T>>, x: Option<T>, from: int)
    ensures ArrayDisposeEvents(s + [x], from) ==
            ArrayDisposeEvents(s, from) + DisposeEvents(x) + [Written(Element(from + |s|), None)]
  {
    if s == [] {
      assert [x][1..] == [];
    } else {
      assert (s + [x])[1..] == s[1..] + [x];
      ArrayDisposeEventsSnoc(s[1..], x, from + 1);
    }
  }

  /** `DisposeReplace(i, disposeArray, newObject)`: the old entry is disposed
      (if any) before the factory runs; only slot i changes, to the factory's
      result `made`. */
  method DisposeReplaceAt<T>(i: int, a: array<Option<T>>, made: Option<T>, trace: Trace<T>)
    requires 0 <= i < a.Length
    modifies a, trace
    ensures a[..] == old(a[..])[i := made]
    ensures trace.events == old(trace.events) + DisposeEvents(old(a[i])) +
                            [FactoryCalled, Written(Element(i), made)]
  {
    var d := a[i];
    if a[i].Some? {
      DisposeValue(d, trace);
    }
    trace.events := trace.events + [FactoryCalled];
    a[i] := made;
    trace.events := trace.events + [Written(Element(i), made)];
  }
}
