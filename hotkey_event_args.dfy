/** HotKeyEventArgs: the WM_HOTKEY payload, and the key/modifier pair it encodes. */
module HotKeys {

  /** The decoded payload: `Key` and `Modifiers`, both 16-bit values. */
  datatype HotKeyArgs = HotKeyArgs(key: int, modifiers: int)

  /** `HotKeyEventArgs(IntPtr)`: the pointer-sized payload is truncated to
      its low 32 bits (`(uint)hotKeyParam.ToInt64()`); the key is the high
      16 bits of that word (mask 0xffff0000, shift right 16) and the modifiers
      the low 16 bits (mask 0x0000ffff). On a non-negative 32-bit word the
      mask-and-shift is division by 2^16 and the low mask its remainder. */
  function Decode(hotKeyParam: int): (e: HotKeyArgs)
    ensures 0 <= e.key < 0x1_0000 && 0 <= e.modifiers < 0x1_0000
    ensures e.key * 0x1_0000 + e.modifiers == hotKeyParam % 0x1_0000_0000
  {
    var param := hotKeyParam % 0x1_0000_0000;
    HotKeyArgs(param / 0x1_0000, param % 0x1_0000)
  }

  /** The payload Windows builds for a pressed hotkey: `(key << 16) | modifiers`. */
  function Encode(key: int, modifiers: int): int
    requires 0 <= key < 0x1_0000 && 0 <= modifiers < 0x1_0000
  {
    key * 0x1_0000 + modifiers
  }

  /** Decoding what was encoded gives back the same key and modifiers. */
  lemma DecodeEncode(key: int, modifiers: int)
    requires 0 <= key < 0x1_0000 && 0 <= modifiers < 0x1_0000
    ensures Decode(Encode(key, modifiers)) == HotKeyArgs(key, modifiers)
  {
    var e := Decode(Encode(key, modifiers));
    assert e.key * 0x1_0000 + e.modifiers == key * 0x1_0000 + modifiers;
  }

  /** Encoding a decoded payload restores it up to the truncation to 32 bits:
      bits above the low 32 never reach the decoded pair. */
  lemma EncodeDecode(hotKeyParam: int)
    ensures var e := Decode(hotKeyParam); Encode(e.key, e.modifiers) == hotKeyParam % 0x1_0000_0000
  {
  }
}

/** MessageWindow: a hidden window, its registered class, and the blocking
    message pump that serves it. */
module MessageWindows {
  import opened WindowHandles
  import opened Native
  import opened Outcomes
  import opened Subclassing

  /** The owner's window procedure: its answer for a message, `None` meaning
      "not handled" (WndProcNullableRet). */
  type Handler = Message -> Option<int>

  /** The longest class name accepted. */
  const MaxClassNameLength: int := 255

  /** `String.Length`: the number of UTF-16 code units, where a character
      outside the Basic Multilingual Plane takes a surrogate pair. */
  function Utf16Length(s: string): (n: nat)
    ensures |s| <= n <= 2 * |s|
  {
    if s == [] then 0 else (if s[0] as int < 0x1_0000 then 1 else 2) + Utf16Length(s[1..])
  }

  /** A string of Basic Multilingual Plane characters has one code unit per
      character, so its length is the same however it is counted. */
  lemma {:induction false} Utf16LengthOfBmp(s: string)
    requires forall i :: 0 <= i < |s| ==> s[i] as int < 0x1_0000
    ensures Utf16Length(s) == |s|
  {
    if s != [] {
      assert s[0] as int < 0x1_0000;
      Utf16LengthOfBmp(s[1..]);
    }
  }

  /** `_className`: the name with " class " and the fixed unique id 1, so
      the class name is a function of the name alone and two windows share a
      class exactly when they share a name. */
  function ClassName(name: string): (r: string)
    ensures |r| == |name| + 8 && r[..|name|] == name && r[|name|..] == " class 1"
  {
    name + " class 1"
  }

  /** `_windowName`: the name with " wnd " and the fixed unique id 1. */
  function WindowName(name: string): (r: string)
    ensures |r| == |name| + 6 && r[..|name|] == name && r[|name|..] == " wnd 1"
  {
    name + " wnd 1"
  }

  /** Because the unique id is fixed, equal class names mean equal names:
      a second window with the name of a live one asks for a class that is
      already registered. */
  lemma {:induction false} ClassNameDeterminesName(a: string, b: string)
    ensures ClassName(a) == ClassName(b) <==> a == b
  {
    if ClassName(a) == ClassName(b) {
      calc {
        a;
        ClassName(a)[..|a|];
        ClassName(b)[..|b|];
        b;
      }
    }
  }

  /** The checks the constructor makes before any native call pass: a
      non-empty name, a handler, a module instance other than -1 and a class
      name of at most 255 UTF-16 code units. */
  predicate ArgumentsPass(name: Option<string>, handler: Option<Handler>, hInstance: int)
  {
    name.Some? && name.value != [] && handler.Some? && hInstance != -1 &&
    Utf16Length(ClassName(name.value)) <= MaxClassNameLength
  }

  /** User32.WindowClassAtom: a SafeHandle over a class atom, invalid when
      zero or -1; releasing it unregisters the class. */
  class ClassAtom {
    var handle: int
    var closed: bool

    constructor Init(atom: int)
      ensures handle == atom && !closed
    {
      handle := atom;
      closed := false;
    }

    predicate IsInvalid()
      reads this
    {
      handle == 0 || handle == -1
    }

    /** SafeHandle.Dispose for an owned handle: the first call releases a
        valid atom (UnregisterClass); later calls do nothing. */
    method Dispose(env: Desktop)
      requires env.Valid()
      modifies this`closed, env`classes, env`calls
      ensures env.Valid() && closed
      ensures old(closed) || IsInvalid() ==>
                env.classes == old(env.classes) && env.calls == old(env.calls)
      ensures !old(closed) && !IsInvalid() ==>
                env.classes == old(env.classes) - {handle} &&
                env.calls == old(env.calls) + [Call.UnregisterClass(handle)]
    {
      if !closed {
        closed := true;
        if !IsInvalid() {
          var _ := env.UnregisterClass(handle);
        }
      }
    }
  }

  class MessageWindow {
    const name: string
    const className: string
    const windowName: string
    /** `_wndProc`, the owner's handler. */
    const handler: Handler
    var disposed: bool
    /** `_handle`: the owned window; null once disposed. */
    var handle: StrongHwnd?
    /** `_classAtom`: the registered class; null once disposed. */
    var classAtom: ClassAtom?

    constructor Init(name: string, handler: Handler, handle: StrongHwnd, classAtom: ClassAtom)
      ensures this.name == name && className == ClassName(name) && windowName == WindowName(name)
      ensures this.handler == handler && this.handle == handle && this.classAtom == classAtom
      ensures !disposed
    {
      this.name := name;
      className := ClassName(name);
      windowName := WindowName(name);
      this.handler := handler;
      this.handle := handle;
      this.classAtom := classAtom;
      disposed := false;
    }

    /** Until disposed the window owns its handle and its class atom. */
    ghost predicate Valid()
      reads this, handle, if handle != null then {handle.subclass} else {}, classAtom
    {
      !disposed ==> handle != null && classAtom != null && handle.Valid()
    }

    /** The objects Dispose may change. */
    ghost function Repr(): set<object>
      reads this, handle
    {
      {this} +
      (if handle != null then {handle} + (if handle.subclass != null then {handle.subclass} else {})
       else {}) +
      (if classAtom != null then {classAtom} else {})
    }

    /** The constructor, as a factory: `Failure` stands for the exception it
        throws. The arguments are checked before any native call; a failure to
        register the class or create the window aborts construction (and, when
        the window fails, leaves the class registered). `hInstance` is what
        Marshal.GetHINSTANCE returned; `classAccepted` and `windowAccepted` are
        the system's answers to RegisterClassEx and CreateWindowEx. */
    static method Create(name: Option<string>, handler: Option<Handler>, hInstance: int,
                         env: Desktop, me: Thread, classAccepted: bool, windowAccepted: bool)
      returns (r: Result<MessageWindow>)
      requires env.Valid()
      modifies env
      ensures env.Valid() && env.hotKeys == old(env.hotKeys)
      ensures name.None? || name.value == [] || handler.None? ==>
                r == Failure(ArgumentError) && unchanged(env)
      ensures name.Some? && name.value != [] && handler.Some? && hInstance == -1 ==>
                r == Failure(Win32Error) && unchanged(env)
      ensures name.Some? && name.value != [] && handler.Some? && hInstance != -1 &&
              Utf16Length(ClassName(name.value)) > MaxClassNameLength ==>
                r == Failure(ArgumentError) && unchanged(env)
      ensures ArgumentsPass(name, handler, hInstance) ==>
                |env.calls| > |old(env.calls)| &&
                env.calls[|old(env.calls)|] == Call.RegisterClass(ClassName(name.value))
      ensures ArgumentsPass(name, handler, hInstance) &&
              (!classAccepted || ClassName(name.value) in old(env.classes).Values) ==>
                r == Failure(Win32Error) &&
                env.classes == old(env.classes) && env.windows == old(env.windows) &&
                env.chains == old(env.chains) &&
                env.calls == old(env.calls) + [Call.RegisterClass(ClassName(name.value))]
      ensures r.Success? <==>
                ArgumentsPass(name, handler, hInstance) &&
                classAccepted && ClassName(name.value) !in old(env.classes).Values && windowAccepted
      ensures r.Success? ==>
                var w := r.value;
                fresh(w) && fresh(w.handle) && fresh(w.classAtom) && w.Valid() && !w.disposed &&
                w.name == name.value && w.className == ClassName(name.value) &&
                w.windowName == WindowName(name.value) && w.handler == handler.value &&
                w.classAtom.handle !in old(env.classes) &&
                env.classes == old(env.classes)[w.classAtom.handle := w.className] &&
                w.handle.handle !in old(env.windows) &&
                (forall k :: k in env.hotKeys ==> k.0 != w.handle.handle) &&
                env.windows == old(env.windows)[w.handle.handle := me] &&
                env.chains == old(env.chains)[w.handle.handle := [w.handle.subclass.proc]] &&
                env.calls == old(env.calls) +
                  [Call.RegisterClass(w.className), Call.CreateWindow(w.className, w.windowName),
                   Call.SetSubclass(w.handle.handle, w.handle.subclass.proc)]
      ensures ArgumentsPass(name, handler, hInstance) &&
              classAccepted && ClassName(name.value) !in old(env.classes).Values && !windowAccepted ==>
                r == Failure(InvalidOperation) &&
                env.windows == old(env.windows) && env.chains == old(env.chains) &&
                env.calls == old(env.calls) +
                  [Call.RegisterClass(ClassName(name.value)),
                   Call.CreateWindow(ClassName(name.value), WindowName(name.value))] &&
                exists atom :: atom !in old(env.classes) &&
                               env.classes == old(env.classes)[atom := ClassName(name.value)]
    {
      if name.None? || name.value == [] {
        return Failure(ArgumentError);
      }
      if handler.None? {
        return Failure(ArgumentError);
      }
      if hInstance == -1 {
        return Failure(Win32Error);
      }
      var className := ClassName(name.value);
      if Utf16Length(className) > MaxClassNameLength {
        return Failure(ArgumentError);
      }
      var atomValue := env.RegisterClassEx(className, classAccepted);
      var atom := new ClassAtom.Init(atomValue);
      if atom.IsInvalid() {
        return Failure(Win32Error);
      }
      assert env.classes[atomValue] == className;
      ghost var classesAfterRegister := env.classes;
      var created := StrongHwnd.CreateWindowEx(className, WindowName(name.value), env, me, windowAccepted);
      if created.Failure? {
        assert env.classes == classesAfterRegister;
        return Failure(created.error);
      }
      var w := new MessageWindow.Init(name.value, handler.value, created.value, atom);
      // `Handle.IsInvalid`: a window just created still exists.
      r := if env.IsInvalid(Hwnd(w.handle.handle)) then Failure(Win32Error) else Success(w);
    }

    /** `PostMessage`: a no-op when the handle is invalid; otherwise posts the
        message id to the window with wParam and lParam both zero, whatever
        was passed. After Dispose the handle is null and the call fails with
        a null dereference. */
    method PostMessage(message: int, wParam: int, lParam: int, env: Desktop) returns (r: Result<()>)
      modifies env`calls
      ensures handle == null ==> r == Failure(NullReference) && env.calls == old(env.calls)
      ensures handle != null && env.IsInvalid(Hwnd(handle.handle)) ==>
                r == Success(()) && env.calls == old(env.calls)
      ensures handle != null && !env.IsInvalid(Hwnd(handle.handle)) ==>
                r == Success(()) &&
                env.calls == old(env.calls) + [Call.PostMessage(Message(handle.handle, message, 0, 0))]
    {
      if handle == null {
        return Failure(NullReference);
      }
      if env.IsInvalid(Hwnd(handle.handle)) {
        return Success(());
      }
      var ok := env.PostMessage(Message(handle.handle, message, 0, 0));
      r := if ok then Success(()) else Failure(Win32Error);
    }

    /** `Dispose(managed)`: only the first call acts. It posts WM_QUIT to stop
        the pump; when managed it then nulls `_handle` and disposes the old
        window handle (DisposeUtils.Dispose(ref _handle)), and only after that
        nulls and disposes the class atom. */
    method Dispose(managed: bool, env: Desktop, me: Thread)
      requires env.Valid() && Valid()
      modifies Repr(), env`windows, env`chains, env`classes, env`calls
      ensures env.Valid() && Valid() && disposed
      ensures old(disposed) ==>
                handle == old(handle) && classAtom == old(classAtom) &&
                env.windows == old(env.windows) && env.chains == old(env.chains) &&
                env.classes == old(env.classes) && env.calls == old(env.calls)
      ensures !old(disposed) && !managed ==>
                handle == old(handle) && classAtom == old(classAtom) &&
                env.windows == old(env.windows) && env.chains == old(env.chains) &&
                env.classes == old(env.classes) &&
                env.calls == old(env.calls) + QuitPost(old(handle.handle), old(env.windows))
      ensures !old(disposed) && managed ==>
                handle == null && classAtom == null &&
                env.calls == old(env.calls) + old(ManagedDisposeCalls(env, me)) &&
                Released(old(handle), old(classAtom), env, me)
    {
      if !disposed {
        if managed {
          DisposeManaged(env, me);
        } else {
          var _ := PostMessage(WM_QUIT, 0, 0, env);   // StopPump
        }
        disposed := true;
      }
    }

    /** The body of the first managed Dispose: StopPump, then
        `DisposeUtils.Dispose(ref _handle)`, then
        `DisposeUtils.Dispose(ref _classAtom)`. */
    method DisposeManaged(env: Desktop, me: Thread)
      requires env.Valid() && Valid() && !disposed
      modifies this`handle, this`classAtom, handle, handle.subclass, classAtom,
               env`windows, env`chains, env`classes, env`calls
      ensures env.Valid() && handle == null && classAtom == null
      ensures env.calls == old(env.calls) + old(ManagedDisposeCalls(env, me))
      ensures Released(old(handle), old(classAtom), env, me)
    {
      var _ := PostMessage(WM_QUIT, 0, 0, env);   // StopPump
      var h := handle;
      handle := null;
      ReleaseWindow(h, env, me);
      var a := classAtom;
      classAtom := null;
      a.Dispose(env);
    }

    /** The public `Dispose()`: a second call makes no native call. */
    method DisposeAll(env: Desktop, me: Thread)
      requires env.Valid() && Valid()
      modifies Repr(), env`windows, env`chains, env`classes, env`calls
      ensures env.Valid() && Valid() && disposed
      ensures old(disposed) ==>
                env.windows == old(env.windows) && env.chains == old(env.chains) &&
                env.classes == old(env.classes) && env.calls == old(env.calls)
      ensures !old(disposed) ==>
                handle == null && classAtom == null &&
                env.calls == old(env.calls) + old(ManagedDisposeCalls(env, me)) &&
                Released(old(handle), old(classAtom), env, me)
    {
      Dispose(true, env, me);
    }

    /** The native calls the first managed Dispose makes, in order: the
        WM_QUIT post, then the window handle's release, then the class
        atom's. */
    ghost function ManagedDisposeCalls(env: Desktop, me: Thread): seq<Call>
      requires Valid() && !disposed
      reads this, handle, handle.subclass, classAtom, env
    {
      QuitPost(handle.handle, env.windows) +
      WindowReleaseCalls(handle.closed, env.IsInvalid(Hwnd(handle.handle)), handle.subclass.hwnd,
                         handle.subclass.proc, env.OnOwnerThread(handle.subclass.hwnd, me),
                         env.disposeMessage) +
      AtomReleaseCalls(classAtom.closed, classAtom.handle)
    }
  }

  /** What releasing the owned window handle `h` and then the class atom `a`
      on thread `me` leaves behind: both are closed; the window is destroyed
      and its chain dropped exactly when the release detaches its subclass;
      the class is unregistered exactly when the atom was open and valid. */
  twostate predicate Released(h: StrongHwnd, a: ClassAtom, env: Desktop, me: Thread)
    requires old(h.Valid())
    reads h, a, env
  {
    h.closed && a.closed && WindowReleased(h, env, me) &&
    env.classes == (if old(a.closed) || old(a.handle) == 0 || old(a.handle) == -1 then old(env.classes)
                    else old(env.classes) - {old(a.handle)})
  }

  /** Disposing the owned window handle (`DisposeUtils.Dispose(ref _handle)`):
      the SafeHandle closes, and the window is destroyed and its chain dropped
      exactly when the release detaches its subclass; the native calls are
      those of the release. */
  method ReleaseWindow(h: StrongHwnd, env: Desktop, me: Thread)
    requires env.Valid() && h.Valid()
    modifies h`handle, h`closed, h.subclass`hwnd, env`windows, env`chains, env`calls
    ensures env.Valid() && h.Valid() && h.closed
    ensures WindowReleased(h, env, me)
    ensures env.calls == old(env.calls) +
              WindowReleaseCalls(old(h.closed), old(env.IsInvalid(Hwnd(h.handle))), old(h.subclass.hwnd),
                                 old(h.subclass.proc), old(env.OnOwnerThread(h.subclass.hwnd, me)),
                                 env.disposeMessage)
  {
    h.Dispose(env, me);
  }

  /** The window part of `Released`. */
  twostate predicate WindowReleased(h: StrongHwnd, env: Desktop, me: Thread)
    requires old(h.Valid())
    reads h, env
  {
    var raw := old(h.handle);
    var detaches := ReleaseDetaches(old(h.closed), old(env.IsInvalid(Hwnd(h.handle))),
                                    old(h.subclass.hwnd), old(env.OnOwnerThread(h.subclass.hwnd, me)));
    env.windows == (if detaches then old(env.windows) - {raw} else old(env.windows)) &&
    env.chains == (if detaches then RemovedFrom(old(env.chains), raw, old(h.subclass.proc)) - {raw}
                   else old(env.chains))
  }

  /** Releasing an owned window handle detaches its subclass (and so destroys
      the window) when the SafeHandle is open and valid, the subclass is still
      attached and the caller is the window's thread. */
  predicate ReleaseDetaches(closed: bool, invalid: bool, subclassHwnd: HwndRef, onOwnerThread: bool)
  {
    !closed && !invalid && OpNe(subclassHwnd, Null) && onOwnerThread
  }

  /** The native calls disposing an owned window handle makes: none when the
      SafeHandle is already closed or the handle invalid; otherwise those of
      its subclass's Dispose(). */
  function WindowReleaseCalls(closed: bool, invalid: bool, subclassHwnd: HwndRef, proc: int,
                              onOwnerThread: bool, disposeMessage: int): seq<Call>
  {
    if closed || invalid then [] else DisposeCalls(subclassHwnd, proc, true, onOwnerThread, disposeMessage, true)
  }

  /** The native calls disposing the class atom makes: one UnregisterClass,
      unless already closed or invalid. */
  function AtomReleaseCalls(closed: bool, atom: int): seq<Call>
  {
    if closed || atom == 0 || atom == -1 then [] else [Call.UnregisterClass(atom)]
  }

  /** The WM_QUIT post StopPump makes: none when the handle is invalid. */
  function QuitPost(raw: int, windows: map<int, Owner>): seq<Call>
  {
    if raw != 0 && raw !in windows then [] else [Call.PostMessage(Message(raw, WM_QUIT, 0, 0))]
  }

  /** The class window procedure `WndProc`: the two creation messages go
      straight to DefWindowProc; for any other message the handler's answer
      is returned when it has one, and DefWindowProc's otherwise. */
  function WndProc(m: Message, handler: Handler, defWindowProc: Message -> int): (r: int)
    ensures m.msg == WM_CREATE || m.msg == WM_NCCREATE ==> r == defWindowProc(m)
    ensures m.msg != WM_CREATE && m.msg != WM_NCCREATE && handler(m).Some? ==> r == handler(m).value
    ensures m.msg != WM_CREATE && m.msg != WM_NCCREATE && handler(m).None? ==> r == defWindowProc(m)
  {
    if m.msg == WM_CREATE || m.msg == WM_NCCREATE then defWindowProc(m)
    else
      var ret := handler(m);
      if ret.Some? then ret.value else defWindowProc(m)
  }

  /** A window must never reject its own creation: for WM_CREATE and
      WM_NCCREATE the result is the same whatever the handler would answer. */
  lemma CreationIgnoresHandler(m: Message, h1: Handler, h2: Handler, defWindowProc: Message -> int)
    requires m.msg == WM_CREATE || m.msg == WM_NCCREATE
    ensures WndProc(m, h1, defWindowProc) == WndProc(m, h2, defWindowProc)
  {
  }

  /** A handler that never handles anything leaves every message to
      DefWindowProc. */
  lemma SilentHandlerFallsThrough(m: Message, defWindowProc: Message -> int)
    ensures WndProc(m, _ => None, defWindowProc) == defWindowProc(m)
  {
  }

  /** One turn of the pump as seen by `Pump`: GetMessage's return code, the
      message fetched, and what `Handle` is when the loop then checks it
      (with the IsWindow answer for its value). Dispatching runs arbitrary
      window procedures, which may destroy the window, so this is an input. */
  datatype Fetch = Fetch(code: int, msg: Message, handle: HwndRef, isWindow: bool)

  /** Why the pump returned; `InputExhausted` means the modelled input ran
      out while the real loop would still be waiting for a message. */
  datatype PumpEnd = QuitReceived | HandleGone | FetchFailed | InputExhausted

  /** `handle == null || handle.IsInvalid` on what the check sees. */
  predicate HandleGoneAt(f: Fetch)
  {
    OpEq(f.handle, Null) || (f.handle.hwnd.raw != 0 && !f.isWindow)
  }

  /** The fetch is an ordinary message and the window is still usable. */
  predicate Continues(f: Fetch)
  {
    f.code != -1 && f.code != 0 && !HandleGoneAt(f)
  }

  /** The fetch ends the pump for the given reason. */
  predicate StopsWith(f: Fetch, end: PumpEnd)
  {
    match end
    case QuitReceived => f.code == 0
    case FetchFailed => f.code == -1
    case HandleGone => f.code != -1 && f.code != 0 && HandleGoneAt(f)
    case InputExhausted => false
  }

  /** `Pump`: fetches messages until GetMessageSafe reports WM_QUIT (or
      throws), or the window handle is null or invalid after a fetch; every
      other message is translated and dispatched, in order. The message whose
      fetch found the handle gone is not dispatched. */
  method Pump(fetches: seq<Fetch>) returns (dispatched: seq<Message>, end: PumpEnd)
    ensures |dispatched| <= |fetches|
    ensures forall j :: 0 <= j < |dispatched| ==> dispatched[j] == fetches[j].msg && Continues(fetches[j])
    ensures end == InputExhausted <==> |dispatched| == |fetches|
    ensures end != InputExhausted ==> StopsWith(fetches[|dispatched|], end)
  {
    dispatched := [];
    var i := 0;
    while i < |fetches|
      invariant 0 <= i <= |fetches| && |dispatched| == i
      invariant forall j :: 0 <= j < i ==> dispatched[j] == fetches[j].msg && Continues(fetches[j])
    {
      var f := fetches[i];
      var got := GetMessageSafe(f.code);
      if got.FetchError? {
        return dispatched, FetchFailed;
      }
      if !got.notQuit {
        return dispatched, QuitReceived;
      }
      if HandleGoneAt(f) {
        return dispatched, HandleGone;
      }
      // TranslateMessage, then DispatchMessage
      dispatched := dispatched + [f.msg];
      i := i + 1;
    }
    return dispatched, InputExhausted;
  }
}
