/** Message interception on a window (User32.WindowSubclass), and the owning
    handle built on it (User32.StrongHWND with its StrongHWNDSubclass).
    A subclass must be attached and detached on the thread that created the
    window; a dispose request from any other thread is forwarded to that
    thread as a registered "dispose" message carrying the subclass's own
    procedure pointer. */
module Subclassing {
  import opened WindowHandles
  import opened Native
  import opened Outcomes

  /** A WindowSubclass. `strong` is non-null exactly when it is the
      StrongHWNDSubclass of a StrongHWND, whose Dispose also destroys the
      window and zeroes the StrongHWND. */
  class WindowSubclass {
    /** `_hwnd`: the hooked window; cleared (null) once detached. */
    var hwnd: HwndRef
    /** `_wndprocPtr`: the native pointer of this subclass's procedure. */
    const proc: int
    /** `_strongHwnd` of a StrongHWNDSubclass; null for a plain subclass. */
    const strong: StrongHwnd?

    /** The StrongHWND this subclass may zero: none for a plain subclass. */
    function Owners(): set<StrongHwnd>
      reads this
    {
      if strong == null then {} else {strong}
    }

    constructor Init(h: Hwnd, proc: int, strong: StrongHwnd?)
      ensures hwnd == Ref(h) && this.proc == proc && this.strong == strong
    {
      hwnd := Ref(h);
      this.proc := proc;
      this.strong := strong;
    }

    /** The constructor: refuses (InvalidOperationException) unless the caller
        is the window's creator; otherwise installs exactly one new subclass
        procedure at the front of the window's chain. */
    static method Attach(h: Hwnd, strong: StrongHwnd?, env: Desktop, me: Thread)
      returns (r: Result<WindowSubclass>)
      requires env.Valid()
      modifies env`nextProc, env`chains, env`calls
      ensures env.Valid()
      ensures r.Failure? <==> !old(env.IsCorrectThread(h, me))
      ensures r.Failure? ==> r.error == InvalidOperation
      ensures r.Failure? ==> env.chains == old(env.chains) && env.calls == old(env.calls)
      ensures r.Success? ==>
                fresh(r.value) && r.value.hwnd == Ref(h) && r.value.strong == strong &&
                r.value.proc !in ChainOf(old(env.chains), h.raw) &&
                env.chains == old(env.chains)[h.raw := [r.value.proc] + ChainOf(old(env.chains), h.raw)] &&
                env.calls == old(env.calls) + [Call.SetSubclass(h.raw, r.value.proc)]
    {
      if !env.IsCorrectThread(h, me) {
        return Failure(InvalidOperation);
      }
      var p := env.NewProc();
      var s := new WindowSubclass.Init(h, p, strong);
      assert p !in ChainOf(env.chains, h.raw);
      env.SetWindowSubclass(h.raw, p);
      return Success(s);
    }

    /** The virtual `Dispose(bool)`: throws unless still attached and on the
        window's thread; otherwise removes the subclass procedure and clears
        `_hwnd`. The StrongHWNDSubclass override then destroys the window and
        zeroes its StrongHWND. `disposing` is not consulted by either. */
    method DisposeCore(disposing: bool, env: Desktop, me: Thread) returns (r: Result<()>)
      requires env.Valid()
      modifies this`hwnd, Owners()`handle, env`windows, env`chains, env`calls
      ensures env.Valid()
      ensures r.Failure? <==> OpEq(old(hwnd), Null) || !old(env.OnOwnerThread(hwnd, me))
      ensures r.Failure? ==> r.error == InvalidOperation && Untouched(env) && env.calls == old(env.calls)
      ensures r.Success? ==> Detached(old(hwnd).hwnd.raw, env)
    {
      if OpEq(hwnd, Null) || !env.IsCorrectThread(hwnd.hwnd, me) {
        return Failure(InvalidOperation);
      }
      var raw := hwnd.hwnd.raw;
      env.RemoveWindowSubclass(raw, proc);
      hwnd := Null;
      if strong != null {
        env.DestroyWindow(raw);
        strong.handle := 0;   // StrongHWND.OnHandleReleased
      }
      return Success(());
    }

    /** Nothing this subclass controls has changed (its window, the chain,
        the live windows, its StrongHWND's value). */
    twostate predicate Untouched(env: Desktop)
      reads this, Owners(), env
    {
      hwnd == old(hwnd) && env.windows == old(env.windows) && env.chains == old(env.chains) &&
      (strong != null ==> strong.handle == old(strong.handle))
    }

    /** What a successful detach from window `raw` leaves behind: `_hwnd`
        cleared and this procedure out of the chain; for a StrongHWNDSubclass
        also the window destroyed and the StrongHWND zeroed. */
    twostate predicate Detached(raw: int, env: Desktop)
      reads this, Owners(), env
    {
      hwnd == Null &&
      if strong == null then
        env.windows == old(env.windows) &&
        env.chains == RemovedFrom(old(env.chains), raw, proc) &&
        env.calls == old(env.calls) + [Call.RemoveSubclass(raw, proc)]
      else
        strong.handle == 0 &&
        env.windows == old(env.windows) - {raw} &&
        env.chains == RemovedFrom(old(env.chains), raw, proc) - {raw} &&
        env.calls == old(env.calls) + [Call.RemoveSubclass(raw, proc), Call.DestroyWindow(raw)]
    }

    /** The effect of `DisposeHelper(disposing)` called on thread `me`. */
    twostate predicate Disposed(disposing: bool, env: Desktop, me: Thread)
      reads this, Owners(), env
    {
      var was := old(hwnd);
      env.calls == old(env.calls) +
                   DisposeCalls(was, proc, strong != null, old(env.OnOwnerThread(was, me)),
                                env.disposeMessage, disposing) &&
      if OpNe(was, Null) && old(env.OnOwnerThread(was, me)) then Detached(was.hwnd.raw, env)
      else Untouched(env)
    }

    /** `DisposeHelper(disposing)`: nothing once `_hwnd` is cleared; on the
        window's thread the subclass detaches at once; on any other thread the
        chain is left alone and the dispose message is sent to the window,
        carrying this subclass's pointer and 1 exactly when `disposing`. */
    method DisposeHelper(disposing: bool, env: Desktop, me: Thread)
      requires env.Valid()
      modifies this`hwnd, Owners()`handle, env`windows, env`chains, env`calls
      ensures env.Valid()
      ensures Disposed(disposing, env, me)
    {
      var h := hwnd;
      if OpNe(h, Null) {
        if env.IsCorrectThread(h.hwnd, me) {
          var _ := DisposeCore(disposing, env, me);
        } else {
          env.SendMessage(Message(h.hwnd.raw, env.disposeMessage, proc, if disposing then 1 else 0));
        }
      }
    }

    /** The public `Dispose()`. */
    method Dispose(env: Desktop, me: Thread)
      requires env.Valid()
      modifies this`hwnd, Owners()`handle, env`windows, env`chains, env`calls
      ensures env.Valid()
      ensures Disposed(true, env, me)
    {
      DisposeHelper(true, env, me);
    }

    /** The subclass procedure `WndProc`, run on the window's thread for every
        intercepted message. The default `WndProcOverride` forwards to the
        rest of the chain, whose answer is `chained`; that answer is returned.
        Afterwards, while still attached, WM_NCDESTROY disposes the subclass,
        and the dispose message disposes it only when its wParam is this
        subclass's own pointer (lParam non-zero meaning `disposing`). */
    method WndProc(m: Message, chained: int, env: Desktop, me: Thread) returns (r: int)
      requires env.Valid()
      modifies this`hwnd, Owners()`handle, env`windows, env`chains, env`calls
      ensures env.Valid()
      ensures r == chained
      ensures OpEq(old(hwnd), Null) ==> Untouched(env) && env.calls == old(env.calls)
      ensures OpNe(old(hwnd), Null) && m.msg == WM_NCDESTROY ==> Disposed(true, env, me)
      ensures (OpNe(old(hwnd), Null) && m.msg != WM_NCDESTROY &&
               m.msg == env.disposeMessage && m.wParam == proc) ==> Disposed(m.lParam != 0, env, me)
      ensures m.msg != WM_NCDESTROY && (m.msg != env.disposeMessage || m.wParam != proc) ==>
                Untouched(env) && env.calls == old(env.calls)
    {
      r := chained;
      if OpNe(hwnd, Ref(Hwnd(0))) {
        if m.msg == WM_NCDESTROY {
          Dispose(env, me);
        } else if m.msg == env.disposeMessage && m.wParam == proc {
          DisposeHelper(m.lParam != 0, env, me);
        }
      }
    }
  }

  /** The native calls `DisposeHelper(disposing)` makes for a subclass whose
      `_hwnd` was `was`: none once cleared; on the owning thread the removal of
      the procedure (and, for a StrongHWNDSubclass, the window's destruction);
      elsewhere the dispose message. */
  function DisposeCalls(was: HwndRef, proc: int, destroys: bool, onOwnerThread: bool,
                        disposeMessage: int, disposing: bool): seq<Call>
  {
    if OpEq(was, Null) then []
    else if onOwnerThread then
      [Call.RemoveSubclass(was.hwnd.raw, proc)] + (if destroys then [Call.DestroyWindow(was.hwnd.raw)] else [])
    else [Call.SendMessage(Message(was.hwnd.raw, disposeMessage, proc, if disposing then 1 else 0))]
  }

  /** The chains after `proc` leaves window `raw`'s chain (RemoveWindowSubclass). */
  function RemovedFrom(chains: map<int, seq<int>>, raw: int, proc: int): (r: map<int, seq<int>>)
    ensures r.Keys == chains.Keys
    ensures raw in chains ==> proc !in r[raw]
  {
    if raw in chains then chains[raw := Without(chains[raw], proc)] else chains
  }

  /** User32.StrongHWND: an HWND that owns its window. */
  class StrongHwnd {
    /** SafeHandle.handle: the window, or zero once released. */
    var handle: int
    /** `_subclass`, the StrongHWNDSubclass the constructor attaches. */
    var subclass: WindowSubclass?
    /** SafeHandle's own closed state: Dispose releases at most once. */
    var closed: bool

    constructor Init(raw: int)
      ensures handle == raw && subclass == null && !closed
    {
      handle := raw;
      subclass := null;
      closed := false;
    }

    /** The invariant the factory establishes: the subclass belongs to this
        handle, and while attached it hooks this very window. */
    ghost predicate Valid()
      reads this, subclass
    {
      subclass != null && subclass.strong == this &&
      (subclass.hwnd.Ref? ==> subclass.hwnd.hwnd.raw == handle)
    }

    /** `StrongHWND.CreateWindowEx`: creates the window and wraps it. The
        constructor attaches a StrongHWNDSubclass to a weak HWND of the same
        value, so a failed creation (handle 0, which has no owning thread)
        surfaces as InvalidOperationException from the subclass check. */
    static method CreateWindowEx(className: string, windowName: string, env: Desktop, me: Thread,
                                 accepted: bool)
      returns (r: Result<StrongHwnd>)
      requires env.Valid()
      modifies env
      ensures env.Valid()
      ensures env.classes == old(env.classes) && env.hotKeys == old(env.hotKeys)
      ensures r.Failure? <==> !accepted || className !in old(env.classes).Values
      ensures r.Failure? ==>
                r.error == InvalidOperation && env.windows == old(env.windows) &&
                env.chains == old(env.chains) &&
                env.calls == old(env.calls) + [Call.CreateWindow(className, windowName)]
      ensures r.Success? ==>
                var s := r.value; var raw := s.handle;
                fresh(s) && fresh(s.subclass) && s.Valid() && !s.closed &&
                s.subclass.hwnd == Ref(Hwnd(raw)) &&
                raw != 0 && raw !in old(env.windows) && env.windows == old(env.windows)[raw := me] &&
                (forall k :: k in env.hotKeys ==> k.0 != raw) &&
                env.chains == old(env.chains)[raw := [s.subclass.proc]] &&
                env.calls == old(env.calls) +
                  [Call.CreateWindow(className, windowName), Call.SetSubclass(raw, s.subclass.proc)]
    {
      var raw := env.CreateWindowEx(className, windowName, me, accepted);
      var s := new StrongHwnd.Init(raw);
      assert raw != 0 ==> env.OwnerOf(raw) == me && ChainOf(env.chains, raw) == [];
      ghost var chains0 := env.chains;
      assert chains0 == old(env.chains);
      var attached := WindowSubclass.Attach(Hwnd(raw), s, env, me);
      if attached.Failure? {
        return Failure(InvalidOperation);
      }
      s.subclass := attached.value;
      assert raw != 0;
      assert ChainOf(old(env.chains), raw) == [];
      assert env.chains == chains0[raw := [attached.value.proc] + ChainOf(chains0, raw)];
      assert s.handle == raw;
      assert [attached.value.proc] + ChainOf(chains0, raw) == [s.subclass.proc];
      return Success(s);
    }

    /** `ReleaseHandle`: disposes the subclass (which, on the window's thread,
        destroys the window and zeroes this handle) and reports success. */
    method ReleaseHandle(env: Desktop, me: Thread) returns (ok: bool)
      requires env.Valid() && Valid()
      modifies this`handle, subclass`hwnd, env`windows, env`chains, env`calls
      ensures env.Valid() && Valid()
      ensures ok && subclass.Disposed(true, env, me)
    {
      subclass.Dispose(env, me);
      return true;
    }

    /** SafeHandle.Dispose, as the .NET runtime runs it for an owned handle:
        only the first call does anything, and it calls ReleaseHandle only
        when the handle is not invalid. */
    method Dispose(env: Desktop, me: Thread)
      requires env.Valid() && Valid()
      modifies this`handle, this`closed, subclass`hwnd, env`windows, env`chains, env`calls
      ensures env.Valid() && Valid() && closed
      ensures old(closed) || old(env.IsInvalid(Hwnd(handle))) ==>
                subclass.Untouched(env) && env.calls == old(env.calls)
      ensures !old(closed) && !old(env.IsInvalid(Hwnd(handle))) ==> subclass.Disposed(true, env, me)
    {
      if !closed {
        closed := true;
        if !env.IsInvalid(Hwnd(handle)) {
          var _ := ReleaseHandle(env, me);
        }
      }
    }
  }

  /** The cross-thread teardown protocol end to end: a dispose requested on a
      thread other than the window's does not touch the chain; once the owning
      thread's procedure receives the message that request sent, the subclass
      is detached exactly once, and nothing further happens on a repeat. */
  method CrossThreadDispose(s: WindowSubclass, env: Desktop, owner: Thread, other: Thread)
    returns (sent: Message)
    requires env.Valid() && s.strong == null
    requires s.hwnd.Ref? && s.hwnd.hwnd.raw in env.windows
    requires env.windows[s.hwnd.hwnd.raw] == owner && other != owner
    modifies s`hwnd, env`windows, env`chains, env`calls
    ensures sent == Message(old(s.hwnd).hwnd.raw, env.disposeMessage, s.proc, 1)
    ensures s.hwnd == Null
    ensures env.chains == RemovedFrom(old(env.chains), sent.hwnd, s.proc)
    ensures env.calls == old(env.calls) +
              [Call.SendMessage(sent), Call.RemoveSubclass(sent.hwnd, s.proc)]
  {
    var raw := s.hwnd.hwnd.raw;
    s.Dispose(env, other);
    sent := Message(raw, env.disposeMessage, s.proc, 1);
    assert env.calls == old(env.calls) + [Call.SendMessage(sent)];
    var _ := s.WndProc(sent, 0, env, owner);
    // A repeated request finds `_hwnd` cleared and does nothing.
    s.Dispose(env, other);
  }
}
