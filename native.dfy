/** The host windowing system, as the core sees it through P/Invoke.
    Every native call the core makes is a method of `Desktop`; each one updates
    the abstract state (live windows and their creators, subclass chains,
    registered window classes, live hotkeys) and appends itself to one ordered
    trace of calls, so that ordering promises can be stated over the trace. */
module Native {
  import opened WindowHandles

  /** A (process id, thread id) pair, as GetWindowThreadProcessId reports it. */
  datatype Owner = Owner(pid: int, tid: int)

  /** The calling thread, passed explicitly: real process and thread ids are
      never zero. */
  type Thread = o: Owner | o.pid != 0 && o.tid != 0 witness Owner(1, 1)

  /** A window message as delivered to a window procedure. */
  datatype Message = Message(hwnd: int, msg: int, wParam: int, lParam: int)

  /** One native call, as recorded in the trace. */
  datatype Call =
    | SetSubclass(hwnd: int, proc: int)
    | RemoveSubclass(hwnd: int, proc: int)
    | DestroyWindow(hwnd: int)
    | SendMessage(m: Message)
    | PostMessage(m: Message)
    | RegisterClass(className: string)
    | UnregisterClass(atom: int)
    | CreateWindow(className: string, windowName: string)
    | RegisterHotKey(hwnd: int, id: int, modifiers: int, key: int)
    | UnregisterHotKey(hwnd: int, id: int)

  /** Window message numbers used by the core (User32.WM). */
  const WM_CREATE: int := 0x0001
  const WM_QUIT: int := 0x0012
  const WM_NCCREATE: int := 0x0081
  const WM_NCDESTROY: int := 0x0082
  const WM_HOTKEY: int := 0x0312

  /** `proc` taken out of a subclass chain (RemoveWindowSubclass). */
  function Without(chain: seq<int>, proc: int): (r: seq<int>)
    ensures forall p :: p in r <==> p in chain && p != proc
    ensures |r| <= |chain|
  {
    if chain == [] then []
    else if chain[0] == proc then Without(chain[1..], proc)
    else [chain[0]] + Without(chain[1..], proc)
  }

  /** The subclass chain of a window, empty when none is installed. */
  function ChainOf(chains: map<int, seq<int>>, hwnd: int): seq<int>
  {
    if hwnd in chains then chains[hwnd] else []
  }

  class Desktop {
    /** Live windows, each with the process and thread that created it. */
    var windows: map<int, Owner>
    /** Installed subclass procedures per live window, most recent first. */
    var chains: map<int, seq<int>>
    /** Registered window classes: atom to class name. */
    var classes: map<int, string>
    /** Live hotkey registrations, as (window, id) pairs. */
    var hotKeys: set<(int, int)>
    /** Every native call made, in order. */
    var calls: seq<Call>
    /** Allocators: handles, subclass procedure pointers and atoms are fresh. */
    var nextHandle: int
    var nextProc: int
    var nextAtom: int
    /** The message id RegisterWindowMessage("WindowSubclass.DisposeMessage")
        returned; registered message ids lie in 0xC000..0xFFFF. */
    const disposeMessage: int

    ghost predicate Valid()
      reads this
    {
      0xC000 <= disposeMessage <= 0xFFFF &&
      0 < nextHandle && 0 < nextProc && 0 < nextAtom &&
      (forall h :: h in windows ==> 0 < h < nextHandle) &&
      (forall h :: h in chains ==> h in windows) &&
      (forall h, p :: h in chains && p in chains[h] ==> 0 < p < nextProc) &&
      (forall a :: a in classes ==> 0 < a < nextAtom) &&
      (forall k :: k in hotKeys ==> k.0 < nextHandle)
    }

    constructor (disposeMessage: int)
      requires 0xC000 <= disposeMessage <= 0xFFFF
      ensures Valid()
      ensures windows == map[] && chains == map[] && classes == map[]
      ensures hotKeys == {} && calls == []
      ensures this.disposeMessage == disposeMessage
    {
      windows, chains, classes, hotKeys, calls := map[], map[], map[], {}, [];
      nextHandle, nextProc, nextAtom := 1, 1, 1;
      this.disposeMessage := disposeMessage;
    }

    /** IsWindow. */
    predicate IsWindow(hwnd: int)
      reads this
    {
      hwnd in windows
    }

    /** `HWND.IsInvalid`: never for the zero handle; otherwise asks, live,
        whether the window still exists. */
    predicate IsInvalid(h: Hwnd)
      reads this
      ensures IsInvalid(h) <==> h.raw != 0 && h.raw !in windows
    {
      h.raw != 0 && !IsWindow(h.raw)
    }

    /** GetWindowThreadProcessId: a handle that names no window reports zero
        for both ids. */
    function OwnerOf(hwnd: int): (o: Owner)
      reads this
      ensures hwnd !in windows ==> o == Owner(0, 0)
    {
      if hwnd in windows then windows[hwnd] else Owner(0, 0)
    }

    /** `WindowSubclass.IsCorrectThread`: the window's creator process and
        thread are both the caller's. */
    predicate IsCorrectThread(h: Hwnd, me: Thread)
      reads this
      ensures IsCorrectThread(h, me) <==> h.raw in windows && windows[h.raw] == me
    {
      var o := OwnerOf(h.raw);
      o.pid == me.pid && o.tid == me.tid
    }

    /** `IsCorrectThread` for a possibly-null `_hwnd`. */
    predicate OnOwnerThread(h: HwndRef, me: Thread)
      reads this
    {
      h.Ref? && IsCorrectThread(h.hwnd, me)
    }

    /** A fresh procedure pointer, as Marshal.GetFunctionPointerForDelegate
        gives for a new delegate. */
    method NewProc() returns (p: int)
      requires Valid()
      modifies this`nextProc
      ensures Valid()
      ensures p == old(nextProc) && nextProc == p + 1
    {
      p := nextProc;
      nextProc := nextProc + 1;
    }

    /** SetWindowSubclass: puts `proc` at the front of the window's chain. */
    method SetWindowSubclass(hwnd: int, proc: int)
      requires Valid() && 0 < proc < nextProc
      modifies this`chains, this`calls
      ensures Valid()
      ensures chains == if hwnd in windows then old(chains)[hwnd := [proc] + ChainOf(old(chains), hwnd)]
                        else old(chains)
      ensures calls == old(calls) + [Call.SetSubclass(hwnd, proc)]
    {
      if hwnd in windows {
        chains := chains[hwnd := [proc] + ChainOf(chains, hwnd)];
      }
      calls := calls + [Call.SetSubclass(hwnd, proc)];
    }

    /** RemoveWindowSubclass: takes `proc` out of the window's chain. */
    method RemoveWindowSubclass(hwnd: int, proc: int)
      requires Valid()
      modifies this`chains, this`calls
      ensures Valid()
      ensures chains == if hwnd in old(chains) then old(chains)[hwnd := Without(old(chains)[hwnd], proc)]
                        else old(chains)
      ensures calls == old(calls) + [Call.RemoveSubclass(hwnd, proc)]
    {
      if hwnd in chains {
        chains := chains[hwnd := Without(chains[hwnd], proc)];
      }
      calls := calls + [Call.RemoveSubclass(hwnd, proc)];
    }

    /** DestroyWindow: the window and its subclass chain are gone. */
    method DestroyWindow(hwnd: int)
      requires Valid()
      modifies this`windows, this`chains, this`calls
      ensures Valid()
      ensures windows == old(windows) - {hwnd} && chains == old(chains) - {hwnd}
      ensures calls == old(calls) + [Call.DestroyWindow(hwnd)]
    {
      windows := windows - {hwnd};
      chains := chains - {hwnd};
      calls := calls + [Call.DestroyWindow(hwnd)];
    }

    /** SendMessage to a window owned by another thread. The message is
        recorded here and handled when the owning thread's window procedure
        is called with it. */
    method SendMessage(m: Message)
      modifies this`calls
      ensures calls == old(calls) + [Call.SendMessage(m)]
    {
      calls := calls + [Call.SendMessage(m)];
    }

    /** PostMessage: succeeds for a live window and for the zero handle (which
        posts to the calling thread's queue). */
    method PostMessage(m: Message) returns (ok: bool)
      modifies this`calls
      ensures ok <==> m.hwnd == 0 || m.hwnd in windows
      ensures calls == old(calls) + [Call.PostMessage(m)]
    {
      ok := m.hwnd == 0 || m.hwnd in windows;
      calls := calls + [Call.PostMessage(m)];
    }

    /** RegisterClassEx: fails (atom 0) when the class name is taken or the
        system refuses (`accepted` false); otherwise gives a fresh atom. */
    method RegisterClassEx(className: string, accepted: bool) returns (atom: int)
      requires Valid()
      modifies this`classes, this`nextAtom, this`calls
      ensures Valid()
      ensures atom >= 0
      ensures atom == 0 <==> !accepted || className in old(classes).Values
      ensures atom == 0 ==> classes == old(classes)
      ensures atom != 0 ==> atom !in old(classes) && classes == old(classes)[atom := className]
      ensures calls == old(calls) + [Call.RegisterClass(className)]
    {
      if !accepted || className in classes.Values {
        atom := 0;
      } else {
        atom := nextAtom;
        nextAtom := nextAtom + 1;
        classes := classes[atom := className];
      }
      calls := calls + [Call.RegisterClass(className)];
    }

    /** UnregisterClass by atom. */
    method UnregisterClass(atom: int) returns (ok: bool)
      requires Valid()
      modifies this`classes, this`calls
      ensures Valid()
      ensures ok <==> atom in old(classes)
      ensures classes == old(classes) - {atom}
      ensures calls == old(calls) + [Call.UnregisterClass(atom)]
    {
      ok := atom in classes;
      classes := classes - {atom};
      calls := calls + [Call.UnregisterClass(atom)];
    }

    /** CreateWindowEx: fails (handle 0) when the class is not registered or
        the system refuses; otherwise a fresh window owned by the caller. */
    method CreateWindowEx(className: string, windowName: string, me: Thread, accepted: bool)
      returns (hwnd: int)
      requires Valid()
      modifies this`windows, this`nextHandle, this`calls
      ensures Valid()
      ensures hwnd == 0 <==> !accepted || className !in classes.Values
      ensures hwnd == 0 ==> windows == old(windows)
      ensures hwnd != 0 ==> hwnd !in old(windows) && windows == old(windows)[hwnd := me]
      ensures hwnd != 0 ==> forall k :: k in hotKeys ==> k.0 != hwnd
      ensures calls == old(calls) + [Call.CreateWindow(className, windowName)]
    {
      if !accepted || className !in classes.Values {
        hwnd := 0;
      } else {
        hwnd := nextHandle;
        nextHandle := nextHandle + 1;
        windows := windows[hwnd := me];
      }
      calls := calls + [Call.CreateWindow(className, windowName)];
    }

    /** RegisterHotKey: fails for a handle that is neither zero (the calling
        thread) nor a live window, and when the system refuses (`accepted`
        false), for instance because another program holds the combination. */
    method RegisterHotKey(hwnd: int, id: int, modifiers: int, key: int, accepted: bool)
      returns (ok: bool)
      requires Valid()
      modifies this`hotKeys, this`calls
      ensures Valid()
      ensures ok <==> accepted && (hwnd == 0 || hwnd in windows)
      ensures hotKeys == if ok then old(hotKeys) + {(hwnd, id)} else old(hotKeys)
      ensures calls == old(calls) + [Call.RegisterHotKey(hwnd, id, modifiers, key)]
    {
      ok := accepted && (hwnd == 0 || hwnd in windows);
      if ok {
        hotKeys := hotKeys + {(hwnd, id)};
      }
      calls := calls + [Call.RegisterHotKey(hwnd, id, modifiers, key)];
    }

    /** UnregisterHotKey: fails when no such registration is live. */
    method UnregisterHotKey(hwnd: int, id: int) returns (ok: bool)
      requires Valid()
      modifies this`hotKeys, this`calls
      ensures Valid()
      ensures ok <==> (hwnd, id) in old(hotKeys)
      ensures hotKeys == old(hotKeys) - {(hwnd, id)}
      ensures calls == old(calls) + [Call.UnregisterHotKey(hwnd, id)]
    {
      ok := (hwnd, id) in hotKeys;
      hotKeys := hotKeys - {(hwnd, id)};
      calls := calls + [Call.UnregisterHotKey(hwnd, id)];
    }
  }

  /** No thread is the correct thread for a handle that names no window
      (in particular the zero handle), since a thread's ids are non-zero. */
  lemma NoThreadOwnsAMissingWindow(env: Desktop, h: Hwnd, me: Thread)
    requires h.raw !in env.windows
    ensures !env.IsCorrectThread(h, me)
  {
  }

  /** `User32.GetMessageSafe`: GetMessage's return code -1 is an error
      (Win32Exception); otherwise the result says whether the message was
      anything but WM_QUIT (GetMessage returns 0 for WM_QUIT). */
  datatype Fetched = FetchError | Fetched(notQuit: bool)

  function GetMessageSafe(code: int): (r: Fetched)
    ensures r.FetchError? <==> code == -1
    ensures r.Fetched? ==> (r.notQuit <==> code != 0)
  {
    if code == -1 then FetchError else Fetched(code != 0)
  }
}
