/** KeyListenerService: one global hotkey registered against a private
    message window. Each assignment of `HotKey` unregisters the live id (if
    any), increments the id and registers the new combination under it;
    WM_HOTKEY messages whose decoded key and modifiers equal the stored
    combination raise `OnHotKeyActivated`. */
module KeyListener {
  import opened WindowHandles
  import opened Native
  import opened Outcomes
  import opened Subclassing
  import opened HotKeys
  import opened MessageWindows

  /** A 16-bit key code or modifier set. */
  type Word = x: int | 0 <= x < 0x1_0000

  /** `HotKey`: a modifier set and a key code. */
  datatype HotKey = HotKey(modifier: Word, keys: Word)

  /** What the listener remembers between assignments: `_hotKeyId` and
      `_currentlyRegistered`. */
  datatype Registration = Registration(hotKeyId: int, registered: bool)

  const Unregistered := Registration(0, false)

  /** `ReRegisterHotkey`: the native calls, against window `hwnd`. */
  function ReRegisterCalls(r: Registration, hwnd: int, k: HotKey): (calls: seq<Call>)
    ensures |calls| == if r.registered then 2 else 1
    ensures r.registered ==> calls[0] == Call.UnregisterHotKey(hwnd, r.hotKeyId)
    ensures calls[|calls| - 1] == Call.RegisterHotKey(hwnd, r.hotKeyId + 1, k.modifier, k.keys)
  {
    (if r.registered then [Call.UnregisterHotKey(hwnd, r.hotKeyId)] else []) +
    [Call.RegisterHotKey(hwnd, r.hotKeyId + 1, k.modifier, k.keys)]
  }

  /** `ReRegisterHotkey`: the next registration state. The flag is set
      whatever RegisterHotKey answered. */
  function ReRegister(r: Registration): (next: Registration)
    ensures next.registered && next.hotKeyId == r.hotKeyId + 1
  {
    Registration(r.hotKeyId + 1, true)
  }

  /** The calls made by assigning each of `keys` in turn. */
  function RunCalls(r: Registration, hwnd: int, keys: seq<HotKey>): seq<Call>
    decreases |keys|
  {
    if keys == [] then []
    else ReRegisterCalls(r, hwnd, keys[0]) + RunCalls(ReRegister(r), hwnd, keys[1..])
  }

  /** The registration state after assigning each of `keys` in turn. */
  function RunState(r: Registration, keys: seq<HotKey>): Registration
    decreases |keys|
  {
    if keys == [] then r else RunState(ReRegister(r), keys[1..])
  }

  /** Ids live on `hwnd` after replaying `calls` from `start`, if every
      native call succeeds. */
  function Live(start: set<int>, hwnd: int, calls: seq<Call>): set<int>
    decreases |calls|
  {
    if calls == [] then start
    else
      var before := Live(start, hwnd, calls[..|calls| - 1]);
      match calls[|calls| - 1]
      case RegisterHotKey(h, id, _, _) => if h == hwnd then before + {id} else before
      case UnregisterHotKey(h, id) => if h == hwnd then before - {id} else before
      case _ => before
  }

  /** The ids a registration state holds live. */
  function LiveOf(r: Registration): set<int>
  {
    if r.registered then {r.hotKeyId} else {}
  }

  /** The ids passed to RegisterHotKey on `hwnd`, in call order. */
  function RegisteredIds(hwnd: int, calls: seq<Call>): seq<int>
    decreases |calls|
  {
    if calls == [] then []
    else
      (if calls[0].RegisterHotKey? && calls[0].hwnd == hwnd then [calls[0].id] else []) +
      RegisteredIds(hwnd, calls[1..])
  }

  /** `lo, lo + 1, ..., lo + n - 1`. */
  function Range(lo: int, n: nat): seq<int>
    decreases n
  {
    if n == 0 then [] else [lo] + Range(lo + 1, n - 1)
  }

  lemma {:induction false} LiveAppend(start: set<int>, hwnd: int, a: seq<Call>, b: seq<Call>)
    ensures Live(start, hwnd, a + b) == Live(Live(start, hwnd, a), hwnd, b)
    decreases |b|
  {
    if b == [] {
      assert a + b == a;
    } else {
      var b' := b[..|b| - 1];
      assert (a + b)[..|a + b| - 1] == a + b';
      assert (a + b)[|a + b| - 1] == b[|b| - 1];
      LiveAppend(start, hwnd, a, b');
    }
  }

  /** One re-registration leaves exactly the new id live. */
  lemma ReRegisterLive(r: Registration, hwnd: int, k: HotKey)
    ensures Live(LiveOf(r), hwnd, ReRegisterCalls(r, hwnd, k)) == LiveOf(ReRegister(r))
  {
    var step := ReRegisterCalls(r, hwnd, k);
    if r.registered {
      assert step[..1] == [Call.UnregisterHotKey(hwnd, r.hotKeyId)];
      assert step[..1][..0] == [];
      assert Live(LiveOf(r), hwnd, step[..1]) == {};
    } else {
      assert step[..0] == [];
    }
  }

  /** After n assignments from the initial state the id is n, and a hotkey
      counts as registered iff there was at least one. */
  lemma {:induction false} RunStateCounts(r: Registration, keys: seq<HotKey>)
    ensures RunState(r, keys) == Registration(r.hotKeyId + |keys|, r.registered || |keys| > 0)
    decreases |keys|
  {
    if keys != [] {
      RunStateCounts(ReRegister(r), keys[1..]);
    }
  }

  lemma {:induction false} RegisteredIdsAppend(hwnd: int, a: seq<Call>, b: seq<Call>)
    ensures RegisteredIds(hwnd, a + b) == RegisteredIds(hwnd, a) + RegisteredIds(hwnd, b)
    decreases |a|
  {
    if a == [] {
      assert a + b == b;
    } else {
      assert (a + b)[0] == a[0];
      assert (a + b)[1..] == a[1..] + b;
      RegisteredIdsAppend(hwnd, a[1..], b);
    }
  }

  /** The ids registered by a run of assignments are the consecutive ids
      after the starting one, in order: 1, 2, 3, ... from the initial
      state, hence strictly increasing. */
  lemma {:induction false} RunRegistersConsecutiveIds(r: Registration, hwnd: int, keys: seq<HotKey>)
    ensures RegisteredIds(hwnd, RunCalls(r, hwnd, keys)) == Range(r.hotKeyId + 1, |keys|)
    decreases |keys|
  {
    if keys != [] {
      var step := ReRegisterCalls(r, hwnd, keys[0]);
      RegisteredIdsAppend(hwnd, step, RunCalls(ReRegister(r), hwnd, keys[1..]));
      if r.registered {
        RegisteredIdsAppend(hwnd, [Call.UnregisterHotKey(hwnd, r.hotKeyId)],
                            [Call.RegisterHotKey(hwnd, r.hotKeyId + 1, keys[0].modifier, keys[0].keys)]);
      }
      RunRegistersConsecutiveIds(ReRegister(r), hwnd, keys[1..]);
    }
  }

  /** At no point of a run of assignments are two ids live on the window:
      every prefix of the calls leaves at most one. */
  lemma {:induction false} AtMostOneLive(r: Registration, hwnd: int, keys: seq<HotKey>, n: nat)
    requires n <= |RunCalls(r, hwnd, keys)|
    ensures |Live(LiveOf(r), hwnd, RunCalls(r, hwnd, keys)[..n])| <= 1
    decreases |keys|
  {
    var calls := RunCalls(r, hwnd, keys);
    if keys == [] {
      assert calls[..n] == [];
    } else {
      var step := ReRegisterCalls(r, hwnd, keys[0]);
      var rest := RunCalls(ReRegister(r), hwnd, keys[1..]);
      assert calls == step + rest;
      if n <= |step| {
        assert calls[..n] == step[..n];
        if n == 0 {
          assert step[..0] == [];
        } else if n == |step| {
          assert step[..n] == step;
          ReRegisterLive(r, hwnd, keys[0]);
        } else {
          // registered, and only the UnregisterHotKey of the old id has run
          assert step[..1] == [Call.UnregisterHotKey(hwnd, r.hotKeyId)];
          assert step[..1][..0] == [];
          assert Live(LiveOf(r), hwnd, step[..1]) == {};
        }
      } else {
        assert calls[..n] == step + rest[..n - |step|];
        LiveAppend(LiveOf(r), hwnd, step, rest[..n - |step|]);
        ReRegisterLive(r, hwnd, keys[0]);
        AtMostOneLive(ReRegister(r), hwnd, keys[1..], n - |step|);
      }
    }
  }

  /** After a run of assignments exactly the last id is live. */
  lemma {:induction false} RunLeavesLastIdLive(r: Registration, hwnd: int, keys: seq<HotKey>)
    ensures Live(LiveOf(r), hwnd, RunCalls(r, hwnd, keys)) == LiveOf(RunState(r, keys))
    decreases |keys|
  {
    if keys == [] {
    } else {
      var step := ReRegisterCalls(r, hwnd, keys[0]);
      LiveAppend(LiveOf(r), hwnd, step, RunCalls(ReRegister(r), hwnd, keys[1..]));
      ReRegisterLive(r, hwnd, keys[0]);
      RunLeavesLastIdLive(ReRegister(r), hwnd, keys[1..]);
    }
  }

  /** `HandleWindowMessage` raises `OnHotKeyActivated` for a WM_HOTKEY whose
      decoded key and modifiers are the stored combination. */
  predicate Activates(m: Message, k: HotKey)
    ensures Activates(m, k) ==> m.msg == WM_HOTKEY
  {
    m.msg == WM_HOTKEY && Decode(m.lParam) == HotKeyArgs(k.keys, k.modifier)
  }

  /** The id carried in wParam (and the target window) is never consulted. */
  lemma ActivationIgnoresId(m: Message, wParam: int, hwnd: int, k: HotKey)
    ensures Activates(m, k) <==> Activates(Message(hwnd, m.msg, wParam, m.lParam), k)
  {
  }

  /** A WM_HOTKEY activates exactly when its payload, truncated to 32 bits,
      is the encoding of the stored key and modifiers. */
  lemma ActivationMatchesEncoding(m: Message, k: HotKey)
    ensures Activates(m, k) <==>
            m.msg == WM_HOTKEY && m.lParam % 0x1_0000_0000 == Encode(k.keys, k.modifier)
  {
    EncodeDecode(m.lParam);
    DecodeEncode(k.keys, k.modifier);
  }

  class KeyListenerService {
    /** `_hotKeyId`: the id of the latest registration, 0 before any. */
    var hotKeyId: int
    /** `_currentlyRegistered`. */
    var currentlyRegistered: bool
    /** `_hotKey`: null until first assigned. */
    var hotKey: Option<HotKey>
    /** `_messageWindow`: null once disposed on the managed path. */
    var messageWindow: MessageWindow?
    /** How many times `OnHotKeyActivated` was raised. */
    var activations: nat

    constructor Init(window: MessageWindow)
      ensures messageWindow == window && hotKeyId == 0 && !currentlyRegistered
      ensures hotKey == None && activations == 0
    {
      messageWindow := window;
      hotKeyId := 0;
      currentlyRegistered := false;
      hotKey := None;
      activations := 0;
    }

    function State(): Registration
      reads this
    {
      Registration(hotKeyId, currentlyRegistered)
    }

    /** The objects the message window's Dispose may change. */
    ghost function Repr(): set<object>
      reads this, messageWindow, if messageWindow != null then {messageWindow.handle} else {}
    {
      {this} + if messageWindow != null then messageWindow.Repr() else {}
    }

    /** The message window lives until the managed Dispose; without it no
        hotkey counts as registered. */
    ghost predicate Valid()
      reads this, Repr()
    {
      0 <= hotKeyId &&
      (currentlyRegistered ==> 1 <= hotKeyId) &&
      (messageWindow != null ==>
         !messageWindow.disposed && messageWindow.Valid() && messageWindow.handle != null) &&
      (messageWindow == null ==> !currentlyRegistered)
    }

    /** The raw value of `_messageWindow.Handle`. */
    function Window(): int
      requires messageWindow != null && messageWindow.handle != null
      reads this, messageWindow, messageWindow.handle
    {
      messageWindow.handle.handle
    }

    /** Of the hotkeys on the message window only the current id can be live,
        and only while registered. */
    ghost predicate OwnsHotKeys(env: Desktop)
      requires Valid()
      reads this, Repr(), env
    {
      messageWindow != null ==>
        forall k :: k in env.hotKeys && k.0 == Window() ==> currentlyRegistered && k.1 == hotKeyId
    }

    /** The constructor, as a factory: it creates the message window named
        "MessageWindow" whose handler always returns null; failing to create
        it fails construction. */
    static method Create(hInstance: int, env: Desktop, me: Thread, classAccepted: bool, windowAccepted: bool)
      returns (r: Result<KeyListenerService>)
      requires env.Valid()
      modifies env
      ensures env.Valid() && env.hotKeys == old(env.hotKeys)
      ensures r.Success? <==>
                hInstance != -1 && classAccepted && windowAccepted &&
                ClassName("MessageWindow") !in old(env.classes).Values
      ensures r.Success? ==>
                var s := r.value;
                fresh(s) && fresh(s.Repr() - {s}) && s.Valid() && s.OwnsHotKeys(env) &&
                s.State() == Unregistered && s.hotKey == None && s.activations == 0 &&
                s.messageWindow != null && s.messageWindow.name == "MessageWindow" &&
                (forall m :: s.messageWindow.handler(m) == None)
      ensures r.Success? ==>
                var w := r.value.messageWindow; var hwnd := r.value.Window();
                hwnd !in old(env.windows) && env.windows == old(env.windows)[hwnd := me] &&
                env.chains == old(env.chains)[hwnd := [w.handle.subclass.proc]] &&
                w.classAtom.handle !in old(env.classes) &&
                env.classes == old(env.classes)[w.classAtom.handle := ClassName("MessageWindow")] &&
                env.calls == old(env.calls) +
                  [Call.RegisterClass(ClassName("MessageWindow")),
                   Call.CreateWindow(ClassName("MessageWindow"), WindowName("MessageWindow")),
                   Call.SetSubclass(hwnd, w.handle.subclass.proc)]
      ensures hInstance == -1 ==> r == Failure(Win32Error) && unchanged(env)
      ensures hInstance != -1 && (!classAccepted || ClassName("MessageWindow") in old(env.classes).Values) ==>
                r == Failure(Win32Error) &&
                env.windows == old(env.windows) && env.chains == old(env.chains) &&
                env.classes == old(env.classes) &&
                env.calls == old(env.calls) + [Call.RegisterClass(ClassName("MessageWindow"))]
      ensures hInstance != -1 && classAccepted && ClassName("MessageWindow") !in old(env.classes).Values &&
              !windowAccepted ==>
                r == Failure(InvalidOperation) &&
                env.windows == old(env.windows) && env.chains == old(env.chains) &&
                env.calls == old(env.calls) +
                  [Call.RegisterClass(ClassName("MessageWindow")),
                   Call.CreateWindow(ClassName("MessageWindow"), WindowName("MessageWindow"))] &&
                exists atom :: atom !in old(env.classes) &&
                               env.classes == old(env.classes)[atom := ClassName("MessageWindow")]
    {
      ghost var className := ClassName("MessageWindow");
      assert |className| == 21 && Utf16Length(className) <= MaxClassNameLength;
      var w := MessageWindow.Create(Some("MessageWindow"), Some(_ => None), hInstance, env, me,
                                    classAccepted, windowAccepted);
      assert w.Success? <==>
               hInstance != -1 && classAccepted && windowAccepted && className !in old(env.classes).Values;
      if w.Failure? {
        return Failure(w.error);
      }
      var mw := w.value;
      assert mw.Valid() && !mw.disposed && mw.handle != null && fresh(mw.Repr());
      assert forall k :: k in env.hotKeys ==> k.0 != mw.handle.handle;
      var s := new KeyListenerService.Init(mw);
      return Success(s);
    }

    /** The `HotKey` setter: stores the value, then `ReRegisterHotkey`. After
        the managed Dispose, or for a null value, the RegisterHotKey call
        dereferences null: the id has already moved on and nothing is
        registered. `accepted` is the system's answer to RegisterHotKey. */
    method SetHotKey(value: Option<HotKey>, env: Desktop, accepted: bool) returns (r: Result<()>)
      requires env.Valid() && Valid() && OwnsHotKeys(env)
      modifies this`hotKey, this`hotKeyId, this`currentlyRegistered, env`hotKeys, env`calls
      ensures env.Valid() && Valid() && OwnsHotKeys(env)
      ensures hotKey == value && hotKeyId == old(hotKeyId) + 1
      ensures r.Success? <==> old(messageWindow) != null && value.Some?
      ensures r.Success? ==>
                State() == ReRegister(old(State())) &&
                env.calls == old(env.calls) + ReRegisterCalls(old(State()), Window(), value.value) &&
                env.hotKeys == (old(env.hotKeys) - {(Window(), old(hotKeyId))}) +
                               (if accepted && (Window() == 0 || Window() in env.windows)
                                then {(Window(), hotKeyId)} else {})
      ensures r.Failure? ==>
                r.error == NullReference && !currentlyRegistered &&
                (old(currentlyRegistered) ==>
                   env.calls == old(env.calls) + [Call.UnregisterHotKey(Window(), old(hotKeyId))] &&
                   env.hotKeys == old(env.hotKeys) - {(Window(), old(hotKeyId))}) &&
                (!old(currentlyRegistered) ==> env.calls == old(env.calls) && env.hotKeys == old(env.hotKeys))
    {
      hotKey := value;
      UnregisterCurrent(env);
      hotKeyId := hotKeyId + 1;
      if messageWindow == null || value.None? {
        return Failure(NullReference);
      }
      var _ := env.RegisterHotKey(Window(), hotKeyId, value.value.modifier, value.value.keys, accepted);
      currentlyRegistered := true;
      r := Success(());
    }

    /** `HandleWindowMessage`: raises the activation event for a matching
        WM_HOTKEY and always answers null, so every message goes on to the
        default window procedure. A WM_HOTKEY before any hotkey was assigned
        dereferences the null `_hotKey`. */
    method HandleWindowMessage(m: Message) returns (r: Result<Option<int>>)
      modifies this`activations
      ensures m.msg == WM_HOTKEY && hotKey.None? ==>
                r == Failure(NullReference) && activations == old(activations)
      ensures m.msg != WM_HOTKEY || hotKey.Some? ==>
                r == Success(None) &&
                activations == old(activations) + if hotKey.Some? && Activates(m, hotKey.value) then 1 else 0
    {
      if m.msg == WM_HOTKEY {
        var e := Decode(m.lParam);
        if hotKey.None? {
          return Failure(NullReference);
        }
        if e.key == hotKey.value.keys && e.modifiers == hotKey.value.modifier {
          activations := activations + 1;
        }
      }
      r := Success(None);
    }

    /** The step `Dispose` and `ReRegisterHotkey` share: while registered,
        the live id is unregistered from the message window. */
    method UnregisterCurrent(env: Desktop)
      requires env.Valid() && Valid() && OwnsHotKeys(env)
      modifies this`currentlyRegistered, env`hotKeys, env`calls
      ensures env.Valid() && Valid() && OwnsHotKeys(env) && !currentlyRegistered
      ensures env.hotKeys == if old(currentlyRegistered) then old(env.hotKeys) - {(Window(), hotKeyId)}
                             else old(env.hotKeys)
      ensures env.calls == old(env.calls) +
                UnregisterCalls(old(State()), if messageWindow != null then Window() else 0)
    {
      if currentlyRegistered {
        var _ := env.UnregisterHotKey(Window(), hotKeyId);
        currentlyRegistered := false;
      }
    }

    /** `Dispose(managed)`: unregisters the live id if registered; on the
        managed path then nulls `_messageWindow` and disposes the old window
        (DisposeUtils.Dispose(ref _messageWindow)). */
    method Dispose(managed: bool, env: Desktop, me: Thread)
      requires env.Valid() && Valid() && OwnsHotKeys(env)
      modifies Repr(), env`hotKeys, env`windows, env`chains, env`classes, env`calls
      ensures env.Valid() && Valid() && OwnsHotKeys(env)
      ensures !currentlyRegistered && hotKeyId == old(hotKeyId) && hotKey == old(hotKey)
      ensures env.hotKeys == if old(currentlyRegistered) then old(env.hotKeys) - {old((Window(), hotKeyId))}
                             else old(env.hotKeys)
      ensures old(env.calls) + UnregisterCalls(old(State()), old(if messageWindow != null then Window() else 0))
              <= env.calls
      ensures managed ==> messageWindow == null
      ensures managed && old(messageWindow) != null ==>
                old(messageWindow).disposed &&
                env.calls == old(env.calls) + UnregisterCalls(old(State()), old(Window())) +
                  old(messageWindow.ManagedDisposeCalls(env, me)) &&
                Released(old(messageWindow.handle), old(messageWindow.classAtom), env, me)
      ensures !managed || old(messageWindow) == null ==>
                messageWindow == old(messageWindow) &&
                env.windows == old(env.windows) && env.chains == old(env.chains) &&
                env.classes == old(env.classes) &&
                env.calls == old(env.calls) +
                  UnregisterCalls(old(State()), old(if messageWindow != null then Window() else 0))
    {
      UnregisterCurrent(env);
      if managed && messageWindow != null {
        var d := messageWindow;
        label unregistered:
        DisposeMessageWindow(env, me);
        assert Released@unregistered(old@unregistered(d.handle), old@unregistered(d.classAtom), env, me);
      }
    }

    /** `DisposeUtils.Dispose(ref _messageWindow)`: the field is nulled and
        the old window gets its first managed Dispose. */
    method DisposeMessageWindow(env: Desktop, me: Thread)
      requires env.Valid() && Valid() && messageWindow != null
      modifies this`messageWindow, messageWindow.Repr(), env`windows, env`chains, env`classes, env`calls
      ensures env.Valid() && messageWindow == null && old(messageWindow).disposed
      ensures env.calls == old(env.calls) + old(messageWindow.ManagedDisposeCalls(env, me))
      ensures Released(old(messageWindow.handle), old(messageWindow.classAtom), env, me)
    {
      var d := messageWindow;
      messageWindow := null;
      d.DisposeAll(env, me);
    }

    /** The public `Dispose()`. */
    method DisposeAll(env: Desktop, me: Thread)
      requires env.Valid() && Valid() && OwnsHotKeys(env)
      modifies Repr(), env`hotKeys, env`windows, env`chains, env`classes, env`calls
      ensures env.Valid() && Valid() && OwnsHotKeys(env)
      ensures !currentlyRegistered && messageWindow == null
      ensures old(messageWindow) == null ==>
                env.windows == old(env.windows) && env.chains == old(env.chains) &&
                env.classes == old(env.classes) && env.calls == old(env.calls)
      ensures old(messageWindow) != null ==>
                env.calls == old(env.calls) + UnregisterCalls(old(State()), old(Window())) +
                  old(messageWindow.ManagedDisposeCalls(env, me)) &&
                Released(old(messageWindow.handle), old(messageWindow.classAtom), env, me)
    {
      Dispose(true, env, me);
    }
  }

  /** The teardown's UnregisterHotKey, made only while registered. */
  function UnregisterCalls(r: Registration, hwnd: int): seq<Call>
  {
    if r.registered then [Call.UnregisterHotKey(hwnd, r.hotKeyId)] else []
  }
}
