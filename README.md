# hunt-and-peck native-window layer and hint selection, in Dafny

This project models the parts of hunt-and-peck that carry its invariants. It then proves properties of that model.

- **Window handles** (`User32.HWND`). Equality, `==`/`!=` and hashing are over the raw handle value. For `==`, `!=` and `Equals(HWND)` a null reference behaves like the zero handle. `Equals(object)` differs: its null test uses the overloaded `!=`, so a zero-valued HWND argument is never equal (see Findings). `IsInvalid` is never true for zero; for any other value it asks whether that window still exists.
- **Subclassing** (`WindowSubclass`, `StrongHWND`, `StrongHWNDSubclass`). A subclass may be attached only by the window's creator thread. `DisposeHelper` detaches at once on that thread. From any other thread it sends the registered dispose message, carrying the subclass's own procedure pointer. The subclass procedure disposes on `WM_NCDESTROY`, or on a dispose message carrying its own pointer. A strong handle's subclass also destroys the window and zeroes the handle.
- **Message window** (`HotKeyEventArgs.cs`):
  - the hotkey payload decode;
  - `MessageWindow` construction and its error paths;
  - the idempotent `Dispose` (post `WM_QUIT`, then release the window, then the class atom);
  - `PostMessage`, `WndProc` routing, and the `Pump` loop.
- **`DisposeUtils`**: dispose-and-clear of a variable, a value, an array and an array slot. Every event is recorded in order, so each overload's order of clearing, disposing and calling the factory is part of its contract.
- **`KeyListenerService`**: the hotkey re-registration state machine, activation filtering and teardown.
- **`OverlayViewModel`**: label building, the `MatchString` setter and `PreviewKey`.

The operating system is a class `Native.Desktop`. It holds:
- the live windows with their owning (process, thread) ids;
- each window's subclass chain;
- the registered window classes;
- the live hotkeys;
- one ordered trace of every native call.

Ordering properties are stated over that trace. The calling thread is an explicit `Thread` argument. Whether the system accepts a class, a window or a hotkey is an argument too. Exceptions are `Failure` values of `Outcomes.Result`.

Behaviour that follows the code where a reader might expect otherwise:
- `KeyListenerService` raises its activation event when the decoded key and modifiers equal the stored hotkey. It never looks at the id in wParam.
- When `CreateWindowEx` refuses to create the message window, the `StrongHWND` constructor attaches its subclass to handle 0. Handle 0 has no owning thread, so construction fails with `InvalidOperation` from the thread check. The later `Handle.IsInvalid` test never sees a zero handle, because `IsInvalid` is false for 0.
- `MessageWindow.PostMessage` after the managed `Dispose` dereferences the null `_handle`.
- The `HotKey` setter after the listener's managed `Dispose` dereferences the null `_messageWindow` in `ReRegisterHotkey`. This happens after `_hotKeyId` has already been incremented. A null hotkey fails at the same point, on `_hotKey`.
- The class name always uses the unique id 1. A second message window with the same name is therefore refused at class registration.
- The 255 limit on the class name counts UTF-16 code units, as .NET's `String.Length` does, not characters.

## Model

| member | source | states |
|---|---|---|
| WindowHandles.OpEq | src/NativeMethods/User32.cs:218-232 | `==` holds iff the values the two references stand for are equal, a null reference standing for zero |
| WindowHandles.OpNe | src/NativeMethods/User32.cs:234-237 | `!=` holds iff those values differ, the exact negation of `==` |
| WindowHandles.Equals | src/NativeMethods/User32.cs:201-211 | `Equals(HWND)` holds iff the handle's value equals the argument's, null counting as zero |
| WindowHandles.EqualsObject | src/NativeMethods/User32.cs:188-199 | an object that is not an HWND is never equal; null is equal iff the handle is zero; an HWND argument is equal iff its value is non-zero and equals the handle's, because `other != null` is the overloaded operator |
| WindowHandles.EqualsObjectIntended | src/NativeMethods/User32.cs:188-199 | corrected `Equals(object)`: as above, except that any HWND argument is equal iff its value equals the handle's |
| WindowHandles.HashCode | src/NativeMethods/User32.cs:213-216 | the hash is a signed 32-bit value congruent to the handle value modulo 2^32 |
| WindowHandles.OpEqIsEquivalence | src/NativeMethods/User32.cs:218-232 | `==` is reflexive, symmetric and transitive |
| WindowHandles.NullValuedHandlesAreEqual | src/NativeMethods/User32.cs:220-227 | null, the zero handle and any zero-valued reference are all `==` |
| WindowHandles.EqualsAgreesWithOperator | src/NativeMethods/User32.cs:188-237 | `Equals(HWND)` gives the same answer as `==` for every argument, null included; `Equals(object)` does too, except for a non-null HWND whose value is zero |
| WindowHandles.ZeroHandleIsNotEqualToItself | src/NativeMethods/User32.cs:188-199 | a zero handle is `==` and `Equals(HWND)` to a zero handle and `Equals(object)` to null, yet not `Equals(object)` to a zero handle |
| WindowHandles.IntendedEqualsAgreesWithOperator | src/NativeMethods/User32.cs:188-237 | the corrected `Equals(object)` gives the same answer as `==` for every argument, and every handle equals itself |
| WindowHandles.EqualHandlesHashEqually | src/NativeMethods/User32.cs:188-216 | handles that are `Equals(object)`, as written or as corrected, have equal hash codes |
| Native.Desktop.IsInvalid | src/NativeMethods/User32.cs:176-179 | a handle is invalid iff its value is non-zero and no live window has it |
| Native.Desktop.IsCorrectThread | src/NativeMethods/User32.cs:382-387 | the caller is the correct thread iff a live window has the handle's value and the caller's process and thread created it |
| Native.NoThreadOwnsAMissingWindow | src/NativeMethods/User32.cs:382-387 | no thread passes `IsCorrectThread` for a handle naming no window (zero included) |
| Native.GetMessageSafe | src/NativeMethods/User32.cs:961-970 | return code -1 is an error; otherwise the result is "not quit" iff the code is non-zero |
| Subclassing.WindowSubclass.Attach | src/NativeMethods/User32.cs:326-339 | fails with InvalidOperation, changing nothing, unless the caller's process and thread own the window; otherwise exactly one new procedure, not already in the chain, goes on the front of that window's chain, and exactly one SetWindowSubclass call is made |
| Subclassing.WindowSubclass.DisposeCore | src/NativeMethods/User32.cs:358-366 | fails with InvalidOperation, changing nothing, iff `_hwnd` is null/zero or the caller is not the owning thread; otherwise removes this procedure from the chain and clears `_hwnd`; for a StrongHWNDSubclass it then destroys the window and zeroes the strong handle (lines 296-303) |
| Subclassing.WindowSubclass.DisposeHelper | src/NativeMethods/User32.cs:389-405 | exact native calls and new state: none when `_hwnd` is cleared (idempotent); detach on the owning thread; otherwise the chain is untouched and one SendMessage of the dispose message with wParam = own pointer and lParam = 1 iff disposing |
| Subclassing.WindowSubclass.Dispose | src/NativeMethods/User32.cs:341-345 | the effect of `DisposeHelper(true)` |
| Subclassing.WindowSubclass.WndProc | src/NativeMethods/User32.cs:413-436 | returns the override's (chained) answer; while attached, WM_NCDESTROY disposes, a dispose message with this pointer runs `DisposeHelper(lParam != 0)`, any other message (including a dispose message for another pointer) changes nothing; once detached nothing happens |
| Subclassing.StrongHwnd.CreateWindowEx | src/NativeMethods/User32.cs:252-256 | fails with InvalidOperation iff the window is not created; otherwise a fresh handle to a new window owned by the caller, with exactly its own subclass in the chain, after exactly CreateWindow then SetSubclass |
| Subclassing.StrongHwnd.ReleaseHandle | src/NativeMethods/User32.cs:270-274 | disposes the subclass (detach, destroy the window, zero the handle) and returns true |
| Subclassing.StrongHwnd.Dispose | src/NativeMethods/User32.cs:264-274 | the owned handle is released at most once, and not at all while invalid |
| Subclassing.CrossThreadDispose | src/NativeMethods/User32.cs:389-436 | a dispose requested off the owning thread sends exactly one dispose message and leaves the chain alone; delivering that message on the owner detaches the subclass exactly once; a repeated request does nothing |
| HotKeys.Decode | src/NativeMethods/HotKeyEventArgs.cs:19-24 | key and modifiers are 16-bit and `key * 2^16 + modifiers` is the payload truncated to 32 bits |
| HotKeys.DecodeEncode | src/NativeMethods/HotKeyEventArgs.cs:19-24 | decoding `(key << 16) \| modifiers` gives back the same 16-bit pair |
| HotKeys.EncodeDecode | src/NativeMethods/HotKeyEventArgs.cs:19-24 | re-encoding a decoded payload gives the payload truncated to 32 bits |
| MessageWindows.ClassAtom.Dispose | src/NativeMethods/User32.cs:646-662 | the class is unregistered at most once, and only for an atom that is neither 0 nor -1 |
| MessageWindows.Utf16Length | src/NativeMethods/HotKeyEventArgs.cs:81 | the length .NET reports for a string is at least its number of characters and at most twice that |
| MessageWindows.Utf16LengthOfBmp | src/NativeMethods/HotKeyEventArgs.cs:81 | for characters of the Basic Multilingual Plane the .NET length is the number of characters |
| MessageWindows.ClassName | src/NativeMethods/HotKeyEventArgs.cs:79-80 | the class name is the name followed by " class 1", eight characters longer |
| MessageWindows.WindowName | src/NativeMethods/HotKeyEventArgs.cs:114 | the window name is the name followed by " wnd 1", six characters longer |
| MessageWindows.ClassNameDeterminesName | src/NativeMethods/HotKeyEventArgs.cs:79-80 | two names give the same class name iff they are the same name |
| MessageWindows.MessageWindow.Create | src/NativeMethods/HotKeyEventArgs.cs:57-142 | a null or empty name or a null handler fails with ArgumentError, an hInstance of -1 with Win32Error and a class name over 255 UTF-16 code units with ArgumentError, all before any native call and changing nothing; a refused or already registered class fails with Win32Error after exactly one RegisterClass; a refused window fails with InvalidOperation after exactly RegisterClass and CreateWindow, leaving the class registered and windows and chains unchanged; success iff none of these, with class name `name + " class 1"`, window name `name + " wnd 1"`, a new window owned by the caller whose chain is its own subclass alone, and exactly RegisterClass, CreateWindow, SetSubclass |
| MessageWindows.MessageWindow.PostMessage | src/NativeMethods/HotKeyEventArgs.cs:174-183 | no call when the handle is invalid; otherwise posts the given id with wParam and lParam both 0, ignoring the arguments passed |
| MessageWindows.MessageWindow.Dispose | src/NativeMethods/HotKeyEventArgs.cs:150-167 | later calls change nothing; the first posts WM_QUIT, then (managed only) nulls and releases the window handle, then nulls and releases the class atom, as an exact call trace; unmanaged, windows, chains and classes are unchanged; managed, the window is destroyed and its chain dropped exactly when its subclass detaches, and the class is unregistered exactly when the atom was open and valid |
| MessageWindows.ReleaseWindow | src/NativeMethods/HotKeyEventArgs.cs:160 | releasing the window handle closes it, destroys the window and drops its chain exactly when the subclass detaches, and leaves them otherwise, with the release's exact calls |
| MessageWindows.MessageWindow.DisposeManaged | src/NativeMethods/HotKeyEventArgs.cs:154-160 | posts WM_QUIT, then nulls and releases the window handle, then nulls and releases the class atom, as an exact call trace; the window is destroyed and its chain dropped exactly when its subclass detaches, and the class is unregistered exactly when the atom was open and valid |
| MessageWindows.MessageWindow.DisposeAll | src/NativeMethods/HotKeyEventArgs.cs:144-148 | the first call is the managed Dispose, with its calls and its effect on windows, chains and classes; a repeated call changes nothing |
| MessageWindows.WndProc | src/NativeMethods/HotKeyEventArgs.cs:212-227 | WM_CREATE/WM_NCCREATE go to the default procedure; otherwise the handler's value if any, else the default procedure's |
| MessageWindows.CreationIgnoresHandler | src/NativeMethods/HotKeyEventArgs.cs:214-219 | for the creation messages the result does not depend on the handler |
| MessageWindows.SilentHandlerFallsThrough | src/NativeMethods/HotKeyEventArgs.cs:221-226 | a handler that always answers null leaves every message to the default procedure |
| MessageWindows.Pump | src/NativeMethods/HotKeyEventArgs.cs:185-205 | the dispatched messages are exactly the fetched prefix of ordinary messages with a usable handle, in order; the pump ends at the first quit, fetch error or null/invalid handle, and that message is not dispatched |
| DisposeUtils.DisposeReplace | src/NativeMethods/DisposeUtils.cs:14-23 | the old object (if any) is disposed before the factory runs; the variable then holds the factory's result |
| DisposeUtils.DisposeRef | src/NativeMethods/DisposeUtils.cs:30-40 | nothing for default; otherwise the variable is cleared and only then the old object disposed, once |
| DisposeUtils.DisposeRefTwiceDisposesOnce | src/NativeMethods/DisposeUtils.cs:32-35 | two calls in a row dispose the object exactly once |
| DisposeUtils.DisposeValue | src/NativeMethods/DisposeUtils.cs:47-54 | disposes a non-default object once, nothing otherwise, and writes no variable |
| DisposeUtils.DisposeAt | src/NativeMethods/DisposeUtils.cs:77-85 | the old entry is disposed iff non-default, then slot i becomes default; every other slot is unchanged |
| DisposeUtils.DisposeArray | src/NativeMethods/DisposeUtils.cs:62-68 | every slot ends default, slot by slot in index order, each old entry disposed before its slot is cleared |
| DisposeUtils.ArrayDisposeCount | src/NativeMethods/DisposeUtils.cs:62-68 | the array dispose disposes each object as many times as slots held it (once for distinct entries) |
| DisposeUtils.DisposeReplaceAt | src/NativeMethods/DisposeUtils.cs:94-102 | only slot i changes, to the factory's result, after its old non-default entry is disposed and before the factory runs |
| KeyListener.KeyListenerService.Create | src/hap/Services/KeyListenerService.cs:30-34 | succeeds iff its "MessageWindow" message window is created; it starts unregistered with id 0, no hotkey and no hotkey live on its window; on success its window is new, owned by the caller and subclassed, and "MessageWindow class 1" is registered, after exactly RegisterClass, CreateWindow, SetSubclass; each failure leaves the state that `MessageWindow.Create` leaves for it |
| KeyListener.KeyListenerService.SetHotKey | src/hap/Services/KeyListenerService.cs:97-105 | stores the value and increments the id; with a window and a hotkey, unregisters the old id (if registered) before registering the new one and ends registered even when registration failed; otherwise fails with a null dereference, unregistered, the old id (if it was live) no longer live and no other hotkey touched; only the current id can be live on the window |
| KeyListener.ReRegisterCalls | src/hap/Services/KeyListenerService.cs:80-91 | one step's calls: UnregisterHotKey of the old id first when registered, then always RegisterHotKey of the next id with the hotkey's modifier and key |
| KeyListener.ReRegister | src/hap/Services/KeyListenerService.cs:80-91 | one step moves the id on by one and sets the flag, whatever RegisterHotKey answered |
| KeyListener.RunStateCounts | src/hap/Services/KeyListenerService.cs:80-91 | after n assignments from the initial state the id is n and the flag is set iff n > 0 |
| KeyListener.RunRegistersConsecutiveIds | src/hap/Services/KeyListenerService.cs:80-91 | the ids registered over a run are 1, 2, 3, ... in call order, hence strictly increasing |
| KeyListener.AtMostOneLive | src/hap/Services/KeyListenerService.cs:82-90 | after every prefix of the native calls of any run of assignments at most one id is live |
| KeyListener.RunLeavesLastIdLive | src/hap/Services/KeyListenerService.cs:80-91 | after a run exactly the latest id is live (none for an empty run) |
| KeyListener.KeyListenerService.HandleWindowMessage | src/hap/Services/KeyListenerService.cs:36-50 | always answers null; raises the event exactly once for a WM_HOTKEY matching the stored hotkey, never otherwise; a WM_HOTKEY before any hotkey dereferences null |
| KeyListener.Activates | src/hap/Services/KeyListenerService.cs:38-47 | only a WM_HOTKEY can activate (the full condition is stated by ActivationMatchesEncoding) |
| KeyListener.ActivationIgnoresId | src/hap/Services/KeyListenerService.cs:38-47 | whether a message activates does not depend on wParam (the id) or on the window |
| KeyListener.ActivationMatchesEncoding | src/hap/Services/KeyListenerService.cs:38-47 | a message activates iff it is WM_HOTKEY and its 32-bit payload is the encoding of the stored key and modifiers |
| KeyListener.KeyListenerService.UnregisterCurrent | src/hap/Services/KeyListenerService.cs:65-69 | while registered, exactly one UnregisterHotKey of the live id, which stops being live; afterwards not registered |
| KeyListener.KeyListenerService.Dispose | src/hap/Services/KeyListenerService.cs:63-75 | unregisters the live id iff registered and clears the flag; on the managed path then nulls the message window and runs its first managed Dispose, with exactly those calls after the unregister and its effect on windows, chains and classes; otherwise nothing else changes |
| KeyListener.KeyListenerService.DisposeMessageWindow | src/hap/Services/KeyListenerService.cs:71-74 | the field is null afterwards and the old window has had its first managed Dispose, with exactly its calls and its release of window, chain and class |
| KeyListener.KeyListenerService.DisposeAll | src/hap/Services/KeyListenerService.cs:57-61 | leaves the window null and nothing registered; the first call tears the window down as the managed Dispose does; a repeated call changes nothing |
| Overlay.OverlayViewModel.constructor | src/hap/ViewModels/OverlayViewModel.cs:18-34 | one fresh, distinct view model per label, in order, labelled `labels[i] + hints[i].AccessKey`, all inactive; bounds are the session's window bounds |
| Overlay.OverlayViewModel.SetMatchString | src/hap/ViewModels/OverlayViewModel.cs:65-80 | keeps the view models distinct and unchanged; afterwards a hint is active iff its label starts with the value, whatever the earlier flags; with exactly one match that hint is invoked once and the overlay closes; otherwise nothing is invoked and closing is unchanged |
| Overlay.OverlayViewModel.ResetActive | src/hap/ViewModels/OverlayViewModel.cs:69 | every hint is inactive |
| Overlay.OverlayViewModel.SetActive | src/hap/ViewModels/OverlayViewModel.cs:72 | starting from all inactive, a hint ends active iff it is one of the matches |
| Overlay.Matching | src/hap/ViewModels/OverlayViewModel.cs:71 | the matches are hints whose label starts with the value, no more of them than hints |
| Overlay.MatchingMembers | src/hap/ViewModels/OverlayViewModel.cs:71 | a view model is among the matches iff it is a hint whose label starts with the value |
| Overlay.NothingMatches | src/hap/ViewModels/OverlayViewModel.cs:69-72 | there are no matches iff no label starts with the value (then every hint is inactive) |
| Overlay.SingleMatch | src/hap/ViewModels/OverlayViewModel.cs:74-78 | there is exactly one match iff exactly one hint's label starts with the value, and that hint is the match |
| Overlay.NarrowingFirstKey | src/hap/ViewModels/OverlayViewModel.cs:71 | over labels "A", "AB", "B", typing "A" matches the first two |
| Overlay.NarrowingSecondKey | src/hap/ViewModels/OverlayViewModel.cs:71-78 | over the same labels "AB" matches only the second, the single match that gets invoked |
| Overlay.NarrowingNoMatch | src/hap/ViewModels/OverlayViewModel.cs:71 | over the same labels "C" matches none |
| Overlay.OverlayViewModel.PreviewKey | src/hap/ViewModels/OverlayViewModel.cs:82-88 | Escape closes the overlay; no key invokes anything or changes any flag |

## Findings

| source | as written | input that shows it | evidently intended | confidence | as-written member | corrected member |
|---|---|---|---|---|---|---|
| src/NativeMethods/User32.cs:196-197 | `other != null` calls HWND's overloaded `!=`, which treats a zero handle as null | `HWND.NULL.Equals((object)HWND.NULL)` is false, while `HWND.NULL == HWND.NULL` and `HWND.NULL.Equals(HWND.NULL)` are true | a reference null test, so that `Equals(object)` agrees with `==` and is reflexive | high, not executed | WindowHandles.EqualsObject, WindowHandles.ZeroHandleIsNotEqualToItself | WindowHandles.EqualsObjectIntended, WindowHandles.IntendedEqualsAgreesWithOperator |

## Left out

- Native calls are not executed. `Native.Desktop` stands in for user32; its `accepted` arguments are the system's answers to RegisterClassEx, CreateWindowEx and RegisterHotKey, and `hInstance` is what Marshal.GetHINSTANCE returned.
- RegisterWindowMessage: the dispose message is a fixed per-desktop value in 0xC000..0xFFFF.
- Real threads, blocking: a cross-thread SendMessage is recorded in the trace and its delivery is a later call of the subclass procedure on the owning thread; the model does not block the sender.
- Finalizers and GC.SuppressFinalize: `~WindowSubclass`, `~KeyListenerService` and the finalizer-only `Dispose(false)` paths are reachable as calls but finalization itself is not modelled.
- `WndProcOverride`: only the default, which forwards to the rest of the chain; that answer is an argument.
- TranslateMessage and DispatchMessage: dispatched messages are recorded; what dispatch does to the window is part of each `Fetch` input, and a pump is a finite sequence of fetches where the real one blocks.
- HWND's static handles (DESKTOP, TOP, ...) and `HWND.ReleaseHandle`, which is never called because HWND does not own its handle.
- WNDCLASSEX contents, window styles, position and size.
- Handle values are unbounded integers; `WindowHandles.HashCode` follows the .NET Framework IntPtr hash (low 32 bits).
- `MessageWindows.Utf16Length`: Dafny strings hold Unicode scalar values, so a .NET string with an unpaired surrogate is not modelled.
- `MessageWindows.MessageWindow.Create`: the exception types are grouped into `ArgumentError`, `Win32Error` and `InvalidOperation`.
- DisposeUtils works on reference types: default is null (`None`). A struct `T` whose value equals `default(T)` is not modelled.
- The factory `newObject()` is modelled by its result `made`. A factory that throws is not modelled.
- `DisposeUtils.DisposeAt` and `DisposeUtils.DisposeReplaceAt` require an index in range. An out-of-range index throws in the source; that exception is not modelled.
- A null array (NullReferenceException) cannot arise, because Dafny arrays are never null.
- `KeyListener.KeyListenerService.SetHotKey`: does not model the 32-bit wrap-around of `_hotKeyId` after 2^31 - 1 assignments.
- `KeyListener.KeyListenerService.SetHotKey`: the hotkey is a value. Mutating the `HotKey` object after assigning it is not modelled, and the `(uint)` casts of its 16-bit fields change nothing.
- `KeyListener.KeyListenerService.HandleWindowMessage`: `OnHotKeyActivated` is a count of raises; its subscribers are not modelled.
- The message window's handler as seen by `MessageWindows.WndProc` is the listener's return value, which is always null. The event it raises is `HandleWindowMessage`.
- `Overlay.OverlayViewModel.constructor` requires at most as many labels as hints. With more, the source throws ArgumentOutOfRangeException partway through building the list; that is not modelled.
- Label generation (IHintLabelService) is an input.
- `Overlay.OverlayViewModel.SetMatchString`: the culture-sensitive `StartsWith` is an ordinal prefix test, and a null value (ArgumentNullException) is not modelled.
- `Hint.Invoke` is recorded in an invocation log; its UI Automation effect is not modelled. `TryClose` is a closed flag.
- The `Bounds` and `Hints` setters with their change notifications are not modelled. `Rect` is only stored, as four reals.
- UI Automation hint discovery, the active-window hook and the hint/session interfaces are not part of this model.
