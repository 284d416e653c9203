/** OverlayViewModel: the hint-selection screen. Each hint gets a view model
    labelled with its generated label followed by its access key; typing sets
    `MatchString`, which marks active exactly the hints whose label starts
    with the typed text, and when exactly one matches invokes it and closes
    the overlay. Escape closes without invoking. */
module Overlay {

  /** `System.Windows.Rect`, only stored and handed back here. */
  datatype Rect = Rect(x: real, y: real, width: real, height: real)

  /** A `Hint`: the element's access key and bounding rectangle; `element`
      stands for the UI element that `Invoke` acts on. */
  datatype Hint = Hint(element: int, accessKey: string, boundingRectangle: Rect)

  /** `HintSession`: the hints of one window and that window's bounds. */
  datatype HintSession = HintSession(hints: seq<Hint>, owningWindow: int, owningWindowBounds: Rect)

  /** WPF's `Key.Escape`. */
  const KeyEscape: int := 13

  class HintViewModel {
    const hint: Hint
    const text: string
    var active: bool

    constructor (hint: Hint, text: string)
      ensures this.hint == hint && this.text == text && !active
    {
      this.hint := hint;
      this.text := text;
      active := false;
    }
  }

  /** `Hints.Where(x => x.Label.StartsWith(value))`, with an ordinal prefix
      test: the matching view models, in order. */
  function Matching(vms: seq<HintViewModel>, v: string): (r: seq<HintViewModel>)
    ensures |r| <= |vms|
    ensures forall x :: x in r ==> x in vms && v <= x.text
    decreases |vms|
  {
    if vms == [] then []
    else (if v <= vms[0].text then [vms[0]] else []) + Matching(vms[1..], v)
  }

  /** Exactly the view model at index i has a label starting with v. */
  predicate OnlyMatch(vms: seq<HintViewModel>, v: string, i: int)
  {
    0 <= i < |vms| && v <= vms[i].text &&
    forall j :: 0 <= j < |vms| && j != i ==> !(v <= vms[j].text)
  }

  /** A view model is matched iff it is in the list and its label starts
      with v. */
  lemma {:induction false} MatchingMembers(vms: seq<HintViewModel>, v: string, x: HintViewModel)
    ensures x in Matching(vms, v) <==> x in vms && v <= x.text
    decreases |vms|
  {
    if vms != [] {
      MatchingMembers(vms[1..], v, x);
      assert vms == [vms[0]] + vms[1..];
    }
  }

  /** Nothing matches iff no label starts with v. */
  lemma {:induction false} NothingMatches(vms: seq<HintViewModel>, v: string)
    ensures Matching(vms, v) == [] <==> forall i :: 0 <= i < |vms| ==> !(v <= vms[i].text)
    decreases |vms|
  {
    if vms != [] {
      NothingMatches(vms[1..], v);
      assert forall i :: 1 <= i < |vms| ==> vms[i] == vms[1..][i - 1];
    }
  }

  /** Exactly one view model matches iff exactly one index has a label
      starting with v, and then that view model is the match. */
  lemma {:induction false} SingleMatch(vms: seq<HintViewModel>, v: string)
    ensures |Matching(vms, v)| == 1 <==> exists i :: OnlyMatch(vms, v, i)
    ensures forall i :: OnlyMatch(vms, v, i) ==> Matching(vms, v) == [vms[i]]
    decreases |vms|
  {
    if vms != [] {
      var tail := vms[1..];
      SingleMatch(tail, v);
      NothingMatches(tail, v);
      assert forall i :: 1 <= i < |vms| ==> vms[i] == tail[i - 1];
      if v <= vms[0].text {
        if Matching(tail, v) == [] {
          assert OnlyMatch(vms, v, 0);
        } else {
          forall i | OnlyMatch(vms, v, i)
            ensures false
          {
          }
        }
      } else {
        forall i | OnlyMatch(tail, v, i)
          ensures OnlyMatch(vms, v, i + 1)
        {
        }
        forall i | OnlyMatch(vms, v, i)
          ensures OnlyMatch(tail, v, i - 1)
        {
        }
      }
    }
  }

  /** One step of `Matching`: the first view model, if its label starts with
      v, followed by the matches among the rest. */
  lemma MatchingStep(vms: seq<HintViewModel>, v: string)
    requires vms != []
    ensures Matching(vms, v) == (if v <= vms[0].text then [vms[0]] else []) + Matching(vms[1..], v)
  {
  }

  /** The labels "A", "AB" and "B" of the worked examples below. */
  predicate ExampleLabels(vms: seq<HintViewModel>)
  {
    |vms| == 3 && vms[0].text == "A" && vms[1].text == "AB" && vms[2].text == "B"
  }

  /** Typing "A" over the labels "A", "AB" and "B" leaves two candidates. */
  lemma NarrowingFirstKey(vms: seq<HintViewModel>)
    requires ExampleLabels(vms)
    ensures Matching(vms, "A") == [vms[0], vms[1]]
  {
    assert "A" <= "AB" by { assert "AB"[..1] == "A"; }
    assert !("A" <= "B") by { assert "B"[0] != "A"[0]; }
    MatchingStep(vms, "A");
    MatchingStep(vms[1..], "A");
    MatchingStep(vms[1..][1..], "A");
    assert vms[1..][1..][1..] == [];
  }

  /** Typing "AB" next leaves exactly one candidate, the one to invoke. */
  lemma NarrowingSecondKey(vms: seq<HintViewModel>)
    requires ExampleLabels(vms)
    ensures Matching(vms, "AB") == [vms[1]]
  {
    assert !("AB" <= "A");
    assert !("AB" <= "B") by { assert "B"[0] != "AB"[0]; }
    MatchingStep(vms, "AB");
    MatchingStep(vms[1..], "AB");
    MatchingStep(vms[1..][1..], "AB");
    assert vms[1..][1..][1..] == [];
  }

  /** Typing "C" matches none of them. */
  lemma NarrowingNoMatch(vms: seq<HintViewModel>)
    requires ExampleLabels(vms)
    ensures Matching(vms, "C") == []
  {
    assert !("C" <= "A") && !("C" <= "AB") && !("C" <= "B") by {
      assert "A"[0] != "C"[0] && "AB"[0] != "C"[0] && "B"[0] != "C"[0];
    }
    MatchingStep(vms, "C");
    MatchingStep(vms[1..], "C");
    MatchingStep(vms[1..][1..], "C");
    assert vms[1..][1..][1..] == [];
  }

  class OverlayViewModel {
    /** `_bounds`: in logical screen coordinates. */
    var bounds: Rect
    /** `_hints`. */
    var hints: seq<HintViewModel>
    /** Whether `TryClose` has run. */
    var closed: bool
    /** The view models whose hint was invoked, in order. */
    var invoked: seq<HintViewModel>

    /** The invariant the constructor establishes and every operation keeps:
        the view models are distinct objects, one per hint. */
    ghost predicate Valid()
      reads this
    {
      forall i, j :: 0 <= i < j < |hints| ==> hints[i] != hints[j]
    }

    ghost function HintObjects(): set<HintViewModel>
      reads this
    {
      set vm | vm in hints
    }

    /** One view model per generated label, in order, each labelled with
        its text and its hint's access key and initially inactive. Reading
        a hint beyond the session's list would throw, so there are at most as
        many labels as hints. */
    constructor (session: HintSession, labels: seq<string>)
      requires |labels| <= |session.hints|
      ensures Valid() && fresh(HintObjects())
      ensures bounds == session.owningWindowBounds && !closed && invoked == []
      ensures |hints| == |labels|
      ensures forall i :: 0 <= i < |hints| ==>
                hints[i].hint == session.hints[i] &&
                hints[i].text == labels[i] + session.hints[i].accessKey &&
                !hints[i].active
    {
      bounds := session.owningWindowBounds;
      closed := false;
      invoked := [];
      hints := [];
      new;
      for i := 0 to |labels|
        invariant |hints| == i
        invariant bounds == session.owningWindowBounds && !closed && invoked == []
        invariant Valid() && forall k :: 0 <= k < i ==> fresh(hints[k])
        invariant forall k :: 0 <= k < i ==>
                    hints[k].hint == session.hints[k] &&
                    hints[k].text == labels[k] + session.hints[k].accessKey &&
                    !hints[k].active
      {
        var hint := session.hints[i];
        var vm := new HintViewModel(hint, labels[i] + hint.accessKey);
        hints := hints + [vm];
      }
    }

    /** The `MatchString` setter: every flag is reset, the hints whose label
        starts with v become active, and if exactly one does its hint is
        invoked and the overlay closes. */
    method SetMatchString(v: string)
      requires Valid()
      modifies this`closed, this`invoked, HintObjects()
      ensures Valid() && hints == old(hints) && bounds == old(bounds)
      ensures forall i :: 0 <= i < |hints| ==> (hints[i].active <==> v <= hints[i].text)
      ensures |Matching(hints, v)| == 1 ==> invoked == old(invoked) + Matching(hints, v) && closed
      ensures |Matching(hints, v)| != 1 ==> invoked == old(invoked) && closed == old(closed)
    {
      ResetActive();
      var matching := Matching(hints, v);
      forall x | x in matching
        ensures x in HintObjects()
      {
        MatchingMembers(hints, v, x);
      }
      SetActive(matching);
      forall k | 0 <= k < |hints|
        ensures hints[k].active <==> v <= hints[k].text
      {
        MatchingMembers(hints, v, hints[k]);
      }
      if |matching| == 1 {
        invoked := invoked + [matching[0]];   // matching.First().Hint.Invoke()
        closed := true;                         // TryClose()
      }
    }

    /** `Hints.Apply(x => x.Active = false)`. */
    method ResetActive()
      modifies HintObjects()
      ensures forall k :: 0 <= k < |hints| ==> !hints[k].active
    {
      for i := 0 to |hints|
        invariant forall k :: 0 <= k < i ==> !hints[k].active
      {
        hints[i].active := false;
      }
    }

    /** `matching.Apply(x => x.Active = true)`, starting from all flags
        reset: afterwards a hint is active iff it is one of `matching`. */
    method SetActive(matching: seq<HintViewModel>)
      requires forall x :: x in matching ==> x in HintObjects()
      requires forall k :: 0 <= k < |hints| ==> !hints[k].active
      modifies HintObjects()
      ensures forall k :: 0 <= k < |hints| ==> (hints[k].active <==> hints[k] in matching)
    {
      for j := 0 to |matching|
        invariant forall k :: 0 <= k < |hints| ==> (hints[k].active <==> hints[k] in matching[..j])
      {
        assert matching[..j + 1] == matching[..j] + [matching[j]];
        matching[j].active := true;
      }
      assert matching[..|matching|] == matching;
    }

    /** `PreviewKey`: Escape closes the overlay; nothing is invoked and no
        flag changes for any key. */
    method PreviewKey(key: int)
      modifies this`closed
      ensures closed <==> old(closed) || key == KeyEscape
    {
      if key == KeyEscape {
        closed := true;
      }
    }
  }
}
