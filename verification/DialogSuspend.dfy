/** Dialogs that step aside while the wallet connector popup is visible, and the count of open overlays. */
module DialogSuspend {
  import opened Wrappers

  /** A dialog; `prop` is the `open` property of a controlled one. An unmounted dialog keeps its place in the list. */
  datatype Dialog = Dialog(
    prop: Option<bool>, uncontrolledOpen: bool, suspendedOpen: Option<bool>, pushed: bool, mounted: bool)
  {
    predicate ActualOpen() {
      if prop.Some? then prop.value else uncontrolledOpen
    }

    /** What the underlying dialog is told. */
    predicate EffectiveOpen(connectorOpen: bool) {
      !connectorOpen && ActualOpen()
    }

    /** Opening or closing: a controlled dialog asks its parent, which follows. */
    function Set(next: bool): Dialog {
      if prop.Some? then this.(prop := Some(next)) else this.(uncontrolledOpen := next)
    }
  }

  datatype Ui = Ui(connectorVisible: bool, dialogs: seq<Dialog>, overlayCount: int)

  datatype Event =
    | Popup(present: bool)                           // the document changed; the popup is in it or not
    | Request(dialog: nat, open: bool)               // the user opens or closes a dialog
    | ParentSets(dialog: nat, open: bool)            // the parent of a controlled dialog changes `open`
    | ContentFocus(dialog: nat, open: bool)          // the content's open or close animation starts
    | Mount(prop: Option<bool>, defaultOpen: bool)
    | Unmount(dialog: nat)                           // the dialog leaves; its content may still report its close

  // ---------------------------------------------------------------------------
  // Specification of the steps.
  // ---------------------------------------------------------------------------

  /** The effect after a change: remember at the popup's appearance, restore at its end. */
  function Effect(d: Dialog, connectorOpen: bool): Dialog {
    if !d.mounted then d
    else if connectorOpen && d.suspendedOpen.None? then d.(suspendedOpen := Some(d.ActualOpen()))
    else if !connectorOpen && d.suspendedOpen.Some? then
      var back := d.(suspendedOpen := None);
      if d.suspendedOpen.value && !d.ActualOpen() then back.Set(true) else back
    else d
  }

  predicate IsMounted(ui: Ui, i: nat) {
    i < |ui.dialogs| && ui.dialogs[i].mounted
  }

  function Step(ui: Ui, e: Event): Ui {
    match e
    case Popup(present) =>
      if present == ui.connectorVisible then ui
      else ui.(connectorVisible := present,
               dialogs := seq(|ui.dialogs|, i requires 0 <= i < |ui.dialogs| => Effect(ui.dialogs[i], present)))
    case Request(i, open) =>
      if IsMounted(ui, i) && !ui.connectorVisible
      then ui.(dialogs := ui.dialogs[i := Effect(ui.dialogs[i].Set(open), ui.connectorVisible)]) else ui
    case ParentSets(i, open) =>
      if IsMounted(ui, i) && ui.dialogs[i].prop.Some?
      then ui.(dialogs := ui.dialogs[i := Effect(ui.dialogs[i].Set(open), ui.connectorVisible)]) else ui
    case ContentFocus(i, open) =>
      if i < |ui.dialogs| && open != ui.dialogs[i].pushed
      then ui.(dialogs := ui.dialogs[i := ui.dialogs[i].(pushed := open)],
               overlayCount := if open then ui.overlayCount + 1
                               else if ui.overlayCount < 1 then 0 else ui.overlayCount - 1)
      else ui
    case Mount(prop, defaultOpen) =>
      ui.(dialogs := ui.dialogs + [Effect(Dialog(prop, defaultOpen, None, false, true), ui.connectorVisible)])
    case Unmount(i) =>
      if IsMounted(ui, i) then ui.(dialogs := ui.dialogs[i := ui.dialogs[i].(mounted := false)]) else ui
  }

  function Steps(ui: Ui, es: seq<Event>): Ui {
    if es == [] then ui else Step(Steps(ui, es[..|es| - 1]), es[|es| - 1])
  }

  const START := Ui(false, [], 0)

  // ---------------------------------------------------------------------------
  // What every step keeps.
  // ---------------------------------------------------------------------------

  function Pushed(ds: seq<Dialog>): nat {
    if ds == [] then 0 else Pushed(ds[..|ds| - 1]) + if ds[|ds| - 1].pushed then 1 else 0
  }

  ghost predicate Inv(ui: Ui) {
    && (forall i :: 0 <= i < |ui.dialogs| && ui.dialogs[i].mounted ==>
          (ui.dialogs[i].suspendedOpen.Some? <==> ui.connectorVisible))
    && ui.overlayCount == Pushed(ui.dialogs)
  }

  lemma {:induction false} PushedUpdate(ds: seq<Dialog>, i: nat, d: Dialog)
    requires i < |ds|
    ensures Pushed(ds[i := d]) == Pushed(ds) - (if ds[i].pushed then 1 else 0) + (if d.pushed then 1 else 0)
    decreases |ds|
  {
    var n := |ds| - 1;
    if i < n {
      PushedUpdate(ds[..n], i, d);
      assert ds[i := d][..n] == ds[..n][i := d];
    } else {
      assert ds[i := d][..n] == ds[..n];
    }
  }

  lemma {:induction false} PushedSame(ds: seq<Dialog>, es: seq<Dialog>)
    requires |ds| == |es| && forall i :: 0 <= i < |ds| ==> ds[i].pushed == es[i].pushed
    ensures Pushed(ds) == Pushed(es)
  {
    if ds != [] {
      PushedSame(ds[..|ds| - 1], es[..|es| - 1]);
    }
  }

  lemma ReplaceKeepsInv(ui: Ui, i: nat, d: Dialog, count: int)
    requires Inv(ui) && i < |ui.dialogs| && (d.mounted ==> (d.suspendedOpen.Some? <==> ui.connectorVisible))
    requires count == ui.overlayCount - (if ui.dialogs[i].pushed then 1 else 0) + (if d.pushed then 1 else 0)
    ensures Inv(ui.(dialogs := ui.dialogs[i := d], overlayCount := count))
    ensures ui.dialogs[i].pushed ==> 1 <= ui.overlayCount
  {
    PushedUpdate(ui.dialogs, i, d);
    PushedUpdate(ui.dialogs, i, ui.dialogs[i].(pushed := false));
  }

  lemma PopupKeepsInv(ui: Ui, present: bool)
    requires Inv(ui)
    ensures Inv(Step(ui, Popup(present)))
  {
    PushedSame(ui.dialogs, Step(ui, Popup(present)).dialogs);
  }

  /** Setting a dialog outside the popup, or a controlled one at any time, keeps its saved state and its overlay. */
  lemma SetKeepsInv(ui: Ui, i: nat, open: bool)
    requires Inv(ui) && IsMounted(ui, i)
    ensures Inv(ui.(dialogs := ui.dialogs[i := Effect(ui.dialogs[i].Set(open), ui.connectorVisible)]))
  {
    ReplaceKeepsInv(ui, i, Effect(ui.dialogs[i].Set(open), ui.connectorVisible), ui.overlayCount);
  }

  lemma FocusKeepsInv(ui: Ui, i: nat, open: bool)
    requires Inv(ui)
    ensures Inv(Step(ui, ContentFocus(i, open)))
  {
    if i < |ui.dialogs| && open != ui.dialogs[i].pushed {
      ReplaceKeepsInv(ui, i, ui.dialogs[i].(pushed := open), ui.overlayCount + if open then 1 else -1);
    }
  }

  lemma MountKeepsInv(ui: Ui, prop: Option<bool>, defaultOpen: bool)
    requires Inv(ui)
    ensures Inv(Step(ui, Mount(prop, defaultOpen)))
  {
    assert Step(ui, Mount(prop, defaultOpen)).dialogs[..|ui.dialogs|] == ui.dialogs;
  }

  lemma UnmountKeepsInv(ui: Ui, i: nat)
    requires Inv(ui)
    ensures Inv(Step(ui, Unmount(i)))
  {
    if IsMounted(ui, i) {
      ReplaceKeepsInv(ui, i, ui.dialogs[i].(mounted := false), ui.overlayCount);
    }
  }

  lemma StepKeepsInv(ui: Ui, e: Event)
    requires Inv(ui)
    ensures Inv(Step(ui, e))
  {
    match e
    case Popup(present) => PopupKeepsInv(ui, present);
    case Request(i, open) =>
      if IsMounted(ui, i) { SetKeepsInv(ui, i, open); }
    case ParentSets(i, open) =>
      if IsMounted(ui, i) { SetKeepsInv(ui, i, open); }
    case ContentFocus(i, open) => FocusKeepsInv(ui, i, open);
    case Mount(prop, defaultOpen) => MountKeepsInv(ui, prop, defaultOpen);
    case Unmount(i) => UnmountKeepsInv(ui, i);
  }

  // ---------------------------------------------------------------------------
  // The component code.
  // ---------------------------------------------------------------------------

  class Application {
    var connectorVisible: bool
    var dialogs: seq<Dialog>
    var overlayCount: int

    ghost predicate Valid()
      reads this
    {
      Inv(State())
    }

    constructor ()
      ensures Valid() && State() == START
    {
      connectorVisible, dialogs, overlayCount := false, [], 0;
    }

    function State(): Ui
      reads this
    {
      Ui(connectorVisible, dialogs, overlayCount)
    }

    /** The observer's check: on a change, tell every listener. */
    method Check(visible: bool)
      requires Valid()
      modifies this
      ensures State() == Step(old(State()), Popup(visible))
      ensures Valid()
      // no dialog is shown during the popup, and showing it opens and closes none by itself
      ensures connectorVisible == visible && |dialogs| == |old(dialogs)|
      ensures visible ==> forall j :: 0 <= j < |dialogs| ==>
                            !dialogs[j].EffectiveOpen(true) && dialogs[j].ActualOpen() == old(dialogs)[j].ActualOpen()
    {
      StepKeepsInv(State(), Popup(visible));
      if visible == connectorVisible {
        return;
      }
      connectorVisible := visible;
      for i := 0 to |dialogs|
        invariant connectorVisible == visible && overlayCount == old(overlayCount)
        invariant |dialogs| == |old(dialogs)|
        invariant forall j :: 0 <= j < i ==> dialogs[j] == Effect(old(dialogs)[j], visible)
        invariant forall j :: i <= j < |dialogs| ==> dialogs[j] == old(dialogs)[j]
      {
        RunEffect(i);
      }
    }

    method RunEffect(i: nat)
      requires i < |dialogs|
      modifies `dialogs
      ensures dialogs == old(dialogs)[i := Effect(old(dialogs)[i], connectorVisible)]
    {
      var d := dialogs[i];
      if !d.mounted {
        return;
      }
      if connectorVisible && d.suspendedOpen == None {
        dialogs := dialogs[i := d.(suspendedOpen := Some(d.ActualOpen()))];
      } else if !connectorVisible && d.suspendedOpen != None {
        var restore := d.suspendedOpen.value;
        dialogs := dialogs[i := d.(suspendedOpen := None)];
        if restore && !d.ActualOpen() {
          dialogs := dialogs[i := dialogs[i].Set(true)];
        }
      }
    }

    /** The user's request. Outside the popup it takes effect at once; during it nothing changes. */
    method HandleOpenChange(i: nat, next: bool)
      requires Valid()
      modifies this
      ensures State() == Step(old(State()), Request(i, next))
      ensures Valid()
      ensures connectorVisible ==> State() == old(State())
      ensures |dialogs| == |old(dialogs)| && overlayCount == old(overlayCount)
      ensures i < |dialogs| && dialogs[i].mounted && !connectorVisible ==>
                dialogs[i].EffectiveOpen(connectorVisible) == next
      ensures forall j :: 0 <= j < |dialogs| && j != i ==> dialogs[j] == old(dialogs)[j]
    {
      StepKeepsInv(State(), Request(i, next));
      if connectorVisible || i >= |dialogs| || !dialogs[i].mounted {
        return;
      }
      dialogs := dialogs[i := dialogs[i].Set(next)];
      RunEffect(i);
    }

    /** The content's `handleStateChange`, with `pushOverlay` and `popOverlay` of the store. */
    method HandleStateChange(i: nat, open: bool)
      requires Valid()
      modifies this
      ensures State() == Step(old(State()), ContentFocus(i, open))
      ensures Valid()
      // the count stays the number of dialogs with an overlay, and so it is never negative
      ensures overlayCount == Pushed(dialogs)
      ensures |dialogs| == |old(dialogs)| && connectorVisible == old(connectorVisible)
      ensures i < |dialogs| ==> dialogs[i].pushed == open
                                && dialogs[i].ActualOpen() == old(dialogs)[i].ActualOpen()
      ensures forall j :: 0 <= j < |dialogs| && j != i ==> dialogs[j] == old(dialogs)[j]
      // telling the same twice counts once
      ensures i < |dialogs| && old(dialogs)[i].pushed == open ==> State() == old(State())
    {
      StepKeepsInv(State(), ContentFocus(i, open));
      if i >= |dialogs| {
        return;
      }
      if open && !dialogs[i].pushed {
        dialogs := dialogs[i := dialogs[i].(pushed := true)];
        overlayCount := overlayCount + 1;
      } else if !open && dialogs[i].pushed {
        dialogs := dialogs[i := dialogs[i].(pushed := false)];
        overlayCount := if overlayCount - 1 < 0 then 0 else overlayCount - 1;
      }
    }

    method SetOpenProperty(i: nat, open: bool)
      requires Valid()
      modifies this
      ensures State() == Step(old(State()), ParentSets(i, open))
      ensures Valid()
    {
      StepKeepsInv(State(), ParentSets(i, open));
      if i < |dialogs| && dialogs[i].mounted && dialogs[i].prop.Some? {
        dialogs := dialogs[i := dialogs[i].Set(open)];
        RunEffect(i);
      }
    }

    method MountDialog(prop: Option<bool>, defaultOpen: bool)
      requires Valid()
      modifies this
      ensures State() == Step(old(State()), Mount(prop, defaultOpen))
      ensures Valid()
    {
      StepKeepsInv(State(), Mount(prop, defaultOpen));
      dialogs := dialogs + [Dialog(prop, defaultOpen, None, false, true)];
      RunEffect(|dialogs| - 1);
    }

    /** The component goes away: its listener and its saved state with it, but not its overlay. */
    method UnmountDialog(i: nat)
      requires Valid()
      modifies this
      ensures State() == Step(old(State()), Unmount(i))
      ensures Valid()
      ensures overlayCount == old(overlayCount) && |dialogs| == |old(dialogs)|
      ensures forall j :: 0 <= j < |dialogs| && j != i ==> dialogs[j] == old(dialogs)[j]
    {
      StepKeepsInv(State(), Unmount(i));
      if i < |dialogs| && dialogs[i].mounted {
        dialogs := dialogs[i := dialogs[i].(mounted := false)];
      }
    }
  }

  // ---------------------------------------------------------------------------
  // Whole runs.
  // ---------------------------------------------------------------------------

  /** The overlays of mounted dialogs, and those that unmounted dialogs left behind. */
  function PushedBy(ds: seq<Dialog>, mounted: bool): nat {
    if ds == [] then 0
    else
      var d := ds[|ds| - 1];
      PushedBy(ds[..|ds| - 1], mounted) + if d.pushed && d.mounted == mounted then 1 else 0
  }

  lemma {:induction false} PushedSplits(ds: seq<Dialog>)
    ensures Pushed(ds) == PushedBy(ds, true) + PushedBy(ds, false)
    ensures PushedBy(ds, false) == 0 <==> forall i :: 0 <= i < |ds| && !ds[i].mounted ==> !ds[i].pushed
  {
    if ds != [] {
      PushedSplits(ds[..|ds| - 1]);
    }
  }

  /**
   * In every reachable state a saved state exists exactly during the popup, no mounted dialog is shown during it, and
   * the overlay count is the number of mounted dialogs that pushed one plus those that unmounted dialogs left behind:
   * it is exact exactly when the content of every unmounted dialog reported its close.
   */
  lemma {:induction false} RunKeepsInv(es: seq<Event>)
    ensures Inv(Steps(START, es))
    ensures var ui := Steps(START, es);
            && (ui.connectorVisible ==> forall d :: d in ui.dialogs ==> !d.EffectiveOpen(ui.connectorVisible))
            && ui.overlayCount == PushedBy(ui.dialogs, true) + PushedBy(ui.dialogs, false)
            && (ui.overlayCount == PushedBy(ui.dialogs, true)
                <==> forall i :: 0 <= i < |ui.dialogs| && !ui.dialogs[i].mounted ==> !ui.dialogs[i].pushed)
  {
    if es != [] {
      RunKeepsInv(es[..|es| - 1]);
      StepKeepsInv(Steps(START, es[..|es| - 1]), es[|es| - 1]);
    }
    PushedSplits(Steps(START, es).dialogs);
  }

  /** While the popup stays, a dialog keeps what it saved, and an uncontrolled one also its own state. */
  lemma {:induction false} PopupKeepsSaved(ui: Ui, es: seq<Event>, k: nat)
    requires Inv(ui) && ui.connectorVisible && IsMounted(ui, k)
    requires forall i :: 0 <= i < |es| ==> es[i] != Popup(false)
    ensures var mid := Steps(ui, es);
            && Inv(mid) && mid.connectorVisible && k < |mid.dialogs|
            && (mid.dialogs[k].mounted ==>
                  && mid.dialogs[k].suspendedOpen == ui.dialogs[k].suspendedOpen
                  && (mid.dialogs[k].prop.Some? <==> ui.dialogs[k].prop.Some?)
                  && (ui.dialogs[k].prop.None? ==> mid.dialogs[k].uncontrolledOpen == ui.dialogs[k].uncontrolledOpen))
  {
    if es != [] {
      var n := |es| - 1;
      PopupKeepsSaved(ui, es[..n], k);
      StepKeepsInv(Steps(ui, es[..n]), es[n]);
    }
  }

  /**
   * After the popup an uncontrolled dialog that is still mounted is open exactly if it was open before. A controlled
   * one is open exactly if it was open before or its parent holds it open at the end, whatever happened meanwhile.
   */
  lemma PopupRestores(ui: Ui, es: seq<Event>, k: nat)
    requires Inv(ui) && !ui.connectorVisible && IsMounted(ui, k)
    requires forall i :: 0 <= i < |es| ==> es[i] != Popup(false)
    ensures var mid := Steps(Step(ui, Popup(true)), es);
            var after := Step(mid, Popup(false));
            && k < |mid.dialogs| && k < |after.dialogs| && !after.connectorVisible
            && (mid.dialogs[k].mounted && ui.dialogs[k].prop.None? ==>
                  (after.dialogs[k].ActualOpen() <==> ui.dialogs[k].ActualOpen()))
            && (mid.dialogs[k].mounted && ui.dialogs[k].prop.Some? ==>
                  (after.dialogs[k].ActualOpen() <==> ui.dialogs[k].ActualOpen() || mid.dialogs[k].prop == Some(true)))
  {
    var shown := Step(ui, Popup(true));
    StepKeepsInv(ui, Popup(true));
    PopupKeepsSaved(shown, es, k);
  }
}
