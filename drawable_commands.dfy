/**
 * The drawable actions that show or hide the selected drawables, lock their
 * content or position, and the RGB guard of the white-balance action.
 *
 * The undo stack is an oracle: `compressible` is the item of the undo step
 * gimp_image_undo_can_compress reports as open for compression, if any.
 */
module DrawableCommands {
  import opened Wrappers
  import opened Items

  const VISIBILITY_GROUP := "Item visibility"
  const WHITE_BALANCE_WARNING := "White Balance operates only on RGB color layers."

  /** The item a single-drawable command acts on: a layer mask stands for its layer. */
  function Target(drawable: Item): (t: Item)
    ensures drawable.maskOf.Some? ==> t == drawable.maskOf.value
    ensures drawable.maskOf.None? ==> t == drawable
  {
    if drawable.maskOf.Some? then drawable.maskOf.value else drawable
  }

  /** The items the visibility command acts on: a layer mask first in the selection stands for its layer alone. */
  function Targets(drawables: seq<Item>): (r: seq<Item>)
    ensures |drawables| > 0 && drawables[0].maskOf.Some? ==> r == [drawables[0].maskOf.value]
    ensures |drawables| == 0 || drawables[0].maskOf.None? ==> r == drawables
  {
    if |drawables| > 0 && drawables[0].maskOf.Some? then [drawables[0].maskOf.value] else drawables
  }

  /** The visibility of each item. */
  function Visibilities(items: seq<Item>): (r: seq<bool>)
    reads items
    ensures |r| == |items| && forall j :: 0 <= j < |items| ==> r[j] == items[j].visible
  {
    if items == [] then [] else Visibilities(items[..|items| - 1]) + [items[|items| - 1].visible]
  }

  /** The index of the first entry that differs from `visible`; |vis| when none does. */
  function FirstDiff(vis: seq<bool>, visible: bool): (k: nat)
    ensures k <= |vis|
    ensures forall j :: 0 <= j < k ==> vis[j] == visible
    ensures k < |vis| ==> vis[k] != visible
  {
    if vis == [] then 0
    else if vis[0] != visible then 0
    else 1 + FirstDiff(vis[1..], visible)
  }

  /** One set-visible call per item, in order. */
  function SetVisibleCalls(items: seq<Item>, visible: bool, pushUndo: bool): (r: seq<ImageCall>)
    ensures |r| == |items|
    ensures forall j :: 0 <= j < |items| ==> r[j] == OnItem(items[j], SetVisible(visible), pushUndo)
  {
    seq(|items|, j requires 0 <= j < |items| => OnItem(items[j], SetVisible(visible), pushUndo))
  }

  /** How many times a call occurs. */
  function Count(calls: seq<ImageCall>, c: ImageCall): nat {
    multiset(calls)[c]
  }

  /**
   * What the visibility command asks of the image, given the targets'
   * visibilities `vis` before it runs: nothing when showing and a target is
   * already visible, or when every target already has the requested
   * visibility; otherwise set-visible calls from the first differing target
   * on, then a flush (VisibleCallsShape).
   */
  function VisibleCalls(targets: seq<Item>, vis: seq<bool>, visible: bool, compressible: Option<Item>): (r: seq<ImageCall>)
    requires |vis| == |targets|
    ensures visible && true in vis ==> r == []
    ensures (forall j :: 0 <= j < |vis| ==> vis[j] == visible) ==> r == []
    ensures r == [] <==>
      targets == [] || (visible && true in vis) || (forall j :: 0 <= j < |vis| ==> vis[j] == visible)
  {
    var k := FirstDiff(vis, visible);
    if targets == [] || (visible && true in vis) || k == |targets| then []
    else if |targets| == 1 then [OnItem(targets[0], SetVisible(visible), compressible != Some(targets[0])), Flush]
    else [GroupStart(VISIBILITY_GROUP)] + SetVisibleCalls(targets[k..], visible, true) + [GroupEnd, Flush]
  }

  /**
   * When the visibility command acts, it ends with a flush. A single
   * target's call skips its own undo step exactly when the compressible
   * visibility undo is that target's. Several targets are set inside one
   * undo group, opened first and closed just before the flush.
   */
  lemma VisibleCallsShape(targets: seq<Item>, vis: seq<bool>, visible: bool, compressible: Option<Item>)
    requires |vis| == |targets|
    requires VisibleCalls(targets, vis, visible, compressible) != []
    ensures var r := VisibleCalls(targets, vis, visible, compressible);
      r[|r| - 1] == Flush
      && (|targets| == 1 ==> r == [OnItem(targets[0], SetVisible(visible), compressible != Some(targets[0])), Flush])
      && (|targets| > 1 ==> r[0] == GroupStart(VISIBILITY_GROUP) && r[|r| - 2] == GroupEnd)
      && Count(r, GroupStart(VISIBILITY_GROUP)) == Count(r, GroupEnd) <= 1
  {
    if |targets| > 1 {
      var k := FirstDiff(vis, visible);
      var sets := SetVisibleCalls(targets[k..], visible, true);
      assert GroupStart(VISIBILITY_GROUP) !in sets && GroupEnd !in sets;
      var r := [GroupStart(VISIBILITY_GROUP)] + sets + [GroupEnd, Flush];
      assert multiset(r) == multiset([GroupStart(VISIBILITY_GROUP)]) + multiset(sets) + multiset([GroupEnd, Flush]);
    }
  }

  /**
   * The visibility command only ever sets the requested visibility on its
   * targets, and with several targets every call records its own undo step.
   */
  lemma VisibleCallsItems(targets: seq<Item>, vis: seq<bool>, visible: bool, compressible: Option<Item>)
    requires |vis| == |targets|
    ensures var r := VisibleCalls(targets, vis, visible, compressible);
      forall c :: c in r && c.OnItem? ==>
        && c.item in targets && c.call == SetVisible(visible)
        && c.item in targets[FirstDiff(vis, visible)..]
        && (!c.pushUndo ==> |targets| == 1 && compressible == Some(targets[0]))
  {
    var r := VisibleCalls(targets, vis, visible, compressible);
    if |targets| > 1 && r != [] {
      var k := FirstDiff(vis, visible);
      var sets := SetVisibleCalls(targets[k..], visible, true);
      assert r == [GroupStart(VISIBILITY_GROUP)] + sets + [GroupEnd, Flush];
      forall c | c in r && c.OnItem?
        ensures c.item in targets && c.item in targets[k..] && c.call == SetVisible(visible) && c.pushUndo
      {
        var j :| 0 <= j < |r| && r[j] == c;
        assert 1 <= j <= |sets|;
        assert c == sets[j - 1] && targets[k..][j - 1] == targets[k + j - 1];
      }
    } else if |targets| == 1 && r != [] {
      assert FirstDiff(vis, visible) == 0;
    }
  }

  /** Whether any of the items is visible: the guard that stops a show request. */
  method AnyVisible(items: seq<Item>) returns (found: bool)
    ensures found <==> true in Visibilities(items)
  {
    ghost var vis := Visibilities(items);
    var i := 0;
    while i < |items|
      invariant 0 <= i <= |items|
      invariant forall j :: 0 <= j < i ==> !vis[j]
    {
      if items[i].visible {
        assert vis[i];
        return true;
      }
      i := i + 1;
    }
    return false;
  }

  /** The walk to the first item whose visibility differs from the request. */
  method FirstDiffering(items: seq<Item>, visible: bool) returns (i: nat)
    ensures i == FirstDiff(Visibilities(items), visible)
  {
    ghost var vis := Visibilities(items);
    i := 0;
    while i < |items|
      invariant 0 <= i <= |items|
      invariant forall j :: 0 <= j < i ==> vis[j] == visible
    {
      if visible != items[i].visible {
        break;
      }
      i := i + 1;
    }
  }

  /** Sets the visibility of every item from index k on, each with the same push_undo. */
  method SetVisibleFrom(image: Image, items: seq<Item>, k: nat, visible: bool, pushUndo: bool)
    requires k <= |items| && forall t :: t in items ==> t.image == image
    modifies image, items
    ensures image.calls == old(image.calls) + SetVisibleCalls(items[k..], visible, pushUndo)
    ensures forall t :: t in items ==> t.State() == old(t.State()).(visible := t.visible)
    ensures forall t :: t in items ==> t.visible == if t in items[k..] then visible else old(t.visible)
  {
    var i := k;
    while i < |items|
      invariant k <= i <= |items|
      invariant image.calls == old(image.calls) + SetVisibleCalls(items[k..i], visible, pushUndo)
      invariant forall t :: t in items ==> t.State() == old(t.State()).(visible := t.visible)
      invariant forall t :: t in items ==> t.visible == if t in items[k..i] then visible else old(t.visible)
    {
      items[i].Request(SetVisible(visible), pushUndo);
      assert items[k..i + 1] == items[k..i] + [items[i]];
      i := i + 1;
    }
    assert items[k..i] == items[k..];
  }

  /**
   * The body of the visibility command once its targets are known: asks of
   * the image exactly what VisibleCalls describes. When it acts, every
   * target ends with the requested visibility; when it does not, no target
   * changes; nothing but visibility ever changes.
   */
  method ShowOrHide(image: Image, targets: seq<Item>, visible: bool, compressible: Option<Item>)
    requires forall t :: t in targets ==> t.image == image
    modifies image, targets
    ensures image.calls == old(image.calls) + VisibleCalls(targets, old(Visibilities(targets)), visible, compressible)
    ensures forall t :: t in targets ==> t.State() == old(t.State()).(visible := t.visible)
    ensures VisibleCalls(targets, old(Visibilities(targets)), visible, compressible) == [] ==>
      forall t :: t in targets ==> t.visible == old(t.visible)
    ensures VisibleCalls(targets, old(Visibilities(targets)), visible, compressible) != [] ==>
      forall t :: t in targets ==> t.visible == visible
  {
    ghost var vis := Visibilities(targets);
    ghost var expected := VisibleCalls(targets, vis, visible, compressible);
    if targets == [] {
      return;
    }
    if visible {
      var any := AnyVisible(targets);
      if any {
        assert expected == [];
        return;
      }
    }
    var k := FirstDiffering(targets, visible);
    if k == |targets| {
      assert expected == [];
      return;
    }
    var pushUndo := !(|targets| == 1 && compressible.Some? && compressible.value == targets[0]);
    SetVisibleGrouped(image, targets, k, visible, pushUndo);
    assert |targets| == 1 ==> targets[k..] == [targets[0]];
  }

  /**
   * The acting half of the visibility command: the set-visible calls from
   * index k on, inside an undo group when there are several targets, then a
   * flush. The targets before k already have the requested visibility, so
   * afterwards all of them do.
   */
  method SetVisibleGrouped(image: Image, targets: seq<Item>, k: nat, visible: bool, pushUndo: bool)
    requires k < |targets| && forall t :: t in targets ==> t.image == image
    requires forall j :: 0 <= j < k ==> targets[j].visible == visible
    modifies image, targets
    ensures |targets| == 1 ==> image.calls == old(image.calls) + SetVisibleCalls(targets[k..], visible, pushUndo) + [Flush]
    ensures |targets| != 1 ==> image.calls == old(image.calls) + ([GroupStart(VISIBILITY_GROUP)] + SetVisibleCalls(targets[k..], visible, pushUndo) + [GroupEnd, Flush])
    ensures forall t :: t in targets ==> t.State() == old(t.State()).(visible := t.visible)
    ensures forall t :: t in targets ==> t.visible == visible
  {
    if |targets| != 1 {
      image.calls := image.calls + [GroupStart(VISIBILITY_GROUP)];
    }
    ghost var grouped := image.calls;
    SetVisibleFrom(image, targets, k, visible, pushUndo);
    ghost var sets := SetVisibleCalls(targets[k..], visible, pushUndo);
    if |targets| != 1 {
      image.calls := image.calls + [GroupEnd];
    }
    image.calls := image.calls + [Flush];
    forall t | t in targets
      ensures t.visible == visible
    {
      var j :| 0 <= j < |targets| && targets[j] == t;
      if j >= k {
        assert t == targets[k..][j - k];
      }
    }
  }

  /**
   * drawable_visible_cmd_callback: shows or hides the selected drawables,
   * which a layer mask at the head of the selection replaces by its layer.
   */
  method VisibleCmd(image: Image, drawables: seq<Item>, visible: bool, compressible: Option<Item>)
    requires forall t :: t in Targets(drawables) ==> t.image == image
    modifies image, Targets(drawables)
    ensures var targets := Targets(drawables);
      image.calls == old(image.calls) + VisibleCalls(targets, old(Visibilities(targets)), visible, compressible)
    ensures forall t :: t in Targets(drawables) ==> t.State() == old(t.State()).(visible := t.visible)
    ensures var targets := Targets(drawables);
      VisibleCalls(targets, old(Visibilities(targets)), visible, compressible) != [] ==>
        forall t :: t in targets ==> t.visible == visible
  {
    ShowOrHide(image, Targets(drawables), visible, compressible);
  }

  /**
   * drawable_lock_content_cmd_callback: a differing request sets the lock,
   * always pushing an undo step, and flushes; an equal one does nothing.
   */
  method LockContentCmd(image: Image, drawable: Item, locked: bool)
    requires Target(drawable).image == image
    modifies image, Target(drawable)
    ensures var t := Target(drawable);
      old(t.lockContent) == locked ==> image.calls == old(image.calls) && t.State() == old(t.State())
    ensures var t := Target(drawable);
      old(t.lockContent) != locked ==>
        t.State() == old(t.State()).(lockContent := locked)
        && image.calls == old(image.calls) + [OnItem(t, SetLockContent(locked), true), Flush]
  {
    var t := Target(drawable);
    if locked != t.lockContent {
      var pushUndo := true;
      t.Request(SetLockContent(locked), pushUndo);
      image.calls := image.calls + [Flush];
    }
  }

  /**
   * drawable_lock_position_cmd_callback: a differing request sets the
   * lock, pushing an undo step unless the compressible lock-position undo
   * is this item's, and flushes; an equal one does nothing.
   */
  method LockPositionCmd(image: Image, drawable: Item, locked: bool, compressible: Option<Item>)
    requires Target(drawable).image == image
    modifies image, Target(drawable)
    ensures var t := Target(drawable);
      old(t.lockPosition) == locked ==> image.calls == old(image.calls) && t.State() == old(t.State())
    ensures var t := Target(drawable);
      old(t.lockPosition) != locked ==>
        t.State() == old(t.State()).(lockPosition := locked)
        && image.calls == old(image.calls) + [OnItem(t, SetLockPosition(locked), compressible != Some(t)), Flush]
  {
    var t := Target(drawable);
    if locked != t.lockPosition {
      var pushUndo := true;
      if compressible.Some? && compressible.value == t {
        pushUndo := false;
      }
      t.Request(SetLockPosition(locked), pushUndo);
      image.calls := image.calls + [Flush];
    }
  }

  /**
   * The guard of drawable_levels_stretch_cmd_callback: a drawable that is
   * not RGB gets a warning and is left alone; an RGB one is stretched and
   * the image flushed.
   */
  method LevelsStretchCmd(image: Image, drawable: Item)
    modifies image
    ensures !drawable.rgb ==> image.calls == old(image.calls) + [Warning(WHITE_BALANCE_WARNING)]
    ensures drawable.rgb ==> image.calls == old(image.calls) + [LevelsStretch(drawable), Flush]
  {
    if !drawable.rgb {
      image.calls := image.calls + [Warning(WHITE_BALANCE_WARNING)];
      return;
    }
    image.calls := image.calls + [LevelsStretch(drawable), Flush];
  }
}
