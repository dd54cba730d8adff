/**
 * The parts of GIMP's items (layers, channels, masks, paths) that the undo
 * record and the drawable commands read and set, and the image whose
 * operation log those setters append to.
 *
 * The setters themselves live outside this model; Apply states the effect
 * each is taken to have: the requested value is stored as given.
 */
module Items {
  import opened Wrappers

  /** A GimpColorTag value. */
  datatype ColorTag = ColorTag(index: nat)

  /** A parasite: named data attached to an item. */
  datatype Parasite = Parasite(name: string, flags: int, data: seq<int>)

  /** Every parasite is filed under its own name. */
  predicate Keyed(parasites: map<string, Parasite>) {
    forall k :: k in parasites ==> parasites[k].name == k
  }

  /** The properties of an item. */
  datatype ItemState = ItemState(
    parent: Option<Item>, index: int, name: string,
    offsetX: int, offsetY: int,
    visible: bool, colorTag: ColorTag,
    lockContent: bool, lockPosition: bool, lockVisibility: bool,
    parasites: map<string, Parasite>)

  /** A setter call on an item (its push_undo argument is kept beside it). */
  datatype ItemCall =
    | Reorder(parent: Option<Item>, position: int)   // gimp_item_tree_reorder_item
    | Rename(newName: string)                         // gimp_item_tree_rename_item
    | Translate(dx: int, dy: int)                     // gimp_item_translate
    | SetVisible(visible: bool)
    | SetColorTag(tag: ColorTag)
    | SetLockContent(lock: bool)
    | SetLockPosition(lock: bool)
    | SetLockVisibility(lock: bool)
    | AttachParasite(parasite: Parasite)
    | DetachParasite(parasiteName: string)

  /**
   * The effect taken for each setter: the item gets exactly the requested
   * parent and position, name, displacement or value; attaching files the
   * parasite under its name, detaching drops that name.
   */
  function Apply(st: ItemState, call: ItemCall): (r: ItemState)
    ensures Keyed(st.parasites) ==> Keyed(r.parasites)
    ensures !call.AttachParasite? && !call.DetachParasite? ==> r.parasites == st.parasites
  {
    match call
    case Reorder(p, i) => st.(parent := p, index := i)
    case Rename(n) => st.(name := n)
    case Translate(dx, dy) => st.(offsetX := st.offsetX + dx, offsetY := st.offsetY + dy)
    case SetVisible(v) => st.(visible := v)
    case SetColorTag(t) => st.(colorTag := t)
    case SetLockContent(l) => st.(lockContent := l)
    case SetLockPosition(l) => st.(lockPosition := l)
    case SetLockVisibility(l) => st.(lockVisibility := l)
    case AttachParasite(p) => st.(parasites := st.parasites[p.name := p])
    case DetachParasite(n) => st.(parasites := st.parasites - {n})
  }

  /** What an image is asked to do, in order. */
  datatype ImageCall =
    | OnItem(item: Item, call: ItemCall, pushUndo: bool)
    | GroupStart(kind: string)        // gimp_image_undo_group_start
    | GroupEnd                        // gimp_image_undo_group_end
    | Flush                           // gimp_image_flush
    | Warning(text: string)           // gimp_message_literal, WARNING severity
    | LevelsStretch(target: Item)     // gimp_drawable_levels_stretch

  /** An image, reduced to the log of what was asked of it. */
  class Image {
    var calls: seq<ImageCall>

    constructor ()
      ensures calls == []
    {
      calls := [];
    }
  }

  class Item {
    const image: Image
    /** For a layer mask, the layer it belongs to. */
    const maskOf: Option<Item>
    /** Whether the drawable is an RGB one. */
    const rgb: bool
    var parent: Option<Item>
    var index: int
    var name: string
    var offsetX: int
    var offsetY: int
    var visible: bool
    var colorTag: ColorTag
    var lockContent: bool
    var lockPosition: bool
    var lockVisibility: bool
    var parasites: map<string, Parasite>

    function State(): ItemState
      reads this
    {
      ItemState(parent, index, name, offsetX, offsetY, visible, colorTag,
                lockContent, lockPosition, lockVisibility, parasites)
    }

    constructor (image: Image, maskOf: Option<Item>, rgb: bool, st: ItemState)
      ensures this.image == image && this.maskOf == maskOf && this.rgb == rgb
      ensures State() == st
    {
      this.image, this.maskOf, this.rgb := image, maskOf, rgb;
      parent, index, name := st.parent, st.index, st.name;
      offsetX, offsetY := st.offsetX, st.offsetY;
      visible, colorTag := st.visible, st.colorTag;
      lockContent, lockPosition, lockVisibility := st.lockContent, st.lockPosition, st.lockVisibility;
      parasites := st.parasites;
    }

    /** Overwrites the item's properties. */
    method SetState(st: ItemState)
      modifies this
      ensures State() == st
    {
      parent, index, name := st.parent, st.index, st.name;
      offsetX, offsetY := st.offsetX, st.offsetY;
      visible, colorTag := st.visible, st.colorTag;
      lockContent, lockPosition, lockVisibility := st.lockContent, st.lockPosition, st.lockVisibility;
      parasites := st.parasites;
    }

    /** Makes a setter call: the image logs it and the item takes its effect. */
    method Request(call: ItemCall, pushUndo: bool)
      modifies this, image
      ensures State() == Apply(old(State()), call)
      ensures image.calls == old(image.calls) + [OnItem(this, call, pushUndo)]
    {
      SetState(Apply(State(), call));
      image.calls := image.calls + [OnItem(this, call, pushUndo)];
    }
  }
}
